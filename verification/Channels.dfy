/** All-or-nothing channel snapshots, from the parsed JSON tree onward. */
module Channels {
  import opened Text
  import opened Utf8
  import Commands
  import CallCenter
  import Decimal

  const MAX_BODY_BYTES := 16777216
  const MAX_CHANNEL_ROWS := 10000

  /** JSON text as its grammar gives it: object members in order, repeats included;
      `JConstant` is NaN or an infinity. */
  datatype Json =
    | JNull
    | JBool(b: bool)
    | JInt(n: int)
    | JFloat(x: real)
    | JConstant
    | JStr(s: string)
    | JArr(items: seq<Json>)
    | JObj(pairs: seq<(string, Json)>)

  /** What loading makes of it. */
  datatype Value =
    | VNull
    | VBool(b: bool)
    | VInt(n: int)
    | VFloat(x: real)
    | VStr(s: string)
    | VArr(items: seq<Value>)
    | VObj(fields: map<string, Value>)

  // ---- Loading ----

  /** The pairs of one object into a map; a repeated key is an error. */
  function ObjectOf(pairs: seq<(string, Value)>): Option<map<string, Value>> {
    if pairs == [] then Some(map[])
    else
      var n := |pairs| - 1;
      var before := ObjectOf(pairs[..n]);
      if before.None? || pairs[n].0 in before.value then None
      else Some(before.value[pairs[n].0 := pairs[n].1])
  }

  method BuildObject(pairs: seq<(string, Value)>) returns (r: Option<map<string, Value>>)
    ensures r == ObjectOf(pairs)
  {
    var result: map<string, Value> := map[];
    for i := 0 to |pairs|
      invariant ObjectOf(pairs[..i]) == Some(result)
    {
      assert pairs[..i + 1][..i] == pairs[..i];
      if pairs[i].0 in result {
        ObjectFails(pairs, i + 1);
        return None;
      }
      result := result[pairs[i].0 := pairs[i].1];
    }
    assert pairs[..|pairs|] == pairs;
    return Some(result);
  }

  lemma {:induction false} ObjectFails(pairs: seq<(string, Value)>, n: nat)
    requires n <= |pairs| && ObjectOf(pairs[..n]).None?
    ensures ObjectOf(pairs).None?
  {
    if n < |pairs| {
      assert pairs[..|pairs| - 1][..n] == pairs[..n];
      ObjectFails(pairs[..|pairs| - 1], n);
    } else {
      assert pairs[..n] == pairs;
    }
  }

  function Load(j: Json): Option<Value>
    decreases j, 1, 0
  {
    match j
    case JNull => Some(VNull)
    case JBool(b) => Some(VBool(b))
    case JInt(n) => Some(VInt(n))
    case JFloat(x) => Some(VFloat(x))
    case JConstant => None
    case JStr(s) => Some(VStr(s))
    case JArr(items) =>
      var vs := LoadAll(j, items);
      if vs.None? then None else Some(VArr(vs.value))
    case JObj(pairs) =>
      var vs := LoadPairs(j, pairs);
      if vs.None? then None
      else
        var m := ObjectOf(vs.value);
        if m.None? then None else Some(VObj(m.value))
  }

  function LoadAll(parent: Json, items: seq<Json>): (r: Option<seq<Value>>)
    requires forall i | 0 <= i < |items| :: items[i] < parent
    ensures r.Some? ==> |r.value| == |items|
    decreases parent, 0, |items|
  {
    if items == [] then Some([])
    else
      var n := |items| - 1;
      var before, last := LoadAll(parent, items[..n]), Load(items[n]);
      if before.None? || last.None? then None else Some(before.value + [last.value])
  }

  function LoadPairs(parent: Json, pairs: seq<(string, Json)>): (r: Option<seq<(string, Value)>>)
    requires forall i | 0 <= i < |pairs| :: pairs[i].1 < parent
    ensures r.Some? ==> |r.value| == |pairs|
    decreases parent, 0, |pairs|
  {
    if pairs == [] then Some([])
    else
      var n := |pairs| - 1;
      var before, last := LoadPairs(parent, pairs[..n]), Load(pairs[n].1);
      if before.None? || last.None? then None else Some(before.value + [(pairs[n].0, last.value)])
  }

  predicate NoRepeats<K(==), V>(pairs: seq<(K, V)>) {
    forall i, j | 0 <= i < j < |pairs| :: pairs[i].0 != pairs[j].0
  }

  /** At every depth: no object repeats a key and no number is non-finite. */
  predicate Clean(j: Json) {
    match j
    case JConstant => false
    case JArr(items) => forall i | 0 <= i < |items| :: Clean(items[i])
    case JObj(pairs) => NoRepeats(pairs) && forall i | 0 <= i < |pairs| :: Clean(pairs[i].1)
    case _ => true
  }

  lemma {:induction false} ObjectMeaning(pairs: seq<(string, Value)>)
    ensures ObjectOf(pairs).Some? <==> NoRepeats(pairs)
    ensures ObjectOf(pairs).Some? ==>
              var m := ObjectOf(pairs).value;
              && (forall i | 0 <= i < |pairs| :: pairs[i].0 in m && m[pairs[i].0] == pairs[i].1)
              && (forall k | k in m :: exists i | 0 <= i < |pairs| :: pairs[i].0 == k)
  {
    if pairs != [] {
      var n := |pairs| - 1;
      ObjectMeaning(pairs[..n]);
      assert forall i | 0 <= i < n :: pairs[..n][i] == pairs[i];
    }
  }

  lemma {:induction false} LoadAllMeaning(parent: Json, items: seq<Json>)
    requires forall i | 0 <= i < |items| :: items[i] < parent
    ensures var r := LoadAll(parent, items);
            && (r.Some? <==> forall i | 0 <= i < |items| :: Load(items[i]).Some?)
            && (r.Some? ==> forall i | 0 <= i < |items| :: Load(items[i]) == Some(r.value[i]))
    decreases |items|
  {
    if items != [] {
      var n := |items| - 1;
      LoadAllMeaning(parent, items[..n]);
      assert forall i | 0 <= i < n :: items[..n][i] == items[i];
    }
  }

  lemma {:induction false} LoadPairsMeaning(parent: Json, pairs: seq<(string, Json)>)
    requires forall i | 0 <= i < |pairs| :: pairs[i].1 < parent
    ensures var r := LoadPairs(parent, pairs);
            && (r.Some? <==> forall i | 0 <= i < |pairs| :: Load(pairs[i].1).Some?)
            && (r.Some? ==> forall i | 0 <= i < |pairs| ::
                              r.value[i].0 == pairs[i].0 && Load(pairs[i].1) == Some(r.value[i].1))
    decreases |pairs|
  {
    if pairs != [] {
      var n := |pairs| - 1;
      LoadPairsMeaning(parent, pairs[..n]);
      assert forall i | 0 <= i < n :: pairs[..n][i] == pairs[i];
    }
  }

  /** A tree loads exactly when it is clean at every depth. */
  lemma {:induction false} LoadsIffClean(j: Json)
    ensures Load(j).Some? <==> Clean(j)
  {
    match j
    case JArr(items) =>
      LoadAllMeaning(j, items);
      forall i | 0 <= i < |items| ensures Load(items[i]).Some? <==> Clean(items[i]) {
        LoadsIffClean(items[i]);
      }
    case JObj(pairs) =>
      LoadPairsMeaning(j, pairs);
      forall i | 0 <= i < |pairs| ensures Load(pairs[i].1).Some? <==> Clean(pairs[i].1) {
        LoadsIffClean(pairs[i].1);
      }
      var vs := LoadPairs(j, pairs);
      if vs.Some? {
        ObjectMeaning(vs.value);
        assert NoRepeats(vs.value) <==> NoRepeats(pairs) by {
          SameKeysSameRepeats(vs.value, pairs);
        }
      }
    case _ =>
  }

  lemma {:induction false} SameKeysSameRepeats(a: seq<(string, Value)>, b: seq<(string, Json)>)
    requires |a| == |b| && forall i | 0 <= i < |a| :: a[i].0 == b[i].0
    ensures NoRepeats(a) <==> NoRepeats(b)
  {
  }

  // ---- Rows ----

  datatype Channel = Channel(
    uuid: string, direction: string, state: string, callUuid: string, name: string, callerName: string,
    callerNumber: string, destination: string, application: string, callState: string, createdEpoch: Option<nat>)

  /** `_string`: a missing field is empty; anything but a string is an error. */
  function StringOf(row: map<string, Value>, name: string, required: bool): Option<string> {
    if name !in row then if required then None else Some("")
    else if !row[name].VStr? || (required && row[name].s == "") then None
    else Some(row[name].s)
  }

  predicate EpochOk(s: string) {
    s == "" || (Decimal.AllDigits(s) && |s| <= 19)
  }

  function EpochOf(s: string): Option<nat>
    requires EpochOk(s)
  {
    if s == "" then None else Some(Decimal.Value(s))
  }

  /** `_channel` */
  function ChannelOf(value: Value): Option<Channel> {
    if !value.VObj? then None
    else
      var row := value.fields;
      var uuid, callUuid := StringOf(row, "uuid", true), StringOf(row, "call_uuid", false);
      var direction := StringOf(row, "direction", true);
      if uuid.None? || callUuid.None? || direction.None? then None
      else if !Commands.UuidOk(uuid.value) || (callUuid.value != "" && !Commands.UuidOk(callUuid.value)) then None
      else if direction.value !in {"inbound", "outbound"} then None
      else
        var epoch := StringOf(row, "created_epoch", false);
        if epoch.None? || !EpochOk(epoch.value) then None
        else
          var state, name := StringOf(row, "state", true), StringOf(row, "name", false);
          var cidName, cidNum := StringOf(row, "cid_name", false), StringOf(row, "cid_num", false);
          var dest, app := StringOf(row, "dest", false), StringOf(row, "application", false);
          var callState := StringOf(row, "callstate", false);
          if state.None? || name.None? || cidName.None? || cidNum.None? || dest.None? || app.None? || callState.None?
          then None
          else Some(Channel(
            Lower(uuid.value), direction.value, state.value, Lower(callUuid.value), name.value, cidName.value,
            cidNum.value, dest.value, app.value, callState.value, EpochOf(epoch.value)))
  }

  function ChannelsOf(rows: seq<Value>): (r: Option<seq<Channel>>)
    ensures r.Some? ==> |r.value| == |rows|
  {
    if rows == [] then Some([])
    else
      var n := |rows| - 1;
      var before, last := ChannelsOf(rows[..n]), ChannelOf(rows[n]);
      if before.None? || last.None? then None else Some(before.value + [last.value])
  }

  // ---- The snapshot ----

  datatype Standing = Complete | Empty | Error | Malformed
  datatype Snapshot = Snapshot(standing: Standing, channels: seq<Channel>, rowCount: Option<nat>)

  predicate IsAuthoritative(s: Snapshot) {
    s.standing.Complete? || s.standing.Empty?
  }

  const MALFORMED := Snapshot(Malformed, [], None)

  function FromRows(count: nat, rows: Option<seq<Value>>): Snapshot {
    if rows.None? || |rows.value| != count then MALFORMED
    else
      var channels := ChannelsOf(rows.value);
      if channels.None? then MALFORMED
      else if |set c | c in channels.value :: c.uuid| != count then MALFORMED
      else Snapshot(if count > 0 then Complete else Empty, channels.value, Some(count))
  }

  /** The rows, if they are a list; rows left out stand for none when the count is zero. */
  function RowsField(fields: map<string, Value>, count: nat): Option<seq<Value>> {
    if "rows" !in fields then if count == 0 then Some([]) else None
    else if fields["rows"].VArr? then Some(fields["rows"].items)
    else None
  }

  function FromValue(value: Value): Snapshot {
    if !value.VObj? then MALFORMED
    else if "row_count" !in value.fields || !value.fields["row_count"].VInt? then MALFORMED
    else
      var count := value.fields["row_count"].n;
      if !(0 <= count <= MAX_CHANNEL_ROWS) then MALFORMED
      else FromRows(count, RowsField(value.fields, count))
  }

  predicate TooLong(text: string) {
    |text| > MAX_BODY_BYTES || |Encode(text)| > MAX_BODY_BYTES
  }

  /** `tree` is the JSON grammar's reading of the text, None when it has none. */
  function ParseChannelSnapshot(text: string, tree: Option<Json>): Snapshot {
    if TooLong(text) then MALFORMED
    else if CallCenter.IsRefusal(LStrip(text)) then Snapshot(Error, [], None)
    else if tree.None? then MALFORMED
    else
      var value := Load(tree.value);
      if value.None? then MALFORMED else FromValue(value.value)
  }

  // ---- The same judgement on the JSON tree ----

  /** The member named `key`, if any. */
  function Member(pairs: seq<(string, Json)>, key: string): Option<Json> {
    if pairs == [] then None
    else if pairs[0].0 == key then Some(pairs[0].1)
    else Member(pairs[1..], key)
  }

  /** A string member, an absent one counting as empty. */
  function TextMember(pairs: seq<(string, Json)>, key: string): Option<string> {
    match Member(pairs, key)
    case None => Some("")
    case Some(JStr(s)) => Some(s)
    case _ => None
  }

  predicate IsText(pairs: seq<(string, Json)>, key: string) {
    TextMember(pairs, key).Some?
  }

  function TextOf(pairs: seq<(string, Json)>, key: string): string {
    if IsText(pairs, key) then TextMember(pairs, key).value else ""
  }

  /** No time, or up to nineteen decimal digits. */
  predicate IsEpoch(s: string) {
    |s| <= 19 && forall i | 0 <= i < |s| :: '0' <= s[i] <= '9'
  }

  predicate RowOk(row: Json) {
    row.JObj? &&
    var p := row.pairs;
    && IsText(p, "uuid") && Commands.UuidOk(TextOf(p, "uuid"))
    && IsText(p, "call_uuid") && (TextOf(p, "call_uuid") == "" || Commands.UuidOk(TextOf(p, "call_uuid")))
    && IsText(p, "direction") && TextOf(p, "direction") in {"inbound", "outbound"}
    && IsText(p, "created_epoch") && IsEpoch(TextOf(p, "created_epoch"))
    && IsText(p, "state") && TextOf(p, "state") != ""
    && IsText(p, "name") && IsText(p, "cid_name") && IsText(p, "cid_num")
    && IsText(p, "dest") && IsText(p, "application") && IsText(p, "callstate")
  }

  function RowUuid(row: Json): string {
    if row.JObj? then Lower(TextOf(row.pairs, "uuid")) else ""
  }

  /** The rows a reply states: absent rows are allowed only for a count of zero. */
  function StatedRows(pairs: seq<(string, Json)>, count: int): Option<seq<Json>> {
    match Member(pairs, "rows")
    case None => if count == 0 then Some([]) else None
    case Some(JArr(items)) => Some(items)
    case _ => None
  }

  predicate Consistent(tree: Json) {
    tree.JObj? &&
    var count := Member(tree.pairs, "row_count");
    count.Some? && count.value.JInt? && 0 <= count.value.n <= 10000 &&
    var rows := StatedRows(tree.pairs, count.value.n);
    && rows.Some? && |rows.value| == count.value.n
    && (forall i | 0 <= i < |rows.value| :: RowOk(rows.value[i]))
    && (forall i, j | 0 <= i < j < |rows.value| :: RowUuid(rows.value[i]) != RowUuid(rows.value[j]))
  }

  // ---- A set has as many elements as a sequence exactly when none repeats ----

  lemma {:induction false} SetSizeIffDistinct<T>(s: seq<T>)
    ensures |set x | x in s| <= |s|
    ensures |set x | x in s| == |s| <==> forall i, j | 0 <= i < j < |s| :: s[i] != s[j]
  {
    if s != [] {
      var n := |s| - 1;
      var front := set x | x in s[..n];
      SetSizeIffDistinct(s[..n]);
      assert (set x | x in s) == front + {s[n]} by {
        assert s == s[..n] + [s[n]];
      }
      if s[n] in front {
        var i :| 0 <= i < n && s[..n][i] == s[n];
        assert front + {s[n]} == front;
        assert s[i] == s[n];
      } else {
        forall i | 0 <= i < n ensures s[i] != s[n] {
          assert s[..n][i] in front;
        }
      }
      assert forall i, j | 0 <= i < j < n :: s[i] == s[..n][i] && s[j] == s[..n][j];
    }
  }

  // ---- Both judgements agree ----

  lemma {:induction false} MemberAt(pairs: seq<(string, Json)>, i: nat)
    requires i < |pairs| && NoRepeats(pairs)
    ensures Member(pairs, pairs[i].0) == Some(pairs[i].1)
  {
    if i > 0 {
      MemberAt(pairs[1..], i - 1);
    }
  }

  lemma {:induction false} MemberIsAPair(pairs: seq<(string, Json)>, key: string) returns (i: nat)
    requires Member(pairs, key).Some?
    ensures i < |pairs| && pairs[i] == (key, Member(pairs, key).value)
  {
    if pairs[0].0 == key {
      i := 0;
    } else {
      i := MemberIsAPair(pairs[1..], key);
      i := i + 1;
    }
  }

  lemma {:induction false} EpochByDigits(s: string)
    ensures EpochOk(s) <==> IsEpoch(s)
  {
  }

  /** A loaded object holds exactly the loaded members. */
  lemma {:induction false} LoadedMember(j: Json, key: string)
    requires j.JObj? && Load(j).Some?
    ensures Load(j).value.VObj?
    ensures var m := Load(j).value.fields;
            var member := Member(j.pairs, key);
            && (key in m <==> member.Some?)
            && (key in m ==> Load(member.value) == Some(m[key]))
  {
    hide Load;
    ObjectLoads(j);
    var vs := LoadPairs(j, j.pairs).value;
    LoadPairsMeaning(j, j.pairs);
    ObjectMeaning(vs);
    SameKeysSameRepeats(vs, j.pairs);
    var m := Load(j).value.fields;
    if key in m {
      var i :| 0 <= i < |vs| && vs[i].0 == key;
      MemberAt(j.pairs, i);
    }
    if Member(j.pairs, key).Some? {
      var i := MemberIsAPair(j.pairs, key);
      assert vs[i].0 == key;
    }
  }

  lemma {:induction false} ObjectLoads(j: Json)
    requires j.JObj? && Load(j).Some?
    ensures var vs := LoadPairs(j, j.pairs);
            vs.Some? && ObjectOf(vs.value).Some? && Load(j).value == VObj(ObjectOf(vs.value).value)
  {
  }

  lemma {:induction false} LoadKeepsStrings(j: Json)
    requires Load(j).Some?
    ensures Load(j).value.VStr? <==> j.JStr?
    ensures j.JStr? ==> Load(j).value.s == j.s
    ensures Load(j).value.VInt? <==> j.JInt?
    ensures j.JInt? ==> Load(j).value.n == j.n
    ensures Load(j).value.VObj? <==> j.JObj?
    ensures Load(j).value.VArr? <==> j.JArr?
  {
  }

  lemma {:induction false} LoadedText(j: Json, key: string)
    requires j.JObj? && Load(j).Some? && Load(j).value.VObj?
    ensures StringOf(Load(j).value.fields, key, false) == TextMember(j.pairs, key)
    ensures StringOf(Load(j).value.fields, key, true)
            == if TextOf(j.pairs, key) == "" then None else TextMember(j.pairs, key)
  {
    hide Load;
    LoadedMember(j, key);
    if Member(j.pairs, key).Some? {
      LoadKeepsStrings(Member(j.pairs, key).value);
    }
  }

  lemma {:induction false} RowMeaning(row: Json)
    requires Load(row).Some?
    ensures var c := ChannelOf(Load(row).value);
            (c.Some? <==> RowOk(row)) && (c.Some? ==> c.value.uuid == RowUuid(row))
  {
    hide Load, TextMember, Commands.UuidOk, EpochOk, StringOf, Lower;
    LoadKeepsStrings(row);
    if row.JObj? {
      EpochByDigits(TextOf(row.pairs, "created_epoch"));
      LoadedText(row, "uuid");
      LoadedText(row, "call_uuid");
      LoadedText(row, "direction");
      LoadedText(row, "created_epoch");
      LoadedText(row, "state");
      LoadedText(row, "name");
      LoadedText(row, "cid_name");
      LoadedText(row, "cid_num");
      LoadedText(row, "dest");
      LoadedText(row, "application");
      LoadedText(row, "callstate");
      assert !Commands.UuidOk("") by {
        NoUuid();
      }
    }
  }

  /** Each field of an exposed channel is the row member it is named for. */
  lemma {:induction false} ChannelFields(row: Json)
    requires row.JObj? && Load(row).Some? && ChannelOf(Load(row).value).Some?
    ensures var c, p := ChannelOf(Load(row).value).value, row.pairs;
            && c.uuid == Lower(TextOf(p, "uuid")) && c.callUuid == Lower(TextOf(p, "call_uuid"))
            && c.direction == TextOf(p, "direction") && c.state == TextOf(p, "state")
            && c.name == TextOf(p, "name") && c.application == TextOf(p, "application")
            && c.callerName == TextOf(p, "cid_name") && c.callerNumber == TextOf(p, "cid_num")
            && c.destination == TextOf(p, "dest") && c.callState == TextOf(p, "callstate")
            && (c.createdEpoch.None? <==> TextOf(p, "created_epoch") == "")
            && (c.createdEpoch.Some? ==> Decimal.AllDigits(TextOf(p, "created_epoch"))
                                         && c.createdEpoch.value == Decimal.Value(TextOf(p, "created_epoch")))
  {
    hide Load, TextMember, Commands.UuidOk, StringOf, Lower;
    LoadKeepsStrings(row);
    LoadedText(row, "uuid");
    LoadedText(row, "call_uuid");
    LoadedText(row, "direction");
    LoadedText(row, "created_epoch");
    LoadedText(row, "state");
    LoadedText(row, "name");
    LoadedText(row, "cid_name");
    LoadedText(row, "cid_num");
    LoadedText(row, "dest");
    LoadedText(row, "application");
    LoadedText(row, "callstate");
  }

  lemma {:induction false} NoUuid()
    ensures !Commands.UuidOk("")
  {
  }

  lemma {:induction false} ChannelsMeaning(rows: seq<Value>)
    ensures var r := ChannelsOf(rows);
            && (r.Some? <==> forall i | 0 <= i < |rows| :: ChannelOf(rows[i]).Some?)
            && (r.Some? ==> forall i | 0 <= i < |rows| :: ChannelOf(rows[i]) == Some(r.value[i]))
  {
    hide ChannelOf;
    if rows != [] {
      var n := |rows| - 1;
      ChannelsMeaning(rows[..n]);
      assert forall i | 0 <= i < n :: rows[..n][i] == rows[i];
    }
  }

  function Uuids(channels: seq<Channel>): seq<string> {
    seq(|channels|, i requires 0 <= i < |channels| => channels[i].uuid)
  }

  lemma {:induction false} DistinctUuids(channels: seq<Channel>)
    ensures |set c | c in channels :: c.uuid| == |channels|
            <==> forall i, j | 0 <= i < j < |channels| :: channels[i].uuid != channels[j].uuid
  {
    var ids := Uuids(channels);
    SetSizeIffDistinct(ids);
    assert (set c | c in channels :: c.uuid) == (set x | x in ids) by {
      forall x ensures x in (set c | c in channels :: c.uuid) <==> x in ids {
        if x in ids {
          var i :| 0 <= i < |ids| && ids[i] == x;
          assert channels[i] in channels;
        }
        if c :| c in channels && c.uuid == x {
          var i :| 0 <= i < |channels| && channels[i] == c;
          assert ids[i] == x;
        }
      }
    }
    assert forall i, j | 0 <= i < j < |channels| :: ids[i] == channels[i].uuid && ids[j] == channels[j].uuid;
  }

  function ChannelIn(row: Json): Option<Channel> {
    if Load(row).None? then None else ChannelOf(Load(row).value)
  }

  /** Rows as stated on the tree, against rows as loaded. */
  ghost predicate LoadedRows(rows: seq<Json>, values: seq<Value>) {
    |rows| == |values| && forall i | 0 <= i < |rows| :: Load(rows[i]) == Some(values[i])
  }

  lemma {:induction false} RowsAgree(rows: seq<Json>, values: seq<Value>, count: nat)
    requires LoadedRows(rows, values) && |rows| == count
    ensures var s := FromRows(count, Some(values));
            && (IsAuthoritative(s) <==>
                  && (forall i | 0 <= i < |rows| :: RowOk(rows[i]))
                  && (forall i, j | 0 <= i < j < |rows| :: RowUuid(rows[i]) != RowUuid(rows[j])))
            && (IsAuthoritative(s) ==>
                  |s.channels| == count && forall i | 0 <= i < count :: ChannelIn(rows[i]) == Some(s.channels[i]))
  {
    hide Load, ChannelOf, RowOk, RowUuid;
    ChannelsMeaning(values);
    forall i | 0 <= i < |rows|
      ensures (ChannelOf(values[i]).Some? <==> RowOk(rows[i]))
              && (ChannelOf(values[i]).Some? ==> ChannelOf(values[i]).value.uuid == RowUuid(rows[i]))
    {
      RowMeaning(rows[i]);
    }
    var c := ChannelsOf(values);
    if c.Some? {
      DistinctUuids(c.value);
      assert forall i | 0 <= i < |rows| :: c.value[i].uuid == RowUuid(rows[i]);
    }
  }

  lemma {:induction false} LoadedArray(j: Json)
    requires j.JArr? && Load(j).Some?
    ensures Load(j).value.VArr? && LoadedRows(j.items, Load(j).value.items)
  {
    LoadAllMeaning(j, j.items);
  }

  /** The rows to judge are the same on both sides. */
  lemma {:induction false} RowsFieldAgrees(tree: Json, count: nat)
    requires tree.JObj? && Load(tree).Some? && Load(tree).value.VObj?
    ensures var stated, loaded := StatedRows(tree.pairs, count), RowsField(Load(tree).value.fields, count);
            && (stated.Some? <==> loaded.Some?)
            && (stated.Some? ==> LoadedRows(stated.value, loaded.value))
  {
    hide Load;
    LoadedMember(tree, "rows");
    var member := Member(tree.pairs, "rows");
    if member.Some? {
      LoadKeepsStrings(member.value);
      if member.value.JArr? {
        LoadedArray(member.value);
      }
    }
  }

  /** Snapshot all-or-nothing. For a text within the size limits that is no refusal and
      reads as JSON: the result is authoritative exactly when the tree is clean at every
      depth and consistent with its row count. Then every row is exposed in order; in
      every other case none is. */
  lemma {:induction false} SnapshotIsAllOrNothing(text: string, tree: Json)
    requires |Encode(text)| <= 16777216 && !CallCenter.Refuses(LStrip(text))
    ensures var s := ParseChannelSnapshot(text, Some(tree));
            && (IsAuthoritative(s) <==> Clean(tree) && Consistent(tree))
            && (!IsAuthoritative(s) ==> s == MALFORMED)
            && (IsAuthoritative(s) ==>
                  var count := Member(tree.pairs, "row_count").value.n;
                  var rows := StatedRows(tree.pairs, count).value;
                  && s.rowCount == Some(count) && (s.standing.Complete? <==> count > 0)
                  && |s.channels| == count == |rows|
                  && forall i | 0 <= i < count :: ChannelIn(rows[i]) == Some(s.channels[i]))
  {
    EncodeGrows(text);
    CallCenter.RefusalMarks(LStrip(text));
    hide Load, Clean, ChannelOf, RowOk, RowUuid, FromRows, StatedRows, RowsField, CallCenter.IsRefusal, Encode;
    hide CallCenter.Refuses;
    LoadsIffClean(tree);
    if Load(tree).Some? {
      LoadKeepsStrings(tree);
      if tree.JObj? {
        LoadedMember(tree, "row_count");
        var member := Member(tree.pairs, "row_count");
        if member.Some? {
          LoadKeepsStrings(member.value);
          if member.value.JInt? && 0 <= member.value.n <= MAX_CHANNEL_ROWS {
            var count := member.value.n;
            RowsFieldAgrees(tree, count);
            FromRowsShape(count, RowsField(Load(tree).value.fields, count));
            var rows := StatedRows(tree.pairs, count);
            if rows.Some? && |rows.value| == count {
              RowsAgree(rows.value, RowsField(Load(tree).value.fields, count).value, count);
            }
          }
        }
      }
    }
  }

  lemma {:induction false} FromRowsShape(count: nat, rows: Option<seq<Value>>)
    ensures var s := FromRows(count, rows);
            && (!IsAuthoritative(s) ==> s == MALFORMED)
            && (IsAuthoritative(s) ==> rows.Some? && |rows.value| == count
                                       && s.rowCount == Some(count) && (s.standing.Complete? <==> count > 0))
  {
  }

  /** A text over the size limit is malformed, one that starts with a refusal mark is an error,
      and one that is no JSON is malformed. */
  lemma {:induction false} SnapshotOfOtherTexts(text: string, tree: Option<Json>)
    ensures var s := ParseChannelSnapshot(text, tree);
            && (|Encode(text)| > 16777216 ==> s == Snapshot(Malformed, [], None))
            && (|Encode(text)| <= 16777216 && CallCenter.Refuses(LStrip(text)) ==> s == Snapshot(Error, [], None))
            && (|Encode(text)| <= 16777216 && !CallCenter.Refuses(LStrip(text)) && tree.None? ==>
                  s == Snapshot(Malformed, [], None))
  {
    EncodeGrows(text);
    CallCenter.RefusalMarks(LStrip(text));
    hide Encode, CallCenter.Refuses, CallCenter.IsRefusal, Load, FromValue;
  }

  /** Whatever the text, a result that is not authoritative exposes no row. */
  lemma {:induction false} NoPartialRows(text: string, tree: Option<Json>)
    ensures var s := ParseChannelSnapshot(text, tree);
            !IsAuthoritative(s) ==> s.channels == [] && s.rowCount == None
  {
    EncodeGrows(text);
    CallCenter.RefusalMarks(LStrip(text));
    if |Encode(text)| <= 16777216 && !CallCenter.Refuses(LStrip(text)) && tree.Some? {
      SnapshotIsAllOrNothing(text, tree.value);
    }
  }
}
