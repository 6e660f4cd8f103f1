/** Header blocks: `Key: Value` lines into a map, and the printer the parser undoes. */
module HeaderBlock {
  import opened Text
  import opened Utf8
  import Percent

  type Headers = map<string, string>
  type Field = (string, string)

  function RStripCr(s: string): string {
    if s != [] && s[|s| - 1] == '\r' then RStripCr(s[..|s| - 1]) else s
  }

  /** One line of a block; blank lines and lines without a colon carry nothing.
      Splitting and stripping come first, percent-decoding last. */
  function ParseLine(raw: string, decodeValues: bool): Option<Field> {
    var line := RStripCr(raw);
    var i := IndexOf(line, ':');
    if i < 0 then None
    else
      var value := Strip(line[i + 1..]);
      Some((Strip(line[..i]), if decodeValues then Percent.Unquote(value) else value))
  }

  function Put(m: Headers, f: Option<Field>): Headers {
    if f.Some? then m[f.value.0 := f.value.1] else m
  }

  /** Lines in order; a repeated key keeps the value of its last line. */
  function Collect(results: seq<Option<Field>>): Headers {
    if results == [] then map[]
    else Put(Collect(results[..|results| - 1]), results[|results| - 1])
  }

  function ParseLines(lines: seq<string>, decodeValues: bool): seq<Option<Field>> {
    seq(|lines|, i requires 0 <= i < |lines| => ParseLine(lines[i], decodeValues))
  }

  function Parse(text: string, decodeValues: bool): Headers {
    Collect(ParseLines(Split(text, '\n'), decodeValues))
  }

  function ToMap(fields: seq<Field>): Headers {
    if fields == [] then map[]
    else
      var last := fields[|fields| - 1];
      ToMap(fields[..|fields| - 1])[last.0 := last.1]
  }

  predicate Names(r: Option<Field>, key: string) {
    r.Some? && r.value.0 == key
  }

  /** A header is present iff some line names it; its value is that of the last such line. */
  lemma {:induction false} LastLineWins(results: seq<Option<Field>>, key: string)
    ensures key in Collect(results) <==> exists i | 0 <= i < |results| :: Names(results[i], key)
    ensures forall i | 0 <= i < |results| && Names(results[i], key)
                       && (forall j | i < j < |results| :: !Names(results[j], key)) ::
              Collect(results)[key] == results[i].value.1
  {
    if results != [] {
      var n := |results| - 1;
      LastLineWins(results[..n], key);
      assert Names(results[n], key) ==> key in Collect(results);
      assert forall i | 0 <= i < n :: results[..n][i] == results[i];
    }
  }

  function PrintLine(f: Field): string {
    f.0 + ": " + f.1
  }

  function PrintLines(fields: seq<Field>): seq<string> {
    seq(|fields|, i requires 0 <= i < |fields| => PrintLine(fields[i]))
  }

  /** The block without its terminating blank line. */
  function Print(fields: seq<Field>): string {
    Join(PrintLines(fields), '\n')
  }

  predicate KeyOk(k: string) {
    Trimmed(k) && ':' !in k && '\n' !in k
  }

  predicate ValueOk(v: string) {
    Trimmed(v) && '\n' !in v
  }

  predicate Printable(fields: seq<Field>) {
    forall i | 0 <= i < |fields| :: KeyOk(fields[i].0) && ValueOk(fields[i].1)
  }

  lemma {:induction false} StripAfterBlank(v: string)
    requires Trimmed(v)
    ensures Strip([' '] + v) == v
  {
    assert ([' '] + v)[1..] == v;
    assert LStrip([' '] + v) == LStrip(v);
    StripTrimmed(v);
  }

  lemma {:induction false} PrintedLineParts(f: Field)
    requires KeyOk(f.0) && ValueOk(f.1)
    ensures var line := PrintLine(f);
            RStripCr(line) == line && IndexOf(line, ':') == |f.0|
            && line[..|f.0|] == f.0 && line[|f.0| + 1..] == [' '] + f.1
  {
    var line := PrintLine(f);
    assert line == f.0 + [':'] + ([' '] + f.1);
    IndexOfSplit(f.0, ':', [' '] + f.1);
    assert line[|line| - 1] == if f.1 == [] then ' ' else f.1[|f.1| - 1];
  }

  lemma {:induction false} ParsePrintedLine(f: Field, decodeValues: bool)
    requires KeyOk(f.0) && ValueOk(f.1)
    ensures ParseLine(PrintLine(f), decodeValues)
            == Some((f.0, if decodeValues then Percent.Unquote(f.1) else f.1))
  {
    PrintedLineParts(f);
    StripTrimmed(f.0);
    StripAfterBlank(f.1);
  }

  lemma {:induction false} CollectAll(results: seq<Option<Field>>, fields: seq<Field>)
    requires |results| == |fields|
    requires forall i | 0 <= i < |results| :: results[i] == Some(fields[i])
    ensures Collect(results) == ToMap(fields)
  {
    if results != [] {
      CollectAll(results[..|results| - 1], fields[..|fields| - 1]);
    }
  }

  lemma {:induction false} PrintedLinesStayWhole(fields: seq<Field>)
    requires fields != [] && Printable(fields)
    ensures Split(Print(fields), '\n') == PrintLines(fields)
  {
    var lines := PrintLines(fields);
    forall l | l in lines ensures '\n' !in l {
      var i :| 0 <= i < |lines| && lines[i] == l;
      assert l == PrintLine(fields[i]);
    }
    SplitJoin(lines, '\n');
  }

  lemma {:induction false} BlankTextHasNoFields(decodeValues: bool)
    ensures Parse([], decodeValues) == map[]
  {
    assert Split([], '\n') == [[]];
    assert ParseLines([[]], decodeValues) == [None];
    assert Collect([None]) == Collect([]);
  }

  /** Parsing undoes printing for plain values. */
  lemma {:induction false} RoundTrip(fields: seq<Field>)
    requires Printable(fields)
    ensures Parse(Print(fields), false) == ToMap(fields)
  {
    if fields == [] {
      BlankTextHasNoFields(false);
    } else {
      PrintedLinesStayWhole(fields);
      forall i | 0 <= i < |fields| ensures ParseLine(PrintLines(fields)[i], false) == Some(fields[i]) {
        ParsePrintedLine(fields[i], false);
      }
      CollectAll(ParseLines(PrintLines(fields), false), fields);
    }
  }

  function QuoteFields(fields: seq<Field>, safe: set<char>): seq<Field> {
    seq(|fields|, i requires 0 <= i < |fields| => (fields[i].0, Percent.Quote(fields[i].1, safe)))
  }

  lemma {:induction false} QuotedFieldsPrint(fields: seq<Field>, safe: set<char>)
    requires Percent.MayStayBare(safe) && forall i | 0 <= i < |fields| :: KeyOk(fields[i].0)
    ensures Printable(QuoteFields(fields, safe))
  {
    forall i | 0 <= i < |fields| ensures ValueOk(Percent.Quote(fields[i].1, safe)) {
      Percent.QuotedIsVisible(Encode(fields[i].1), safe);
    }
  }

  /** Percent-encoded values of arbitrary text, line breaks and colons included,
      survive printing, line splitting, stripping and decoding. */
  lemma {:induction false} EncodedRoundTrip(fields: seq<Field>, safe: set<char>)
    requires Percent.MayStayBare(safe)
    requires forall i | 0 <= i < |fields| :: KeyOk(fields[i].0)
    ensures Parse(Print(QuoteFields(fields, safe)), true) == ToMap(fields)
  {
    var quoted := QuoteFields(fields, safe);
    QuotedFieldsPrint(fields, safe);
    if fields == [] {
      BlankTextHasNoFields(true);
    } else {
      PrintedLinesStayWhole(quoted);
      forall i | 0 <= i < |fields| ensures ParseLine(PrintLines(quoted)[i], true) == Some(fields[i]) {
        ParsePrintedLine(quoted[i], true);
        Percent.RoundTrip(fields[i].1, safe);
      }
      CollectAll(ParseLines(PrintLines(quoted), true), fields);
    }
  }

  // ---- Size of a stored frame ----

  function EntrySize(k: string, v: string): nat {
    |Encode(k)| + |Encode(v)| + 4
  }

  /** Sum of the entry sizes, in any order. */
  ghost function Size(m: Headers): nat {
    if m == map[] then 0
    else
      var k :| k in m;
      EntrySize(k, m[k]) + Size(m - {k})
  }

  lemma {:induction false} SizeByAnyKey(m: Headers, k: string)
    requires k in m
    ensures Size(m) == EntrySize(k, m[k]) + Size(m - {k})
    decreases |m|
  {
    var first :| first in m && Size(m) == EntrySize(first, m[first]) + Size(m - {first});
    if first != k {
      SizeByAnyKey(m - {first}, k);
      SizeByAnyKey(m - {k}, first);
      assert m - {first} - {k} == m - {k} - {first};
    }
  }

  /** Bytes of all names and values. */
  function NamesAndValues(fields: seq<Field>): nat {
    if fields == [] then 0
    else
      var last := fields[|fields| - 1];
      NamesAndValues(fields[..|fields| - 1]) + |Encode(last.0)| + |Encode(last.1)|
  }

  predicate DistinctNames(fields: seq<Field>) {
    forall i, j | 0 <= i < j < |fields| :: fields[i].0 != fields[j].0
  }

  lemma {:induction false} NamesIn(fields: seq<Field>, k: string)
    ensures k in ToMap(fields) <==> exists i | 0 <= i < |fields| :: fields[i].0 == k
  {
    if fields != [] {
      NamesIn(fields[..|fields| - 1], k);
    }
  }

  /** The size of a stored frame is the bytes of its names and values and four per entry. */
  lemma {:induction false} SizeOfFields(fields: seq<Field>)
    requires DistinctNames(fields)
    ensures Size(ToMap(fields)) == NamesAndValues(fields) + 4 * |fields|
  {
    if fields != [] {
      var n := |fields| - 1;
      var (k, v) := fields[n];
      var before := ToMap(fields[..n]);
      SizeOfFields(fields[..n]);
      NamesIn(fields[..n], k);
      SizeByAnyKey(ToMap(fields), k);
      assert before[k := v] - {k} == before;
      hide Encode, ToMap, Size;
    }
  }

  lemma {:induction false} StripPadded(before: string, text: string, after: string)
    requires text != [] && Trimmed(text)
    requires (forall i | 0 <= i < |before| :: IsSpace(before[i])) && forall i | 0 <= i < |after| :: IsSpace(after[i])
    ensures Strip(before + text + after) == text
  {
    LStripPad(before, text + after);
    assert before + text + after == before + (text + after);
    RStripPad(text, after);
    LStripNothing(text + after);
  }

  lemma {:induction false} LStripNothing(s: string)
    requires s != [] && !IsSpace(s[0])
    ensures LStrip(s) == s
  {
  }

  lemma {:induction false} LStripPad(before: string, s: string)
    requires forall i | 0 <= i < |before| :: IsSpace(before[i])
    ensures LStrip(before + s) == LStrip(s)
  {
    if before == [] {
      assert before + s == s;
    } else {
      assert (before + s)[1..] == before[1..] + s;
      LStripPad(before[1..], s);
    }
  }

  lemma {:induction false} RStripPad(s: string, after: string)
    requires s != [] && !IsSpace(s[|s| - 1])
    requires forall i | 0 <= i < |after| :: IsSpace(after[i])
    ensures RStrip(s + after) == s
  {
    if after == [] {
      assert s + after == s;
    } else {
      var n := |after| - 1;
      assert (s + after)[..|s| + n] == s + after[..n];
      RStripPad(s, after[..n]);
    }
  }

  lemma {:induction false} RStripCrPad(s: string, after: string) returns (kept: string)
    requires s != [] && s[|s| - 1] != '\r'
    ensures kept <= after && RStripCr(s + after) == s + kept
  {
    if after == [] {
      kept := [];
      assert s + after == s && s + kept == s;
    } else {
      var n := |after| - 1;
      assert (s + after)[..|s| + n] == s + after[..n];
      if after[n] == '\r' {
        kept := RStripCrPad(s, after[..n]);
      } else {
        kept := after;
      }
    }
  }

  predicate Blank(s: string) {
    forall i | 0 <= i < |s| :: IsSpace(s[i])
  }

  /** A line is a name and a value around its first colon, whatever blanks stand around them
      and however many carriage returns end it. */
  lemma {:induction false} LooseLine(
    key: string, value: string, a: string, b: string, c: string, d: string, decodeValues: bool)
    requires key != [] && Trimmed(key) && ':' !in key && value != [] && Trimmed(value)
    requires Blank(a) && Blank(b) && Blank(c) && Blank(d)
    ensures ParseLine(a + key + b + ":" + c + value + d, decodeValues)
            == Some((key, if decodeValues then Percent.Unquote(value) else value))
  {
    var name, head := a + key + b, a + key + b + ":" + c + value;
    var kept := RStripCrPad(head, d);
    assert head + kept == name + [':'] + (c + value + kept);
    assert ':' !in a && ':' !in b;
    IndexOfSplit(name, ':', c + value + kept);
    assert (head + kept)[|name| + 1..] == c + value + kept && (head + kept)[..|name|] == name;
    assert forall i | 0 <= i < |kept| :: kept[i] == d[i];
    StripPadded(a, key, b);
    StripPadded(c, value, kept);
  }

  /** A line without a colon carries nothing. */
  lemma {:induction false} NoColonNoField(line: string, decodeValues: bool)
    requires ':' !in line
    ensures ParseLine(line, decodeValues) == None
  {
    StripCrIsPrefix(line);
  }

  lemma {:induction false} StripCrIsPrefix(s: string)
    ensures RStripCr(s) <= s
  {
    if s != [] && s[|s| - 1] == '\r' {
      StripCrIsPrefix(s[..|s| - 1]);
    }
  }
}
