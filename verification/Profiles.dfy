/** SIP profile names: the first few distinct valid ones, in order. */
module Profiles {
  import opened Text

  const MAX_SIP_PROFILES := 4
  const DEFAULT_SIP_PROFILES := ["wg", "vpc"]

  /** A list element: a string, or anything else. */
  datatype Item = Name(text: string) | NotText
  datatype Setting = Missing | Listed(items: seq<Item>) | NotAList

  predicate ProfileOk(s: string) {
    1 <= |s| <= 64 && forall i | 0 <= i < |s| :: IsAlnum(s[i]) || s[i] in {'_', '.', '-'}
  }

  predicate Valid(item: Item) {
    item.Name? && ProfileOk(item.text)
  }

  /** All distinct valid names in order of first occurrence, with no cap. */
  function Distinct(items: seq<Item>): seq<string> {
    if items == [] then []
    else
      var before := Distinct(items[..|items| - 1]);
      var last := items[|items| - 1];
      if Valid(last) && last.text !in before then before + [last.text] else before
  }

  function Take4(names: seq<string>): seq<string> {
    if |names| <= MAX_SIP_PROFILES then names else names[..MAX_SIP_PROFILES]
  }

  function Normalized(value: Setting): seq<string> {
    match value
    case Missing => DEFAULT_SIP_PROFILES
    case NotAList => []
    case Listed(items) => Take4(Distinct(items))
  }

  lemma {:induction false} DistinctGrows(items: seq<Item>, n: nat)
    requires n <= |items|
    ensures Distinct(items[..n]) <= Distinct(items)
  {
    if n < |items| {
      DistinctGrows(items[..|items| - 1], n);
      assert items[..|items| - 1][..n] == items[..n];
    } else {
      assert items[..n] == items;
    }
  }

  /** The loop stops early and still returns the first four of all distinct names. */
  method NormalizeSipProfiles(value: Setting) returns (r: seq<string>)
    ensures r == Normalized(value)
  {
    match value {
      case Missing => return DEFAULT_SIP_PROFILES;
      case NotAList => return [];
      case Listed(items) =>
        var profiles: seq<string> := [];
        for i := 0 to |items|
          invariant profiles == Distinct(items[..i]) && |profiles| < MAX_SIP_PROFILES
        {
          assert items[..i + 1][..i] == items[..i];
          var item := items[i];
          if !item.Name? || !ProfileOk(item.text) {
            continue;
          }
          if item.text !in profiles {
            profiles := profiles + [item.text];
          }
          if |profiles| == MAX_SIP_PROFILES {
            DistinctGrows(items, i + 1);
            return profiles;
          }
        }
        assert items[..|items|] == items;
        return profiles;
    }
  }

  predicate Occurs(items: seq<Item>, name: string) {
    exists i | 0 <= i < |items| :: items[i] == Name(name)
  }

  /** Position of the first occurrence, or the length when there is none. */
  function FirstAt(items: seq<Item>, name: string): (i: nat)
    ensures i <= |items|
  {
    if items == [] || items[0] == Name(name) then 0 else 1 + FirstAt(items[1..], name)
  }

  lemma {:induction false} FirstAtMeaning(items: seq<Item>, name: string)
    ensures var i := FirstAt(items, name);
            (i < |items| ==> items[i] == Name(name)) && forall j | 0 <= j < i :: items[j] != Name(name)
  {
    if items != [] && items[0] != Name(name) {
      FirstAtMeaning(items[1..], name);
    }
  }

  lemma {:induction false} OccursInit(items: seq<Item>, s: string)
    requires items != []
    ensures var n := |items| - 1;
            Occurs(items, s) <==> Occurs(items[..n], s) || items[n] == Name(s)
  {
    var n := |items| - 1;
    if Occurs(items[..n], s) {
      var i :| 0 <= i < n && items[..n][i] == Name(s);
      assert items[i] == Name(s);
    }
    if Occurs(items, s) {
      var i :| 0 <= i < |items| && items[i] == Name(s);
      assert i < n ==> items[..n][i] == Name(s);
    }
  }

  /** `Distinct` lists exactly the valid names that occur. */
  lemma {:induction false} DistinctMembers(items: seq<Item>, s: string)
    ensures s in Distinct(items) <==> ProfileOk(s) && Occurs(items, s)
  {
    if items != [] {
      DistinctMembers(items[..|items| - 1], s);
      OccursInit(items, s);
    }
  }

  /** ... each once, in order of first occurrence. */
  lemma {:induction false} DistinctOrder(items: seq<Item>)
    ensures var d := Distinct(items);
            && (forall j, k | 0 <= j < k < |d| :: FirstAt(items, d[j]) < FirstAt(items, d[k]))
            && (forall j, k {:trigger d[j], d[k]} | 0 <= j < k < |d| :: d[j] != d[k])
  {
    if items != [] {
      var n := |items| - 1;
      var before, d := Distinct(items[..n]), Distinct(items);
      DistinctOrder(items[..n]);
      forall j, k | 0 <= j < k < |d| ensures FirstAt(items, d[j]) < FirstAt(items, d[k]) && d[j] != d[k] {
        ListedEarly(items[..n], d[j]);
        FirstAtInit(items, d[j]);
        FirstAtInit(items, d[k]);
        if k < |before| {
          ListedEarly(items[..n], d[k]);
        } else {
          DistinctMembers(items[..n], d[k]);
          FirstAtMeaning(items[..n], d[k]);
        }
      }
    }
  }

  lemma {:induction false} ListedEarly(items: seq<Item>, s: string)
    requires s in Distinct(items)
    ensures FirstAt(items, s) < |items|
  {
    DistinctMembers(items, s);
    FirstAtMeaning(items, s);
  }

  lemma {:induction false} FirstAtInit(items: seq<Item>, s: string)
    requires items != []
    ensures var n := |items| - 1;
            FirstAt(items, s) == if FirstAt(items[..n], s) < n then FirstAt(items[..n], s)
                                 else if items[n] == Name(s) then n else n + 1
  {
    var n := |items| - 1;
    FirstAtMeaning(items, s);
    FirstAtMeaning(items[..n], s);
    assert forall j | 0 <= j < n :: items[..n][j] == items[j];
  }

  function AsItems(names: seq<string>): seq<Item> {
    seq(|names|, i requires 0 <= i < |names| => Name(names[i]))
  }

  lemma {:induction false} DistinctOfDistinct(names: seq<string>)
    requires forall i | 0 <= i < |names| :: ProfileOk(names[i])
    requires forall i, j | 0 <= i < j < |names| :: names[i] != names[j]
    ensures Distinct(AsItems(names)) == names
  {
    if names != [] {
      var n := |names| - 1;
      DistinctOfDistinct(names[..n]);
      assert AsItems(names)[..n] == AsItems(names[..n]);
      assert names == names[..n] + [names[n]];
    }
  }

  /** Normalising a result again changes nothing, for every setting. */
  lemma {:induction false} NormalizedTwice(value: Setting)
    ensures Normalized(Listed(AsItems(Normalized(value)))) == Normalized(value)
  {
    var r := Normalized(value);
    match value
    case Missing =>
      DistinctOfDistinct(r);
    case NotAList =>
    case Listed(items) =>
      DistinctOrder(items);
      forall i | 0 <= i < |r| ensures ProfileOk(r[i]) {
        assert r[i] in Distinct(items);
        DistinctMembers(items, r[i]);
      }
      assert forall i, j | 0 <= i < j < |r| :: Distinct(items)[i] == r[i] && Distinct(items)[j] == r[j];
      DistinctOfDistinct(r);
  }

  /** What the setting comes to: two profiles if it is missing, none if it is no list, else
      the distinct valid names of the list, all of them or the first four. */
  lemma {:induction false} FirstFour(value: Setting)
    ensures var r := Normalized(value);
            match value
            case Missing => r == ["wg", "vpc"]
            case NotAList => r == []
            case Listed(items) =>
              r <= Distinct(items) && |r| <= 4 && (|r| < 4 ==> r == Distinct(items))
  {
    hide Distinct;
  }
}
