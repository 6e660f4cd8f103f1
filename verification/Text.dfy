/** The string operations the parsers lean on, with the meaning Python gives them. */
module Text {

  datatype Option<+T> = None | Some(value: T)

  /** Characters removed by `str.strip()` and separating words in `str.split()`. */
  predicate IsSpace(c: char) {
    var n := c as int;
    || 0x09 <= n <= 0x0D || 0x1C <= n <= 0x20 || n == 0x85 || n == 0xA0 || n == 0x1680
    || 0x2000 <= n <= 0x200A || n == 0x2028 || n == 0x2029 || n == 0x202F || n == 0x205F || n == 0x3000
  }

  /** Characters that end a line for `str.splitlines()`. */
  predicate IsLineBreak(c: char) {
    var n := c as int;
    0x0A <= n <= 0x0D || 0x1C <= n <= 0x1E || n == 0x85 || n == 0x2028 || n == 0x2029
  }

  predicate IsDigit(c: char) {
    '0' <= c <= '9'
  }

  predicate IsAlnum(c: char) {
    IsDigit(c) || 'a' <= c <= 'z' || 'A' <= c <= 'Z'
  }

  /** `str.lower()`, exact wherever the lowered text is compared with ASCII:
      besides A-Z only the Kelvin sign lowers to an ASCII letter. */
  function LowerChar(c: char): char {
    if 'A' <= c <= 'Z' then (c as int + 32) as char
    else if c as int == 0x212A then 'k'
    else c
  }

  function Lower(s: string): (r: string)
    ensures |r| == |s|
  {
    seq(|s|, i requires 0 <= i < |s| => LowerChar(s[i]))
  }

  /** First position of `x`, or -1. */
  function IndexOf<T(==)>(s: seq<T>, x: T): (i: int)
    ensures -1 <= i < |s|
    ensures i >= 0 ==> s[i] == x
  {
    if s == [] then -1
    else if s[0] == x then 0
    else
      var i := IndexOf(s[1..], x);
      if i == -1 then -1 else i + 1
  }

  lemma {:induction false} IndexOfIsFirst<T>(s: seq<T>, x: T, j: nat)
    requires j < |s| && s[j] == x
    ensures 0 <= IndexOf(s, x) <= j
  {
    if s[0] != x {
      IndexOfIsFirst(s[1..], x, j - 1);
    }
  }

  predicate PairAt<T(==)>(s: seq<T>, x: T, i: int) {
    0 <= i && i + 1 < |s| && s[i] == x && s[i + 1] == x
  }

  /** First position where `x` occurs twice in a row, or -1: the search for the
      blank line that ends a header block. */
  function IndexOfPair<T(==)>(s: seq<T>, x: T): (i: int)
    ensures i == -1 || PairAt(s, x, i)
  {
    if |s| < 2 then -1
    else if s[0] == x && s[1] == x then 0
    else
      var i := IndexOfPair(s[1..], x);
      if i == -1 then -1 else i + 1
  }

  lemma {:induction false} IndexOfPairIsFirst<T>(s: seq<T>, x: T, j: int)
    requires PairAt(s, x, j)
    ensures 0 <= IndexOfPair(s, x) <= j
  {
    if !PairAt(s, x, 0) {
      IndexOfPairIsFirst(s[1..], x, j - 1);
    }
  }

  /** The first pair of a text is the first pair of every prefix that holds it. */
  lemma {:induction false} PairInPrefix<T>(s: seq<T>, x: T, n: nat)
    requires n <= |s|
    ensures var i := IndexOfPair(s, x);
            IndexOfPair(s[..n], x) == if 0 <= i && i + 2 <= n then i else -1
  {
    var i, k := IndexOfPair(s, x), IndexOfPair(s[..n], x);
    if k >= 0 {
      assert PairAt(s, x, k);
      IndexOfPairIsFirst(s, x, k);
    }
    if 0 <= i && i + 2 <= n {
      IndexOfPairIsFirst(s[..n], x, i);
    }
  }

  /** Holds no pair and does not end in half of one. */
  ghost predicate PairFree<T>(s: seq<T>, x: T) {
    (forall i :: !PairAt(s, x, i)) && (s == [] || s[|s| - 1] != x)
  }

  lemma {:induction false} FirstPairAfter<T>(a: seq<T>, x: T, rest: seq<T>)
    requires PairFree(a, x)
    ensures IndexOfPair(a + [x, x] + rest, x) == |a|
  {
    var s := a + [x, x] + rest;
    assert PairAt(s, x, |a|);
    IndexOfPairIsFirst(s, x, |a|);
    var i := IndexOfPair(s, x);
    assert i + 1 < |a| && PairAt(s, x, i) ==> PairAt(a, x, i);
  }

  function LStrip(s: string): string {
    if s != [] && IsSpace(s[0]) then LStrip(s[1..]) else s
  }

  function RStrip(s: string): string {
    if s != [] && IsSpace(s[|s| - 1]) then RStrip(s[..|s| - 1]) else s
  }

  function Strip(s: string): string {
    RStrip(LStrip(s))
  }

  /** Nothing for `strip` to remove. */
  predicate Trimmed(s: string) {
    s == [] || (!IsSpace(s[0]) && !IsSpace(s[|s| - 1]))
  }

  lemma {:induction false} StripTrimmed(s: string)
    ensures Trimmed(Strip(s))
    ensures Trimmed(s) ==> Strip(s) == s
  {
    LStripHead(s);
    RStripTail(LStrip(s));
  }

  lemma {:induction false} LStripHead(s: string)
    ensures LStrip(s) == [] || !IsSpace(LStrip(s)[0])
  {
    if s != [] && IsSpace(s[0]) {
      LStripHead(s[1..]);
    }
  }

  lemma {:induction false} RStripTail(s: string)
    ensures RStrip(s) <= s
    ensures RStrip(s) == [] || !IsSpace(RStrip(s)[|RStrip(s)| - 1])
  {
    if s != [] && IsSpace(s[|s| - 1]) {
      RStripTail(s[..|s| - 1]);
    }
  }

  /** `str.split` by a one-character separator. */
  function Split(s: string, sep: char): (parts: seq<string>)
    ensures |parts| >= 1
    decreases |s|
  {
    var i := IndexOf(s, sep);
    if i < 0 then [s] else [s[..i]] + Split(s[i + 1..], sep)
  }

  function Join(parts: seq<string>, sep: char): string {
    if |parts| == 0 then []
    else if |parts| == 1 then parts[0]
    else parts[0] + [sep] + Join(parts[1..], sep)
  }

  lemma {:induction false} IndexOfSplit<T>(a: seq<T>, x: T, b: seq<T>)
    requires x !in a
    ensures IndexOf(a + [x] + b, x) == |a|
  {
    var s := a + [x] + b;
    assert s[|a|] == x;
    assert forall k :: 0 <= k < |a| ==> s[k] == a[k];
    IndexOfIsFirst(s, x, |a|);
  }

  /** Splitting undoes joining when no part holds the separator. */
  lemma {:induction false} SplitJoin(parts: seq<string>, sep: char)
    requires |parts| >= 1
    requires forall p | p in parts :: sep !in p
    ensures Split(Join(parts, sep), sep) == parts
  {
    if |parts| == 1 {
      assert sep !in parts[0] && parts == [parts[0]];
    } else {
      var rest := Join(parts[1..], sep);
      IndexOfSplit(parts[0], sep, rest);
      assert Join(parts, sep)[..|parts[0]|] == parts[0];
      assert Join(parts, sep)[|parts[0]| + 1..] == rest;
      SplitJoin(parts[1..], sep);
    }
  }

  /** A joined text holds only characters of its parts and the separator. */
  lemma {:induction false} JoinChars(parts: seq<string>, sep: char, c: char)
    requires c != sep
    requires forall p | p in parts :: c !in p
    ensures c !in Join(parts, sep)
  {
    if |parts| > 1 {
      JoinChars(parts[1..], sep, c);
    }
  }
}
