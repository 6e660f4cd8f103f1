/** UTF-8 as Python's `str.encode()` and `bytes.decode(errors="replace")` see it. */
module Utf8 {

  type byte = b: int | 0 <= b < 256

  const REPLACEMENT: char := 0xFFFD as char

  function EncodeChar(c: char): (bs: seq<byte>)
    ensures 1 <= |bs| <= 4
    ensures c as int < 0x80 ==> bs == [c as int]
    ensures c as int >= 0x80 ==> forall b | b in bs :: b >= 0x80
  {
    var n := c as int;
    if n < 0x80 then [n]
    else if n < 0x800 then [0xC0 + n / 64, 0x80 + n % 64]
    else if n < 0x10000 then [0xE0 + n / 64 / 64, 0x80 + n / 64 % 64, 0x80 + n % 64]
    else [0xF0 + n / 64 / 64 / 64, 0x80 + n / 64 / 64 % 64, 0x80 + n / 64 % 64, 0x80 + n % 64]
  }

  function Encode(s: string): seq<byte> {
    if s == [] then [] else EncodeChar(s[0]) + Encode(s[1..])
  }

  predicate Continues(b: int) {
    0x80 <= b < 0xC0
  }

  /** Which second byte may follow a lead byte of a three- or four-byte form. */
  predicate SecondOk(lead: int, b: int) {
    Continues(b)
    && (lead == 0xE0 ==> b >= 0xA0)
    && (lead == 0xED ==> b < 0xA0)
    && (lead == 0xF0 ==> b >= 0x90)
    && (lead == 0xF4 ==> b < 0x90)
  }

  datatype Step = Step(c: char, used: nat)

  function TwoByteChar(b0: int, b1: int): char
    requires 0xC2 <= b0 < 0xE0 && 0x80 <= b1 < 0xC0
  {
    ((b0 - 0xC0) * 64 + (b1 - 0x80)) as char
  }

  function ThreeByteChar(b0: int, b1: int, b2: int): char
    requires 0xE0 <= b0 < 0xF0 && SecondOk(b0, b1) && 0x80 <= b2 < 0xC0
  {
    (((b0 - 0xE0) * 64 + (b1 - 0x80)) * 64 + (b2 - 0x80)) as char
  }

  function FourByteChar(b0: int, b1: int, b2: int, b3: int): char
    requires 0xF0 <= b0 <= 0xF4 && SecondOk(b0, b1) && 0x80 <= b2 < 0xC0 && 0x80 <= b3 < 0xC0
  {
    ((((b0 - 0xF0) * 64 + (b1 - 0x80)) * 64 + (b2 - 0x80)) * 64 + (b3 - 0x80)) as char
  }

  /** The first character and how many bytes it takes. An ill-formed sequence
      yields one replacement character for its longest well-formed start. */
  function Next(b: seq<byte>): (r: Step)
    requires b != []
    ensures 1 <= r.used <= |b|
  {
    if b[0] < 0x80 then Step(b[0] as char, 1)
    else if b[0] < 0xC2 || b[0] > 0xF4 then Step(REPLACEMENT, 1)
    else if b[0] < 0xE0 then
      if |b| >= 2 && Continues(b[1]) then Step(TwoByteChar(b[0], b[1]), 2)
      else Step(REPLACEMENT, 1)
    else if |b| < 2 || !SecondOk(b[0], b[1]) then Step(REPLACEMENT, 1)
    else if |b| < 3 || !Continues(b[2]) then Step(REPLACEMENT, 2)
    else if b[0] < 0xF0 then Step(ThreeByteChar(b[0], b[1], b[2]), 3)
    else if |b| < 4 || !Continues(b[3]) then Step(REPLACEMENT, 3)
    else Step(FourByteChar(b[0], b[1], b[2], b[3]), 4)
  }

  function Decode(b: seq<byte>): string {
    if b == [] then [] else [Next(b).c] + Decode(b[Next(b).used..])
  }

  lemma {:induction false} TwoByteForm(n: int)
    requires 0x80 <= n < 0x800
    ensures 0xC2 <= 0xC0 + n / 64 < 0xE0
    ensures TwoByteChar(0xC0 + n / 64, 0x80 + n % 64) as int == n
  {
  }

  lemma {:induction false} ThreeByteForm(c: char)
    requires 0x800 <= c as int < 0x10000
    ensures var n := c as int;
      var b0, b1, b2 := 0xE0 + n / 64 / 64, 0x80 + n / 64 % 64, 0x80 + n % 64;
      0xE0 <= b0 < 0xF0 && SecondOk(b0, b1) && ThreeByteChar(b0, b1, b2) == c
  {
    var n := c as int;
    var h := n / 64;
    assert n == h * 64 + n % 64 && h == h / 64 * 64 + h % 64;
  }

  lemma {:induction false} FourByteForm(c: char)
    requires 0x10000 <= c as int
    ensures var n := c as int;
      var b0, b1, b2, b3 := 0xF0 + n / 64 / 64 / 64, 0x80 + n / 64 / 64 % 64, 0x80 + n / 64 % 64, 0x80 + n % 64;
      0xF0 <= b0 <= 0xF4 && SecondOk(b0, b1) && FourByteChar(b0, b1, b2, b3) == c
  {
    var n := c as int;
    var h := n / 64;
    var g := h / 64;
    assert n == h * 64 + n % 64 && h == g * 64 + h % 64 && g == g / 64 * 64 + g % 64;
  }

  lemma {:induction false} NextOfEncoded(c: char, rest: seq<byte>)
    ensures Next(EncodeChar(c) + rest) == Step(c, |EncodeChar(c)|)
  {
    var e := EncodeChar(c);
    assert forall i | 0 <= i < |e| :: (e + rest)[i] == e[i];
    if 0x10000 <= c as int {
      FourByteForm(c);
    } else if 0x800 <= c as int {
      ThreeByteForm(c);
    } else if 0x80 <= c as int {
      TwoByteForm(c as int);
    }
  }

  lemma {:induction false} DecodeHead(c: char, rest: seq<byte>)
    ensures Decode(EncodeChar(c) + rest) == [c] + Decode(rest)
  {
    var b := EncodeChar(c) + rest;
    var n := |EncodeChar(c)|;
    assert Next(b) == Step(c, n) by {
      NextOfEncoded(c, rest);
    }
    assert b[n..] == rest;
  }

  lemma {:induction false} EncodeCons(s: string, rest: seq<byte>)
    requires s != []
    ensures Encode(s) + rest == EncodeChar(s[0]) + (Encode(s[1..]) + rest)
  {
    hide EncodeChar;
  }

  /** Decoding recovers any encoded text, whatever bytes follow it. */
  lemma {:induction false} RoundTripBefore(s: string, rest: seq<byte>)
    ensures Decode(Encode(s) + rest) == s + Decode(rest)
  {
    hide Decode, EncodeChar;
    if s == [] {
      assert Encode(s) + rest == rest;
    } else {
      hide Encode;
      EncodeCons(s, rest);
      DecodeHead(s[0], Encode(s[1..]) + rest);
      RoundTripBefore(s[1..], rest);
      FrontConcat(s, Decode(rest));
    }
  }

  lemma {:induction false} FrontConcat(s: string, t: string)
    requires s != []
    ensures s + t == [s[0]] + (s[1..] + t)
  {
  }

  lemma {:induction false} RoundTrip(s: string)
    ensures Decode(Encode(s)) == s
  {
    RoundTripBefore(s, []);
    assert Encode(s) + [] == Encode(s);
  }

  lemma {:induction false} EncodeConcat(a: string, b: string)
    ensures Encode(a + b) == Encode(a) + Encode(b)
  {
    if a == [] {
      assert a + b == b;
    } else {
      assert (a + b)[1..] == a[1..] + b;
      EncodeConcat(a[1..], b);
    }
  }

  predicate IsAscii(s: string) {
    forall i | 0 <= i < |s| :: s[i] as int < 0x80
  }

  /** A text has no more characters than bytes, and at most four bytes a character. */
  lemma {:induction false} EncodeGrows(s: string)
    ensures |s| <= |Encode(s)| <= 4 * |s|
  {
    if s != [] {
      EncodeGrows(s[1..]);
    }
  }

  /** Decoding hides nothing: bytes that decode without a replacement character are the
      encoding of what they decode to. */
  lemma {:induction false} NothingHidden(b: seq<byte>)
    requires REPLACEMENT !in Decode(b)
    ensures Encode(Decode(b)) == b
  {
    if b != [] {
      var step := Next(b);
      var c, rest := step.c, b[step.used..];
      assert Decode(b) == [c] + Decode(rest);
      assert c in Decode(b) && Decode(b)[1..] == Decode(rest);
      NextIsEncoded(b);
      NothingHidden(rest);
      assert b == b[..step.used] + rest;
    }
  }

  lemma {:induction false} TwoByteBack(b0: int, b1: int)
    requires 0xC2 <= b0 < 0xE0 && 0x80 <= b1 < 0xC0
    ensures EncodeChar(TwoByteChar(b0, b1)) == [b0, b1]
  {
    var n := (b0 - 0xC0) * 64 + (b1 - 0x80);
    assert 0x80 <= n < 0x800 && n / 64 == b0 - 0xC0 && n % 64 == b1 - 0x80;
  }

  lemma {:induction false} ThreeByteBack(b0: int, b1: int, b2: int)
    requires 0xE0 <= b0 < 0xF0 && SecondOk(b0, b1) && 0x80 <= b2 < 0xC0
    ensures EncodeChar(ThreeByteChar(b0, b1, b2)) == [b0, b1, b2]
  {
    var h := (b0 - 0xE0) * 64 + (b1 - 0x80);
    var n := h * 64 + (b2 - 0x80);
    assert n / 64 == h && n % 64 == b2 - 0x80 && h / 64 == b0 - 0xE0 && h % 64 == b1 - 0x80;
    assert 0x800 <= n < 0x10000;
  }

  lemma {:induction false} FourByteBack(b0: int, b1: int, b2: int, b3: int)
    requires 0xF0 <= b0 <= 0xF4 && SecondOk(b0, b1) && 0x80 <= b2 < 0xC0 && 0x80 <= b3 < 0xC0
    ensures EncodeChar(FourByteChar(b0, b1, b2, b3)) == [b0, b1, b2, b3]
  {
    var g := (b0 - 0xF0) * 64 + (b1 - 0x80);
    var h := g * 64 + (b2 - 0x80);
    var n := h * 64 + (b3 - 0x80);
    assert n / 64 == h && n % 64 == b3 - 0x80 && h / 64 == g && h % 64 == b2 - 0x80;
    assert g / 64 == b0 - 0xF0 && g % 64 == b1 - 0x80 && 0x10000 <= n;
  }

  /** The first step takes a whole form. */
  predicate WholeForm(b: seq<byte>)
    requires b != []
  {
    var n := Next(b).used;
    b[0] < 0x80 || (0xC2 <= b[0] <= 0xF4 && n == if b[0] < 0xE0 then 2 else if b[0] < 0xF0 then 3 else 4)
  }

  lemma {:induction false} NextIsEncoded(b: seq<byte>)
    requires b != [] && WholeForm(b)
    ensures b[..Next(b).used] == EncodeChar(Next(b).c)
  {
    hide EncodeChar, TwoByteChar, ThreeByteChar, FourByteChar, SecondOk;
    if b[0] < 0x80 {
      OneByteBack(b[0]);
    } else if b[0] < 0xE0 {
      TwoByteBack(b[0], b[1]);
    } else if b[0] < 0xF0 {
      ThreeByteBack(b[0], b[1], b[2]);
    } else {
      FourByteBack(b[0], b[1], b[2], b[3]);
    }
  }

  lemma {:induction false} OneByteBack(b: byte)
    requires b < 0x80
    ensures EncodeChar(b as char) == [b]
  {
  }

  // ---- Ill-formed bytes ----

  /** The bytes begin the encoding of some character. */
  ghost predicate Begins(p: seq<byte>) {
    exists c: char :: p <= EncodeChar(c)
  }

  /** No character is encoded at the start of these bytes, and `bad` is the longest beginning of
      one there, or the one byte that begins none. */
  ghost predicate IllFormed(bad: seq<byte>, rest: seq<byte>) {
    && bad != [] && (forall c: char :: !(EncodeChar(c) <= bad + rest))
    && (|bad| == 1 || Begins(bad)) && (rest != [] ==> !Begins(bad + rest[..1]))
  }

  lemma {:induction false} EncodedForm(c: char)
    ensures var e := EncodeChar(c);
            && (|e| == 1 ==> e[0] < 0x80)
            && (|e| == 2 ==> 0xC2 <= e[0] < 0xE0 && Continues(e[1]))
            && (|e| == 3 ==> 0xE0 <= e[0] < 0xF0 && SecondOk(e[0], e[1]) && Continues(e[2]))
            && (|e| == 4 ==> 0xF0 <= e[0] <= 0xF4 && SecondOk(e[0], e[1]) && Continues(e[2]) && Continues(e[3]))
  {
    if 0x10000 <= c as int {
      FourByteForm(c);
    } else if 0x800 <= c as int {
      ThreeByteForm(c);
    } else if 0x80 <= c as int {
      TwoByteForm(c as int);
    }
  }

  /** One replacement takes at least one byte, a beginning if more, and as much as begins a
      character. */
  lemma {:induction false} ReplacedIsLongest(b: seq<byte>)
    requires b != [] && forall c: char :: !(EncodeChar(c) <= b)
    ensures var (c, n) := (Next(b).c, Next(b).used);
            c == REPLACEMENT && (n == 1 || Begins(b[..n])) && (n < |b| ==> !Begins(b[..n + 1]))
  {
    var n := Next(b).used;
    assert !WholeForm(b) by {
      if WholeForm(b) {
        NextIsEncoded(b);
      }
    }
    hide EncodeChar;
    if n < |b| {
      forall c: char ensures !(b[..n + 1] <= EncodeChar(c)) {
        EncodedForm(c);
      }
    }
    if n == 2 {
      StartOfThree(b[0], b[1]);
    } else if n == 3 {
      FourByteBack(b[0], b[1], b[2], 0x80);
      assert b[..3] <= EncodeChar(FourByteChar(b[0], b[1], b[2], 0x80));
    }
    hide SecondOk, ThreeByteChar, FourByteChar;
  }

  lemma {:induction false} StartOfThree(b0: byte, b1: byte)
    requires 0xE0 <= b0 <= 0xF4 && SecondOk(b0, b1)
    ensures Begins([b0, b1])
  {
    if b0 < 0xF0 {
      ThreeByteBack(b0, b1, 0x80);
      assert [b0, b1] <= EncodeChar(ThreeByteChar(b0, b1, 0x80));
    } else {
      FourByteBack(b0, b1, 0x80, 0x80);
      assert [b0, b1] <= EncodeChar(FourByteChar(b0, b1, 0x80, 0x80));
    }
  }

  lemma {:induction false} ShorterBegins(p: seq<byte>, q: seq<byte>)
    requires p <= q && Begins(q)
    ensures Begins(p)
  {
    hide EncodeChar;
    var c: char :| q <= EncodeChar(c);
    assert p <= EncodeChar(c);
  }

  /** Ill-formed bytes give one replacement character for the longest beginning of a character. */
  lemma {:induction false} IllFormedIsReplaced(bad: seq<byte>, rest: seq<byte>)
    requires IllFormed(bad, rest)
    ensures Decode(bad + rest) == [REPLACEMENT] + Decode(rest)
  {
    hide EncodeChar, Begins, Next;
    var b, m := bad + rest, |bad|;
    ReplacedIsLongest(b);
    var n := Next(b).used;
    assert b[..m] == bad && b[m..] == rest;
    if m < n {
      assert b[..m + 1] == bad + rest[..1];
      ShorterBegins(b[..m + 1], b[..n]);
    } else if n < m {
      ShorterBegins(b[..n + 1], b[..m]);
    }
  }
}
