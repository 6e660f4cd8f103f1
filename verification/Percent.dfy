/** Percent-coding of event values: `urllib.parse.unquote`, and the encoders it undoes
    (section 2.1 of RFC 3986). */
module Percent {
  import opened Text
  import opened Utf8

  predicate IsHex(c: char) {
    IsDigit(c) || 'a' <= c <= 'f' || 'A' <= c <= 'F'
  }

  function HexValue(c: char): (n: nat)
    requires IsHex(c)
    ensures n < 16
  {
    if IsDigit(c) then c as int - '0' as int
    else if 'a' <= c <= 'f' then c as int - 'a' as int + 10
    else c as int - 'A' as int + 10
  }

  function HexDigit(n: nat): (c: char)
    requires n < 16
    ensures IsHex(c) && HexValue(c) == n
    ensures 0x21 <= c as int <= 0x7E
  {
    if n < 10 then (n + '0' as int) as char else (n - 10 + 'A' as int) as char
  }

  predicate EscapeAt(s: string) {
    |s| >= 3 && s[0] == '%' && IsHex(s[1]) && IsHex(s[2])
  }

  /** Escapes become bytes; a stray '%' stays itself. */
  function UnescapeAscii(s: string): seq<byte>
    requires IsAscii(s)
  {
    if s == [] then []
    else if EscapeAt(s) then [HexValue(s[1]) * 16 + HexValue(s[2])] + UnescapeAscii(s[3..])
    else [s[0] as int] + UnescapeAscii(s[1..])
  }

  /** Length of the longest all-ASCII start. */
  function AsciiRun(s: string): (n: nat)
    ensures n <= |s| && IsAscii(s[..n])
    ensures n < |s| ==> s[n] as int >= 0x80
  {
    if s == [] || s[0] as int >= 0x80 then 0
    else
      var n := AsciiRun(s[1..]);
      assert s[..n + 1] == [s[0]] + s[1..][..n];
      n + 1
  }

  /** Each ASCII run is unescaped and decoded on its own; other characters pass through. */
  function Unquote(s: string): string
    decreases |s|
  {
    if s == [] then []
    else
      var n := AsciiRun(s);
      if n == 0 then [s[0]] + Unquote(s[1..])
      else Decode(UnescapeAscii(s[..n])) + Unquote(s[n..])
  }

  /** Characters an encoder may leave bare: visible ASCII other than '%'. */
  predicate MayStayBare(safe: set<char>) {
    forall c | c in safe :: 0x21 <= c as int <= 0x7E && c != '%'
  }

  function QuoteByte(b: byte, safe: set<char>): string {
    if b < 0x80 && b as char in safe then [b as char]
    else ['%', HexDigit(b / 16), HexDigit(b % 16)]
  }

  function QuoteBytes(bs: seq<byte>, safe: set<char>): string {
    if bs == [] then [] else QuoteByte(bs[0], safe) + QuoteBytes(bs[1..], safe)
  }

  /** A percent-encoder that leaves the characters of `safe` bare. */
  function Quote(s: string, safe: set<char>): string {
    QuoteBytes(Encode(s), safe)
  }

  predicate Visible(s: string) {
    forall i | 0 <= i < |s| :: 0x21 <= s[i] as int <= 0x7E
  }

  /** Encoded values are visible ASCII: no blank, no line break, nothing to strip. */
  lemma {:induction false} QuotedIsVisible(bs: seq<byte>, safe: set<char>)
    requires MayStayBare(safe)
    ensures Visible(QuoteBytes(bs, safe))
  {
    if bs != [] {
      QuotedIsVisible(bs[1..], safe);
    }
  }

  lemma {:induction false} UnescapeQuoted(bs: seq<byte>, safe: set<char>)
    requires MayStayBare(safe)
    ensures IsAscii(QuoteBytes(bs, safe)) && UnescapeAscii(QuoteBytes(bs, safe)) == bs
  {
    QuotedIsVisible(bs, safe);
    if bs != [] {
      var q, rest := QuoteByte(bs[0], safe), QuoteBytes(bs[1..], safe);
      UnescapeQuoted(bs[1..], safe);
      assert (q + rest)[|q|..] == rest;
      assert bs == [bs[0]] + bs[1..];
    }
  }

  /** Decoding returns the original text for every text and every such encoder. */
  lemma {:induction false} RoundTrip(s: string, safe: set<char>)
    requires MayStayBare(safe)
    ensures Unquote(Quote(s, safe)) == s
  {
    var q := Quote(s, safe);
    UnescapeQuoted(Encode(s), safe);
    Utf8.RoundTrip(s);
    if q == [] {
      assert Encode(s) == [];
      assert s == [];
    } else {
      assert q[..|q|] == q && q[|q|..] == [];
    }
  }

  /** Hexadecimal digits by name, small or capital. */
  lemma {:induction false} HexDigits(n: nat)
    requires n < 16
    ensures HexValue("0123456789abcdef"[n]) == n && HexValue("0123456789ABCDEF"[n]) == n
  {
  }

  predicate NoEscape(s: string) {
    forall i | 0 <= i < |s| :: !EscapeAt(s[i..])
  }

  lemma {:induction false} NoEscapeLater(s: string, n: nat)
    requires NoEscape(s) && n <= |s|
    ensures NoEscape(s[n..])
  {
    forall i | 0 <= i < |s[n..]| ensures !EscapeAt(s[n..][i..]) {
      assert s[n..][i..] == s[n + i..];
    }
  }

  lemma {:induction false} AsciiUnchanged(s: string)
    requires IsAscii(s) && forall i | 0 <= i < |s| :: !EscapeAt(s[i..])
    ensures Decode(UnescapeAscii(s)) == s
  {
    if s != [] {
      assert s[0..] == s;
      NoEscapeLater(s, 1);
      AsciiUnchanged(s[1..]);
      var tail := UnescapeAscii(s[1..]);
      var all := [s[0] as int] + tail;
      assert UnescapeAscii(s) == all && all[1..] == tail;
      assert Next(all) == Step(s[0], 1);
    }
  }

  /** A text without a whole escape, stray percent signs included, is left as it is. */
  lemma {:induction false} PlainTextUnchanged(s: string)
    requires NoEscape(s)
    ensures Unquote(s) == s
    decreases |s|
  {
    hide EscapeAt, NoEscape, Decode, UnescapeAscii;
    if s != [] {
      var n := AsciiRun(s);
      assert s == s[..n] + s[n..];
      if n == 0 {
        NoEscapeLater(s, 1);
        PlainTextUnchanged(s[1..]);
      } else {
        NoEscapeLater(s, n);
        PlainTextUnchanged(s[n..]);
        AsciiRunUnchanged(s, n);
      }
    }
  }

  lemma {:induction false} AsciiRunUnchanged(s: string, n: nat)
    requires NoEscape(s) && n <= |s| && IsAscii(s[..n])
    ensures Decode(UnescapeAscii(s[..n])) == s[..n]
  {
    hide EscapeAt;
    RunHasNoEscape(s, n);
    AsciiUnchanged(s[..n]);
  }

  lemma {:induction false} RunHasNoEscape(s: string, n: nat)
    requires NoEscape(s) && n <= |s|
    ensures NoEscape(s[..n])
  {
    forall i | 0 <= i < n ensures !EscapeAt(s[..n][i..]) {
      assert !EscapeAt(s[i..]);
    }
  }

  // ---- What unquoting gives for any text ----

  /** A piece of an ASCII text: a character that stands for itself, or an escape, whose digits
      may be small or capital. */
  datatype Piece = Bare(c: char) | Escape(high: Digit, low: Digit)
  datatype Digit = Digit(value: nat, capital: bool)

  function DigitText(d: Digit): char {
    if d.value >= 16 then ' '
    else if d.capital then "0123456789ABCDEF"[d.value]
    else "0123456789abcdef"[d.value]
  }

  function TextOf(pieces: seq<Piece>): string {
    if pieces == [] then []
    else
      (match pieces[0]
       case Bare(c) => [c]
       case Escape(h, l) => ['%', DigitText(h), DigitText(l)]) + TextOf(pieces[1..])
  }

  function BytesOf(pieces: seq<Piece>): seq<byte>
    requires WellCut(pieces)
  {
    if pieces == [] then []
    else
      (match pieces[0]
       case Bare(c) => [c as int]
       case Escape(h, l) => [h.value * 16 + l.value]) + BytesOf(pieces[1..])
  }

  /** No escape is taken for bare characters. */
  predicate WellCut(pieces: seq<Piece>) {
    pieces != [] ==>
      (match pieces[0]
       case Bare(c) => c as int < 0x80 && !EscapeAt(TextOf(pieces))
       case Escape(h, l) => h.value < 16 && l.value < 16) && WellCut(pieces[1..])
  }

  lemma {:induction false} EscapeUnescapes(h: Digit, l: Digit, rest: string)
    requires h.value < 16 && l.value < 16 && IsAscii(rest)
    ensures var s := ['%', DigitText(h), DigitText(l)] + rest;
            IsAscii(s) && UnescapeAscii(s) == [h.value * 16 + l.value] + UnescapeAscii(rest)
  {
    HexDigits(h.value);
    HexDigits(l.value);
    var s := ['%', DigitText(h), DigitText(l)] + rest;
    assert IsHex(s[1]) && IsHex(s[2]) && HexValue(s[1]) == h.value && HexValue(s[2]) == l.value;
    hide DigitText, IsHex, HexValue;
    assert s[3..] == rest;
  }

  lemma {:induction false} PiecesUnescape(pieces: seq<Piece>)
    requires WellCut(pieces)
    ensures IsAscii(TextOf(pieces)) && UnescapeAscii(TextOf(pieces)) == BytesOf(pieces)
  {
    hide EscapeAt, DigitText, HexValue;
    if pieces != [] {
      var rest := TextOf(pieces[1..]);
      PiecesUnescape(pieces[1..]);
      match pieces[0]
      case Bare(c) =>
        assert ([c] + rest)[1..] == rest;
      case Escape(h, l) =>
        EscapeUnescapes(h, l, rest);
    }
  }

  lemma {:induction false} RunOfAscii(s: string, rest: string)
    requires IsAscii(s) && (rest != [] ==> rest[0] as int >= 0x80)
    ensures AsciiRun(s + rest) == |s|
  {
    if s == [] {
      assert s + rest == rest;
    } else {
      assert (s + rest)[1..] == s[1..] + rest;
      RunOfAscii(s[1..], rest);
    }
  }

  /** Every escape becomes its byte and the bytes of one ASCII run are decoded together; a stray
      percent sign stays, and so does every other character. */
  lemma {:induction false} UnquotedRun(pieces: seq<Piece>, rest: string)
    requires WellCut(pieces) && (rest != [] ==> rest[0] as int >= 0x80)
    ensures Unquote(TextOf(pieces) + rest)
            == Decode(BytesOf(pieces)) + if rest == [] then [] else [rest[0]] + Unquote(rest[1..])
  {
    var s := TextOf(pieces);
    var all := s + rest;
    PiecesUnescape(pieces);
    RunOfAscii(s, rest);
    RunOfAscii([], rest);
    assert [] + rest == rest && all[..|s|] == s && all[|s|..] == rest;
    if s == [] {
      assert pieces == [];
    }
  }
}
