/** Decimal text: `str(n)`, the value of a digit string, and the bounded
    Content-Length parser that never converts an over-long text. */
module Decimal {
  import opened Text

  predicate OnlyDigits(s: string) {
    forall i | 0 <= i < |s| :: IsDigit(s[i])
  }

  /** ASCII digits, and at least one. */
  predicate AllDigits(s: string) {
    s != [] && OnlyDigits(s)
  }

  function Pow10(n: nat): (r: nat)
    ensures r >= 1
  {
    if n == 0 then 1 else 10 * Pow10(n - 1)
  }

  /** The number a digit string denotes. */
  function Value(s: string): nat
    requires OnlyDigits(s)
  {
    if s == [] then 0
    else Value(s[..|s| - 1]) * 10 + (s[|s| - 1] as int - '0' as int)
  }

  /** A number in decimal. */
  function Digits(n: nat): (s: string)
    ensures AllDigits(s)
  {
    var last := [(n % 10 + '0' as int) as char];
    if n < 10 then last else Digits(n / 10) + last
  }

  lemma {:induction false} ValueOfDigits(n: nat)
    ensures Value(Digits(n)) == n
    ensures n < Pow10(|Digits(n)|)
    ensures |Digits(n)| > 1 ==> Digits(n)[0] != '0'
  {
    var s := Digits(n);
    if n >= 10 {
      ValueOfDigits(n / 10);
      assert s[..|s| - 1] == Digits(n / 10);
      LeadingDigit(n / 10);
    }
  }

  lemma {:induction false} LeadingDigit(n: nat)
    requires n >= 1
    ensures Digits(n)[0] != '0'
  {
    if n >= 10 {
      LeadingDigit(n / 10);
    }
  }

  function StripZeros(s: string): string {
    if s != [] && s[0] == '0' then StripZeros(s[1..]) else s
  }

  lemma {:induction false} Shift(d: int, p: int)
    ensures d * p * 10 == d * (10 * p)
  {
  }

  lemma {:induction false} ValueCons(s: string)
    requires AllDigits(s)
    ensures Value(s) == (s[0] as int - '0' as int) * Pow10(|s| - 1) + Value(s[1..])
  {
    if |s| > 1 {
      var t, u := s[..|s| - 1], s[1..];
      ValueCons(t);
      assert u[..|u| - 1] == t[1..];
      Shift(s[0] as int - '0' as int, Pow10(|s| - 2));
    }
  }

  lemma {:induction false} StripZerosKeepsValue(s: string)
    requires OnlyDigits(s)
    ensures OnlyDigits(StripZeros(s))
    ensures Value(StripZeros(s)) == Value(s)
    ensures StripZeros(s) == [] || StripZeros(s)[0] != '0'
  {
    if s != [] && s[0] == '0' {
      ValueCons(s);
      StripZerosKeepsValue(s[1..]);
    }
  }

  lemma {:induction false} Scale(d: nat, p: nat)
    requires d >= 1
    ensures d * p >= p
  {
  }

  /** A text with n digits and no leading zero is at least 10^(n-1). */
  lemma {:induction false} ValueFromBelow(s: string)
    requires AllDigits(s) && s[0] != '0'
    ensures Value(s) >= Pow10(|s| - 1)
  {
    ValueCons(s);
    var d := s[0] as int - '0' as int;
    Scale(d, Pow10(|s| - 1));
  }

  lemma {:induction false} Pow10Grows(a: nat, b: nat)
    requires a <= b
    ensures Pow10(a) <= Pow10(b)
  {
    if a < b {
      Pow10Grows(a, b - 1);
    }
  }

  /** The parser of one declared length. `None` is a protocol violation. */
  function ContentLength(text: string, limit: nat): Option<nat> {
    if !AllDigits(text) then None
    else
      var normalized := if StripZeros(text) == [] then "0" else StripZeros(text);
      if |normalized| > |Digits(limit)| then None
      else
        StripZerosKeepsValue(text);
        var n := Value(normalized);
        if n > limit then None else Some(n)
  }

  /** The digit-count shortcut never rejects an allowed value: the parser accepts
      exactly the ASCII digit strings whose value is within the limit. */
  lemma {:induction false} ContentLengthExact(text: string, limit: nat)
    ensures ContentLength(text, limit) ==
            if AllDigits(text) && Value(text) <= limit then Some(Value(text)) else None
  {
    if AllDigits(text) {
      StripZerosKeepsValue(text);
      var z := StripZeros(text);
      ValueOfDigits(limit);
      if |z| > |Digits(limit)| {
        ValueFromBelow(z);
        Pow10Grows(|Digits(limit)|, |z| - 1);
      }
      assert Value("0") == 0 by {
        assert "0"[..0] == [];
      }
    }
  }

  /** A printed length reads back as itself, with any number of leading zeros. */
  lemma {:induction false} PrintedLength(n: nat, limit: nat)
    requires n <= limit
    ensures ContentLength(Digits(n), limit) == Some(n)
  {
    ValueOfDigits(n);
    ContentLengthExact(Digits(n), limit);
  }

  lemma {:induction false} PaddedLength(text: string, limit: nat)
    requires AllDigits(text)
    ensures ContentLength(['0'] + text, limit) == ContentLength(text, limit)
  {
    var padded := ['0'] + text;
    assert padded[1..] == text;
    ValueCons(padded);
    ContentLengthExact(padded, limit);
    ContentLengthExact(text, limit);
  }
}
