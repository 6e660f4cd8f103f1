/** The characters and texts the parsers tell apart, by name. */
module TextLaws {
  import opened Text

  const DIGITS := "0123456789"
  const CAPITALS := "ABCDEFGHIJKLMNOPQRSTUVWXYZ"
  const SMALL := "abcdefghijklmnopqrstuvwxyz"

  /** Between `low` and `high` characters, all of them from the alphabet. */
  predicate Over(s: string, alphabet: string, low: nat, high: nat) {
    low <= |s| <= high && forall i | 0 <= i < |s| :: s[i] in alphabet
  }

  lemma {:induction false} DigitByName(c: char)
    ensures IsDigit(c) <==> c in DIGITS
  {
    if IsDigit(c) {
      assert DIGITS[c as int - '0' as int] == c;
    }
  }

  lemma {:induction false} CapitalByName(c: char)
    ensures 'A' <= c <= 'Z' <==> c in CAPITALS
  {
    if 'A' <= c <= 'Z' {
      assert CAPITALS[c as int - 'A' as int] == c;
    }
  }

  lemma {:induction false} SmallByName(c: char)
    ensures 'a' <= c <= 'z' <==> c in SMALL
  {
    if 'a' <= c <= 'z' {
      assert SMALL[c as int - 'a' as int] == c;
    }
  }

  function Alnum(): string {
    DIGITS + CAPITALS + SMALL
  }

  lemma {:induction false} AlnumByName(c: char, more: string)
    ensures c in Alnum() + more <==> IsAlnum(c) || c in more
    ensures c in DIGITS + CAPITALS + more <==> IsDigit(c) || 'A' <= c <= 'Z' || c in more
  {
    DigitByName(c);
    CapitalByName(c);
    SmallByName(c);
  }

  /** Lowering maps the capitals to the small letters and the Kelvin sign to `k`, and leaves
      every other character. */
  lemma {:induction false} LoweredByName(i: nat, c: char)
    requires i < 26 && c as int != 0x212A && c !in CAPITALS
    ensures LowerChar(CAPITALS[i]) == SMALL[i] && LowerChar(0x212A as char) == 'k' && LowerChar(c) == c
  {
    CapitalByName(c);
  }

  /** The blanks and the line breaks, by code point. */
  lemma {:induction false} BlanksByCode(c: char)
    ensures IsSpace(c)
            <==> c as int in {9, 10, 11, 12, 13, 28, 29, 30, 31, 32, 133, 160, 5760, 8192, 8193, 8194, 8195, 8196,
                              8197, 8198, 8199, 8200, 8201, 8202, 8232, 8233, 8239, 8287, 12288}
    ensures IsLineBreak(c) <==> c as int in {10, 11, 12, 13, 28, 29, 30, 133, 8232, 8233}
  {
  }
}
