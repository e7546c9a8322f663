/** The ready-made character sets of src/utils/mod.rs (lines 6-19) that a
    brute-force run can draw its candidates from. */
module Charsets {
  import Ascii
  import Odometer
  import BruteForce

  const Digits: string := "0123456789"
  const Lowercase: string := "abcdefghijklmnopqrstuvwxyz"
  const Uppercase: string := "ABCDEFGHIJKLMNOPQRSTUVWXYZ"
  const Special: string := "!@#$%^&*()-_=+[]{}|;:'\",.<>/?`~"

  /** Digits, then lower-case letters, then upper-case letters. */
  function Alphanumeric(): (r: string)
    ensures |r| == 62
  {
    Digits + Lowercase + Uppercase
  }

  /** The alphanumeric set followed by the special characters. */
  function All(): (r: string)
    ensures |r| == 93
  {
    Digits + Lowercase + Uppercase + Special
  }

  predicate Distinct(s: string)
  {
    forall i, j :: 0 <= i < j < |s| ==> s[i] != s[j]
  }

  /** Each of the three letter and digit ranges, in code-point order. */
  lemma RangesInOrder()
    ensures forall i :: 0 <= i < 10 ==> Digits[i] as int == '0' as int + i
    ensures forall i :: 0 <= i < 26 ==> Lowercase[i] as int == 'a' as int + i
    ensures forall i :: 0 <= i < 26 ==> Uppercase[i] as int == 'A' as int + i
  {
    assert forall i :: 0 <= i < 10 ==> Digits[i] as int == '0' as int + i by {
      assert Digits == seq(10, i requires 0 <= i < 10 => ('0' as int + i) as char);
    }
    assert forall i :: 0 <= i < 26 ==> Lowercase[i] as int == 'a' as int + i by {
      assert Lowercase == seq(26, i requires 0 <= i < 26 => ('a' as int + i) as char);
    }
    assert Uppercase == seq(26, i requires 0 <= i < 26 => ('A' as int + i) as char);
  }

  /** Where each character of the alphanumeric set comes from. */
  lemma AlphanumericLayout()
    ensures forall i :: 0 <= i < 10 ==> Alphanumeric()[i] as int == '0' as int + i
    ensures forall i :: 10 <= i < 36 ==> Alphanumeric()[i] as int == 'a' as int + (i - 10)
    ensures forall i :: 36 <= i < 62 ==> Alphanumeric()[i] as int == 'A' as int + (i - 36)
  {
    RangesInOrder();
    var a := Alphanumeric();
    assert forall i :: 0 <= i < 10 ==> a[i] == Digits[i];
    assert forall i :: 10 <= i < 36 ==> a[i] == Lowercase[i - 10];
    assert forall i :: 36 <= i < 62 ==> a[i] == Uppercase[i - 36];
  }

  /** The alphanumeric set is exactly the ASCII digits and letters, each
      once. */
  lemma AlphanumericIsDigitsAndLetters()
    ensures forall c :: c in Alphanumeric() <==> Ascii.IsDigit(c) || Ascii.IsLower(c) || Ascii.IsUpper(c)
    ensures Distinct(Alphanumeric())
  {
    AlphanumericLayout();
    var a := Alphanumeric();
    forall c | Ascii.IsDigit(c) || Ascii.IsLower(c) || Ascii.IsUpper(c)
      ensures c in a
    {
      if Ascii.IsDigit(c) {
        assert a[c as int - '0' as int] == c;
      } else if Ascii.IsLower(c) {
        assert a[10 + c as int - 'a' as int] == c;
      } else {
        assert a[36 + c as int - 'A' as int] == c;
      }
    }
  }

  /** No special character is a digit or a letter, so the full set is the
      alphanumeric set and 31 further characters. */
  lemma SpecialIsApart()
    ensures forall i :: 0 <= i < |Special| ==> !Ascii.IsDigit(Special[i]) && !Ascii.IsLower(Special[i]) && !Ascii.IsUpper(Special[i])
    ensures All() == Alphanumeric() + Special && |Special| == 31
  {
  }

  /** With the alphanumeric set every length class up to 10 has fewer than
      2^64 candidates and length 11 has more, so a brute-force count over
      this set is None as soon as the maximum length reaches 11. */
  lemma AlphanumericCountLimit()
    ensures Odometer.Pow(|Alphanumeric()|, 10) <= BruteForce.U64Max < Odometer.Pow(|Alphanumeric()|, 11)
  {
    PowSixtyTwo(62);
  }

  lemma PowSixtyTwo(b: nat)
    requires b == 62
    ensures Odometer.Pow(b, 10) == 839299365868340224
    ensures Odometer.Pow(b, 11) == 52036560683837093888
  {
    assert Odometer.Pow(b, 5) == 916132832;
    BruteForce.PowAdd(b, 5, 5);
    assert Odometer.Pow(b, 11) == b * Odometer.Pow(b, 10);
  }
}
