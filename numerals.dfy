/** Fixed-width decimal fields, as `%d`-style directives read and `%02d`/`%04d` write them. */
module Numerals {

  predicate IsDigit(c: char)
  {
    '0' <= c <= '9'
  }

  predicate AllDigits(s: string)
  {
    forall k :: 0 <= k < |s| ==> IsDigit(s[k])
  }

  function Pow10(n: nat): (p: nat)
    ensures p >= 1
  {
    if n == 0 then 1 else 10 * Pow10(n - 1)
  }

  function DigitChar(d: int): (c: char)
    requires 0 <= d < 10
    ensures IsDigit(c)
  {
    ('0' as int + d) as char
  }

  /** The number a string of decimal digits spells; fewer than `|s|` digits' worth. */
  function Value(s: string): (v: nat)
    requires AllDigits(s)
    ensures v < Pow10(|s|)
  {
    if s == [] then 0 else Value(s[..|s| - 1]) * 10 + (s[|s| - 1] as int - '0' as int)
  }

  /** The last `width` decimal digits of `n`, zero-padded on the left. */
  function Pad(n: nat, width: nat): (s: string)
    ensures |s| == width && AllDigits(s)
  {
    if width == 0 then [] else Pad(n / 10, width - 1) + [DigitChar(n % 10)]
  }

  /** Reading back a padded number gives the number, when it fits in the width. */
  lemma {:induction false} ValueOfPad(n: nat, width: nat)
    requires n < Pow10(width)
    ensures Value(Pad(n, width)) == n
  {
    if width > 0 {
      var s := Pad(n, width);
      assert s[..width - 1] == Pad(n / 10, width - 1);
      ValueOfPad(n / 10, width - 1);
    }
  }

  /** Padding the value of a digit string to its own width gives the string back. */
  lemma {:induction false} PadOfValue(s: string)
    requires AllDigits(s)
    ensures Pad(Value(s), |s|) == s
  {
    if s != [] {
      var init := s[..|s| - 1];
      var v := Value(s);
      assert v / 10 == Value(init) && v % 10 == s[|s| - 1] as int - '0' as int;
      PadOfValue(init);
      assert s == init + [s[|s| - 1]];
    }
  }

  /** The padded fields of the dates in the examples. */
  lemma PadExamples()
    ensures Pad(0, 2) == "00" && Pad(1, 2) == "01" && Pad(2, 2) == "02" && Pad(2024, 4) == "2024"
  {
    assert Pad(0, 1) == "0" && Pad(2, 1) == "2";
    assert Pad(20, 2) == Pad(2, 1) + "0";
    assert Pad(202, 3) == Pad(20, 2) + "2";
    assert Pad(2024, 4) == Pad(202, 3) + "4";
  }
}
