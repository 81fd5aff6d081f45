/** Group names: decimal ids or spreadsheet-column style letter names, each
    followed by the group suffix label. */
module Naming {

  /** How groups are named: `'number'` or `'alphabet'` in the original. */
  datatype GroupType = Number | Alphabet

  /** The suffix label appended to every group name (U+73ED). */
  const Suffix: string := "班"

  const Letters: string := "ABCDEFGHIJKLMNOPQRSTUVWXYZ"

  predicate IsLetter(c: char) { 'A' <= c <= 'Z' }

  predicate IsDigit(c: char) { '0' <= c <= '9' }

  /** The letter for bijective base-26 digit `d` (0 is A, 25 is Z). */
  function Letter(d: nat): (c: char)
    requires d < 26
    ensures IsLetter(c) && c as int - 'A' as int == d
  {
    ('A' as int + d) as char
  }

  /** Letter(d) is the character at position d of the alphabet string. */
  lemma LetterIsAlphabetAt(d: nat)
    requires d < 26
    ensures Letter(d) == Letters[d]
  {
  }

  /** Bijective base-26 letters of `i`: 1 is "A", 26 is "Z", 27 is "AA".
      Ids below 1 have no letters, as the original's loop never runs for them. */
  function AlphaName(i: int): (s: string)
    ensures |s| >= 1 <==> i >= 1
    ensures forall k :: 0 <= k < |s| ==> IsLetter(s[k])
    decreases i
  {
    if i <= 0 then "" else AlphaName((i - 1) / 26) + [Letter((i - 1) % 26)]
  }

  /** Reads a letter string back as a bijective base-26 number. */
  function AlphaValue(s: string): int
  {
    if s == [] then 0 else 26 * AlphaValue(s[..|s| - 1]) + (s[|s| - 1] as int - 'A' as int + 1)
  }

  /** Decimal digits of a natural number, without leading zeros. */
  function Digits(n: nat): (s: string)
    ensures |s| >= 1 && forall k :: 0 <= k < |s| ==> IsDigit(s[k])
    ensures s[0] == '0' <==> n == 0
    ensures |s| > 1 ==> s[0] != '0'
  {
    if n < 10 then [Digit(n)] else Digits(n / 10) + [Digit(n % 10)]
  }

  function Digit(d: nat): (c: char)
    requires d < 10
    ensures IsDigit(c) && c as int - '0' as int == d
  {
    ('0' as int + d) as char
  }

  /** The decimal text of an integer, as a template literal renders it,
      for ids below 10^21. */
  function Decimal(i: int): (s: string)
    ensures |s| >= 1 && (s[0] == '-' <==> i < 0)
    ensures i >= 0 ==> IsDigit(s[0])
    ensures i >= 0 && |s| > 1 ==> s[0] != '0'
    ensures i < 0 ==> |s| >= 2 && s[1] != '0'
    ensures forall k :: 0 < k < |s| ==> IsDigit(s[k])
  {
    if i < 0 then "-" + Digits(-i) else Digits(i)
  }

  function DigitsValue(s: string): int
  {
    if s == [] then 0 else 10 * DigitsValue(s[..|s| - 1]) + (s[|s| - 1] as int - '0' as int)
  }

  function DecimalValue(s: string): int
  {
    if |s| > 0 && s[0] == '-' then -DigitsValue(s[1..]) else DigitsValue(s)
  }

  /** The display name of group `i` under naming scheme `t`. */
  function GroupName(t: GroupType, i: int): (s: string)
    ensures |s| >= |Suffix| && s[|s| - |Suffix|..] == Suffix
    ensures t == Number ==> |s| > |Suffix|
    ensures t.Alphabet? ==> (|s| > |Suffix| <==> i >= 1)
  {
    (if t == Number then Decimal(i) else AlphaName(i)) + Suffix
  }

  /** Reading the letters back gives the id again. */
  lemma {:induction false} AlphaRoundTrip(i: int)
    requires i >= 1
    ensures AlphaValue(AlphaName(i)) == i
  {
    var q, r := (i - 1) / 26, (i - 1) % 26;
    if q >= 1 {
      AlphaRoundTrip(q);
    }
    AlphaRoundTripStep(q, r);
    assert i == 26 * q + r + 1;
  }

  /** The round trip extends from `a` to any id whose leading digits spell `a`. */
  lemma AlphaRoundTripStep(a: nat, d: nat)
    requires d < 26 && AlphaValue(AlphaName(a)) == a
    ensures AlphaValue(AlphaName(26 * a + d + 1)) == 26 * a + d + 1
  {
    AlphaNameStep(a, d);
    AlphaValueStep(AlphaName(a), Letter(d));
  }

  /** Every non-empty letter string is the name of exactly the id it spells. */
  lemma {:induction false} AlphaNameOfValue(s: string)
    requires |s| >= 1 && forall k :: 0 <= k < |s| ==> IsLetter(s[k])
    ensures AlphaValue(s) >= 1 && AlphaName(AlphaValue(s)) == s
  {
    var p, c := s[..|s| - 1], s[|s| - 1];
    assert s == p + [c];
    if |p| >= 1 {
      AlphaNameOfValue(p);
    }
    AlphaNameOfValueStep(p, c);
  }

  /** Appending a letter to a string that names its own value keeps it so. */
  lemma AlphaNameOfValueStep(p: string, c: char)
    requires IsLetter(c) && AlphaValue(p) >= 0 && AlphaName(AlphaValue(p)) == p
    ensures AlphaValue(p + [c]) >= 1 && AlphaName(AlphaValue(p + [c])) == p + [c]
  {
    var a := AlphaValue(p);
    var d := c as int - 'A' as int;
    AlphaValueStep(p, c);
    AlphaNameStep(a, d);
    LetterOfValue(c);
  }

  /** One more bijective base-26 digit appends one letter to the name. */
  lemma AlphaNameStep(a: nat, d: nat)
    requires d < 26
    ensures AlphaName(26 * a + d + 1) == AlphaName(a) + [Letter(d)]
  {
    var v := 26 * a + d + 1;
    DivModBase(a, d);
    assert (v - 1) / 26 == a && (v - 1) % 26 == d;
  }

  /** One more letter adds one bijective base-26 digit to the value. */
  lemma AlphaValueStep(p: string, c: char)
    ensures AlphaValue(p + [c]) == 26 * AlphaValue(p) + (c as int - 'A' as int + 1)
  {
    assert (p + [c])[..|p|] == p;
  }

  lemma LetterOfValue(c: char)
    requires IsLetter(c)
    ensures Letter(c as int - 'A' as int) == c
  {
  }

  /** Dividing 26a + d by 26 gives back a, with remainder d. */
  lemma DivModBase(a: nat, d: nat)
    requires d < 26
    ensures (26 * a + d) / 26 == a && (26 * a + d) % 26 == d
  {
  }

  /** Decimal text reads back to the number it was written from. */
  lemma {:induction false} DigitsRoundTrip(n: nat)
    ensures DigitsValue(Digits(n)) == n
  {
    var s := Digits(n);
    if n >= 10 {
      assert s[..|s| - 1] == Digits(n / 10);
      DigitsRoundTrip(n / 10);
    }
  }

  lemma DecimalRoundTrip(i: int)
    ensures DecimalValue(Decimal(i)) == i
  {
    if i < 0 {
      DigitsRoundTrip(-i);
      assert Decimal(i)[1..] == Digits(-i);
    } else {
      DigitsRoundTrip(i);
      assert IsDigit(Digits(i)[0]);
    }
  }

  /** Under either scheme, distinct group ids get distinct names. */
  lemma GroupNameInjective(t: GroupType, i: int, j: int)
    requires i >= 1 && j >= 1
    requires GroupName(t, i) == GroupName(t, j)
    ensures i == j
  {
    var a := if t == Number then Decimal(i) else AlphaName(i);
    var b := if t == Number then Decimal(j) else AlphaName(j);
    assert a == GroupName(t, i)[..|a|];
    assert b == GroupName(t, j)[..|b|];
    if t == Number {
      DecimalRoundTrip(i);
      DecimalRoundTrip(j);
    } else {
      AlphaRoundTrip(i);
      AlphaRoundTrip(j);
    }
  }

  /** The spreadsheet-column names listed for the alphabetic scheme. */
  lemma AlphaNameExamples()
    ensures AlphaName(1) == "A" && AlphaName(26) == "Z"
    ensures AlphaName(27) == "AA" && AlphaName(28) == "AB"
    ensures AlphaName(52) == "AZ" && AlphaName(53) == "BA"
  {
  }
}
