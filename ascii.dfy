/**
 * ASCII case folding and PHP's `strcasecmp`, the comparison every part
 * filter uses. PHP's `strtolower` and `strcasecmp` fold only the letters
 * A-Z; every other character is compared as it is.
 */
module Ascii {

  /** `c` folded to lower case when it is an ASCII capital letter. */
  function LowerChar(c: char): char {
    if 'A' <= c <= 'Z' then (c as int + 32) as char else c
  }

  /** `c` folded to upper case when it is an ASCII small letter. */
  function UpperChar(c: char): char {
    if 'a' <= c <= 'z' then (c as int - 32) as char else c
  }

  /** PHP's `strtolower`. */
  function Lower(s: string): (r: string)
    ensures |r| == |s|
    ensures forall i :: 0 <= i < |s| ==> r[i] == LowerChar(s[i])
  {
    seq(|s|, i requires 0 <= i < |s| => LowerChar(s[i]))
  }

  /** PHP's `strtoupper`. */
  function Upper(s: string): (r: string)
    ensures |r| == |s|
    ensures forall i :: 0 <= i < |s| ==> r[i] == UpperChar(s[i])
  {
    seq(|s|, i requires 0 <= i < |s| => UpperChar(s[i]))
  }

  /**
   * PHP's `strcasecmp`: compares the two strings character by character
   * after folding both to lower case; a proper prefix sorts first. Only
   * the sign of the result is modelled (-1, 0 or 1), which is all any
   * caller inspects.
   */
  function StrCaseCmp(a: string, b: string): (r: int)
    ensures -1 <= r <= 1
  {
    if a == [] && b == [] then 0
    else if a == [] then -1
    else if b == [] then 1
    else if LowerChar(a[0]) < LowerChar(b[0]) then -1
    else if LowerChar(a[0]) > LowerChar(b[0]) then 1
    else StrCaseCmp(a[1..], b[1..])
  }

  /** `strcasecmp($a, $b) === 0`, the test the part filters perform. */
  predicate EqualsIgnoreCase(a: string, b: string) {
    StrCaseCmp(a, b) == 0
  }

  /** `strcasecmp` reports equality exactly when the lower-cased strings are equal. */
  lemma {:induction false} StrCaseCmpZero(a: string, b: string)
    ensures StrCaseCmp(a, b) == 0 <==> Lower(a) == Lower(b)
    decreases |a|
  {
    if a != [] && b != [] {
      StrCaseCmpZero(a[1..], b[1..]);
      assert Lower(a) == [LowerChar(a[0])] + Lower(a[1..]);
      assert Lower(b) == [LowerChar(b[0])] + Lower(b[1..]);
    }
  }

  /** Swapping the operands of `strcasecmp` negates its result. */
  lemma {:induction false} StrCaseCmpAntisymmetric(a: string, b: string)
    ensures StrCaseCmp(b, a) == -StrCaseCmp(a, b)
    decreases |a|
  {
    if a != [] && b != [] && LowerChar(a[0]) == LowerChar(b[0]) {
      StrCaseCmpAntisymmetric(a[1..], b[1..]);
    }
  }

  /** Folding to lower case forgets any earlier change of case. */
  lemma LowerForgetsCase(s: string)
    ensures Lower(Upper(s)) == Lower(s)
    ensures Lower(Lower(s)) == Lower(s)
  {
    assert forall i :: 0 <= i < |s| ==> LowerChar(UpperChar(s[i])) == LowerChar(s[i]);
  }

  /**
   * Case-insensitive equality ignores a change of case on either side:
   * the property every filter built on `strcasecmp` inherits.
   */
  lemma EqualsIgnoreCaseUnderCaseChange(a: string, b: string)
    ensures EqualsIgnoreCase(a, b) == EqualsIgnoreCase(Upper(a), b)
    ensures EqualsIgnoreCase(a, b) == EqualsIgnoreCase(a, Lower(b))
    ensures EqualsIgnoreCase(a, b) == EqualsIgnoreCase(b, a)
  {
    StrCaseCmpZero(a, b);
    StrCaseCmpZero(Upper(a), b);
    StrCaseCmpZero(a, Lower(b));
    StrCaseCmpAntisymmetric(a, b);
    LowerForgetsCase(a);
    LowerForgetsCase(b);
  }
}
