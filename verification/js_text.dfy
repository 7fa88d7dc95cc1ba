/**
  JavaScript strings as the generator and the hash see them: sequences of
  UTF-16 code units, where `length` and `charCodeAt` count and return code
  units. This module holds the code-unit vocabulary shared by the number
  rendering, `parseInt` and the short hash.
 */
module JsText {

  /** One UTF-16 code unit, the element of a JavaScript string. */
  type CodeUnit = u: int | 0 <= u < 0x1_0000

  /** A JavaScript string value. */
  type JsString = seq<CodeUnit>

  const Zero: CodeUnit := 48    // '0'
  const Nine: CodeUnit := 57    // '9'
  const Minus: CodeUnit := 45   // '-'
  const Plus: CodeUnit := 43    // '+'
  const LowerX: CodeUnit := 120 // 'x'
  const UpperX: CodeUnit := 88  // 'X'

  predicate IsDecimalDigit(c: CodeUnit) {
    Zero <= c <= Nine
  }

  predicate AllDecimalDigits(s: JsString) {
    forall i :: 0 <= i < |s| ==> IsDecimalDigit(s[i])
  }

  /** The code units of a Dafny string literal whose characters all lie in the
      Basic Multilingual Plane (one code unit each). */
  function Lit(s: string): (r: JsString)
    requires forall i :: 0 <= i < |s| ==> s[i] as int < 0x1_0000
    ensures |r| == |s|
    ensures forall i :: 0 <= i < |s| ==> r[i] == s[i] as int
  {
    seq(|s|, i requires 0 <= i < |s| => s[i] as int)
  }

  /** The value of a code unit as a digit of radix up to 36: '0'-'9' are 0-9,
      'a'-'z' and 'A'-'Z' are 10-35; every other code unit gets 36, which is a
      digit of no radix. */
  function DigitValue(c: CodeUnit): (d: nat)
    ensures d <= 36
    ensures d < 10 <==> IsDecimalDigit(c)
    ensures IsDecimalDigit(c) ==> d == c - Zero
  {
    if Zero <= c <= Nine then c - Zero
    else if 97 <= c <= 122 then c - 97 + 10
    else if 65 <= c <= 90 then c - 65 + 10
    else 36
  }

  /** The value of a digit string in the given radix, most significant digit first. */
  function DigitsValue(s: JsString, radix: nat): nat {
    if |s| == 0 then 0
    else DigitsValue(s[..|s| - 1], radix) * radix + DigitValue(s[|s| - 1])
  }

  /** Leading zeros do not change the value of a decimal digit string. */
  lemma {:induction false} LeadingZeros(z: nat, s: JsString)
    ensures DigitsValue(seq(z, _ => Zero) + s, 10) == DigitsValue(s, 10)
    decreases |s|
  {
    var p := seq(z, _ => Zero);
    if |s| == 0 {
      assert p + s == p;
      AllZeros(z);
    } else {
      var t := p + s;
      assert t[..|t| - 1] == p + s[..|s| - 1];
      assert t[|t| - 1] == s[|s| - 1];
      LeadingZeros(z, s[..|s| - 1]);
    }
  }

  lemma {:induction false} AllZeros(z: nat)
    ensures DigitsValue(seq(z, _ => Zero), 10) == 0
  {
    if z > 0 {
      var p := seq(z, _ => Zero);
      assert p[..z - 1] == seq(z - 1, _ => Zero);
      AllZeros(z - 1);
    }
  }

  /** `String.prototype.padStart(len, fill)` with a one-code-unit filler:
      prefixes copies of `fill` until the string is `len` long. */
  function PadStart(s: JsString, len: nat, fill: CodeUnit): (r: JsString)
    ensures |s| >= len ==> r == s
    ensures |s| < len ==> |r| == len
    ensures r == seq(|r| - |s|, _ => fill) + s
  {
    if |s| >= len then
      assert s == seq(0, _ => fill) + s;
      s
    else seq(len - |s|, _ => fill) + s
  }
}
