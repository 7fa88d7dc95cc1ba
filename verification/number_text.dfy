/**
  The two conversions between numbers and text that the generator's state
  export and recovery rest on: `Number.prototype.toString()` on an integer
  and the global `parseInt(string)` with no radix argument (ECMA-262,
  "parseInt ( string, radix )", section 19.2.5 of the 2023 edition).
 */
module NumberText {
  import opened JsText

  /** The decimal digits of a natural number, without leading zeros. */
  function RenderNat(n: nat): (s: JsString)
    ensures |s| >= 1
    ensures AllDecimalDigits(s)
    ensures s[0] == Zero ==> n == 0
    ensures |s| > 1 ==> s[0] != Zero
    ensures DigitsValue(s, 10) == n
    decreases n
  {
    if n < 10 then [Zero + n]
    else
      var s := RenderNat(n / 10) + [Zero + n % 10];
      assert s[..|s| - 1] == RenderNat(n / 10);
      s
  }

  /** A number below 1000 renders in at most three digits. */
  lemma RenderNatBelowThousand(n: nat)
    requires n < 1000
    ensures |RenderNat(n)| <= 3
  {
    if n >= 10 {
      assert |RenderNat(n)| == |RenderNat(n / 10)| + 1;
      if n / 10 >= 10 {
        assert |RenderNat(n / 10)| == |RenderNat(n / 10 / 10)| + 1;
      }
    }
  }

  /** `toString()` of an integral number: optional '-' then the decimal digits
      of the magnitude. */
  function Render(n: int): (s: JsString)
    ensures |s| >= 1
    ensures s[0] == Minus <==> n < 0
    ensures n >= 0 ==> AllDecimalDigits(s) && DigitsValue(s, 10) == n
    ensures n < 0 ==> |s| >= 2 && AllDecimalDigits(s[1..]) && DigitsValue(s[1..], 10) == -n
    ensures var d := if n < 0 then s[1..] else s; |d| > 1 ==> d[0] != Zero
  {
    if n < 0 then
      var s := [Minus] + RenderNat(-n);
      assert s[1..] == RenderNat(-n);
      s
    else RenderNat(n)
  }

  /** The code units `parseInt` skips before the number: the WhiteSpace and
      LineTerminator productions of ECMA-262 (sections 12.2 and 12.3 of the
      2023 edition), including every space separator of Unicode category Zs. */
  predicate IsJsWhiteSpace(c: CodeUnit) {
    || c == 0x09 || c == 0x0B || c == 0x0C || c == 0xFEFF
    || c == 0x20 || c == 0xA0 || c == 0x1680 || 0x2000 <= c <= 0x200A
    || c == 0x202F || c == 0x205F || c == 0x3000
    || c == 0x0A || c == 0x0D || c == 0x2028 || c == 0x2029
  }

  /** Drops leading white space. */
  function TrimStart(s: JsString): (r: JsString)
    ensures |r| <= |s| && r == s[|s| - |r|..]
    ensures forall i :: 0 <= i < |s| - |r| ==> IsJsWhiteSpace(s[i])
    ensures |r| > 0 ==> !IsJsWhiteSpace(r[0])
  {
    if |s| > 0 && IsJsWhiteSpace(s[0]) then TrimStart(s[1..]) else s
  }

  /** Length of the longest prefix made of digits of `radix`. */
  function DigitRun(s: JsString, radix: nat): (n: nat)
    ensures n <= |s|
    ensures forall i :: 0 <= i < n ==> DigitValue(s[i]) < radix
    ensures n < |s| ==> DigitValue(s[n]) >= radix
  {
    if |s| > 0 && DigitValue(s[0]) < radix then 1 + DigitRun(s[1..], radix) else 0
  }

  /** A JavaScript number as `parseInt` produces it: NaN or an integer. */
  datatype ParsedNumber = NaN | Value(n: int)

  /** What `parseInt` has decided before it reads digits: the sign, the radix
      and the text the digits are read from. */
  datatype Prelude = Prelude(negative: bool, radix: nat, body: JsString)

  predicate HasSign(t: JsString) {
    |t| > 0 && (t[0] == Minus || t[0] == Plus)
  }

  predicate HasHexPrefix(t: JsString) {
    |t| >= 2 && t[0] == Zero && (t[1] == LowerX || t[1] == UpperX)
  }

  /** Skip white space, take one optional sign, and switch to radix 16 after a
      "0x"/"0X" prefix. */
  function ScanPrelude(s: JsString): (p: Prelude)
    ensures p.radix == 10 || p.radix == 16
    ensures |p.body| <= |s| && p.body == s[|s| - |p.body|..]
    ensures p.negative ==> |TrimStart(s)| > 0 && TrimStart(s)[0] == Minus
    ensures p.radix == 16 ==> |p.body| + 2 <= |TrimStart(s)|
    ensures |s| > 0 && !IsJsWhiteSpace(s[0]) && !HasSign(s) && !HasHexPrefix(s) ==> p == Prelude(false, 10, s)
    ensures var t := TrimStart(s); p.negative <==> |t| > 0 && t[0] == Minus
    ensures var t := TrimStart(s); var u := if HasSign(t) then t[1..] else t;
      && (p.radix == 16 <==> HasHexPrefix(u))
      && |p.body| == |u| - (if p.radix == 16 then 2 else 0)
  {
    var t := TrimStart(s);
    var unsigned := if HasSign(t) then t[1..] else t;
    if HasHexPrefix(unsigned) then Prelude(|t| > 0 && t[0] == Minus, 16, unsigned[2..])
    else Prelude(|t| > 0 && t[0] == Minus, 10, unsigned)
  }

  /** `parseInt(s)`: after the prelude, read the longest run of digits of the
      radix; NaN when that run is empty. Long digit runs are read exactly, not
      rounded to the nearest double. */
  function ParseInt(s: JsString): (r: ParsedNumber)
    ensures var p := ScanPrelude(s);
      r.NaN? <==> p.body == [] || DigitValue(p.body[0]) >= p.radix
    ensures r.Value? && r.n < 0 ==> ScanPrelude(s).negative
    ensures r.Value? && ScanPrelude(s).negative ==> r.n <= 0
  {
    var p := ScanPrelude(s);
    var len := DigitRun(p.body, p.radix);
    if len == 0 then NaN
    else
      var magnitude: int := DigitsValue(p.body[..len], p.radix);
      Value(if p.negative then -magnitude else magnitude)
  }

  /** The digit run of a digit string followed by a non-digit is the whole string. */
  lemma {:induction false} DigitRunOfPrefix(p: JsString, rest: JsString)
    requires AllDecimalDigits(p)
    requires rest == [] || !IsDecimalDigit(rest[0])
    ensures DigitRun(p + rest, 10) == |p|
    ensures (p + rest)[..|p|] == p
    decreases |p|
  {
    if |p| > 0 {
      assert (p + rest)[1..] == p[1..] + rest;
      DigitRunOfPrefix(p[1..], rest);
    } else {
      assert p + rest == rest;
    }
  }

  /** `parseInt` reads back what `toString()` wrote, even when other text
      follows, provided that text does not continue the number: it must not
      start with a digit, nor with 'x'/'X' right after a lone "0", which
      `parseInt` would take as a hexadecimal prefix. */
  lemma ParseRenderPrefix(n: int, rest: JsString)
    requires rest == [] || !IsDecimalDigit(rest[0])
    requires n == 0 && rest != [] ==> rest[0] != LowerX && rest[0] != UpperX
    ensures ParseInt(Render(n) + rest) == Value(n)
  {
    var s := Render(n) + rest;
    var m := if n < 0 then -n else n;
    var p := RenderNat(m);
    var unsigned := p + rest;
    assert !HasHexPrefix(unsigned) by {
      if |unsigned| >= 2 && unsigned[0] == Zero {
        assert p[0] == Zero && m == 0 && |p| == 1;
        assert unsigned[1] == rest[0];
      }
    }
    PreludeOfRender(n, rest);
    assert ScanPrelude(s) == Prelude(n < 0, 10, unsigned);
    DigitRunOfPrefix(p, rest);
    assert unsigned[..|p|] == p;
    assert DigitsValue(p, 10) == m;
  }

  lemma PreludeOfRender(n: int, rest: JsString)
    requires !HasHexPrefix(RenderNat(if n < 0 then -n else n) + rest)
    ensures ScanPrelude(Render(n) + rest) == Prelude(n < 0, 10, RenderNat(if n < 0 then -n else n) + rest)
  {
    var u := RenderNat(if n < 0 then -n else n) + rest;
    var sign: JsString := if n < 0 then [Minus] else [];
    assert Render(n) + rest == [] + (sign + u) by {
      if n < 0 {
        assert Render(n) == [Minus] + RenderNat(-n);
      }
    }
    assert IsDecimalDigit(u[0]);
    PreludeOfDecimal([], sign, u);
  }

  /** The state-code round trip: `parseInt(n.toString())` is `n`. */
  lemma ParseRenderRoundTrip(n: int)
    ensures ParseInt(Render(n)) == Value(n)
  {
    ParseRenderPrefix(n, []);
    assert Render(n) + [] == Render(n);
  }

  /** Text without a single decimal digit parses to NaN. */
  lemma ParseNaNWithoutDigits(s: JsString)
    requires forall i :: 0 <= i < |s| ==> !IsDecimalDigit(s[i])
    ensures ParseInt(s) == NaN
  {
  }

  /** Text that starts with a decimal digit parses to a non-negative integer,
      unless it starts with the hexadecimal prefix "0x"/"0X" (then "0x" with no
      hexadecimal digit after it is NaN). */
  lemma ParseLeadingDigit(s: JsString)
    requires |s| > 0 && IsDecimalDigit(s[0])
    requires |s| >= 2 && s[0] == Zero ==> s[1] != LowerX && s[1] != UpperX
    ensures ParseInt(s).Value? && ParseInt(s).n >= 0
  {
    TrimStartKeeps(s);
    assert !HasSign(s);
    assert !HasHexPrefix(s);
    assert ScanPrelude(s) == Prelude(false, 10, s);
    assert DigitRun(s, 10) >= 1;
  }

  /** White space in front of text that does not start with white space is
      exactly what `TrimStart` drops. */
  lemma {:induction false} TrimStartSkips(w: JsString, x: JsString)
    requires forall i :: 0 <= i < |w| ==> IsJsWhiteSpace(w[i])
    requires |x| > 0 && !IsJsWhiteSpace(x[0])
    ensures TrimStart(w + x) == x
    decreases |w|
  {
    if |w| == 0 {
      assert w + x == x;
    } else {
      assert (w + x)[0] == w[0];
      assert (w + x)[1..] == w[1..] + x;
      TrimStartSkips(w[1..], x);
    }
  }

  /** `parseInt` on decimal text: white space, an optional sign, a digit run
      that does not form a "0x" prefix, and text that does not continue the
      run. The value is the digits' decimal value, negated after '-'. */
  lemma ParseDecimal(w: JsString, sign: JsString, d: JsString, rest: JsString)
    requires forall i :: 0 <= i < |w| ==> IsJsWhiteSpace(w[i])
    requires sign == [] || sign == [Plus] || sign == [Minus]
    requires |d| > 0 && AllDecimalDigits(d)
    requires rest == [] || !IsDecimalDigit(rest[0])
    requires !HasHexPrefix(d + rest)
    ensures ParseInt(w + sign + d + rest)
         == Value(if sign == [Minus] then -(DigitsValue(d, 10) as int) else DigitsValue(d, 10))
  {
    var s := w + sign + d + rest;
    PreludeOfDecimalText(w, sign, d, rest);
    ParseIntOfRun(s, sign == [Minus], d, rest);
  }

  lemma PreludeOfDecimalText(w: JsString, sign: JsString, d: JsString, rest: JsString)
    requires forall i :: 0 <= i < |w| ==> IsJsWhiteSpace(w[i])
    requires sign == [] || sign == [Plus] || sign == [Minus]
    requires |d| > 0 && IsDecimalDigit(d[0])
    requires !HasHexPrefix(d + rest)
    ensures ScanPrelude(w + sign + d + rest) == Prelude(sign == [Minus], 10, d + rest)
  {
    ConcatRegroup(w, sign, d, rest);
    PreludeOfDecimal(w, sign, d + rest);
  }

  /** `ParseInt` once the prelude has been read and the body is a digit
      string `d` followed by text that does not continue it. */
  lemma ParseIntOfRun(s: JsString, negative: bool, d: JsString, rest: JsString)
    requires ScanPrelude(s) == Prelude(negative, 10, d + rest)
    requires |d| > 0 && AllDecimalDigits(d)
    requires rest == [] || !IsDecimalDigit(rest[0])
    ensures ParseInt(s) == Value(if negative then -(DigitsValue(d, 10) as int) else DigitsValue(d, 10))
  {
    DigitRunOfPrefix(d, rest);
  }

  lemma ConcatRegroup(w: JsString, sign: JsString, d: JsString, rest: JsString)
    ensures w + sign + d + rest == w + (sign + (d + rest))
  {
  }

  /** The prelude of white space, an optional sign and unsigned text that does
      not start with white space or a hexadecimal prefix. */
  lemma PreludeOfDecimal(w: JsString, sign: JsString, u: JsString)
    requires forall i :: 0 <= i < |w| ==> IsJsWhiteSpace(w[i])
    requires sign == [] || sign == [Plus] || sign == [Minus]
    requires |u| > 0 && IsDecimalDigit(u[0]) && !HasHexPrefix(u)
    ensures ScanPrelude(w + (sign + u)) == Prelude(sign == [Minus], 10, u)
  {
    var x := sign + u;
    assert x[0] == if sign == [] then u[0] else sign[0];
    TrimStartSkips(w, x);
    if sign == [] {
      assert x == u;
      assert !HasSign(x);
    } else {
      assert HasSign(x) && x[1..] == u;
    }
  }

  lemma TrimStartKeeps(s: JsString)
    requires |s| > 0 && !IsJsWhiteSpace(s[0])
    ensures TrimStart(s) == s
  {
  }

  /** ECMA-262's reading of a signed hexadecimal number: "-0x1A" is -26. */
  lemma ParseSignedHex()
    ensures ParseInt(Lit("-0x1A")) == Value(-26)
  {
    var a := Lit("-0x1A");
    var body: JsString := [49, 65];
    assert a == [Minus] + ([Zero, LowerX] + body);
    HexPrelude(a, body);
    HexDigits(body);
    ParseIntOfWholeRun(a, true, 16, body);
  }

  lemma HexPrelude(a: JsString, body: JsString)
    requires a == [Minus] + ([Zero, LowerX] + body)
    ensures ScanPrelude(a) == Prelude(true, 16, body)
  {
    TrimStartKeeps(a);
    assert a[1..] == [Zero, LowerX] + body;
  }

  lemma HexDigits(body: JsString)
    requires body == [49, 65]
    ensures DigitRun(body, 16) == |body| && DigitsValue(body, 16) == 26
  {
    assert body[1..] == [65] && [65][1..] == [];
    assert body[..1] == [49] && [49][..0] == [];
  }

  /** `ParseInt` when the whole body after the prelude is a digit run. */
  lemma ParseIntOfWholeRun(s: JsString, negative: bool, radix: nat, body: JsString)
    requires ScanPrelude(s) == Prelude(negative, radix, body)
    requires |body| > 0 && DigitRun(body, radix) == |body|
    ensures ParseInt(s) == Value(if negative then -(DigitsValue(body, radix) as int) else DigitsValue(body, radix))
  {
    assert body[..|body|] == body;
  }

  /** Only one sign is taken: "+-1" is NaN. */
  lemma ParseSecondSign()
    ensures ParseInt(Lit("+-1")) == NaN
  {
    var b := Lit("+-1");
    assert b == [Plus, Minus, 49];
    TrimStartKeeps(b);
    assert HasSign(b) && b[1..] == [Minus, 49];
    assert ScanPrelude(b) == Prelude(false, 10, [Minus, 49]);
  }

  /** A hexadecimal prefix without digits: "0x" is NaN. */
  lemma ParseBareHexPrefix()
    ensures ParseInt(Lit("0x")) == NaN
  {
    var c := Lit("0x");
    assert c == [Zero, LowerX];
    TrimStartKeeps(c);
    assert !HasSign(c) && HasHexPrefix(c);
    assert ScanPrelude(c) == Prelude(false, 16, []);
  }
}
