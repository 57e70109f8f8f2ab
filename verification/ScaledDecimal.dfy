/**
 * Decimal text to a scaled integer (`decimalToScaled`, protocol/batch.ts): exact
 * where the column keeps every digit, rounded half away from zero where not.
 */
module ScaledDecimal {
  import opened Digits
  import opened Text
  import opened WireTypes

  /** Sign, integer digits, fraction digits, exponent. */
  datatype Written = Written(negative: bool, whole: string, fraction: string, exponent: int)

  /** `[eE][+-]?digits` to the end of the text. */
  function Exponent(s: string): Option<int>
  {
    if s == [] then Some(0)
    else if s[0] != 'e' && s[0] != 'E' then None
    else
      var signed := |s| > 1 && (s[1] == '+' || s[1] == '-');
      var ds := s[if signed then 2 else 1..];
      if ds == [] || Span(ds) != |ds| then None
      else
        var n: int := Val(ds);
        Some(if signed && s[1] == '-' then -n else n)
  }

  /** `digits* (. digits*)? exponent?`, with at least one digit. */
  function Unsigned(s: string, negative: bool): (r: Option<Written>)
    ensures r.Some? ==> AllDigits(r.value.whole) && AllDigits(r.value.fraction)
    ensures r.Some? ==> r.value.whole + r.value.fraction != []
  {
    var n := Span(s);
    var dotted := n < |s| && s[n] == '.';
    var rest := if dotted then s[n + 1..] else s[n..];
    var m := if dotted then Span(rest) else 0;
    var e := Exponent(rest[m..]);
    if e.None? || n + m == 0 then None else Some(Written(negative, s[..n], rest[..m], e.value))
  }

  function Parse(text: string): (r: Option<Written>)
    ensures r.Some? ==> AllDigits(r.value.whole) && AllDigits(r.value.fraction)
    ensures r.Some? ==> r.value.whole + r.value.fraction != []
  {
    var t := Trim(text);
    if t != [] && (t[0] == '+' || t[0] == '-') then Unsigned(t[1..], t[0] == '-') else Unsigned(t, false)
  }

  /**
   * The source's computation on a parsed literal: append zeros, or cut the digit
   * string and look at the first digit cut off.
   */
  function Scaled(l: Written, fracDigits: nat): nat
    requires AllDigits(l.whole) && AllDigits(l.fraction)
  {
    var digits := l.whole + l.fraction;
    var shift := |l.whole| + l.exponent - |digits| + fracDigits;
    if shift >= 0 then Val(digits) * Pow(10, shift)
    else
      var keep := |digits| + shift;
      var scaled := if keep > 0 then Val(digits[..keep]) else 0;
      if 0 <= keep < |digits| && digits[keep] >= '5' then scaled + 1 else scaled
  }

  function ToScaled(text: string, fracDigits: nat): Option<int>
  {
    match Parse(text)
    case None => None
    case Some(l) =>
      var n: int := Scaled(l, fracDigits);
      Some(if l.negative then -n else n)
  }

  /**
   * With D the integer that the digits spell and D * 10^(-k) the value scaled by
   * 10^fracDigits: exact when k <= 0, otherwise the nearest integer, ties away
   * from zero, for digit strings, exponents and scales of any size.
   */
  lemma ScaledIsNearest(l: Written, fracDigits: nat)
    requires AllDigits(l.whole) && AllDigits(l.fraction) && l.whole + l.fraction != []
    ensures var d := Val(l.whole + l.fraction);
      var k := |l.fraction| - l.exponent - fracDigits;
      Scaled(l, fracDigits) == if k <= 0 then d * Pow(10, -k) else HalfUp(d, k)
  {
    var digits := l.whole + l.fraction;
    var k := |l.fraction| - l.exponent - fracDigits;
    var keep := |digits| - k;
    if k > 0 && keep >= 0 {
      RoundByDigit(digits, keep);
      assert digits[..0] == [];
    } else if k > 0 {
      Vanishes(digits, k);
    }
  }

  function Magnitude(n: int): nat { if n < 0 then -n else n }

  /**
   * From text to column: with D the digits that the text spells and D * 10^(-k) its
   * value in units of the column's last place, the result has the text's sign and is
   * exact, or nearer than any other integer, ties away from zero.
   */
  lemma TextIsNearest(text: string, fracDigits: nat, other: int)
    requires Parse(text).Some?
    ensures var l := Parse(text).value; var n := ToScaled(text, fracDigits).value;
      var (d, k) := (Val(l.whole + l.fraction), |l.fraction| - l.exponent - fracDigits);
      && (if l.negative then n <= 0 else n >= 0)
      && (k <= 0 ==> Magnitude(n) == d * Pow(10, -k))
      && (k > 0 ==>
            && Distance(Magnitude(n) * Pow(10, k), d) <= Distance(other * Pow(10, k), d)
            && 2 * Distance(Magnitude(n) * Pow(10, k), d) <= Pow(10, k)
            && (2 * Distance(Magnitude(n) * Pow(10, k), d) == Pow(10, k) ==> Magnitude(n) * Pow(10, k) > d))
  {
    hide Val, Pow, HalfUp, Parse;
    var l := Parse(text).value;
    var (d, k) := (Val(l.whole + l.fraction), |l.fraction| - l.exponent - fracDigits);
    ScaledIsNearest(l, fracDigits);
    if k > 0 {
      HalfUpNearest(d, k, other);
      HalfUpBound(d, k);
    }
  }

  /** A value more than one place below the last kept digit rounds to nothing. */
  lemma Vanishes(digits: string, k: nat)
    requires AllDigits(digits) && |digits| < k
    ensures HalfUp(Val(digits), k) == 0
  {
    var (n, unit) := (Val(digits), Pow(10, k - 1));
    ValBound(digits);
    PowMonotone(10, |digits|, k - 1);
    DivUnique(2 * n + 10 * unit, 2 * (10 * unit), 0);
  }

  function RenderExponent(e: int): string
  {
    "e" + (if e < 0 then "-" + Decimal(-e) else "+" + Decimal(e))
  }

  /** A literal written out in full. */
  function Render(l: Written): string
  {
    (if l.negative then "-" else "+") + (l.whole + ("." + (l.fraction + RenderExponent(l.exponent))))
  }

  /** The grammar reads every literal back, part by part. */
  lemma ParseRender(l: Written)
    requires AllDigits(l.whole) && AllDigits(l.fraction) && l.whole + l.fraction != []
    ensures Parse(Render(l)) == Some(l)
  {
    hide Unsigned, RenderExponent, Trim;
    var e := RenderExponent(l.exponent);
    var s := l.whole + ("." + (l.fraction + e));
    EndsInDigit(l.exponent);
    assert s[|s| - 1] == e[|e| - 1];
    assert Render(l)[1..] == s && Render(l)[|s|] == s[|s| - 1];
    TrimKeeps(Render(l));
    UnsignedRead(l);
  }

  lemma EndsInDigit(exponent: int)
    ensures var e := RenderExponent(exponent); e != [] && IsDigit(e[|e| - 1])
  {
    var ds := Decimal(if exponent < 0 then -exponent else exponent);
    var e := RenderExponent(exponent);
    assert e[|e| - 1] == ds[|ds| - 1];
  }

  lemma UnsignedRead(l: Written)
    requires AllDigits(l.whole) && AllDigits(l.fraction) && l.whole + l.fraction != []
    ensures Unsigned(l.whole + ("." + (l.fraction + RenderExponent(l.exponent))), l.negative) == Some(l)
  {
    var tail := RenderExponent(l.exponent);
    var rest := l.fraction + tail;
    var s := l.whole + ("." + rest);
    SpanStops(l.whole, "." + rest);
    assert s[|l.whole|..] == "." + rest && s[|l.whole| + 1..] == rest && s[..|l.whole|] == l.whole;
    SpanStops(l.fraction, tail);
    assert rest[|l.fraction|..] == tail && rest[..|l.fraction|] == l.fraction;
    ExponentRead(l.exponent);
  }

  lemma ExponentRead(exponent: int)
    ensures Exponent(RenderExponent(exponent)) == Some(exponent)
  {
    var ds := Decimal(if exponent < 0 then -exponent else exponent);
    var s := "e" + (if exponent < 0 then "-" + ds else "+" + ds);
    assert s[2..] == ds;
    SpanStops(ds, []);
    assert ds + [] == ds;
  }
}
