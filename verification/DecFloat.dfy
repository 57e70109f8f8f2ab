/**
 * DECFLOAT(16) and DECFLOAT(34) (types/decfloat.ts): the decimal64 and decimal128
 * formats of section 3.5.2 of IEEE 754-2008, as big-endian bytes and as text.
 */
module DecFloat {
  import opened Declets
  import opened Digits
  import opened Text
  import opened WireTypes

  datatype Format = Format(width: nat, bias: nat, expContBits: nat, declets: nat)
  {
    function MaxDigits(): nat { 3 * declets + 1 }
    /** Exponent fields have two bits more than the continuation; their top quarter is not usable. */
    function ExpRange(): nat { 3 * Pow(2, expContBits) }
  }

  const DEC64 := Format(8, 398, 8, 5)
  const DEC128 := Format(16, 6176, 12, 11)

  /** Sign, coefficient digits and exponent. */
  datatype Number = Number(neg: bool, digits: string, exp: int)

  datatype Decoded = Finite(number: Number) | Infinity(neg: bool) | NaN

  // ---- bytes --------------------------------------------------------------------

  function FromBytes(b: Bytes): nat { if b == [] then 0 else 256 * FromBytes(b[..|b| - 1]) + b[|b| - 1] }

  /** The low `n` bytes, most significant first. */
  function ToBytes(v: nat, n: nat): (b: Bytes)
    ensures |b| == n
  {
    if n == 0 then [] else ToBytes(v / 256, n - 1) + [v % 256]
  }

  lemma {:induction false} BytesRoundTrip(v: nat, n: nat)
    requires v < Pow(256, n)
    ensures FromBytes(ToBytes(v, n)) == v
  {
    if n > 0 {
      DivBounds(v, 256);
      BytesRoundTrip(v / 256, n - 1);
      assert ToBytes(v, n)[..n - 1] == ToBytes(v / 256, n - 1);
    }
  }

  lemma {:induction false} BytesOf(b: Bytes)
    ensures FromBytes(b) < Pow(256, |b|) && ToBytes(FromBytes(b), |b|) == b
  {
    if b != [] {
      BytesOf(b[..|b| - 1]);
      DivMod(FromBytes(b[..|b| - 1]), b[|b| - 1], 256);
    }
  }

  // ---- coefficients ---------------------------------------------------------------

  /** `n` groups of three digits, each a declet. */
  function Coefficient(digits: string, n: nat): (c: nat)
    requires AllDigits(digits) && |digits| == 3 * n
  {
    if n == 0 then 0
    else
      var k := 3 * (n - 1);
      1024 * Coefficient(digits[..k], n - 1) +
        EncodeDeclet(Digit(digits[k]), Digit(digits[k + 1]), Digit(digits[k + 2]))
  }

  function Three(v: nat): (s: string)
    requires v < 1000
    ensures |s| == 3 && AllDigits(s)
  {
    [DigitChar(v / 100), DigitChar(v / 10 % 10), DigitChar(v % 10)]
  }

  function DigitChar(d: nat): (c: char)
    requires d <= 9
    ensures IsDigit(c) && Digit(c) == d
  {
    ('0' as int + d) as char
  }

  /** The `n` declets of a coefficient as digits. */
  function DigitsOf(c: nat, n: nat): (s: string)
    ensures |s| == 3 * n && AllDigits(s)
  {
    if n == 0 then [] else DigitsOf(c / 1024, n - 1) + Three(Dpd(c % 1024))
  }

  lemma ThreeOf(a: char, b: char, c: char)
    requires IsDigit(a) && IsDigit(b) && IsDigit(c)
    ensures Three(100 * Digit(a) + 10 * Digit(b) + Digit(c)) == [a, b, c]
  {
    var (x, y, z) := (Digit(a), Digit(b), Digit(c));
    var v := 100 * x + 10 * y + z;
    DivMod(x, 10 * y + z, 100);
    DivMod(10 * x + y, z, 10);
    DivMod(x, y, 10);
  }

  lemma LastDeclet(rest: nat, declet: nat, n: nat)
    requires declet < 1024 && rest < Pow(1024, n)
    ensures DigitsOf(1024 * rest + declet, n + 1) == DigitsOf(rest, n) + Three(Dpd(declet))
    ensures 1024 * rest + declet < Pow(1024, n + 1)
  {
    hide Dpd, Three;
    var c := 1024 * rest + declet;
    DivMod(rest, declet, 1024);
    assert c / 1024 == rest && c % 1024 == declet;
  }

  lemma LastGroup(rest: nat, s: string, a: char, b: char, c: char, n: nat)
    requires IsDigit(a) && IsDigit(b) && IsDigit(c)
    requires rest < Pow(1024, n) && DigitsOf(rest, n) == s
    ensures var v := 1024 * rest + EncodeDeclet(Digit(a), Digit(b), Digit(c));
      v < Pow(1024, n + 1) && DigitsOf(v, n + 1) == s + [a, b, c]
  {
    hide Digit, EncodeDeclet, Dpd, Three, DigitsOf, Pow;
    DpdOfEncoded(Digit(a), Digit(b), Digit(c));
    ThreeOf(a, b, c);
    LastDeclet(rest, EncodeDeclet(Digit(a), Digit(b), Digit(c)), n);
  }

  lemma {:induction false} CoefficientRoundTrip(digits: string, n: nat)
    requires AllDigits(digits) && |digits| == 3 * n
    ensures Coefficient(digits, n) < Pow(1024, n) && DigitsOf(Coefficient(digits, n), n) == digits
  {
    hide Digit, EncodeDeclet, DigitsOf, Pow, Coefficient;
    if n == 0 {
      NoGroups(digits);
    } else {
      var k := 3 * (n - 1);
      CoefficientRoundTrip(digits[..k], n - 1);
      LastGroup(Coefficient(digits[..k], n - 1), digits[..k], digits[k], digits[k + 1], digits[k + 2], n - 1);
      CoefficientSplit(digits, n);
      assert digits == digits[..k] + [digits[k], digits[k + 1], digits[k + 2]];
    }
  }

  lemma NoGroups(digits: string)
    requires digits == []
    ensures Coefficient(digits, 0) == 0 && Pow(1024, 0) == 1 && DigitsOf(0, 0) == digits
  {
  }

  lemma CoefficientSplit(digits: string, n: nat)
    requires AllDigits(digits) && |digits| == 3 * n > 0
    ensures var k := 3 * (n - 1);
      Coefficient(digits, n) == 1024 * Coefficient(digits[..k], n - 1) +
        EncodeDeclet(Digit(digits[k]), Digit(digits[k + 1]), Digit(digits[k + 2]))
  {
  }

  // ---- the word -------------------------------------------------------------------

  /** `x >> n` and `x & mask` see a JavaScript number through 32 bits. */
  function Int32(x: int): int {
    var low := x % 0x1_0000_0000;
    if low >= 0x8000_0000 then low - 0x1_0000_0000 else low
  }

  /** Two high bits and continuation of the biased exponent; None when it is rejected. NaN passes as zero. */
  function ExponentField(exp: Option<int>, f: Format): (r: Option<(int, nat)>)
    ensures r.Some? ==> r.value.0 <= 3
  {
    if exp.None? then Some((0, 0))
    else
      PowPositive(2, f.expContBits);
      var biased := exp.value + f.bias;
      var (msb, cont) := (Int32(biased) / Pow(2, f.expContBits), Int32(biased) % Pow(2, f.expContBits));
      if biased < 0 || msb > 3 then None else Some((msb, cont))
  }

  /** Exponent high bits and leading digit in five bits; large digits take the forms that start with 11. */
  function Combination(msb: nat, msd: nat): (c: nat)
    requires msb <= 3 && msd <= 9
    ensures c < 32
  {
    if msd <= 7 then 8 * msb + msd else 24 + 2 * msb + (msd - 8)
  }

  /**
   * Sign and combination, the top six bits. An exponent that wrapped around to a
   * negative number spills one more bit of itself into the sign.
   */
  function Head(neg: bool, msb: int, msd: nat): (h: nat)
    requires msb <= 3 && msd <= 9
    ensures h < 64
  {
    var spill := if msd <= 7 then msb / 4 % 2 else msb / 16 % 2;
    Combination(msb % 4, msd) + (if neg || spill == 1 then 32 else 0)
  }

  function Word(head: nat, cont: nat, coefficient: nat, f: Format): nat {
    (head * Pow(2, f.expContBits) + cont) * Pow(1024, f.declets) + coefficient
  }

  predicate Known(f: Format) { f == DEC64 || f == DEC128 }

  lemma {:induction false} PowOfPow(a: nat, k: nat, n: nat)
    requires a == Pow(2, k)
    ensures Pow(a, n) == Pow(2, k * n)
  {
    if n > 0 {
      PowOfPow(a, k, n - 1);
      PowAdd(2, k, k * (n - 1));
      assert k * n == k + k * (n - 1);
    }
  }

  lemma PowersOfTwo()
    ensures Pow(2, 6) == 64 && Pow(2, 8) == 256 && Pow(2, 10) == 1024 && Pow(2, 12) == 4096
  {
    assert Pow(2, 4) == 16;
    PowAdd(2, 2, 4);
    PowAdd(2, 4, 4);
    PowAdd(2, 6, 4);
    PowAdd(2, 8, 4);
  }

  /** Six bits, the exponent continuation and the declets fill the bytes exactly. */
  lemma FieldsFill(f: Format)
    requires Known(f)
    ensures 64 * (Pow(2, f.expContBits) * Pow(1024, f.declets)) == Pow(256, f.width)
    ensures Pow(2, f.expContBits) > 0 && Pow(1024, f.declets) > 0
  {
    PowersOfTwo();
    hide Pow;
    PowOfPow(256, 8, f.width);
    PowOfPow(1024, 10, f.declets);
    PowAdd(2, f.expContBits, 10 * f.declets);
    PowAdd(2, 6, f.expContBits + 10 * f.declets);
    PowPositive(2, f.expContBits);
    PowPositive(1024, f.declets);
  }

  lemma WordFits(head: nat, cont: nat, coefficient: nat, f: Format)
    requires Known(f) && head < 64 && cont < Pow(2, f.expContBits) && coefficient < Pow(1024, f.declets)
    ensures Word(head, cont, coefficient, f) < Pow(256, f.width)
  {
    FieldsFill(f);
    var (e, c) := (Pow(2, f.expContBits), Pow(1024, f.declets));
    MulMonotone(head, 63, e);
    MulMonotone(head * e + cont, 64 * e - 1, c);
    MulDistributes(64 * e, -1, c);
    MulDistributes(64, e, c);
  }

  /** Shifts and masks take a word apart into the fields it was built from. */
  lemma WordFields(head: nat, cont: nat, coefficient: nat, f: Format)
    requires Known(f) && cont < Pow(2, f.expContBits) && coefficient < Pow(1024, f.declets)
    ensures Fields(Word(head, cont, coefficient, f), f) == (head, cont, coefficient)
  {
    FieldsFill(f);
    hide Pow;
    DivMod(head * Pow(2, f.expContBits) + cont, coefficient, Pow(1024, f.declets));
    DivMod(head, cont, Pow(2, f.expContBits));
  }

  // ---- decoding --------------------------------------------------------------------

  /** The top six bits, the exponent continuation and the coefficient. */
  function Fields(v: nat, f: Format): (r: (nat, nat, nat))
    requires Known(f)
    ensures r.1 < Pow(2, f.expContBits)
  {
    FieldsFill(f);
    var (e, c) := (Pow(2, f.expContBits), Pow(1024, f.declets));
    (v / c / e, v / c % e, v % c)
  }

  function Decode(b: Bytes, f: Format): Decoded
    requires Known(f) && |b| == f.width
  {
    var (top, cont, coefficient) := Fields(FromBytes(b), f);
    DecodeFields(top, cont, coefficient, f)
  }

  function DecodeFields(top: nat, cont: nat, coefficient: nat, f: Format): Decoded
  {
    var (neg, combo) := (top / 32 % 2 == 1, top % 32);
    if combo >= 30 then (if combo == 30 then Infinity(neg) else NaN)
    else
      var (msb, msd) := SplitCombination(combo);
      var digits := Strip([DigitChar(msd)] + DigitsOf(coefficient, f.declets));
      Finite(Number(neg, digits, msb * Pow(2, f.expContBits) + cont - f.bias))
  }

  function SplitCombination(combo: nat): (r: (nat, nat))
    requires combo < 30
    ensures r.0 <= 2 && r.1 <= 9
  {
    if combo / 8 == 3 then (combo / 2 % 4, 8 + combo % 2) else (combo / 8 % 4, combo % 8)
  }

  lemma CombinationRoundTrip(msb: nat, msd: nat)
    requires msb <= 2 && msd <= 9
    ensures Combination(msb, msd) < 30 && SplitCombination(Combination(msb, msd)) == (msb, msd)
  {
  }

  /** A finite value never has an exponent field in the top quarter. */
  lemma DecodedInRange(b: Bytes, f: Format)
    requires Known(f) && |b| == f.width && Decode(b, f).Finite?
    ensures 0 <= Decode(b, f).number.exp + f.bias < f.ExpRange()
  {
    hide Pow, DecodeFields, FromBytes, Fields;
    var (top, cont, coefficient) := Fields(FromBytes(b), f);
    FieldsInRange(top, cont, coefficient, f);
  }

  lemma FieldsInRange(top: nat, cont: nat, coefficient: nat, f: Format)
    requires cont < Pow(2, f.expContBits) && DecodeFields(top, cont, coefficient, f).Finite?
    ensures 0 <= DecodeFields(top, cont, coefficient, f).number.exp + f.bias < f.ExpRange()
  {
    var e := Pow(2, f.expContBits);
    hide Pow, SplitCombination, Strip, DigitsOf;
    var msb := SplitCombination(top % 32).0;
    MulMonotone(0, msb, e);
    MulMonotone(msb, 2, e);
  }

  // ---- encoding --------------------------------------------------------------------

  /** A parsed literal; its exponent is None when the text after `e` is not a number. */
  datatype Literal = Literal(neg: bool, digits: string, exp: Option<int>)

  /** Round an over-long coefficient to `max` digits; also how far its exponent moves. */
  function Fit(digits: string, max: nat): (r: (string, nat))
    requires Canonical(digits) && max > 0
    ensures AllDigits(r.0) && 0 < |r.0| <= max
  {
    if |digits| <= max then (digits, 0)
    else
      var s := Decimal(Val(digits[..max]) + (if digits[max] >= '5' then 1 else 0));
      if |s| > max then (s[..max], |digits| - max + 1) else (s, |digits| - max)
  }

  function Padded(digits: string, max: nat): (s: string)
    requires AllDigits(digits) && |digits| <= max
    ensures AllDigits(s) && |s| == max
  {
    Zeros(max - |digits|) + digits
  }

  function Encode(l: Literal, f: Format): (b: Option<Bytes>)
    requires Canonical(l.digits) && Known(f)
    ensures b.Some? ==> |b.value| == f.width
  {
    var (digits, shift) := Fit(l.digits, f.MaxDigits());
    var s := Padded(digits, f.MaxDigits());
    match ExponentField(if l.exp.None? then None else Some(l.exp.value + shift), f)
    case None => None
    case Some((msb, cont)) =>
      Some(ToBytes(Word(Head(l.neg, msb, Digit(s[0])), cont, Coefficient(s[1..], f.declets), f), f.width))
  }

  /** An exponent in range is split and put together without loss, and below the top quarter. */
  lemma ExponentSplit(exp: int, f: Format)
    requires Known(f) && 0 <= exp + f.bias < f.ExpRange()
    ensures var r := ExponentField(Some(exp), f); var e := Pow(2, f.expContBits);
      r.Some? && 0 <= r.value.0 <= 2 && r.value.1 < e && r.value.0 * e + r.value.1 == exp + f.bias
  {
    PowersOfTwo();
    var (biased, e) := (exp + f.bias, Pow(2, f.expContBits));
    assert Int32(biased) == biased;
    DivBounds(biased, e);
    MultiplesApart(2, biased / e, e);
  }

  /** What the encoder writes for fields in range, the decoder reads. */
  lemma DecodeWord(neg: bool, msb: nat, cont: nat, s: string, f: Format)
    requires Known(f) && msb <= 2 && cont < Pow(2, f.expContBits) && AllDigits(s) && |s| == f.MaxDigits()
    ensures var w := Word(Head(neg, msb, Digit(s[0])), cont, Coefficient(s[1..], f.declets), f);
      Decode(ToBytes(w, f.width), f) ==
        Finite(Number(neg, Strip(s), msb * Pow(2, f.expContBits) + cont - f.bias))
  {
    var (msd, head, c) := (Digit(s[0]), Head(neg, msb, Digit(s[0])), Coefficient(s[1..], f.declets));
    hide Pow, Coefficient, Head, Word, DigitsOf, ToBytes, FromBytes, DecodeFields, Fields;
    CoefficientRoundTrip(s[1..], f.declets);
    WordFits(head, cont, c, f);
    BytesRoundTrip(Word(head, cont, c, f), f.width);
    WordFields(head, cont, c, f);
    DecodeParts(neg, msb, cont, s, c, f);
  }

  lemma DecodeParts(neg: bool, msb: nat, cont: nat, s: string, c: nat, f: Format)
    requires msb <= 2 && AllDigits(s) && s != [] && DigitsOf(c, f.declets) == s[1..]
    ensures DecodeFields(Head(neg, msb, Digit(s[0])), cont, c, f) ==
              Finite(Number(neg, Strip(s), msb * Pow(2, f.expContBits) + cont - f.bias))
  {
    var msd := Digit(s[0]);
    HeadParts(neg, msb, msd);
    CombinationRoundTrip(msb, msd);
    hide Pow, DigitsOf, Head, Combination, SplitCombination;
    assert [DigitChar(msd)] + s[1..] == s;
  }

  lemma HeadParts(neg: bool, msb: nat, msd: nat)
    requires msb <= 2 && msd <= 9
    ensures var h := Head(neg, msb, msd); (h / 32 % 2 == 1 <==> neg) && h % 32 == Combination(msb, msd)
  {
  }

  /** The rounded coefficient is a canonical digit string that fits. */
  lemma FitCanonical(digits: string, max: nat)
    requires Canonical(digits) && max > 0
    ensures Canonical(Fit(digits, max).0)
  {
  }

  /**
   * Decoding an encoding gives back sign, coefficient and exponent, as rounded to
   * fit, if and only if the biased exponent is below three quarters of its field.
   */
  lemma EncodeDecode(l: Literal, f: Format)
    requires Canonical(l.digits) && Known(f) && l.exp.Some?
    ensures var (digits, shift) := Fit(l.digits, f.MaxDigits());
      var exp := l.exp.value + shift;
      0 <= exp + f.bias < f.ExpRange() <==>
      Encode(l, f).Some? && Decode(Encode(l, f).value, f) == Finite(Number(l.neg, digits, exp))
  {
    hide Pow, Decode, Fit, Strip, Coefficient, Word, Head, ToBytes;
    var (digits, shift) := Fit(l.digits, f.MaxDigits());
    var exp := l.exp.value + shift;
    if Encode(l, f).Some? && Decode(Encode(l, f).value, f).Finite? {
      DecodedInRange(Encode(l, f).value, f);
    }
    if 0 <= exp + f.bias < f.ExpRange() {
      ExponentSplit(exp, f);
      var s := Padded(digits, f.MaxDigits());
      FitCanonical(l.digits, f.MaxDigits());
      StripPadded(digits, f.MaxDigits() - |digits|);
      hide ExponentField, Padded;
      var (msb, cont) := ExponentField(Some(exp), f).value;
      DecodeWord(l.neg, msb, cont, s, f);
    }
  }

  /** The top quarter is admitted, and collides with the large digits and the special values. */
  lemma TopQuarterCollides()
    ensures var l := Literal(false, "1", Some(3 * 256 - 398));
      Encode(l, DEC64).Some? && Decode(Encode(l, DEC64).value, DEC64) != Finite(Number(false, "1", 3 * 256 - 398))
    ensures Combination(3, 6) == 30 && Combination(3, 7) == 31 && Combination(3, 8) == 30 && Combination(3, 9) == 31
  {
    var l := Literal(false, "1", Some(3 * 256 - 398));
    PowersOfTwo();
    assert Fit(l.digits, 16) == ("1", 0);
    assert ExponentField(Some(3 * 256 - 398), DEC64) == Some((3, 0));
    EncodeDecode(l, DEC64);
  }

  /**
   * A literal is refused exactly when its biased exponent is negative or, as a 32-bit
   * number, past the exponent field: the field's top quarter is let through, and so
   * is an exponent that the cut to 32 bits makes small or negative.
   */
  lemma RefusedExactly(l: Literal, f: Format)
    requires Canonical(l.digits) && Known(f)
    ensures Encode(l, f).None? <==>
      l.exp.Some? &&
      var biased := l.exp.value + Fit(l.digits, f.MaxDigits()).1 + f.bias;
      biased < 0 || Int32(biased) >= 4 * Pow(2, f.expContBits)
  {
    hide Int32, Fit, Coefficient, Head, ToBytes, Pow;
    if l.exp.Some? {
      var (x, e) := (Int32(l.exp.value + Fit(l.digits, f.MaxDigits()).1 + f.bias), Pow(2, f.expContBits));
      PowPositive(2, f.expContBits);
      AtLeastFour(x, e);
    }
  }

  lemma AtLeastFour(x: int, e: nat)
    requires e > 0
    ensures x / e > 3 <==> x >= 4 * e
  {
    if x >= 4 * e { assert x / e >= 4 by { QuotientMonotone(4 * e, x, e); } }
    if x / e > 3 { MulMonotone(4, x / e, e); }
  }

  lemma QuotientMonotone(a: nat, b: nat, e: nat)
    requires a <= b && e > 0 && a == 4 * e
    ensures b / e >= 4
  {
    if b / e <= 3 { MulMonotone(b / e, 3, e); }
  }

  /** The sign is checked before the exponent is cut to 32 bits, so exponents that far apart encode alike. */
  lemma ExponentWrapsAround(l: Literal, f: Format)
    requires Canonical(l.digits) && Known(f) && l.exp.Some?
    requires 0 <= l.exp.value + Fit(l.digits, f.MaxDigits()).1 + f.bias
    ensures Encode(l.(exp := Some(l.exp.value + 0x1_0000_0000)), f) == Encode(l, f)
  {
    hide Fit, Coefficient, Head, ToBytes, Pow, Word, Padded;
    var biased := l.exp.value + Fit(l.digits, f.MaxDigits()).1 + f.bias;
    assert Int32(biased + 0x1_0000_0000) == Int32(biased);
  }

  // ---- rounding --------------------------------------------------------------------

  /** The rounded coefficient, all nines included, is `HalfUp` at the dropped digits. */
  lemma FitIsHalfUp(digits: string, max: nat)
    requires Canonical(digits) && 0 < max < |digits|
    ensures var (s, k) := Fit(digits, max); var dropped := |digits| - max;
      Val(s) * Pow(10, k) == HalfUp(Val(digits), dropped) * Pow(10, dropped)
  {
    hide HalfUp, Decimal, Pow, Val, IsDigit;
    RoundByDigit(digits, max);
    var q := Val(digits[..max]) + (if digits[max] >= '5' then 1 else 0);
    var t := Decimal(q);
    if |t| > max { CarriesToPowerOfTen(digits, max, t); }
  }

  lemma CarriesToPowerOfTen(digits: string, max: nat, t: string)
    requires Canonical(digits) && 0 < max < |digits| && Canonical(t) && |t| > max
    requires Val(t) <= Val(digits[..max]) + 1
    ensures Val(t[..max]) * Pow(10, |digits| - max + 1) == Val(t) * Pow(10, |digits| - max)
  {
    hide Pow, Val, IsDigit;
    ValBound(digits[..max]);
    CarryIsExact(t, max);
    TimesTen(Val(t[..max]), |digits| - max);
  }

  /** A coefficient that grew by a digit is a power of ten, so its last digit can go. */
  lemma CarryIsExact(t: string, max: nat)
    requires Canonical(t) && 0 < max < |t| && Val(t) <= Pow(10, max)
    ensures Val(t) == 10 * Val(t[..max])
  {
    hide Pow, Val;
    CanonicalBound(t);
    PowMonotone(10, max, |t| - 1);
    if |t| > max + 1 {
      PowStep(max);
      PowMonotone(10, max + 1, |t| - 1);
      assert false;
    }
    LastIsZero(t, max);
  }

  lemma LastIsZero(t: string, max: nat)
    requires AllDigits(t) && |t| == max + 1 && 0 < max && Val(t) == Pow(10, max)
    ensures Val(t) == 10 * Val(t[..max])
  {
    PowStep(max - 1);
    hide Pow;
    assert Val(t) == 10 * Val(t[..max]) + Digit(t[max]);
  }

  lemma TimesTen(a: nat, n: nat)
    ensures a * Pow(10, n + 1) == 10 * a * Pow(10, n)
  {
    PowStep(n);
    MulDistributes(a, 10, Pow(10, n));
  }

  /**
   * Of everything a coefficient of `max` digits and any exponent can denote, places
   * below the literal's last digit included, the rounded value is nearest; it is off
   * by at most half a unit of the last digit kept, and a tie goes away from zero.
   */
  lemma FitIsNearest(digits: string, max: nat, c: nat, j: int)
    requires Canonical(digits) && 0 < max < |digits| && c < Pow(10, max)
    ensures var ((s, k), n) := (Fit(digits, max), Val(digits));
      var (rounded, unit) := (Val(s) * Pow(10, k), Pow(10, |digits| - max));
      && (j >= 0 ==> Distance(rounded, n) <= Distance(c * Pow(10, j), n))
      && (j < 0 ==> Distance(rounded, n) * Pow(10, -j) <= Distance(c, n * Pow(10, -j)))
      && 2 * Distance(rounded, n) <= unit
      && (2 * Distance(rounded, n) == unit ==> rounded > n)
  {
    var (n, dropped) := (Val(digits), |digits| - max);
    FitIsHalfUp(digits, max);
    HalfUpBound(n, dropped);
    hide HalfUp, Fit;
    var unit := Pow(10, dropped);
    if j >= dropped {
      PowAdd(10, j - dropped, dropped);
      MulDistributes(c, Pow(10, j - dropped), unit);
      HalfUpNearest(n, dropped, c * Pow(10, j - dropped));
    } else {
      CanonicalBound(digits);
      PowAdd(10, max - 1, dropped);
      HalfUpNearest(n, dropped, Pow(10, max - 1));
      if j >= 0 {
        PowMonotone(10, j, dropped - 1);
        ScaledBelow(c, max, j, dropped);
      } else {
        PowMonotone(10, max, max - 1 + dropped);
        PowPositive(10, -j);
        FarBelow(HalfUp(n, dropped) * unit, n, Pow(10, max - 1 + dropped), c, Pow(10, -j));
      }
    }
  }

  /** In units of a smaller place, what is below `top` is as far from `n` as `top` is, and further. */
  lemma FarBelow(rounded: nat, n: nat, top: nat, c: nat, p: nat)
    requires c <= top <= n && Distance(rounded, n) <= Distance(top, n) && p > 0
    ensures Distance(rounded, n) * p <= Distance(c, n * p)
  {
    MulMonotone(Distance(rounded, n), n - top, p);
    MulDistributes(n - top, top, p);
    MulMonotone(1, p, top);
    MulDistributes(top, p, 1);
    MulMonotone(1, p, n);
    MulDistributes(n, p, 1);
  }

  lemma ScaledBelow(c: nat, max: nat, j: nat, dropped: nat)
    requires c < Pow(10, max) && 0 < max && j < dropped
    ensures c * Pow(10, j) <= Pow(10, max - 1) * Pow(10, dropped) == Pow(10, max - 1 + dropped)
  {
    MulMonotone(c, Pow(10, max), Pow(10, j));
    PowAdd(10, max, j);
    PowMonotone(10, max + j, max - 1 + dropped);
    PowAdd(10, max - 1, dropped);
  }

  // ---- text ------------------------------------------------------------------------

  /** Coefficient and exponent as plain decimal text. */
  function Plain(digits: string, exp: int): string
    requires AllDigits(digits)
  {
    if digits == "0" then "0"
    else if exp == 0 then digits
    else if exp > 0 then digits + Zeros(exp)
    else
      var point := |digits| + exp;
      if point > 0 then digits[..point] + ("." + digits[point..])
      else "0" + ("." + (Zeros(-point) + digits))
  }

  function Show(n: Number): string
    requires AllDigits(n.digits)
  {
    if n.neg then "-" + Plain(n.digits, n.exp) else Plain(n.digits, n.exp)
  }

  /** A leading integer and nothing else about the text; None stands for NaN. */
  function ParseInt(s: string): Option<int>
  {
    if s != [] && IsSpace(s[0]) then ParseInt(s[1..])
    else
      var signed := s != [] && (s[0] == '+' || s[0] == '-');
      var t := if signed then s[1..] else s;
      var n := Span(t);
      if n == 0 then None
      else
        var v: int := Val(t[..n]);
        Some(if signed && s[0] == '-' then -v else v)
  }

  function ParseDecimal(input: string): (r: Option<Literal>)
    ensures r.Some? ==> Canonical(r.value.digits)
  {
    var s := Trim(input);
    if s != [] && (s[0] == '+' || s[0] == '-') then ParseUnsigned(s[1..], s[0] == '-') else ParseUnsigned(s, false)
  }

  function ParseUnsigned(s: string, neg: bool): (r: Option<Literal>)
    ensures r.Some? ==> Canonical(r.value.digits)
  {
    var e := IndexOf(s, "eE");
    ParseMantissa(s[..e], if e < |s| then ParseInt(s[e + 1..]) else Some(0), neg)
  }

  function ParseMantissa(s: string, exp: Option<int>, neg: bool): (r: Option<Literal>)
    ensures r.Some? ==> Canonical(r.value.digits)
  {
    var dot := IndexOf(s, ".");
    var pointed := dot < |s|;
    var digits := if pointed then s[..dot] + s[dot + 1..] else s;
    if digits == [] || !AllDigits(digits) then None
    else Some(Literal(neg, Strip(digits),
                      if pointed && exp.Some? then Some(exp.value - (|s| - dot - 1)) else exp))
  }

  /** What parsing makes of a printed number: the same value; zero and positive exponents are written out. */
  function Reread(n: Number): Literal
    requires Canonical(n.digits)
  {
    if n.digits == "0" then Literal(n.neg, "0", Some(0))
    else if n.exp > 0 then Literal(n.neg, n.digits + Zeros(n.exp), Some(0))
    else Literal(n.neg, n.digits, Some(n.exp))
  }

  lemma {:induction false} NoneOf(s: string, t: string, chars: string)
    requires (forall k | 0 <= k < |s| :: s[k] !in chars) && (t == [] || t[0] in chars)
    ensures IndexOf(s + t, chars) == |s|
  {
    if s != [] {
      NoneOf(s[1..], t, chars);
      assert (s + t)[1..] == s[1..] + t && (s + t)[0] == s[0];
    } else {
      assert s + t == t;
    }
  }

  lemma PlainDigits(s: string, neg: bool)
    requires AllDigits(s) && s != []
    ensures ParseUnsigned(s, neg) == Some(Literal(neg, Strip(s), Some(0)))
  {
    assert s + [] == s == s[..|s|];
    NoneOf(s, [], "eE");
    NoneOf(s, [], ".");
  }

  lemma PointedDigits(a: string, b: string, neg: bool)
    requires AllDigits(a) && AllDigits(b) && a + b != []
    ensures ParseUnsigned(a + ("." + b), neg) == Some(Literal(neg, Strip(a + b), Some(-|b|)))
  {
    hide Strip, IndexOf, ParseMantissa;
    var s := a + ("." + b);
    assert s + [] == s == s[..|s|];
    NoneOf(s, [], "eE");
    PointedMantissa(a, b, neg);
  }

  lemma PointedMantissa(a: string, b: string, neg: bool)
    requires AllDigits(a) && AllDigits(b) && a + b != []
    ensures ParseMantissa(a + ("." + b), Some(0), neg) == Some(Literal(neg, Strip(a + b), Some(-|b|)))
  {
    hide Strip, IndexOf;
    var s := a + ("." + b);
    NoneOf(a, "." + b, ".");
    assert s[..|a|] == a && s[|a| + 1..] == b;
  }

  lemma PlainParse(n: Number)
    requires Canonical(n.digits)
    ensures ParseUnsigned(Plain(n.digits, n.exp), n.neg) == Some(Reread(n))
  {
    hide ParseUnsigned, Strip, Zeros;
    var (d, point) := (n.digits, |n.digits| + n.exp);
    if d == "0" || n.exp == 0 {
      PlainDigits(d, n.neg);
      StripCanonical(d);
    } else if n.exp > 0 {
      PlainDigits(d + Zeros(n.exp), n.neg);
      StripCanonical(d + Zeros(n.exp));
    } else if point > 0 {
      PointedDigits(d[..point], d[point..], n.neg);
      assert d[..point] + d[point..] == d;
      StripCanonical(d);
    } else {
      PointedDigits("0", Zeros(-point) + d, n.neg);
      OneMoreZero(-point);
      assert "0" + (Zeros(-point) + d) == ("0" + Zeros(-point)) + d;
      StripPadded(d, 1 - point);
    }
  }

  lemma StripCanonical(s: string)
    requires Canonical(s)
    ensures Strip(s) == s
  {
  }

  lemma OneMoreZero(n: nat)
    ensures "0" + Zeros(n) == Zeros(n + 1)
  {
  }

  lemma PlainEdges(d: string, exp: int)
    requires Canonical(d)
    ensures var s := Plain(d, exp); s != [] && IsDigit(s[0]) && IsDigit(s[|s| - 1])
  {
    var (s, point) := (Plain(d, exp), |d| + exp);
    if d != "0" && exp < 0 {
      assert s[|s| - 1] == d[|d| - 1];
    }
  }

  /** Printing and parsing again gives the number back. */
  lemma ShowParse(n: Number)
    requires Canonical(n.digits)
    ensures ParseDecimal(Show(n)) == Some(Reread(n))
  {
    hide Plain, ParseUnsigned, Reread, Trim;
    PlainParse(n);
    PlainEdges(n.digits, n.exp);
    TrimKeeps(Show(n));
    assert n.neg ==> Show(n)[1..] == Plain(n.digits, n.exp);
  }

  /** `a * 10^i` and `b * 10^j` are the same value. */
  predicate SameValue(a: nat, i: int, b: nat, j: int) {
    if i >= j then a * Pow(10, i - j) == b else b * Pow(10, j - i) == a
  }

  lemma RereadSameValue(n: Number)
    requires Canonical(n.digits)
    ensures var l := Reread(n);
      l.neg == n.neg && l.exp.Some? && SameValue(Val(n.digits), n.exp, Val(l.digits), l.exp.value)
  {
    if n.exp > 0 && n.digits != "0" {
      ValConcat(n.digits, Zeros(n.exp));
      ValOfZeros(n.exp);
    }
    assert Val("0") == 10 * Val([]) + 0;
  }

  /**
   * A literal whose exponent is not a number, as in `1e`, passes for the smallest
   * exponent of the format, whatever its point said.
   */
  lemma MissingExponent(value: string, f: Format)
    requires Known(f) && Special(value).None? && ParseDecimal(value).Some? && ParseDecimal(value).value.exp.None?
    ensures var l := ParseDecimal(value).value;
      var b := EncodeText(value, f);
      b.Some? && Decode(b.value, f) == Finite(Number(l.neg, Fit(l.digits, f.MaxDigits()).0, 0 - f.bias))
  {
    hide ParseDecimal, Special, Decode, Fit, Strip, Coefficient, Word, Head, ToBytes, Pow;
    var l := ParseDecimal(value).value;
    var low := l.(exp := Some(0 - f.bias - Fit(l.digits, f.MaxDigits()).1));
    PowPositive(2, f.expContBits);
    assert Int32(0) == 0;
    NoQuotient(Pow(2, f.expContBits));
    assert Encode(low, f) == Encode(l, f);
    EncodeDecode(low, f);
  }

  lemma NoQuotient(e: nat)
    requires e > 0
    ensures 0 / e == 0 && 0 % e == 0
  {
  }

  lemma ExponentNotANumber()
    ensures ParseDecimal("1e") == Some(Literal(false, "1", None))
  {
    assert Trim("1e") == "1e";
    assert IndexOf("1e", "eE") == 1 by { NoneOf("1", "e", "eE"); assert "1e" == "1" + "e"; }
    NoneOf("1", [], ".");
    assert "1" + [] == "1" == "1e"[..1] && "1e"[2..] == [];
  }

  /** The top six bits of an infinity or a quiet NaN, when the text names one. */
  function Special(value: string): (h: Option<nat>)
    ensures h.Some? ==> h.value in {30, 31, 62}
  {
    var s := Lower(Trim(value));
    var signed := s != [] && (s[0] == '+' || s[0] == '-');
    var name := if signed then s[1..] else s;
    if name == "inf" || name == "infinity" then Some(if s[0] == '-' then 62 else 30)
    else if name == "nan" then Some(31)
    else None
  }

  function ZeroBytes(n: nat): (b: Bytes)
    ensures |b| == n
  {
    seq(n, _ => 0)
  }

  function EncodeText(value: string, f: Format): (b: Option<Bytes>)
    requires Known(f)
    ensures b.Some? ==> |b.value| == f.width
  {
    match Special(value)
    case Some(head) => Some([4 * head] + ZeroBytes(f.width - 1))
    case None =>
      match ParseDecimal(value)
      case None => None
      case Some(l) => Encode(l, f)
  }

  function DecodeText(b: Bytes, f: Format): string
    requires Known(f) && |b| == f.width
  {
    match Decode(b, f)
    case Infinity(neg) => if neg then "-Infinity" else "Infinity"
    case NaN => "NaN"
    case Finite(n) => DecodedCanonical(b, f); Show(n)
  }

  lemma DecodedCanonical(b: Bytes, f: Format)
    requires Known(f) && |b| == f.width && Decode(b, f).Finite?
    ensures Canonical(Decode(b, f).number.digits)
  {
    hide Fields, Strip, DigitsOf, SplitCombination, FromBytes, Canonical;
  }

  /**
   * Text to bytes to text keeps the value: when the coefficient fits and the biased
   * exponent is in range, reparsing what was decoded gives the same sign and value.
   */
  lemma TextRoundTrip(value: string, f: Format)
    requires Known(f) && Special(value).None? && ParseDecimal(value).Some? && ParseDecimal(value).value.exp.Some?
    requires var l := ParseDecimal(value).value;
      |l.digits| <= f.MaxDigits() && 0 <= l.exp.value + f.bias < f.ExpRange()
    ensures var l := ParseDecimal(value).value;
      var b := EncodeText(value, f);
      b.Some? && var r := ParseDecimal(DecodeText(b.value, f));
      r.Some? && r.value.exp.Some? && r.value.neg == l.neg &&
      SameValue(Val(l.digits), l.exp.value, Val(r.value.digits), r.value.exp.value)
  {
    hide ParseDecimal, Special, Encode, Decode, Show, Pow, Reread;
    var l := ParseDecimal(value).value;
    var n := Number(l.neg, l.digits, l.exp.value);
    assert Fit(l.digits, f.MaxDigits()) == (l.digits, 0);
    EncodeDecode(l, f);
    ShowParse(n);
    RereadSameValue(n);
  }

  lemma {:induction false} FromZeros(b: Bytes, n: nat)
    ensures FromBytes(b + ZeroBytes(n)) == FromBytes(b) * Pow(256, n)
  {
    var s := b + ZeroBytes(n);
    if n == 0 {
      assert s == b;
    } else {
      FromZeros(b, n - 1);
      assert s[..|s| - 1] == b + ZeroBytes(n - 1) && s[|s| - 1] == 0;
      MulDistributes(FromBytes(b), 256, Pow(256, n - 1));
      MulDistributes(256, FromBytes(b), Pow(256, n - 1));
    }
  }

  lemma SpecialWord(head: nat, f: Format)
    requires Known(f) && head < 64
    ensures FromBytes([4 * head] + ZeroBytes(f.width - 1)) == Word(head, 0, 0, f)
  {
    FromZeros([4 * head], f.width - 1);
    assert [4 * head][..0] == [] && FromBytes([4 * head]) == 256 * FromBytes([]) + 4 * head;
    FieldsFill(f);
    SpecialArithmetic(head, Pow(2, f.expContBits), Pow(1024, f.declets), Pow(256, f.width - 1));
  }

  lemma SpecialArithmetic(head: nat, e: nat, c: nat, p: nat)
    requires 64 * (e * c) == 256 * p
    ensures 4 * head * p == (head * e + 0) * c + 0
  {
    MulDistributes(head, e, c);
    MulDistributes(4, head, p);
    MulDistributes(head, 4, p);
  }

  /** The names of infinities and NaN survive the trip as well. */
  lemma SpecialRoundTrip(value: string, f: Format)
    requires Known(f) && Special(value).Some?
    ensures Decode(EncodeText(value, f).value, f) ==
      if Special(value).value == 31 then NaN else Infinity(Special(value).value == 62)
    ensures Special(DecodeText(EncodeText(value, f).value, f)) == Special(value)
  {
    SpecialNames();
    hide Special, Pow, Word, FromBytes, Fields, DecodeFields;
    var head := Special(value).value;
    SpecialWord(head, f);
    FieldsFill(f);
    WordFields(head, 0, 0, f);
    SpecialFields(head, f);
  }

  lemma SpecialFields(head: nat, f: Format)
    requires head in {30, 31, 62}
    ensures DecodeFields(head, 0, 0, f) == if head == 31 then NaN else Infinity(head == 62)
  {
    hide Pow, SplitCombination, DigitsOf, Strip, DigitChar;
  }

  lemma SpecialNames()
    ensures Special("Infinity") == Some(30) && Special("-Infinity") == Some(62) && Special("NaN") == Some(31)
  {
    assert Lower(Trim("Infinity")) == "infinity";
    assert Lower(Trim("-Infinity")) == "-infinity" && "-infinity"[1..] == "infinity";
    assert Lower(Trim("NaN")) == "nan";
  }

  // ---- the loops -------------------------------------------------------------------

  function Shifted(c: nat, d: nat): nat
  {
    PowPositive(1024, d);
    c / Pow(1024, d)
  }

  lemma ShiftOneMore(c: nat, d: nat)
    ensures Shifted(c, 0) == c && Shifted(c, d) / 1024 == Shifted(c, d + 1)
  {
    var p := Pow(1024, d);
    PowPositive(1024, d);
    assert c / 1 == c;
    DivDiv(c, p, 1024);
  }

  lemma DivDiv(c: nat, p: nat, k: nat)
    requires p > 0 && k > 0
    ensures k * p > 0 && c / p / k == c / (k * p)
  {
    var q := c / p / k;
    DivBounds(c, p);
    DivBounds(c / p, k);
    DivDivBounds(c, c / p, p, k, q);
    DivUnique(c, k * p, q);
  }

  lemma DivDivBounds(c: nat, d: nat, p: nat, k: nat, q: nat)
    requires p > 0 && k > 0 && d * p <= c < d * p + p && q * k <= d < q * k + k
    ensures k * p > 0 && q * (k * p) <= c < q * (k * p) + k * p
  {
    MulMonotone(q * k, d, p);
    MulMonotone(d, q * k + k - 1, p);
    MulDistributes(q, k, p);
    MulDistributes(q * k, k - 1, p);
    MulDistributes(k, -1, p);
    MulMonotone(1, k, p);
  }

  method ReadWord(b: Bytes) returns (v: nat)
    ensures v == FromBytes(b)
  {
    v := 0;
    for i := 0 to |b|
      invariant v == FromBytes(b[..i])
    {
      v := 256 * v + b[i];
      assert b[..i + 1][..i] == b[..i];
    }
    assert b[..|b|] == b;
  }

  method DecodeDecFloat(b: Bytes) returns (text: string)
    requires |b| == 8 || |b| == 16
    ensures text == DecodeText(b, if |b| == 8 then DEC64 else DEC128)
  {
    hide Pow, FromBytes, Fields, DigitsOf, Strip, Show, DigitChar, SplitCombination, Canonical;
    var f := if |b| == 8 then DEC64 else DEC128;
    var v := ReadWord(b);
    var (top, cont, coefficient) := Fields(v, f);
    var (neg, combo) := (top / 32 % 2 == 1, top % 32);
    if combo >= 30 {
      return if combo == 30 then (if neg then "-Infinity" else "Infinity") else "NaN";
    }
    var (msb, msd) := SplitCombination(combo);
    var digits := DecodeDigits(coefficient, f.declets, msd);
    DecodedCanonical(b, f);
    text := Show(Number(neg, Strip(digits), msb * Pow(2, f.expContBits) + cont - f.bias));
  }

  /** Declets from the most significant one down, through the table. */
  method DecodeDigits(coefficient: nat, declets: nat, msd: nat) returns (digits: string)
    requires msd <= 9
    ensures digits == [DigitChar(msd)] + DigitsOf(coefficient, declets)
  {
    hide Pow, DigitsOf, Three, DigitChar, Dpd, Shifted;
    var table := BuildDpdTable();
    digits := [DigitChar(msd)];
    var d := declets;
    NoDeclets(Shifted(coefficient, declets));
    while d > 0
      invariant 0 <= d <= declets && (forall n | 0 <= n < 1024 :: table[n] == Dpd(n))
      invariant digits == [DigitChar(msd)] + DigitsOf(Shifted(coefficient, d), declets - d)
    {
      d := d - 1;
      ShiftOneMore(coefficient, d);
      var declet := Shifted(coefficient, d) % 1024;
      digits := digits + Three(table[declet]);
      NextDeclet(Shifted(coefficient, d), declets - d);
    }
    ShiftOneMore(coefficient, 0);
  }

  lemma NoDeclets(c: nat)
    ensures DigitsOf(c, 0) == []
  {
  }

  lemma NextDeclet(c: nat, n: nat)
    requires n > 0
    ensures DigitsOf(c, n) == DigitsOf(c / 1024, n - 1) + Three(Dpd(c % 1024))
  {
  }

  /** The declets of an encoding, one after the other into the word. */
  method AppendDeclets(head: nat, digits: string, declets: nat) returns (v: nat)
    requires AllDigits(digits) && |digits| == 3 * declets
    ensures v == head * Pow(1024, declets) + Coefficient(digits, declets)
  {
    hide Digit, EncodeDeclet, Coefficient, Pow;
    v := head;
    NoGroups(digits[..3 * 0]);
    assert head * 1 == head;
    var i := 0;
    while i < declets
      invariant 0 <= i <= declets
      invariant v == head * Pow(1024, i) + Coefficient(digits[..3 * i], i)
    {
      var k := 3 * i;
      CoefficientSplit(digits[..k + 3], i + 1);
      assert digits[..k + 3][..k] == digits[..k];
      OneMoreDeclet(head, i);
      v := 1024 * v + EncodeDeclet(Digit(digits[k]), Digit(digits[k + 1]), Digit(digits[k + 2]));
      i := i + 1;
    }
    assert digits[..3 * declets] == digits;
  }

  lemma OneMoreDeclet(head: nat, i: nat)
    ensures head * Pow(1024, i + 1) == 1024 * (head * Pow(1024, i))
  {
    MulDistributes(head, 1024, Pow(1024, i));
    MulDistributes(1024, head, Pow(1024, i));
  }

  /** The low bytes of the word, from the last one back to the first. */
  method WriteBytes(word: nat, width: nat) returns (b: Bytes)
    ensures b == ToBytes(word, width)
  {
    var buf := new Byte[width](_ => 0);
    var v: nat, i := word, width;
    while i > 0
      invariant 0 <= i <= width
      invariant ToBytes(v, i) + buf[i..] == ToBytes(word, width)
    {
      i := i - 1;
      buf[i] := v % 256;
      assert buf[i..] == [v % 256] + buf[i + 1..];
      assert ToBytes(v / 256, i) + ([v % 256] + buf[i + 1..]) == (ToBytes(v / 256, i) + [v % 256]) + buf[i + 1..];
      v := v / 256;
    }
    b := buf[..];
  }

  method EncodeDecFloat(value: string, width: nat) returns (b: Option<Bytes>)
    requires width == 8 || width == 16
    ensures b == EncodeText(value, if width == 8 then DEC64 else DEC128)
  {
    hide ParseDecimal, Special, Fit, Padded, ExponentField, Head, Coefficient, ToBytes, Pow, Digit;
    var f := if width == 8 then DEC64 else DEC128;
    var special := Special(value);
    if special.Some? { return Some([4 * special.value] + ZeroBytes(width - 1)); }
    var l := ParseDecimal(value);
    if l.None? { return None; }
    var (digits, shift) := Fit(l.value.digits, f.MaxDigits());
    var s := Padded(digits, f.MaxDigits());
    var field := ExponentField(if l.value.exp.None? then None else Some(l.value.exp.value + shift), f);
    if field.None? { return None; }
    var (msb, cont) := field.value;
    var head := Head(l.value.neg, msb, Digit(s[0])) * Pow(2, f.expContBits) + cont;
    var word := AppendDeclets(head, s[1..], f.declets);
    var bytes := WriteBytes(word, f.width);
    b := Some(bytes);
  }
}
