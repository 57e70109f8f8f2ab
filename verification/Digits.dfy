/** Strings of decimal digits, their value, and rounding half away from zero. */
module Digits {
  import opened Text

  function Digit(c: char): (d: nat)
    requires IsDigit(c)
    ensures d <= 9
  {
    c as int - '0' as int
  }

  function Pow(b: nat, e: nat): nat { if e == 0 then 1 else b * Pow(b, e - 1) }

  function Val(s: string): nat
    requires AllDigits(s)
  {
    if s == [] then 0 else 10 * Val(s[..|s| - 1]) + Digit(s[|s| - 1])
  }

  function Zeros(n: nat): (s: string)
    ensures |s| == n && AllDigits(s) && (forall i | 0 <= i < n :: s[i] == '0')
  {
    seq(n, _ => '0')
  }

  /** No leading zero, except for zero itself. */
  predicate Canonical(s: string) { AllDigits(s) && s != [] && (|s| == 1 || s[0] != '0') }

  /** Drops leading zeros, but keeps one digit. */
  function Strip(s: string): (r: string)
    requires AllDigits(s)
    ensures AllDigits(r) && |r| <= |s| && (s != [] ==> Canonical(r))
  {
    if |s| > 1 && s[0] == '0' then Strip(s[1..]) else s
  }

  lemma {:induction false} StripZeros(s: string)
    requires AllDigits(s)
    ensures s == Zeros(|s| - |Strip(s)|) + Strip(s)
  {
    if |s| > 1 && s[0] == '0' {
      StripZeros(s[1..]);
      var n := |s| - |Strip(s)|;
      assert s == ['0'] + s[1..] && ['0'] + Zeros(n - 1) == Zeros(n);
      assert ['0'] + (Zeros(n - 1) + Strip(s)) == (['0'] + Zeros(n - 1)) + Strip(s);
    }
  }

  lemma StripKeepsValue(s: string)
    requires AllDigits(s)
    ensures Val(Strip(s)) == Val(s)
  {
    StripZeros(s);
    var n := |s| - |Strip(s)|;
    ValOfZeros(n);
    ValConcat(Zeros(n), Strip(s));
  }

  /** A number in decimal, as an arbitrary-precision integer prints itself. */
  function Decimal(n: nat): (s: string)
    ensures Canonical(s) && Val(s) == n
  {
    var d := [(n % 10 + '0' as int) as char];
    if n < 10 then d
    else
      var s := Decimal(n / 10);
      assert (s + d)[..|s|] == s;
      s + d
  }

  lemma {:induction false} PowAdd(b: nat, m: nat, n: nat)
    ensures Pow(b, m + n) == Pow(b, m) * Pow(b, n)
  {
    if m > 0 {
      PowAdd(b, m - 1, n);
      MulDistributes(b, Pow(b, m - 1), Pow(b, n));
    }
  }

  lemma {:induction false} PowPositive(b: nat, e: nat)
    requires b > 0
    ensures Pow(b, e) >= 1
  {
    if e > 0 {
      PowPositive(b, e - 1);
      assert b * Pow(b, e - 1) >= Pow(b, e - 1) by { MulMonotone(1, b, Pow(b, e - 1)); }
    }
  }

  lemma {:induction false} PowMonotone(b: nat, m: nat, n: nat)
    requires b > 0 && m <= n
    ensures Pow(b, m) <= Pow(b, n)
  {
    PowAdd(b, m, n - m);
    PowPositive(b, n - m);
    MulMonotone(1, Pow(b, n - m), Pow(b, m));
    MulDistributes(Pow(b, m), Pow(b, n - m), 1);
  }

  lemma MulMonotone(a: int, b: int, c: nat)
    requires a <= b
    ensures a * c <= b * c
  {
    if c > 0 { MulMonotone(a, b, c - 1); }
  }

  lemma LastOfConcat(a: string, b: string)
    requires b != []
    ensures (a + b)[..|a + b| - 1] == a + b[..|b| - 1] && (a + b)[|a + b| - 1] == b[|b| - 1]
  {
  }

  lemma {:induction false} ValConcat(a: string, b: string)
    requires AllDigits(a) && AllDigits(b)
    ensures AllDigits(a + b) && Val(a + b) == Val(a) * Pow(10, |b|) + Val(b)
    decreases |b|
  {
    if b == [] {
      assert a + b == a;
    } else {
      var init := b[..|b| - 1];
      ValConcat(a, init);
      LastOfConcat(a, b);
      assert 10 * (Val(a) * Pow(10, |init|)) == Val(a) * (10 * Pow(10, |init|));
    }
  }

  lemma {:induction false} ValBound(s: string)
    requires AllDigits(s)
    ensures Val(s) < Pow(10, |s|)
  {
    if s != [] { ValBound(s[..|s| - 1]); }
  }

  lemma {:induction false} ValOfZeros(n: nat)
    ensures Val(Zeros(n)) == 0
  {
    if n > 0 {
      ValOfZeros(n - 1);
      assert Zeros(n)[..n - 1] == Zeros(n - 1);
    }
  }

  /** A canonical string is at least the power of ten that its length names. */
  lemma {:induction false} CanonicalBound(s: string)
    requires Canonical(s) && s[0] != '0'
    ensures Pow(10, |s| - 1) <= Val(s)
  {
    ValConcat(s[..1], s[1..]);
    assert s == s[..1] + s[1..];
    assert Val(s[..1]) == 10 * Val([]) + Digit(s[0]);
    MulMonotone(1, Val(s[..1]), Pow(10, |s| - 1));
  }

  lemma SameLastDigit(x: nat, c: char, y: nat, d: char)
    requires IsDigit(c) && IsDigit(d) && 10 * x + Digit(c) == 10 * y + Digit(d)
    ensures x == y && c == d
  {
  }

  lemma {:induction false} SameLengthUnique(a: string, b: string)
    requires AllDigits(a) && AllDigits(b) && |a| == |b| && Val(a) == Val(b)
    ensures a == b
  {
    hide Digit;
    if a != [] {
      var (a', b', c, d) := (a[..|a| - 1], b[..|b| - 1], a[|a| - 1], b[|b| - 1]);
      SameLastDigit(Val(a'), c, Val(b'), d);
      SameLengthUnique(a', b');
      assert a == a' + [c] && b == b' + [d];
    }
  }

  /** A value has one canonical string. */
  lemma CanonicalUnique(a: string, b: string)
    requires Canonical(a) && Canonical(b) && Val(a) == Val(b)
    ensures a == b
  {
    if |a| != |b| {
      var (short, long) := if |a| < |b| then (a, b) else (b, a);
      CanonicalBound(long);
      ValBound(short);
      PowMonotone(10, |short|, |long| - 1);
    } else {
      SameLengthUnique(a, b);
    }
  }

  /** Padding a canonical string on the left and stripping it again gives it back. */
  lemma StripPadded(s: string, n: nat)
    requires Canonical(s)
    ensures Strip(Zeros(n) + s) == s
  {
    ValConcat(Zeros(n), s);
    ValOfZeros(n);
    StripKeepsValue(Zeros(n) + s);
    CanonicalUnique(Strip(Zeros(n) + s), s);
  }

  // ---- rounding -----------------------------------------------------------------

  /** `n / 10^k`, to the nearest integer, ties up. */
  function HalfUp(n: nat, k: nat): nat
  {
    PowPositive(10, k);
    (2 * n + Pow(10, k)) / (2 * Pow(10, k))
  }

  lemma DivUnique(n: nat, d: nat, q: nat)
    requires d > 0 && q * d <= n < q * d + d
    ensures n / d == q
  {
    DivBounds(n, d);
    MultiplesApart(n / d, q, d);
  }

  lemma MulDistributes(a: int, b: int, c: int)
    ensures (a + b) * c == a * c + b * c && (a * b) * c == a * (b * c) && a * b == b * a
  {
  }

  /** Rounding `hi * p + low` by the leading digit `h` of `low`. */
  lemma RoundCore(hi: nat, p: nat, low: nat, h: nat, unit: nat, tail: nat)
    requires p == 10 * unit > 0 && h <= 9 && tail < unit && low == h * unit + tail
    ensures (2 * (hi * p + low) + p) / (2 * p) == hi + (if h >= 5 then 1 else 0)
  {
    if h >= 5 { MulMonotone(5, h, unit); MulMonotone(h, 9, unit); } else { MulMonotone(h, 4, unit); }
    var up := if h >= 5 then 1 else 0;
    var whole := hi * p;
    assert (hi + up) * (2 * p) == 2 * whole + up * (2 * p) by {
      MulDistributes(hi, up, 2 * p);
      MulDistributes(hi, 2, p);
      MulDistributes(2, hi, p);
    }
    DivUnique(2 * (whole + low) + p, 2 * p, hi + up);
  }

  lemma LeadingDigit(s: string)
    requires AllDigits(s) && s != []
    ensures Val(s) == Digit(s[0]) * Pow(10, |s| - 1) + Val(s[1..])
  {
    hide Val, Digit, Pow;
    assert s == s[..1] + s[1..] && s[..1] == [s[0]];
    ValOfDigit(s[0]);
    ValConcat(s[..1], s[1..]);
  }

  lemma ValOfDigit(c: char)
    requires IsDigit(c)
    ensures Val([c]) == Digit(c)
  {
    assert [c][..0] == [] && Val([c]) == 10 * Val([]) + Digit(c);
  }

  lemma PowStep(n: nat)
    ensures Pow(10, n + 1) == 10 * Pow(10, n) >= 10
  {
    PowPositive(10, n);
  }

  /** Cutting a digit string and looking at the first dropped digit rounds it. */
  lemma RoundByDigit(s: string, keep: nat)
    requires AllDigits(s) && keep < |s|
    ensures Val(s[..keep]) + (if s[keep] >= '5' then 1 else 0) == HalfUp(Val(s), |s| - keep)
  {
    hide HalfUp, Pow, Val;
    var (hi, low) := (s[..keep], s[keep..]);
    ValBound(low[1..]);
    PowStep(|low| - 1);
    LeadingDigit(low);
    RoundCore(Val(hi), Pow(10, |low|), Val(low), Digit(low[0]), Pow(10, |low| - 1), Val(low[1..]));
    HalfUpOfConcat(hi, low);
    assert s == hi + low;
  }

  lemma HalfUpOfConcat(hi: string, low: string)
    requires AllDigits(hi) && AllDigits(low)
    ensures var p := Pow(10, |low|);
      p > 0 && HalfUp(Val(hi + low), |low|) == (2 * (Val(hi) * p + Val(low)) + p) / (2 * p)
  {
    hide Val, Pow, IsDigit;
    PowPositive(10, |low|);
    ValConcat(hi, low);
    var p := Pow(10, |low|);
    assert HalfUp(Val(hi + low), |low|) == (2 * Val(hi + low) + p) / (2 * p);
  }

  function Distance(a: int, b: int): nat { if a < b then b - a else a - b }

  /** `HalfUp` is within half a unit, and on the far side at a tie. */
  lemma HalfUpBound(n: nat, k: nat)
    ensures var (q, p) := (HalfUp(n, k), Pow(10, k));
      && 2 * Distance(q * p, n) <= p
      && (2 * Distance(q * p, n) == p ==> q * p > n)
  {
    var p := Pow(10, k);
    PowPositive(10, k);
    HalfUpCore(n, p, HalfUp(n, k));
  }

  lemma HalfUpCore(n: nat, p: nat, q: nat)
    requires p > 0 && q == (2 * n + p) / (2 * p)
    ensures 2 * n - p < 2 * (q * p) <= 2 * n + p
  {
    var d := 2 * p;
    assert q * d <= 2 * n + p < q * d + d by { DivBounds(2 * n + p, d); }
    MulDistributes(2, q, p);
    MulDistributes(q, 2, p);
  }

  lemma DivMod(q: nat, r: nat, b: nat)
    requires r < b
    ensures (q * b + r) / b == q && (q * b + r) % b == r
  {
    var n := q * b + r;
    DivUnique(n, b, q);
    DivBounds(n, b);
  }

  lemma DivBounds(n: nat, d: nat)
    requires d > 0
    ensures (n / d) * d <= n < (n / d) * d + d && n % d == n - (n / d) * d
  {
  }

  /** No other multiple of the unit is nearer. */
  lemma HalfUpNearest(n: nat, k: nat, m: int)
    ensures Distance(HalfUp(n, k) * Pow(10, k), n) <= Distance(m * Pow(10, k), n)
  {
    var p := Pow(10, k);
    PowPositive(10, k);
    HalfUpBound(n, k);
    MultiplesApart(m, HalfUp(n, k), p);
  }

  lemma MultiplesApart(m: int, q: int, p: nat)
    ensures m < q ==> m * p <= q * p - p
    ensures m > q ==> m * p >= q * p + p
  {
    if m < q { MulMonotone(m, q - 1, p); MulDistributes(q, -1, p); }
    if m > q { MulMonotone(q + 1, m, p); MulDistributes(q, 1, p); }
  }
}
