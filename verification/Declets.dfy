/**
 * Densely packed decimal (types/decfloat.ts; section 3.5.2 of IEEE 754-2008):
 * three decimal digits in ten bits, and the table the decoder looks them up in.
 */
module Declets {
  import opened Digits

  /** The bits of a decimal digit, high to low. */
  datatype Bcd = Bcd(b3: bool, b2: bool, b1: bool, b0: bool)

  /** The bits of a declet, high to low. */
  datatype Declet = Declet(p: bool, q: bool, r: bool, s: bool, t: bool, u: bool, v: bool, w: bool, x: bool, y: bool)

  function Bit(b: bool): nat { if b then 1 else 0 }

  function ToBcd(d: nat): Bcd
    requires d <= 9
  {
    Bcd(d / 8 % 2 == 1, d / 4 % 2 == 1, d / 2 % 2 == 1, d % 2 == 1)
  }

  function OfBcd(b: Bcd): nat { 8 * Bit(b.b3) + 4 * Bit(b.b2) + 2 * Bit(b.b1) + Bit(b.b0) }

  predicate IsDecimal(b: Bcd) { b.b3 ==> !b.b2 && !b.b1 }

  lemma BcdRoundTrip(d: nat)
    requires d <= 9
    ensures IsDecimal(ToBcd(d)) && OfBcd(ToBcd(d)) == d
  {
  }

  lemma BcdOf(b: Bcd)
    requires IsDecimal(b)
    ensures OfBcd(b) <= 9 && ToBcd(OfBcd(b)) == b
  {
  }

  /** Three digits in ten bits, in the eight cases of their high bits. */
  function Pack(d2: Bcd, d1: Bcd, d0: Bcd): Declet
  {
    var (a, b, c, d) := (d2.b3, d2.b2, d2.b1, d2.b0);
    var (e, f, g, h) := (d1.b3, d1.b2, d1.b1, d1.b0);
    var (i, j, k, m) := (d0.b3, d0.b2, d0.b1, d0.b0);
    match (a, e, i)
    case (false, false, false) => Declet(b, c, d, f, g, h, false, j, k, m)
    case (false, false, true) => Declet(b, c, d, f, g, h, true, false, false, m)
    case (false, true, false) => Declet(b, c, d, j, k, h, true, false, true, m)
    case (false, true, true) => Declet(b, c, d, true, false, h, true, true, true, m)
    case (true, false, false) => Declet(j, k, d, f, g, h, true, true, false, m)
    case (true, false, true) => Declet(f, g, d, false, true, h, true, true, true, m)
    case (true, true, false) => Declet(j, k, d, false, false, h, true, true, true, m)
    case (true, true, true) => Declet(false, false, d, true, true, h, true, true, true, m)
  }

  /** Unpacking as the standard tabulates it (table 3.3), for any ten bits. */
  function StandardUnpack(z: Declet): (Bcd, Bcd, Bcd)
  {
    var (pqr, stu, wxy) := (Bcd(false, z.p, z.q, z.r), Bcd(false, z.s, z.t, z.u), Bcd(false, z.w, z.x, z.y));
    var (r, u, y) := (Bcd(true, false, false, z.r), Bcd(true, false, false, z.u), Bcd(true, false, false, z.y));
    if !z.v then (pqr, stu, wxy)
    else if !z.w && !z.x then (pqr, stu, y)
    else if !z.w then (pqr, u, Bcd(false, z.s, z.t, z.y))
    else if !z.x then (r, stu, Bcd(false, z.p, z.q, z.y))
    else if !z.s && !z.t then (r, u, Bcd(false, z.p, z.q, z.y))
    else if !z.s then (r, Bcd(false, z.p, z.q, z.u), y)
    else if !z.t then (pqr, u, y)
    else (r, u, y)
  }

  /** The 24 patterns that no digits pack to: three large digits, and spare bits that are not zero. */
  predicate Redundant(z: Declet) { z.s && z.t && z.v && z.w && z.x && (z.p || z.q) }

  /** Packing inverts the standard's table, on everything but the redundant patterns. */
  lemma PackIsStandard(d2: Bcd, d1: Bcd, d0: Bcd)
    requires IsDecimal(d2) && IsDecimal(d1) && IsDecimal(d0)
    ensures StandardUnpack(Pack(d2, d1, d0)) == (d2, d1, d0) && !Redundant(Pack(d2, d1, d0))
  {
    hide Pack, StandardUnpack, Redundant;
    if d2.b3 { PackLarge(d2, d1, d0); } else { PackSmall(d2, d1, d0); }
  }

  /** The four cases with 8 or 9 in front. */
  lemma PackLarge(d2: Bcd, d1: Bcd, d0: Bcd)
    requires IsDecimal(d2) && IsDecimal(d1) && IsDecimal(d0) && d2.b3
    ensures StandardUnpack(Pack(d2, d1, d0)) == (d2, d1, d0) && !Redundant(Pack(d2, d1, d0))
  {
  }

  /** And the four with a smaller digit. */
  lemma PackSmall(d2: Bcd, d1: Bcd, d0: Bcd)
    requires IsDecimal(d2) && IsDecimal(d1) && IsDecimal(d0) && !d2.b3
    ensures StandardUnpack(Pack(d2, d1, d0)) == (d2, d1, d0) && !Redundant(Pack(d2, d1, d0))
  {
  }

  lemma UnpackIsStandard(z: Declet)
    ensures var (d2, d1, d0) := StandardUnpack(z);
      && IsDecimal(d2) && IsDecimal(d1) && IsDecimal(d0)
      && (Pack(d2, d1, d0) == z <==> !Redundant(z))
  {
  }

  function Octal(a: bool, b: bool, c: bool): (n: nat)
    ensures n < 8
  {
    4 * Bit(a) + 2 * Bit(b) + Bit(c)
  }

  /** The ten bits as a number, the way the encoder folds them. */
  function Number(z: Declet): (n: nat)
    ensures n < 1024
  {
    128 * Octal(z.p, z.q, z.r) + 16 * Octal(z.s, z.t, z.u) + 8 * Bit(z.v) + Octal(z.w, z.x, z.y)
  }

  /** The declet with number `n`. */
  function DecletOf(n: nat): Declet
    requires n < 1024
  {
    var (hi, mid, lo) := (ToBcd(n / 128), ToBcd(n % 128 / 16), n % 128 % 16);
    var low := ToBcd(if lo >= 8 then lo - 8 else lo);
    Declet(hi.b2, hi.b1, hi.b0, mid.b2, mid.b1, mid.b0, lo >= 8, low.b2, low.b1, low.b0)
  }

  lemma OctalRoundTrip(n: nat)
    requires n < 8
    ensures var b := ToBcd(n); Octal(b.b2, b.b1, b.b0) == n
  {
  }

  lemma OctalOf(a: bool, b: bool, c: bool)
    ensures ToBcd(Octal(a, b, c)) == Bcd(false, a, b, c)
  {
  }

  lemma SplitNumber(hi: nat, mid: nat, lo: nat)
    requires mid < 8 && lo < 16
    ensures var n := 128 * hi + 16 * mid + lo; n / 128 == hi && n % 128 / 16 == mid && n % 128 % 16 == lo
  {
    DivMod(hi, 16 * mid + lo, 128);
    DivMod(mid, lo, 16);
  }

  lemma DecletNumber(z: Declet)
    ensures DecletOf(Number(z)) == z
  {
    var (hi, mid, low) := (Octal(z.p, z.q, z.r), Octal(z.s, z.t, z.u), Octal(z.w, z.x, z.y));
    OctalOf(z.p, z.q, z.r);
    OctalOf(z.s, z.t, z.u);
    OctalOf(z.w, z.x, z.y);
    hide Octal, ToBcd;
    var lo := 8 * Bit(z.v) + low;
    NumberParts(z, hi, mid, lo);
    assert lo >= 8 <==> z.v;
  }

  lemma NumberParts(z: Declet, hi: nat, mid: nat, lo: nat)
    requires hi == Octal(z.p, z.q, z.r) && mid == Octal(z.s, z.t, z.u) && lo == 8 * Bit(z.v) + Octal(z.w, z.x, z.y)
    ensures var n := Number(z); n / 128 == hi && n % 128 / 16 == mid && n % 128 % 16 == lo
  {
    BitValues(z.v);
    hide Octal, Bit;
    SplitNumber(hi, mid, lo);
  }

  lemma NumberDeclet(n: nat)
    requires n < 1024
    ensures Number(DecletOf(n)) == n
  {
    hide Octal, ToBcd, Bit;
    var (hi, mid, lo) := (n / 128, n % 128 / 16, n % 128 % 16);
    var low := if lo >= 8 then lo - 8 else lo;
    OctalRoundTrip(hi);
    OctalRoundTrip(mid);
    OctalRoundTrip(low);
    assert n == 128 * hi + 16 * mid + lo by {
      DivBounds(n, 128);
      DivBounds(n % 128, 16);
    }
    assert lo == 8 * Bit(lo >= 8) + low by { BitValues(lo >= 8); }
  }

  lemma BitValues(b: bool)
    ensures Bit(b) == if b then 1 else 0
  {
  }

  function EncodeDeclet(d2: nat, d1: nat, d0: nat): (n: nat)
    requires d2 <= 9 && d1 <= 9 && d0 <= 9
    ensures n < 1024
  {
    Number(Pack(ToBcd(d2), ToBcd(d1), ToBcd(d0)))
  }

  function DecletValue(z: Declet): (v: nat)
    ensures v < 1000
  {
    UnpackIsStandard(z);
    var (d2, d1, d0) := StandardUnpack(z);
    SmallDigits(d2, d1, d0);
    100 * OfBcd(d2) + 10 * OfBcd(d1) + OfBcd(d0)
  }

  lemma SmallDigits(d2: Bcd, d1: Bcd, d0: Bcd)
    requires IsDecimal(d2) && IsDecimal(d1) && IsDecimal(d0)
    ensures 100 * OfBcd(d2) + 10 * OfBcd(d1) + OfBcd(d0) < 1000
  {
    BcdOf(d2);
    BcdOf(d1);
    BcdOf(d0);
  }

  /** The driver's table: the standard's value, but 0 for a redundant pattern. */
  function Dpd(n: nat): (v: nat)
    requires n < 1024
    ensures v < 1000
  {
    if Redundant(DecletOf(n)) then 0 else DecletValue(DecletOf(n))
  }

  lemma DpdOfEncoded(d2: nat, d1: nat, d0: nat)
    requires d2 <= 9 && d1 <= 9 && d0 <= 9
    ensures var n := EncodeDeclet(d2, d1, d0); !Redundant(DecletOf(n)) && Dpd(n) == 100 * d2 + 10 * d1 + d0
  {
    hide Pack, StandardUnpack, Redundant, Number, DecletOf, OfBcd, ToBcd;
    BcdRoundTrip(d2);
    BcdRoundTrip(d1);
    BcdRoundTrip(d0);
    PackIsStandard(ToBcd(d2), ToBcd(d1), ToBcd(d0));
    DecletNumber(Pack(ToBcd(d2), ToBcd(d1), ToBcd(d0)));
  }

  lemma EncodedOfDpd(n: nat, d2: nat, d1: nat, d0: nat)
    requires n < 1024 && !Redundant(DecletOf(n)) && d2 <= 9 && d1 <= 9 && d0 <= 9 && Dpd(n) == 100 * d2 + 10 * d1 + d0
    ensures n == EncodeDeclet(d2, d1, d0)
  {
    hide Pack, StandardUnpack, Redundant, Number, DecletOf, OfBcd, ToBcd;
    var z := DecletOf(n);
    UnpackIsStandard(z);
    var (b2, b1, b0) := StandardUnpack(z);
    BcdOf(b2);
    BcdOf(b1);
    BcdOf(b0);
    NumberDeclet(n);
  }

  /** The table, filled by running the encoder over every triple. */
  method BuildDpdTable() returns (table: array<nat>)
    ensures fresh(table) && table.Length == 1024
    ensures forall n | 0 <= n < 1024 :: table[n] == Dpd(n)
  {
    table := new nat[1024](_ => 0);
    var d2 := 0;
    while d2 < 10
      invariant d2 <= 10 && FilledUpTo(table[..], 100 * d2)
    {
      var d1 := 0;
      while d1 < 10
        invariant d1 <= 10 && FilledUpTo(table[..], 100 * d2 + 10 * d1)
      {
        var d0 := 0;
        while d0 < 10
          invariant d0 <= 10 && FilledUpTo(table[..], 100 * d2 + 10 * d1 + d0)
        {
          ghost var before := table[..];
          table[EncodeDeclet(d2, d1, d0)] := d2 * 100 + d1 * 10 + d0;
          FillOne(before, table[..], d2, d1, d0);
          d0 := d0 + 1;
        }
        d1 := d1 + 1;
      }
      d2 := d2 + 1;
    }
    forall n | 0 <= n < 1024 ensures table[n] == Dpd(n) { assert table[..][n] == table[n]; }
  }

  /** Entries with a value below `m` are in place, the others still empty. */
  ghost predicate FilledUpTo(t: seq<nat>, m: nat) {
    |t| == 1024 && forall n | 0 <= n < 1024 :: t[n] == if Dpd(n) < m then Dpd(n) else 0
  }

  lemma FillOne(t: seq<nat>, t': seq<nat>, d2: nat, d1: nat, d0: nat)
    requires d2 <= 9 && d1 <= 9 && d0 <= 9 && FilledUpTo(t, 100 * d2 + 10 * d1 + d0)
    requires t' == t[EncodeDeclet(d2, d1, d0) := d2 * 100 + d1 * 10 + d0]
    ensures FilledUpTo(t', 100 * d2 + 10 * d1 + d0 + 1)
  {
    var m := 100 * d2 + 10 * d1 + d0;
    DpdOfEncoded(d2, d1, d0);
    forall n | 0 <= n < 1024 && Dpd(n) == m && m > 0
      ensures n == EncodeDeclet(d2, d1, d0)
    {
      EncodedOfDpd(n, d2, d1, d0);
    }
  }
}
