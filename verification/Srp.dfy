/**
 * The SRP-6a exchange of protocol/auth/srp.ts, a deliberate variant of section
 * 2.6 of RFC 5054: the exponent of the shared secret is reduced modulo N. Hashes
 * enter as the numbers u, k and x that they yield.
 */
module Srp {
  import opened Digits
  import opened WireTypes

  const N := 0xE67D2E994B2F900C3F41F08F5BB2627ED0D49EE1FE767A52EFCD565CD6E768812C3E1E9CE8F0A8BEA6CB13CD29DDEBF7A96D4A93B55D488DF099A15C89DCB0640738EB2CBDD9A8F7BAB561AB1B0DC1C6CDABF303264A08D1BCA932D1F1EE428B619D970F342ABA9A65793B8B2F041AE5364350C16F735F56ECBCA87BD57B29E7
  const G := 2

  // ---- arithmetic modulo n ----------------------------------------------------------

  lemma ModUnique(a: int, n: nat, q: int, r: nat)
    requires a == q * n + r && r < n
    ensures a % n == r
  {
    var (q', r') := (a / n, a % n);
    assert a == q' * n + r' && 0 <= r' < n;
    MultiplesApart(q, q', n);
  }

  /** Multiples of the modulus make no difference. */
  lemma ModShift(a: int, k: int, n: nat)
    requires n > 0
    ensures (a + k * n) % n == a % n
  {
    MulDistributes(a / n, k, n);
    ModUnique(a + k * n, n, a / n + k, a % n);
  }

  lemma ModTimes(a: int, b: int, n: nat)
    requires n > 0
    ensures (a % n * b) % n == (a * b) % n
  {
    var (q, r) := (a / n, a % n);
    assert a * b == r * b + (q * b) * n by {
      MulDistributes(q * n, r, b);
      MulDistributes(q, n, b);
      MulDistributes(n, b, q);
      MulDistributes(q, b, n);
    }
    ModShift(r * b, q * b, n);
  }

  /** Factors may be exchanged for congruent ones. */
  lemma ModProduct(a: int, b: int, c: int, d: int, n: nat)
    requires n > 0 && a % n == c % n && b % n == d % n
    ensures (a * b) % n == (c * d) % n
  {
    ModTimes(a, b, n);
    ModTimes(c, b, n);
    ModTimes(b, c, n);
    ModTimes(d, c, n);
    MulDistributes(b, c, 1);
    MulDistributes(d, c, 1);
  }

  lemma ModMod(a: int, n: nat)
    requires n > 0
    ensures a % n % n == a % n
  {
    ModUnique(a % n, n, 0, a % n);
  }

  lemma ModMinus(a: int, b: int, n: nat)
    requires n > 0
    ensures (a - b % n) % n == (a - b) % n && (a % n - b) % n == (a - b) % n
  {
    var (qa, qb) := (a / n, b / n);
    assert a - b % n == (a - b) + qb * n;
    ModShift(a - b, qb, n);
    MulDistributes(-1, qa, n);
    assert a % n - b == (a - b) + (-qa) * n;
    ModShift(a - b, -qa, n);
  }

  lemma {:induction false} PowMod(a: nat, e: nat, n: nat)
    requires n > 0
    ensures Pow(a % n, e) % n == Pow(a, e) % n
  {
    if e > 0 {
      PowMod(a, e - 1, n);
      ModMod(a, n);
      ModProduct(a % n, Pow(a % n, e - 1), a, Pow(a, e - 1), n);
    }
  }

  lemma {:induction false} PowTimes(a: nat, b: nat, e: nat)
    ensures Pow(a * b, e) == Pow(a, e) * Pow(b, e)
  {
    if e > 0 {
      PowTimes(a, b, e - 1);
      Shuffle(a, b, Pow(a, e - 1), Pow(b, e - 1));
    }
  }

  lemma Shuffle(a: int, b: int, c: int, d: int)
    ensures (a * b) * (c * d) == (a * c) * (b * d)
  {
    MulDistributes(a, b, c * d);
    MulDistributes(b, c, d);
    MulDistributes(c, b, d);
    MulDistributes(a, c, b * d);
    assert b * c == c * b;
  }

  lemma {:induction false} PowOfPower(a: nat, i: nat, j: nat)
    ensures Pow(Pow(a, i), j) == Pow(a, i * j)
  {
    if j == 0 {
      assert i * j == 0;
    } else {
      PowOfPower(a, i, j - 1);
      MulDistributes(i, -1, j);
      assert i * j == i * (j - 1) + i;
      PowAdd(a, i * (j - 1), i);
    }
  }

  // ---- modPow -----------------------------------------------------------------------

  /** Square-and-multiply computes the power modulo `n`, for a base of either sign. */
  method ModPow(b: int, e: nat, n: nat) returns (result: nat)
    requires n > 1
    ensures result == Pow(b % n, e) % n
  {
    hide Pow;
    var base: nat, exp := b % n, e;
    result := 1;
    ghost var goal := Pow(base, e) % n;
    assert 1 * Pow(base, e) == Pow(base, e);
    while exp > 0
      invariant 0 <= exp && 0 <= result < n && result * Pow(base, exp) % n == goal
    {
      Squaring(base, exp, result, n);
      if exp % 2 == 1 { result := result * base % n; }
      base := base * base % n;
      exp := exp / 2;
    }
    NoPower(base, result, n);
  }

  lemma NoPower(base: nat, result: nat, n: nat)
    requires result < n
    ensures result * Pow(base, 0) % n == result
  {
    assert result * Pow(base, 0) == result * 1 == result;
  }

  lemma Squaring(base: nat, exp: nat, result: nat, n: nat)
    requires n > 0 && exp > 0
    ensures var next := if exp % 2 == 1 then result * base % n else result;
      next * Pow(base * base % n, exp / 2) % n == result * Pow(base, exp) % n
  {
    var h := exp / 2;
    var half := Pow(base * base, h);
    PowMod(base * base, h, n);
    PowTimes(base, base, h);
    PowAdd(base, h, h);
    var next := if exp % 2 == 1 then result * base % n else result;
    ModProduct(next, Pow(base * base % n, h), next, half, n);
    if exp % 2 == 1 {
      PowAdd(base, 1, 2 * h);
      assert Pow(base, 1) == base * Pow(base, 0) == base;
      MulDistributes(result, base, half);
      ModTimes(result * base, half, n);
    }
  }

  // ---- the exchange -----------------------------------------------------------------

  /** The server's public key for the verifier g^x and its secret b. */
  function ServerKey(n: nat, g: nat, k: nat, x: nat, b: nat): nat
    requires n > 1
  {
    (k * (Pow(g, x) % n) + Pow(g, b)) % n
  }

  /** What the server computes from the client's key A: (A * v^u)^b. */
  function ServerSecret(n: nat, g: nat, clientKey: nat, x: nat, u: nat, b: nat): nat
    requires n > 1
  {
    Pow(clientKey * Pow(Pow(g, x) % n, u), b) % n
  }

  /** What the client computes from the server's key B: (B - k * g^x)^((a + u * x) mod N). */
  function ClientSecret(n: nat, g: nat, k: nat, x: nat, u: nat, a: nat, serverKey: nat): nat
    requires n > 1
  {
    Pow((serverKey - k * (Pow(g, x) % n)) % n, (a + u * x) % n) % n
  }

  /** The client's computation, with its reductions on the way and its fix of the sign. */
  method ComputeSecret(n: nat, g: nat, k: nat, x: nat, u: nat, a: nat, serverKey: nat) returns (r: Option<nat>)
    requires n > 1
    ensures r == if serverKey % n == 0 then None else Some(ClientSecret(n, g, k, x, u, a, serverKey))
  {
    hide Pow, Remainder;
    if serverKey % n == 0 { return None; }
    var gx := ModPow(g, x, n);
    PowMod(g, x, n);
    var kv := k * gx;
    var base := Remainder(serverKey - kv % n, n);
    if base < 0 { base := base + n; }
    ModMinus(serverKey, kv, n);
    ModMod(serverKey - kv, n);
    var exp := a + u * x;
    var secret := ModPow(base, exp % n, n);
    r := Some(secret);
  }

  /** JavaScript's `%`: the remainder has the sign of the dividend. */
  function Remainder(a: int, n: nat): (r: int)
    requires n > 0
    ensures (if r < 0 then r + n else r) == a % n
  {
    NegativeRemainder(a, n);
    if a >= 0 then a % n else -((-a) % n)
  }

  lemma NegativeRemainder(a: int, n: nat)
    requires n > 0
    ensures (-a) % n == if a % n == 0 then 0 else n - a % n
  {
    var (q, r) := (a / n, a % n);
    MulDistributes(-1, q, n);
    if r == 0 { ModUnique(-a, n, -q, 0); } else { ModUnique(-a, n, -q - 1, n - r); }
    MulDistributes(-q, -1, n);
  }

  /** The client strips the verifier from the server's key and is left with g^b. */
  lemma VerifierCancels(n: nat, g: nat, k: nat, x: nat, b: nat)
    requires n > 1
    ensures (ServerKey(n, g, k, x, b) - k * (Pow(g, x) % n)) % n == Pow(g, b) % n
  {
    var kv := k * (Pow(g, x) % n);
    ModMinus(kv + Pow(g, b), kv, n);
  }

  lemma ClientPower(n: nat, g: nat, k: nat, x: nat, u: nat, a: nat, b: nat)
    requires n > 1
    ensures ClientSecret(n, g, k, x, u, a, ServerKey(n, g, k, x, b)) == Pow(g, b * ((a + u * x) % n)) % n
  {
    hide Pow;
    var e := (a + u * x) % n;
    VerifierCancels(n, g, k, x, b);
    PowMod(Pow(g, b), e, n);
    PowOfPower(g, b, e);
  }

  lemma ServerPower(n: nat, g: nat, x: nat, u: nat, a: nat, b: nat)
    requires n > 1
    ensures ServerSecret(n, g, Pow(g, a) % n, x, u, b) == Pow(g, b * (a + u * x)) % n
  {
    hide Pow;
    var (A, v) := (Pow(g, a), Pow(g, x));
    var base := A % n * Pow(v % n, u);
    PowMod(v, u, n);
    ModMod(A, n);
    ModProduct(A % n, Pow(v % n, u), A, Pow(v, u), n);
    PowMod(base, b, n);
    PowMod(A * Pow(v, u), b, n);
    PowOfPower(g, x, u);
    PowAdd(g, a, x * u);
    PowOfPower(g, a + x * u, b);
    MulDistributes(x, u, 1);
    MulDistributes(a + x * u, b, 1);
  }

  /** Client and server share a secret whenever the client's exponent is below N. */
  lemma SecretsAgree(n: nat, g: nat, k: nat, x: nat, u: nat, a: nat, b: nat)
    requires n > 1 && a + u * x < n
    ensures ClientSecret(n, g, k, x, u, a, ServerKey(n, g, k, x, b)) == ServerSecret(n, g, Pow(g, a) % n, x, u, b)
  {
    hide Pow, ClientSecret, ServerSecret, ServerKey;
    ClientPower(n, g, k, x, u, a, b);
    ServerPower(n, g, x, u, a, b);
    ModUnique(a + u * x, n, 0, a + u * x);
  }

  /** The part of the exponent that the client's reduction drops. */
  function Dropped(n: nat, x: nat, u: nat, a: nat): (d: nat)
    requires n > 1
    ensures a + u * x == (a + u * x) % n + d
  {
    var s := a + u * x;
    DivBounds(s, n);
    s - s % n
  }

  function MulMod(a: nat, b: nat, n: nat): nat
    requires n > 0
  {
    a * b % n
  }

  /** Both secrets are powers of g, and the server's has the dropped part in it as well. */
  lemma DroppedFactor(n: nat, g: nat, k: nat, x: nat, u: nat, a: nat, b: nat)
    requires n > 1
    ensures var client := Pow(g, b * ((a + u * x) % n)) % n;
      && ClientSecret(n, g, k, x, u, a, ServerKey(n, g, k, x, b)) == client
      && ServerSecret(n, g, Pow(g, a) % n, x, u, b) == MulMod(client, Pow(g, b * Dropped(n, x, u, a)), n)
  {
    hide Pow, ClientSecret, ServerSecret, ServerKey, Dropped;
    var (r, d) := ((a + u * x) % n, Dropped(n, x, u, a));
    ClientPower(n, g, k, x, u, a, b);
    ServerPower(n, g, x, u, a, b);
    MulDistributes(r, d, b);
    MulDistributes(b, r, 1);
    MulDistributes(b, d, 1);
    MulDistributes(b, r + d, 1);
    PowAdd(g, b * r, b * d);
    ModTimes(Pow(g, b * r), Pow(g, b * d), n);
  }

  lemma {:induction false} PowOfOne(e: nat)
    ensures Pow(1, e) == 1
  {
    if e > 0 { PowOfOne(e - 1); }
  }

  /** Powers of an invertible number are invertible. */
  lemma InversePower(g: nat, gi: nat, m: nat, n: nat)
    requires n > 1 && g * gi % n == 1
    ensures MulMod(Pow(gi, m), Pow(g, m) % n, n) == 1
  {
    hide Pow;
    var (p, q) := (Pow(g, m), Pow(gi, m));
    ModMod(p, n);
    ModProduct(q, p % n, q, p, n);
    MulDistributes(q, p, 1);
    PowTimes(g, gi, m);
    PowMod(g * gi, m, n);
    PowOfOne(m);
    ModUnique(1, n, 0, 1);
  }

  /** An invertible number is left alone by a factor that is one, and by no other. */
  lemma Cancels(c: nat, inverse: nat, p: nat, n: nat)
    requires n > 1 && c < n && MulMod(inverse, c, n) == 1
    ensures c == MulMod(c, p, n) <==> p % n == 1
  {
    ModUnique(1, n, 0, 1);
    ModUnique(c, n, 0, c);
    if p % n == 1 {
      ModProduct(c, p, c, 1, n);
    }
    if c == c * p % n {
      ModProduct(inverse, c, inverse, c * p, n);
      MulDistributes(inverse, c, p);
      ModProduct(inverse * c, p, 1, p, n);
    }
  }

  /**
   * In general they share one if and only if the dropped part of the exponent, times
   * the server's secret, is a power of g that is one; g has an inverse, as 2 has for
   * every odd modulus.
   */
  lemma SecretsAgreeExactly(n: nat, g: nat, gi: nat, k: nat, x: nat, u: nat, a: nat, b: nat)
    requires n > 1 && g * gi % n == 1
    ensures ClientSecret(n, g, k, x, u, a, ServerKey(n, g, k, x, b)) == ServerSecret(n, g, Pow(g, a) % n, x, u, b) <==>
      Pow(g, b * Dropped(n, x, u, a)) % n == 1
  {
    hide Pow, ClientSecret, ServerSecret, ServerKey, Dropped, MulMod;
    var m := b * ((a + u * x) % n);
    DroppedFactor(n, g, k, x, u, a, b);
    InversePower(g, gi, m, n);
    Cancels(Pow(g, m) % n, Pow(gi, m), Pow(g, b * Dropped(n, x, u, a)), n);
  }

  /**
   * What the client can tell alone, in the group it uses: it shares a secret with
   * every server, whatever b, if and only if the dropped part is a power that is one.
   */
  lemma SecretsAlwaysAgree(k: nat, x: nat, u: nat, a: nat)
    ensures (forall b: nat :: ClientSecret(N, G, k, x, u, a, ServerKey(N, G, k, x, b)) ==
                              ServerSecret(N, G, Pow(G, a) % N, x, u, b)) <==>
      Pow(G, Dropped(N, x, u, a)) % N == 1
  {
    hide Pow, ClientSecret, ServerSecret, ServerKey, Dropped;
    var d := Dropped(N, x, u, a);
    forall b: nat
      ensures ClientSecret(N, G, k, x, u, a, ServerKey(N, G, k, x, b)) ==
              ServerSecret(N, G, Pow(G, a) % N, x, u, b) <==>
        Pow(G, b * d) % N == 1
    {
      ModUnique(G * ((N + 1) / 2), N, 1, 1);
      SecretsAgreeExactly(N, G, (N + 1) / 2, k, x, u, a, b);
    }
    if Pow(G, d) % N == 1 {
      forall b: nat
        ensures Pow(G, b * d) % N == 1
      {
        PowOfPower(G, d, b);
        MulDistributes(d, b, 1);
        PowMod(Pow(G, d), b, N);
        PowOfOne(b);
        ModUnique(1, N, 0, 1);
      }
    } else {
      assert 1 * d == d;
      assert Pow(G, 1 * d) % N != 1;
      var b: nat := 1;
      assert ClientSecret(N, G, k, x, u, a, ServerKey(N, G, k, x, b)) != ServerSecret(N, G, Pow(G, a) % N, x, u, b);
    }
  }

  /** Two secrets that differ, in a small group: the client's exponent 5 is reduced to 0. */
  lemma SecretsDiffer()
    ensures ClientSecret(5, 2, 0, 0, 0, 5, ServerKey(5, 2, 0, 0, 1)) == 1
    ensures ServerSecret(5, 2, Pow(2, 5) % 5, 0, 0, 1) == 2
  {
    hide Pow, ClientSecret, ServerSecret, ServerKey;
    ClientPower(5, 2, 0, 0, 0, 5, 1);
    ServerPower(5, 2, 0, 0, 5, 1);
    SmallPowers();
  }

  lemma SmallPowers()
    ensures Pow(2, 0) == 1 && Pow(2, 5) == 32
  {
    assert Pow(2, 2) == 4;
    PowAdd(2, 2, 3);
    PowAdd(2, 2, 1);
    assert Pow(2, 1) == 2 * Pow(2, 0) == 2;
  }

  /** With 160-bit hashes only client secrets in the top 2^320 of the range can meet the reduction. */
  lemma HashesAreShort(x: nat, u: nat, a: nat)
    requires x < 0x1_0000000000_0000000000_0000000000_0000000000
    requires u < 0x1_0000000000_0000000000_0000000000_0000000000
    requires a < N - 0x1_0000000000_0000000000_0000000000_0000000000_0000000000_0000000000_0000000000_0000000000
    ensures a + u * x < N
  {
    var top := 0x1_0000000000_0000000000_0000000000_0000000000;
    MulMonotone(u, top, x);
    MulMonotone(x, top, top);
    MulDistributes(x, top, 1);
  }

  /** Draws until the public key is not trivial; a caller's own seed is drawn only once. */
  method GenerateEphemeral(draws: seq<nat>, seeded: bool) returns (r: Option<(nat, nat)>)
    ensures r.Some? ==> 0 <= r.value.0 < N && r.value.1 == Pow(G, r.value.0) % N && r.value.1 > 1
    ensures r.Some? ==> exists i :: FirstUsable(draws, i) && r.value.0 == draws[i] % N && (seeded ==> i == 0)
    ensures r.None? ==> forall i | 0 <= i < (if seeded then Min(1, |draws|) else |draws|) :: Trivial(draws[i])
  {
    for i := 0 to |draws|
      invariant forall k | 0 <= k < i :: Trivial(draws[k])
      invariant seeded ==> i == 0
    {
      var a := draws[i] % N;
      var A := ModPow(G, a, N);
      if A > 1 {
        assert FirstUsable(draws, i);
        return Some((a, A));
      }
      if seeded { return None; }
    }
    r := None;
  }

  predicate Trivial(draw: nat) { Pow(G, draw % N) % N <= 1 }

  predicate FirstUsable(draws: seq<nat>, i: int) {
    0 <= i < |draws| && !Trivial(draws[i]) && forall k | 0 <= k < i :: Trivial(draws[k])
  }
}
