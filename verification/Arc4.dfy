/** RC4 wire encryption (protocol/crypt/arc4.ts). */
module Arc4 {
  import opened WireTypes

  /** The cipher between two bytes. */
  datatype State = State(s: seq<Byte>, i: Byte, j: Byte)
  {
    predicate Valid() { Permutation(s) }
  }

  predicate Permutation(s: seq<Byte>) {
    |s| == 256 && forall a, b | 0 <= a < b < 256 :: s[a] != s[b]
  }

  function Swap(s: seq<Byte>, a: Byte, b: Byte): seq<Byte>
    requires |s| == 256
  {
    s[a := s[b]][b := s[a]]
  }

  lemma SwapKeepsPermutation(s: seq<Byte>, a: Byte, b: Byte)
    requires Permutation(s)
    ensures Permutation(Swap(s, a, b)) && multiset(Swap(s, a, b)) == multiset(s)
  {
  }

  /** Exclusive or of the low `n` bits. */
  function XorBits(a: nat, b: nat, n: nat): (r: nat)
    ensures n <= 8 ==> r < Power2(n)
  {
    if n == 0 then 0 else 2 * XorBits(a / 2, b / 2, n - 1) + (if a % 2 == b % 2 then 0 else 1)
  }

  function Power2(n: nat): nat { if n == 0 then 1 else 2 * Power2(n - 1) }

  function Xor(a: Byte, b: Byte): Byte {
    assert Power2(8) == 256 by { assert Power2(4) == 16; assert Power2(6) == 64; }
    XorBits(a, b, 8)
  }

  lemma {:induction false} XorBitsTwice(a: nat, b: nat, n: nat)
    requires a < Power2(n)
    ensures XorBits(XorBits(a, b, n), b, n) == a
  {
    if n > 0 {
      XorBitsTwice(a / 2, b / 2, n - 1);
      var x := XorBits(a, b, n);
      assert x / 2 == XorBits(a / 2, b / 2, n - 1);
    }
  }

  lemma XorTwice(a: Byte, b: Byte)
    ensures Xor(Xor(a, b), b) == a
  {
    assert Power2(8) == 256 by { assert Power2(4) == 16; assert Power2(6) == 64; }
    XorBitsTwice(a, b, 8);
  }

  // ---- what it computes --------------------------------------------------------------

  function KeyByte(key: Bytes, k: nat): nat { if key == [] then 0 else key[k % |key|] }

  /** Key scheduling from step `k` on. An empty key has no byte to add, and leaves j at zero. */
  function Schedule(s: seq<Byte>, key: Bytes, k: nat, j: Byte): seq<Byte>
    requires |s| == 256 && k <= 256
    decreases 256 - k
  {
    if k == 256 then s
    else
      var j' := if key == [] then 0 else (j + s[k] + KeyByte(key, k)) % 256;
      Schedule(Swap(s, k, j'), key, k + 1, j')
  }

  function Identity(): (s: seq<Byte>)
    ensures Permutation(s)
  {
    seq(256, i requires 0 <= i < 256 => i)
  }

  function Initial(key: Bytes): (st: State)
    ensures st.Valid()
  {
    ScheduleKeepsPermutation(Identity(), key, 0, 0);
    State(Schedule(Identity(), key, 0, 0), 0, 0)
  }

  lemma {:induction false} ScheduleKeepsPermutation(s: seq<Byte>, key: Bytes, k: nat, j: Byte)
    requires Permutation(s) && k <= 256
    ensures Permutation(Schedule(s, key, k, j))
    decreases 256 - k
  {
    if k < 256 {
      var j' := if key == [] then 0 else (j + s[k] + KeyByte(key, k)) % 256;
      SwapKeepsPermutation(s, k, j');
      ScheduleKeepsPermutation(Swap(s, k, j'), key, k + 1, j');
    }
  }

  function Next(st: State): (st': State)
    requires st.Valid()
    ensures st'.Valid()
  {
    var i := (st.i + 1) % 256;
    var j := (st.j + st.s[i]) % 256;
    SwapKeepsPermutation(st.s, i, j);
    State(Swap(st.s, i, j), i, j)
  }

  /** The key byte of a state just reached. */
  function Stream(st: State): Byte
    requires st.Valid()
  {
    var sum: int := st.s[st.i];
    st.s[(sum + st.s[st.j]) % 256]
  }

  function Run(st: State, n: nat): (st': State)
    requires st.Valid()
    ensures st'.Valid()
    decreases n
  {
    if n == 0 then st else Run(Next(st), n - 1)
  }

  function Cipher(st: State, data: Bytes): (out: Bytes)
    requires st.Valid()
    ensures |out| == |data|
    decreases data
  {
    if data == [] then [] else [Xor(data[0], Stream(Next(st)))] + Cipher(Next(st), data[1..])
  }

  /** Enciphering in pieces or at once is the same. */
  lemma {:induction false} CipherConcat(st: State, a: Bytes, b: Bytes)
    requires st.Valid()
    ensures Cipher(st, a + b) == Cipher(st, a) + Cipher(Run(st, |a|), b)
    decreases a
  {
    hide Next, Stream, Xor, State.Valid;
    if a == [] {
      assert a + b == b;
    } else {
      CipherConcat(Next(st), a[1..], b);
      assert (a + b)[1..] == a[1..] + b;
    }
  }

  /** Two ciphers in the same state undo each other. */
  lemma {:induction false} CipherTwice(st: State, data: Bytes)
    requires st.Valid()
    ensures Cipher(st, Cipher(st, data)) == data
    decreases data
  {
    hide Next, Stream, Xor, State.Valid;
    if data != [] {
      CipherTwice(Next(st), data[1..]);
      XorTwice(data[0], Stream(Next(st)));
      assert Cipher(st, data)[1..] == Cipher(Next(st), data[1..]);
    }
  }

  /** Every packet through the cipher, one after the other. */
  function CipherAll(st: State, packets: seq<Bytes>): Bytes
    requires st.Valid()
    decreases packets
  {
    if packets == [] then []
    else Cipher(st, packets[0]) + CipherAll(Run(st, |packets[0]|), packets[1..])
  }

  /** Packet boundaries leave no trace in the cipher text. */
  lemma {:induction false} PacketsAreOneStream(st: State, packets: seq<Bytes>)
    requires st.Valid()
    ensures CipherAll(st, packets) == Cipher(st, Flatten(packets))
    decreases packets
  {
    if packets != [] {
      PacketsAreOneStream(Run(st, |packets[0]|), packets[1..]);
      CipherConcat(st, packets[0], Flatten(packets[1..]));
    }
  }

  // ---- the object --------------------------------------------------------------------

  class Rc4 {
    const s: array<Byte>
    var i: Byte
    var j: Byte

    ghost predicate Valid() reads this, s { s.Length == 256 && Permutation(s[..]) }

    ghost function Now(): (st: State)
      requires Valid()
      reads this, s
      ensures st.Valid()
    {
      State(s[..], i, j)
    }

    constructor (key: Bytes)
      ensures Valid() && fresh(s) && Now() == Initial(key)
    {
      s := new Byte[256](k requires 0 <= k < 256 => k);
      i, j := 0, 0;
      new;
      hide Schedule, Permutation;
      assert s[..] == Identity();
      ScheduleKeepsPermutation(Identity(), key, 0, 0);
      ScheduleKey(s, key);
    }

    /** The next key byte. */
    method NextByte() returns (b: Byte)
      requires Valid()
      modifies this, s
      ensures Valid() && Now() == Next(old(Now())) && b == Stream(Now())
    {
      hide Permutation, Swap;
      ghost var before := Now();
      i := (i + 1) % 256;
      j := (j + s[i]) % 256;
      SwapIs(s[..], i, j);
      SwapKeepsPermutation(s[..], i, j);
      s[i], s[j] := s[j], s[i];
      assert s[..] == Swap(before.s, i, j);
      var sum: int := s[i];
      b := s[(sum + s[j]) % 256];
    }

    method Process(data: Bytes) returns (out: Bytes)
      requires Valid()
      modifies this, s
      ensures Valid()
      ensures out == Cipher(old(Now()), data) && Now() == Run(old(Now()), |data|)
    {
      hide Next, Stream, Xor, Permutation;
      ghost var st := Now();
      out := [];
      var k := 0;
      while k < |data|
        invariant 0 <= k <= |data| && Valid()
        invariant out + Cipher(Now(), data[k..]) == Cipher(st, data)
        invariant Run(Now(), |data| - k) == Run(st, |data|)
      {
        var b := NextByte();
        assert data[k..][0] == data[k] && data[k..][1..] == data[k + 1..];
        assert out + ([Xor(data[k], b)] + Cipher(Now(), data[k + 1..])) ==
          (out + [Xor(data[k], b)]) + Cipher(Now(), data[k + 1..]);
        out := out + [Xor(data[k], b)];
        k := k + 1;
      }
    }
  }

  method ScheduleKey(s: array<Byte>, key: Bytes)
    requires s.Length == 256
    modifies s
    ensures s[..] == Schedule(old(s[..]), key, 0, 0)
  {
    hide Schedule, Swap, KeyByte;
    var k, j: Byte := 0, 0;
    while k < 256
      invariant 0 <= k <= 256
      invariant Schedule(s[..], key, k, j) == Schedule(old(s[..]), key, 0, 0)
    {
      ghost var before := s[..];
      ScheduleStep(before, key, k, j);
      var sum: int := j;
      j := if key == [] then 0 else (sum + s[k] + KeyByte(key, k)) % 256;
      SwapIs(before, k, j);
      s[k], s[j] := s[j], s[k];
      assert s[..] == Swap(before, k, j);
      k := k + 1;
    }
    ScheduleEnds(s[..], key, j);
  }

  lemma ScheduleStep(s: seq<Byte>, key: Bytes, k: nat, j: Byte)
    requires |s| == 256 && k < 256
    ensures var j' := if key == [] then 0 else (j + s[k] + KeyByte(key, k)) % 256;
      Schedule(s, key, k, j) == Schedule(Swap(s, k, j'), key, k + 1, j')
  {
  }

  lemma ScheduleEnds(s: seq<Byte>, key: Bytes, j: Byte)
    requires |s| == 256
    ensures Schedule(s, key, 256, j) == s
  {
  }

  lemma SwapIs(s: seq<Byte>, a: Byte, b: Byte)
    requires |s| == 256
    ensures |Swap(s, a, b)| == 256 && Swap(s, a, b)[a] == s[b] && Swap(s, a, b)[b] == s[a]
    ensures forall k | 0 <= k < 256 && k != a && k != b :: Swap(s, a, b)[k] == s[k]
  {
  }
}
