/** The bloom filter (util/bloom.cc), for any hash function. */
module Bloom {
  import opened Coding
  import opened BlockLayout

  // ----- bits -----

  predicate Bit(b: nat, j: nat) {
    if j == 0 then b % 2 == 1 else Bit(b / 2, j - 1)
  }

  lemma {:induction false} NoBits(j: nat)
    ensures !Bit(0, j)
  {
    if j > 0 {
      NoBits(j - 1);
    }
  }

  lemma {:induction false} OrBits(a: nat, b: nat, j: nat)
    ensures Bit(Or(a, b), j) <==> Bit(a, j) || Bit(b, j)
    decreases j
  {
    NoBits(j);
    if a != 0 && b != 0 && j > 0 {
      OrBits(a / 2, b / 2, j - 1);
      assert Or(a, b) / 2 == Or(a / 2, b / 2);
    }
  }

  lemma {:induction false} PowerBit(i: nat, j: nat)
    ensures Bit(Pow2(i), j) <==> i == j
    decreases i
  {
    if i == 0 {
      if j > 0 {
        NoBits(j - 1);
      }
    } else {
      assert Pow2(i) / 2 == Pow2(i - 1) && Pow2(i) % 2 == 0;
      if j > 0 {
        PowerBit(i - 1, j - 1);
      }
    }
  }

  lemma {:induction false} OrBelow(a: nat, b: nat, k: nat)
    requires a < Pow2(k) && b < Pow2(k)
    ensures Or(a, b) < Pow2(k)
    decreases k
  {
    if a != 0 && b != 0 {
      OrBelow(a / 2, b / 2, k - 1);
    }
  }

  /** Bit `p` of a run of bytes. */
  predicate BitAt(f: Bytes, p: nat) {
    p / 8 < |f| && Bit(f[p / 8], p % 8)
  }

  function OrByte(b: byte, j: nat): (r: byte)
    requires j < 8
  {
    PowerGrows(j);
    OrBelow(b, Pow2(j), 8);
    Or(b, Pow2(j))
  }

  lemma PowerGrows(j: nat)
    requires j < 8
    ensures Pow2(j) < Pow2(8) == 256
  {
    assert Pow2(3) == 8 && Pow2(6) == 64;
    Pow2Grows(j, 7);
  }

  function SetBit(f: Bytes, p: nat): (r: Bytes)
    ensures |r| == |f|
  {
    if p / 8 < |f| then f[p / 8 := OrByte(f[p / 8], p % 8)] else f
  }

  lemma SetBitSets(f: Bytes, p: nat, q: nat)
    requires p / 8 < |f|
    ensures BitAt(SetBit(f, p), q) <==> q == p || BitAt(f, q)
  {
    OrBits(f[p / 8], Pow2(p % 8), q % 8);
    PowerBit(p % 8, q % 8);
  }

  // ----- the filter -----

  /** The hash rotated right by 17 bits. */
  function Delta(h: word32): nat {
    Or(h / 0x2_0000, h * 0x8000 % TWO32)
  }

  /** The hash after `j` steps. */
  function Stepped(h: word32, j: nat): word32 {
    if j == 0 then h else (Stepped(h, j - 1) + Delta(h)) % TWO32
  }

  /** The `j`-th bit that a key with hash `h` stands for. */
  function Probe(h: word32, j: nat, bits: nat): (p: nat)
    requires bits > 0
    ensures p < bits
  {
    Stepped(h, j) % bits
  }

  lemma DeltaIs(h: word32)
    ensures Delta(h) == h / 0x2_0000 + h % 0x2_0000 * 0x8000
  {
    var hi, lo := h / 0x2_0000, h % 0x2_0000;
    assert Pow2(15) == 0x8000 by {
      Pow2Seven(1);
      Pow2Seven(8);
      assert Pow2(1) == 2;
    }
    assert h * 0x8000 == lo * 0x8000 + TWO32 * hi;
    ModMultiple(lo * 0x8000, TWO32, hi);
    OrDisjoint(hi, lo, 15);
  }

  lemma {:induction false} SteppedIs(h: word32, j: nat)
    ensures Stepped(h, j) == (h + j * Delta(h)) % TWO32
    decreases j
  {
    if j == 0 {
      ModMultiple(h, TWO32, 0);
    } else {
      SteppedIs(h, j - 1);
      var before, d := h + (j - 1) * Delta(h), Delta(h);
      assert before + d == h + j * d;
      SumModulo(before, d);
    }
  }

  lemma SumModulo(a: nat, d: nat)
    ensures (a % TWO32 + d) % TWO32 == (a + d) % TWO32
  {
    var q, r := a / TWO32, a % TWO32;
    var q', r' := (r + d) / TWO32, (r + d) % TWO32;
    Distribute(TWO32, q, q');
    assert a + d == r' + TWO32 * (q + q');
    ModMultiple(r', TWO32, q + q');
  }

  /** The bits of a key: its hash, and from there on in steps of the hash rotated right by 17, modulo 2^32 and then
      modulo the size of the filter. */
  lemma ProbeIs(h: word32, j: nat, bits: nat)
    requires bits > 0
    ensures Probe(h, j, bits) == (h + j * (h / 0x2_0000 + h % 0x2_0000 * 0x8000)) % 0x1_0000_0000 % bits
  {
    DeltaIs(h);
    SteppedIs(h, j);
  }

  function WithProbes(f: Bytes, h: word32, k: nat): (r: Bytes)
    requires f != []
    ensures |r| == |f|
  {
    if k == 0 then f else SetBit(WithProbes(f, h, k - 1), Probe(h, k - 1, |f| * 8))
  }

  function WithKeys(f: Bytes, hash: Bytes -> word32, keys: seq<Bytes>, k: nat): (r: Bytes)
    requires f != []
    ensures |r| == |f|
  {
    if keys == [] then f else WithProbes(WithKeys(f, hash, keys[..|keys| - 1], k), hash(keys[|keys| - 1]), k)
  }

  /** At least 64 bits, rounded up to whole bytes. */
  function FilterBytes(n: nat, bitsPerKey: nat): (r: nat)
    ensures r >= 8
  {
    (if n * bitsPerKey < 64 then 64 + 7 else n * bitsPerKey + 7) / 8
  }

  /** As many bits as asked for, but 64 at least, in whole bytes. */
  lemma FilterBytesAre(n: nat, bitsPerKey: nat)
    ensures var r := FilterBytes(n, bitsPerKey);
            8 * r >= n * bitsPerKey && 8 * r >= 64 && 8 * (r - 1) < if n * bitsPerKey < 64 then 64 else n * bitsPerKey
  {
  }

  predicate HasProbe(f: Bytes, h: word32, j: nat) {
    f != [] && BitAt(f, Probe(h, j, |f| * 8))
  }

  predicate HasProbes(f: Bytes, h: word32, k: nat) {
    forall j :: 0 <= j < k ==> HasProbe(f, h, j)
  }

  datatype Policy = Policy(hash: Bytes -> word32, bitsPerKey: nat, k: nat) {
    /** One to thirty probes. */
    predicate Valid() {
      1 <= k <= 30
    }

    function Filter(keys: seq<Bytes>): (r: Bytes)
      requires Valid()
      ensures |r| >= 9 && r[|r| - 1] == k
    {
      WithKeys(Zeros(FilterBytes(|keys|, bitsPerKey)), hash, keys, k) + [k]
    }

    predicate MayMatch(key: Bytes, filter: Bytes) {
      var n := |filter|;
      n >= 2 && (filter[n - 1] > 30 || HasProbes(filter[..n - 1], hash(key), filter[n - 1]))
    }

    method CreateFilter(keys: seq<Bytes>, dst: Bytes) returns (r: Bytes)
      requires Valid()
      ensures r == dst + Filter(keys)
    {
      var bits := |keys| * bitsPerKey;
      if bits < 64 {
        bits := 64;
      }
      var bytes := (bits + 7) / 8;
      bits := bytes * 8;
      var bitArray := new byte[bytes](_ => 0);
      ghost var zeros := Zeros(bytes);
      assert bitArray[..] == zeros;
      for i := 0 to |keys|
        invariant bitArray[..] == WithKeys(zeros, hash, keys[..i], k)
      {
        AddKey(bitArray, hash(keys[i]), k);
        assert keys[..i + 1][..i] == keys[..i];
      }
      assert keys[..|keys|] == keys;
      r := dst + bitArray[..] + [k];
    }

    method KeyMayMatch(key: Bytes, filter: Bytes) returns (r: bool)
      ensures r == MayMatch(key, filter)
    {
      var len := |filter|;
      if len < 2 {
        return false;
      }
      var bits := (len - 1) * 8;
      var probes := filter[len - 1];
      if probes > 30 {
        return true;
      }
      var h := hash(key);
      var delta := Delta(h);
      for j := 0 to probes
        invariant h == Stepped(hash(key), j)
        invariant HasProbes(filter[..len - 1], hash(key), j)
      {
        var bitpos := h % bits;
        if !Bit(filter[bitpos / 8], bitpos % 8) {
          assert !HasProbe(filter[..len - 1], hash(key), j);
          return false;
        }
        h := (h + delta) % TWO32;
      }
      return true;
    }
  }

  /** The policy for so many bits a key: about 0.69 probes for each, between one and thirty. */
  function NewPolicy(hash: Bytes -> word32, bitsPerKey: nat): (p: Policy)
    ensures p.Valid() && p.hash == hash && p.bitsPerKey == bitsPerKey
    ensures 100 * p.k <= 69 * bitsPerKey || p.k == 1
    ensures 69 * bitsPerKey < 100 * (p.k + 1) || p.k == 30
  {
    var k := bitsPerKey * 69 / 100;
    Policy(hash, bitsPerKey, if k < 1 then 1 else if k > 30 then 30 else k)
  }

  method AddKey(a: array<byte>, hash: word32, k: nat)
    requires a.Length > 0
    modifies a
    ensures a[..] == WithProbes(old(a[..]), hash, k)
  {
    var h := hash;
    var delta := Delta(hash);
    for j := 0 to k
      invariant h == Stepped(hash, j)
      invariant a[..] == WithProbes(old(a[..]), hash, j)
    {
      var bitpos := h % (a.Length * 8);
      a[bitpos / 8] := OrByte(a[bitpos / 8], bitpos % 8);
      h := (h + delta) % TWO32;
    }
  }

  // ----- what the filter knows -----

  /** The `j`-th bit of the hash is one that some key stands for. */
  ghost predicate Shares(policy: Policy, keys: seq<Bytes>, h: word32, j: nat, bits: nat) {
    bits > 0 && Stands(policy.hash, keys, policy.k, bits, Probe(h, j, bits))
  }

  /** Some key stands for the bit. */
  ghost predicate Stands(hash: Bytes -> word32, keys: seq<Bytes>, k: nat, bits: nat, p: nat)
    requires bits > 0
  {
    exists key, j {:trigger Probe(hash(key), j, bits)} :: key in keys && 0 <= j < k && Probe(hash(key), j, bits) == p
  }

  lemma {:induction false} ProbesSet(f: Bytes, h: word32, k: nat, q: nat)
    requires f != []
    ensures BitAt(WithProbes(f, h, k), q) <==> BitAt(f, q) || exists j :: 0 <= j < k && Probe(h, j, |f| * 8) == q
  {
    if k > 0 {
      ProbesSet(f, h, k - 1, q);
      SetBitSets(WithProbes(f, h, k - 1), Probe(h, k - 1, |f| * 8), q);
    }
  }

  lemma {:induction false} KeysSet(f: Bytes, hash: Bytes -> word32, keys: seq<Bytes>, k: nat, q: nat)
    requires f != []
    ensures BitAt(WithKeys(f, hash, keys, k), q) <==> BitAt(f, q) || Stands(hash, keys, k, |f| * 8, q)
  {
    if keys != [] {
      var n := |keys| - 1;
      KeysSet(f, hash, keys[..n], k, q);
      ProbesSet(WithKeys(f, hash, keys[..n], k), hash(keys[n]), k, q);
      assert keys == keys[..n] + [keys[n]];
    }
  }

  lemma ZerosUnset(n: nat, q: nat)
    ensures !BitAt(Zeros(n), q)
  {
    NoBits(q % 8);
  }

  lemma ProbeShared(policy: Policy, n: nat, keys: seq<Bytes>, h: word32, j: nat)
    requires n > 0
    ensures HasProbe(WithKeys(Zeros(n), policy.hash, keys, policy.k), h, j) <==> Shares(policy, keys, h, j, n * 8)
  {
    var p := Probe(h, j, n * 8);
    KeysSet(Zeros(n), policy.hash, keys, policy.k, p);
    ZerosUnset(n, p);
  }

  /** A key may match exactly if each of its bits is one that some added key stands for. */
  lemma MatchesExactly(policy: Policy, keys: seq<Bytes>, key: Bytes)
    requires policy.Valid()
    ensures var n := FilterBytes(|keys|, policy.bitsPerKey);
            policy.MayMatch(key, policy.Filter(keys)) <==>
            forall j :: 0 <= j < policy.k ==> Shares(policy, keys, policy.hash(key), j, n * 8)
  {
    var n, h := FilterBytes(|keys|, policy.bitsPerKey), policy.hash(key);
    var body := WithKeys(Zeros(n), policy.hash, keys, policy.k);
    assert (body + [policy.k])[..n] == body;
    forall j | 0 <= j < policy.k ensures HasProbe(body, h, j) <==> Shares(policy, keys, h, j, n * 8) {
      ProbeShared(policy, n, keys, h, j);
    }
  }

  /** Main result: a key that was added always matches. */
  lemma NoFalseNegatives(policy: Policy, keys: seq<Bytes>, key: Bytes)
    requires policy.Valid() && key in keys
    ensures policy.MayMatch(key, policy.Filter(keys))
  {
    MatchesExactly(policy, keys, key);
  }
}
