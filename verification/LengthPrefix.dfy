/** Varints of 32 and 64 bits, and byte strings behind their length (util/coding.cc). */
module LengthPrefix {
  import opened Options
  import opened Coding

  function Varint32(s: seq<byte>): (r: Option<Read<nat>>)
    ensures r.Some? ==> |r.value.rest| < |s| && r.value.value < TWO32
  {
    VarintFrom(s, 0, 0, 28, TWO32)
  }

  function Varint64(s: seq<byte>): (r: Option<Read<nat>>)
    ensures r.Some? ==> |r.value.rest| < |s| && r.value.value < TWO64
  {
    VarintFrom(s, 0, 0, 63, TWO64)
  }

  function Low32(n: nat): nat {
    n % TWO32
  }

  /** The length is written as a 32-bit number. */
  function Prefixed(b: seq<byte>): seq<byte> {
    VarintBytes(Low32(|b|)) + b
  }

  function GetPrefixed(s: seq<byte>): (r: Option<Read<seq<byte>>>)
    ensures r.Some? ==> |r.value.rest| < |s|
  {
    var n := Varint32(s);
    if n.None? || |n.value.rest| < n.value.value then None
    else Some(Read(n.value.rest[..n.value.value], n.value.rest[n.value.value..]))
  }

  /** What was written is read back, and the bytes after it are left. */
  lemma PrefixedRead(b: seq<byte>, rest: seq<byte>)
    requires |b| < TWO32
    ensures GetPrefixed(Prefixed(b) + rest) == Some(Read(b, rest))
  {
    ShortPrefix(b);
    PrefixedSplit(VarintBytes(|b|), b, rest);
    ReadVarint32(|b|, b + rest);
  }

  lemma ShortPrefix(b: seq<byte>)
    requires |b| < TWO32
    ensures Prefixed(b) == VarintBytes(|b|) + b
  {
    ModMultiple(|b|, TWO32, 0);
  }

  lemma PrefixedSplit(a: seq<byte>, b: seq<byte>, c: seq<byte>)
    ensures a + b + c == a + (b + c) && (b + c)[..|b|] == b && (b + c)[|b|..] == c
  {
  }

  /** A number cut short is not read. */
  lemma {:induction false} VarintCut(m: nat, part: seq<byte>, shift: nat, result: nat, top: nat, span: nat)
    requires part < VarintBytes(m) && span > 0
    ensures VarintFrom(part, shift, result, top, span) == None
    decreases m
  {
    hide AddDigit;
    if part != [] {
      assert m >= 128;
      VarintCut(m / 128, part[1..], shift + 7, AddDigit(result, part[0] % 128, shift, span), top, span);
    }
  }

  /** A length-prefixed string cut short is not read. */
  lemma PrefixedCut(b: seq<byte>, part: seq<byte>)
    requires |b| < TWO32 && part < Prefixed(b)
    ensures GetPrefixed(part) == None
  {
    ShortPrefix(b);
    var v := VarintBytes(|b|);
    if |part| < |v| {
      assert part < v;
      VarintCut(|b|, part, 0, 0, 28, TWO32);
    } else {
      var rest := part[|v|..];
      assert part == v + rest;
      ReadVarint32(|b|, rest);
    }
  }
}
