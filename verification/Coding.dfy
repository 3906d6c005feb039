/** Bytes, little-endian words and base-128 varints, as both the storage engine (util/coding.cc) and
    the protobuf codec write them. */
module Coding {
  import opened Options

  type byte = b: int | 0 <= b < 256

  type word32 = w: int | 0 <= w < 0x1_0000_0000

  type FourBytes = s: seq<byte> | |s| == 4 witness [0, 0, 0, 0]

  function EncodeFixed32(w: word32): FourBytes {
    [w % 256, w / 256 % 256, w / 0x1_0000 % 256, w / 0x100_0000]
  }

  function DecodeFixed32(b: FourBytes): word32 {
    b[0] as int + b[1] as int * 256 + b[2] as int * 0x1_0000 + b[3] as int * 0x100_0000
  }

  lemma DecodeEncodeFixed32(w: word32)
    ensures DecodeFixed32(EncodeFixed32(w)) == w
  {
    var a := w / 256;
    var b := a / 256;
    assert w / 0x1_0000 == b && w / 0x100_0000 == b / 256;
  }

  type word64 = w: int | 0 <= w < 0x1_0000_0000_0000_0000

  type EightBytes = s: seq<byte> | |s| == 8 witness [0, 0, 0, 0, 0, 0, 0, 0]

  function EncodeFixed64(w: word64): EightBytes {
    EncodeFixed32(w % 0x1_0000_0000) + EncodeFixed32(w / 0x1_0000_0000)
  }

  function DecodeFixed64(b: EightBytes): word64 {
    DecodeFixed32(b[..4]) + DecodeFixed32(b[4..]) * 0x1_0000_0000
  }

  lemma DecodeEncodeFixed64(w: word64)
    ensures DecodeFixed64(EncodeFixed64(w)) == w
  {
    DecodeEncodeFixed32(w % 0x1_0000_0000);
    DecodeEncodeFixed32(w / 0x1_0000_0000);
    assert EncodeFixed64(w)[..4] == EncodeFixed32(w % 0x1_0000_0000);
    assert EncodeFixed64(w)[4..] == EncodeFixed32(w / 0x1_0000_0000);
  }

  function Zeros(n: nat): (r: seq<byte>)
    ensures |r| == n
  {
    seq(n, i => 0)
  }

  lemma Regroup(a: seq<byte>, b: seq<byte>, c: seq<byte>)
    ensures a + b + c == a + (b + c)
  {
  }

  // ----- base-128 varints -----

  function Pow2(k: nat): (r: nat)
    ensures r > 0
  {
    if k == 0 then 1 else 2 * Pow2(k - 1)
  }

  /** Seven bits a byte, low ones first, the high bit of a byte telling that more follow. */
  function VarintBytes(n: nat): (r: seq<byte>)
    ensures r != []
    ensures r[0] == 0 <==> n == 0
  {
    if n < 128 then [n] else [n % 128 + 128] + VarintBytes(n / 128)
  }

  lemma Pow2Adds(a: nat, b: nat)
    ensures Pow2(a + b) == Pow2(a) * Pow2(b)
  {
    if a > 0 {
      Pow2Adds(a - 1, b);
    }
  }

  lemma Pow2Seven(k: nat)
    ensures Pow2(k + 7) == 128 * Pow2(k)
  {
    Pow2Adds(k, 7);
    assert Pow2(7) == 128 by {
      assert Pow2(3) == 8 && Pow2(5) == 32;
    }
  }

  lemma {:induction false} VarintLength(n: nat, k: nat)
    requires k > 0 && n < Pow2(7 * k)
    ensures |VarintBytes(n)| <= k
  {
    if n >= 128 {
      if k == 1 {
        Pow2Seven(0);
      } else {
        Pow2Seven(7 * (k - 1));
        VarintLength(n / 128, k - 1);
      }
    }
  }

  /** Bitwise or. */
  function Or(a: nat, b: nat): nat {
    if a == 0 then b else if b == 0 then a
    else 2 * Or(a / 2, b / 2) + if a % 2 == 1 || b % 2 == 1 then 1 else 0
  }

  lemma DoubleHigh(b: nat, k: nat)
    requires k > 0 && b > 0
    ensures b * Pow2(k) == 2 * (b * Pow2(k - 1)) && b * Pow2(k - 1) > 0
  {
    var p := Pow2(k - 1);
    assert b * (2 * p) == 2 * (b * p) && b * p >= p;
  }

  lemma {:induction false} OrDisjoint(a: nat, b: nat, k: nat)
    requires a < Pow2(k)
    ensures Or(a, b * Pow2(k)) == a + b * Pow2(k)
    decreases k
  {
    if k > 0 && a != 0 && b != 0 {
      var c := b * Pow2(k - 1);
      DoubleHigh(b, k);
      OrDisjoint(a / 2, b, k - 1);
      assert 2 * c / 2 == c;
    }
  }

  // ----- remainders -----

  lemma Distribute(m: nat, a: nat, d: nat)
    ensures m * (a + d) == m * a + m * d
    ensures d > 0 ==> m * d >= m
  {
  }

  lemma RemainderUnique(m: nat, q: nat, r: nat, q': nat, r': nat)
    requires m * q + r == m * q' + r' && r < m && r' < m
    ensures r == r'
  {
    if q' > q {
      Distribute(m, q, q' - q);
      assert false;
    } else if q' < q {
      Distribute(m, q', q - q');
      assert false;
    }
  }

  lemma ModMultiple(a: nat, span: nat, q: nat)
    requires a < span
    ensures (a + span * q) % span == a
  {
    var x := a + span * q;
    assert x == span * (x / span) + x % span;
    RemainderUnique(span, q, a, x / span, x % span);
  }

  // ----- reading varints -----

  const TWO32 := 0x1_0000_0000
  const TWO64 := 0x1_0000_0000_0000_0000

  lemma TwoTo64()
    ensures Pow2(32) == TWO32 && Pow2(64) == TWO64 && Pow2(70) == 64 * TWO64
  {
    Pow2Seven(0);
    Pow2Seven(7);
    Pow2Seven(14);
    Pow2Seven(21);
    Pow2Adds(4, 28);
    Pow2Adds(32, 32);
    Pow2Adds(6, 64);
    assert Pow2(4) == 16 && Pow2(6) == 64;
  }

  /** A number or value read, and the bytes after it. */
  datatype Read<+T> = Read(value: T, rest: seq<byte>)

  /** Seven more bits at a bit position, as far as the integer is wide. */
  function AddDigit(result: nat, digit: nat, bitpos: nat, span: nat): (r: nat)
    requires span > 0
    ensures r < span
  {
    Or(result, digit * Pow2(bitpos)) % span
  }

  /** Digits from a bit position on, up to the last position `top`, into an integer of `span` values. */
  function VarintFrom(s: seq<byte>, shift: nat, result: nat, top: nat, span: nat): (r: Option<Read<nat>>)
    requires span > 0
    ensures r.Some? ==> |r.value.rest| < |s| && r.value.value < span
    decreases |s|
  {
    if shift > top || s == [] then None
    else
      var next := AddDigit(result, s[0] % 128, shift, span);
      if s[0] >= 128 then VarintFrom(s[1..], shift + 7, next, top, span) else Some(Read(next, s[1..]))
  }

  lemma SplitDigit(m: nat, p: nat)
    ensures m * p == m / 128 * (128 * p) + m % 128 * p
    ensures m > 0 ==> m * p >= p
    ensures m % 128 * p <= 127 * p
    ensures 0 <= m % 128 * p <= m * p
  {
    var q, d := m / 128, m % 128;
    Products(q, d, p);
    assert m == q * 128 + d;
  }

  lemma Products(q: nat, d: nat, p: nat)
    requires d < 128
    ensures (q * 128 + d) * p == q * (128 * p) + d * p
    ensures q * 128 + d > 0 ==> (q * 128 + d) * p >= p
    ensures 0 <= d * p <= 127 * p && d * p <= (q * 128 + d) * p
  {
  }

  lemma {:induction false} Pow2Grows(a: nat, b: nat)
    requires a <= b
    ensures Pow2(a) <= Pow2(b)
  {
    if a < b {
      Pow2Grows(a, b - 1);
    }
  }

  lemma PowerBelow(k: nat, top: nat)
    requires Pow2(k) < Pow2(top)
    ensures k < top
  {
    if k >= top {
      Pow2Grows(top, k);
    }
  }

  lemma DigitAdded(result: nat, digit: nat, bitpos: nat, span: nat)
    requires result < Pow2(bitpos) && result + digit * Pow2(bitpos) < span
    ensures AddDigit(result, digit, bitpos, span) == result + digit * Pow2(bitpos)
  {
    OrDisjoint(result, digit, bitpos);
    var w := result + digit * Pow2(bitpos);
    ModMultiple(w, span, 0);
  }

  /** Taking one digit keeps the number that is read. */
  lemma ShiftDigit(m: nat, shift: nat, result: nat)
    requires result < Pow2(shift)
    ensures var next := result + m % 128 * Pow2(shift);
            next < Pow2(shift + 7) && next + m / 128 * Pow2(shift + 7) == result + m * Pow2(shift)
    ensures m > 0 ==> Pow2(shift) <= m * Pow2(shift)
    ensures 0 <= m % 128 * Pow2(shift) <= m * Pow2(shift)
  {
    SplitDigit(m, Pow2(shift));
    Pow2Seven(shift);
  }

  /** What the digits of a number start with and go on with. */
  lemma FirstDigit(m: nat, rest: seq<byte>)
    ensures var s := VarintBytes(m) + rest;
            s[0] % 128 == m % 128 && (s[0] >= 128 <==> m >= 128) && s[1..] == if m < 128 then rest else VarintBytes(m / 128) + rest
  {
    if m < 128 {
      OneBefore(m, [], rest);
      assert [m] + [] == [m] && [] + rest == rest;
    } else {
      OneBefore(m % 128 + 128, VarintBytes(m / 128), rest);
    }
  }

  lemma OneBefore(b: byte, tail: seq<byte>, rest: seq<byte>)
    ensures ([b] + tail + rest)[0] == b && ([b] + tail + rest)[1..] == tail + rest
  {
  }

  /** One digit of a varint. */
  lemma ReadDigit(s: seq<byte>, shift: nat, result: nat, next: nat, top: nat, span: nat)
    requires s != [] && shift <= top && span > 0 && next == AddDigit(result, s[0] % 128, shift, span)
    ensures VarintFrom(s, shift, result, top, span) ==
            if s[0] >= 128 then VarintFrom(s[1..], shift + 7, next, top, span) else Some(Read(next, s[1..]))
  {
  }

  /** Reading the digits of a number that fits the integer; `n` is the number read in the end. */
  lemma {:induction false} ReadDigits(m: nat, shift: nat, result: nat, n: nat, rest: seq<byte>, top: nat, bits: nat, span: nat)
    requires bits > 0 && Pow2(bits) == span && top == (bits - 1) / 7 * 7
    requires result < Pow2(shift) && n == result + m * Pow2(shift) < span
    requires shift % 7 == 0 && (shift > 0 ==> m > 0)
    ensures VarintFrom(VarintBytes(m) + rest, shift, result, top, span) == Some(Read(n, rest))
    decreases m
  {
    ShiftDigit(m, shift, result);
    if m > 0 {
      PowerBelow(shift, bits);
    }
    TopAbove(shift, bits);
    var next := result + m % 128 * Pow2(shift);
    FirstDigit(m, rest);
    DigitAdded(result, m % 128, shift, span);
    ReadDigit(VarintBytes(m) + rest, shift, result, next, top, span);
    if m >= 128 {
      ReadDigits(m / 128, shift + 7, next, n, rest, top, bits, span);
    }
  }

  lemma TopAbove(shift: nat, bits: nat)
    requires shift % 7 == 0
    ensures shift < bits ==> shift <= (bits - 1) / 7 * 7
    ensures (shift + 7) % 7 == 0
  {
  }

  lemma ReadVarint64(n: nat, rest: seq<byte>)
    requires n < TWO64
    ensures VarintFrom(VarintBytes(n) + rest, 0, 0, 63, TWO64) == Some(Read(n, rest))
  {
    TwoTo64();
    ReadDigits(n, 0, 0, n, rest, 63, 64, TWO64);
  }

  lemma ReadVarint32(n: nat, rest: seq<byte>)
    requires n < TWO32
    ensures VarintFrom(VarintBytes(n) + rest, 0, 0, 28, TWO32) == Some(Read(n, rest))
  {
    TwoTo64();
    ReadDigits(n, 0, 0, n, rest, 28, 32, TWO32);
  }

  // ----- numbers as anyone reads them -----

  /** A number in base 128, low digits first; the high bit of a byte tells that more follow. */
  function ScanNumber(s: seq<byte>): (r: Option<Read<nat>>)
    ensures r.Some? ==> |r.value.rest| < |s|
  {
    if s == [] then None
    else if s[0] < 128 then Some(Read(s[0], s[1..]))
    else
      var high := ScanNumber(s[1..]);
      if high.None? then None else Some(Read(s[0] - 128 + 128 * high.value.value, high.value.rest))
  }

  function LittleEndian(b: seq<byte>): nat {
    if b == [] then 0 else b[0] as int + 256 * LittleEndian(b[1..])
  }

  lemma {:induction false} NumberScans(n: nat, rest: seq<byte>)
    ensures ScanNumber(VarintBytes(n) + rest) == Some(Read(n, rest))
    decreases n
  {
    FirstDigit(n, rest);
    if n >= 128 {
      NumberScans(n / 128, rest);
    }
  }

  lemma LittleSteps(b: seq<byte>, rest: seq<byte>)
    requires |b| == 4
    ensures LittleEndian(b + rest) ==
            b[0] as int + 0x100 * b[1] as int + 0x1_0000 * b[2] as int + 0x100_0000 * b[3] as int + 0x1_0000_0000 * LittleEndian(rest)
  {
    var s := b + rest;
    assert s[1..] == b[1..] + rest && s[1..][1..] == b[2..] + rest && s[1..][1..][1..] == b[3..] + rest;
    assert s[1..][1..][1..][1..] == rest;
    var a3: int := b[3] as int + 256 * LittleEndian(rest);
    assert LittleEndian(b[3..] + rest) == a3;
    var a2: int := b[2] as int + 256 * a3;
    assert LittleEndian(b[2..] + rest) == a2;
    assert LittleEndian(b[1..] + rest) == b[1] as int + 256 * a2;
  }

  lemma FourScans(w: word32)
    ensures LittleEndian(EncodeFixed32(w)) == w
  {
    DecodeEncodeFixed32(w);
    LittleSteps(EncodeFixed32(w), []);
    assert EncodeFixed32(w) + [] == EncodeFixed32(w);
  }

  lemma EightScans(w: word64)
    ensures LittleEndian(EncodeFixed64(w)) == w
  {
    hide EncodeFixed32;
    DecodeEncodeFixed32(w % 0x1_0000_0000);
    FourScans(w / 0x1_0000_0000);
    LittleSteps(EncodeFixed32(w % 0x1_0000_0000), EncodeFixed32(w / 0x1_0000_0000));
  }
}
