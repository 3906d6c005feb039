/** The write-ahead log: records cut into checksummed fragments that fit 32 KB blocks, and the
    reader that puts them together again, also from a file cut short by a crash
    (db/log_writer.cc, db/log_reader.cc). */
module Log {
  import opened Coding

  const BLOCK_SIZE := 32768
  const HEADER_SIZE := 7

  datatype RecordType = ZeroType | FullType | FirstType | MiddleType | LastType | OtherType(code: byte)

  function TypeCode(t: RecordType): byte {
    match t
    case ZeroType => 0
    case FullType => 1
    case FirstType => 2
    case MiddleType => 3
    case LastType => 4
    case OtherType(code) => code
  }

  function TypeOf(code: byte): RecordType {
    if code == 0 then ZeroType
    else if code == 1 then FullType
    else if code == 2 then FirstType
    else if code == 3 then MiddleType
    else if code == 4 then LastType
    else OtherType(code)
  }

  // ----- stored checksums -----

  const MASK_DELTA: word32 := 0xa282ead8

  /** Rotate right by 15 bits and add a constant. */
  function Mask(crc: word32): word32 {
    ((crc / 0x8000 + crc % 0x8000 * 0x2_0000) + MASK_DELTA) % 0x1_0000_0000
  }

  function Unmask(masked: word32): word32 {
    var rot := (masked - MASK_DELTA) % 0x1_0000_0000;
    rot / 0x2_0000 + rot % 0x2_0000 * 0x8000
  }

  lemma UnmaskMask(crc: word32)
    ensures Unmask(Mask(crc)) == crc
  {
    var hi, lo := crc / 0x8000, crc % 0x8000;
    var rotated := hi + lo * 0x2_0000;
    assert 0 <= hi < 0x2_0000 && 0 <= rotated < 0x1_0000_0000;
    assert (Mask(crc) - MASK_DELTA) % 0x1_0000_0000 == rotated;
    assert rotated / 0x2_0000 == lo && rotated % 0x2_0000 == hi;
  }

  /** A checksum of type and payload, and how it is stored in a header. */
  datatype Codec = Codec(crc: seq<byte> -> word32, store: word32 -> FourBytes, load: FourBytes -> word32)
  {
    ghost predicate Good() {
      forall w :: load(store(w)) == w
    }
  }

  /** The stored form the log uses: masked, little endian. */
  function MaskedCodec(crc: seq<byte> -> word32): Codec {
    Codec(crc, w => EncodeFixed32(Mask(w)), b => Unmask(DecodeFixed32(b)))
  }

  lemma MaskedCodecGood(crc: seq<byte> -> word32)
    ensures MaskedCodec(crc).Good()
  {
    var c := MaskedCodec(crc);
    forall w ensures c.load(c.store(w)) == w {
      DecodeEncodeFixed32(Mask(w));
      UnmaskMask(w);
    }
  }

  function Header(c: Codec, t: RecordType, data: seq<byte>): (h: seq<byte>)
    requires |data| < 0x1_0000
    ensures |h| == HEADER_SIZE
  {
    c.store(c.crc([TypeCode(t)] + data)) + [|data| % 256, |data| / 256, TypeCode(t)]
  }

  // ----- the layout of a record -----

  /** Bytes of trailer at in-block offset `off`: a header never starts in the last six bytes. */
  function Pad(off: nat): nat
    requires off <= BLOCK_SIZE
  {
    if BLOCK_SIZE - off < HEADER_SIZE then BLOCK_SIZE - off else 0
  }

  function FragmentType(begin: bool, end: bool): RecordType {
    if begin && end then FullType else if begin then FirstType else if end then LastType else MiddleType
  }

  /** The in-block offset where the next header goes. */
  function HeaderOffset(off: nat): (r: nat)
    requires off <= BLOCK_SIZE
    ensures r + HEADER_SIZE <= BLOCK_SIZE
  {
    if BLOCK_SIZE - off < HEADER_SIZE then 0 else off
  }

  /** How much of the record goes into the next fragment. */
  function FragmentLength(off: nat, left: nat): (r: nat)
    requires off <= BLOCK_SIZE
    ensures r <= left && HeaderOffset(off) + HEADER_SIZE + r <= BLOCK_SIZE
  {
    var avail := BLOCK_SIZE - HeaderOffset(off) - HEADER_SIZE;
    if left < avail then left else avail
  }

  /** The bytes of one fragment, with the trailer before it. */
  function FragmentBytes(codec: Codec, off: nat, data: seq<byte>, begin: bool): (r: seq<byte>)
    requires off <= BLOCK_SIZE
    ensures |r| == Pad(off) + HEADER_SIZE + FragmentLength(off, |data|)
  {
    var n := FragmentLength(off, |data|);
    Zeros(Pad(off)) + Header(codec, FragmentType(begin, n == |data|), data[..n]) + data[..n]
  }

  /** What AddRecord appends for a record, or for the rest of one. */
  function RecordBytes(codec: Codec, off: nat, data: seq<byte>, begin: bool): seq<byte>
    requires off <= BLOCK_SIZE
    decreases |data|, BLOCK_SIZE - off
  {
    var n := FragmentLength(off, |data|);
    FragmentBytes(codec, off, data, begin) +
    if n == |data| then [] else RecordBytes(codec, HeaderOffset(off) + HEADER_SIZE + n, data[n..], false)
  }

  /** The log a writer leaves after adding the records to an empty file. */
  function LogBytes(codec: Codec, records: seq<seq<byte>>): seq<byte> {
    if records == [] then []
    else
      var before := LogBytes(codec, records[..|records| - 1]);
      before + RecordBytes(codec, |before| % BLOCK_SIZE, records[|records| - 1], true)
  }

  /** A full block and an empty one are the same place to write at. */
  lemma FullBlockIsNext(codec: Codec, data: seq<byte>, begin: bool)
    ensures RecordBytes(codec, BLOCK_SIZE, data, begin) == RecordBytes(codec, 0, data, begin)
  {
    assert Zeros(0) == [];
  }

  class Writer {
    var dest: seq<byte>
    var blockOffset: nat
    const codec: Codec

    ghost predicate Valid()
      reads this
    {
      blockOffset <= BLOCK_SIZE && blockOffset % BLOCK_SIZE == |dest| % BLOCK_SIZE
    }

    /** A writer that goes on at the end of an existing file. */
    constructor (codec: Codec, dest: seq<byte>)
      ensures Valid() && this.dest == dest && this.codec == codec
    {
      this.codec, this.dest := codec, dest;
      blockOffset := |dest| % BLOCK_SIZE;
    }

    method EmitPhysicalRecord(t: RecordType, data: seq<byte>)
      requires blockOffset + HEADER_SIZE + |data| <= BLOCK_SIZE
      modifies this
      ensures dest == old(dest) + Header(codec, t, data) + data
      ensures blockOffset == old(blockOffset) + HEADER_SIZE + |data|
    {
      var header := codec.store(codec.crc([TypeCode(t)] + data)) + [|data| % 256, |data| / 256, TypeCode(t)];
      dest := dest + header;
      dest := dest + data;
      blockOffset := blockOffset + HEADER_SIZE + |data|;
    }

    /** One round of AddRecord's loop: the next fragment of what is left of the record. */
    method AddFragment(left: seq<byte>, begin: bool) returns (n: nat)
      requires blockOffset <= BLOCK_SIZE
      modifies this
      ensures n == FragmentLength(old(blockOffset), |left|)
      ensures blockOffset == HeaderOffset(old(blockOffset)) + HEADER_SIZE + n
      ensures dest == old(dest) + FragmentBytes(codec, old(blockOffset), left, begin)
    {
      hide Header, Zeros, RecordBytes;
      var leftover := BLOCK_SIZE - blockOffset;
      if leftover < HEADER_SIZE {
        // switch to a new block, filling the trailer
        if leftover > 0 {
          dest := dest + Zeros(leftover);
        }
        blockOffset := 0;
      }
      ghost var padded := dest;
      assert padded == old(dest) + Zeros(Pad(old(blockOffset)));
      var avail := BLOCK_SIZE - blockOffset - HEADER_SIZE;
      n := if |left| < avail then |left| else avail;
      var end := |left| == n;
      var t;
      if begin && end {
        t := FullType;
      } else if begin {
        t := FirstType;
      } else if end {
        t := LastType;
      } else {
        t := MiddleType;
      }
      EmitPhysicalRecord(t, left[..n]);
      assert dest == padded + Header(codec, t, left[..n]) + left[..n];
    }

    /** One round of AddRecord's loop: what is left after the next fragment. */
    method AddRound(left: seq<byte>, begin: bool) returns (left': seq<byte>)
      requires Valid()
      modifies this
      ensures Valid()
      ensures |left'| < |left| || (left' == left && old(blockOffset) < blockOffset) || left' == []
      ensures dest + RestBytes(codec, blockOffset, left') == old(dest) + RecordBytes(codec, old(blockOffset), left, begin)
    {
      ghost var dest0, off := dest, blockOffset;
      var n := AddFragment(left, begin);
      OffsetAfterFragment(dest0, off, FragmentBytes(codec, off, left, begin), n);
      RecordUnfold(codec, off, left, begin, dest0);
      left' := left[n..];
    }

    /** Adds a record; an empty one still gets one fragment. */
    method AddRecord(data: seq<byte>)
      requires Valid()
      modifies this
      ensures Valid()
      ensures dest == old(dest) + RecordBytes(codec, old(|dest|) % BLOCK_SIZE, data, true)
    {
      ghost var whole := RecordBytes(codec, blockOffset, data, true);
      FullBlockIsNext(codec, data, true);
      assert whole == RecordBytes(codec, |dest| % BLOCK_SIZE, data, true);
      var left := AddRound(data, true);
      while left != []
        invariant Valid()
        invariant dest + RestBytes(codec, blockOffset, left) == old(dest) + whole
        decreases |left|, BLOCK_SIZE - blockOffset
      {
        left := AddRound(left, false);
      }
      assert dest == dest + RestBytes(codec, blockOffset, left);
    }
  }

  /** The fragments after the first. */
  function RestBytes(codec: Codec, off: nat, left: seq<byte>): seq<byte>
    requires off <= BLOCK_SIZE
  {
    if left == [] then [] else RecordBytes(codec, off, left, false)
  }

  /** A fragment appended to `dest`, and what is left of the record after it. */
  lemma RecordUnfold(codec: Codec, off: nat, left: seq<byte>, begin: bool, dest: seq<byte>)
    requires off <= BLOCK_SIZE
    ensures var n := FragmentLength(off, |left|);
            (dest + FragmentBytes(codec, off, left, begin)) + RestBytes(codec, HeaderOffset(off) + HEADER_SIZE + n, left[n..])
            == dest + RecordBytes(codec, off, left, begin)
  {
  }

  lemma OffsetAfterFragment(dest: seq<byte>, off: nat, fragment: seq<byte>, n: nat)
    requires off <= BLOCK_SIZE && off % BLOCK_SIZE == |dest| % BLOCK_SIZE
    requires |fragment| == Pad(off) + HEADER_SIZE + n
    ensures (HeaderOffset(off) + HEADER_SIZE + n) % BLOCK_SIZE == |dest + fragment| % BLOCK_SIZE
  {
    if BLOCK_SIZE - off < HEADER_SIZE {
      assert (|dest| + Pad(off)) % BLOCK_SIZE == 0;
    }
  }
}
