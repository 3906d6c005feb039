/** The parts of a table file: stored blocks with their trailers, block handles and the footer
    (table/format.cc), and what a table needs of its comparator. */
module TableFormat {
  import opened Options
  import opened Coding
  import opened BlockLayout
  import BlockIter
  import Bloom
  import ByteKeys
  import FilterBlock
  import Log

  // ----- comparators -----

  /** A comparator, and which part of a key a lookup compares in the end. */
  datatype Comparator = Comparator(less: (Bytes, Bytes) -> bool, separator: (Bytes, Bytes) -> Bytes, successor: Bytes -> Bytes,
                                   user: Bytes -> Bytes)
  {
    /** A separator lies from the start to below the limit, and past one that was shortened no key has the
        limit's user key; a successor does not lie before the key. */
    ghost predicate Separates(start: Bytes, limit: Bytes) {
      var s := separator(start, limit);
      && (s == start || less(start, s)) && less(s, limit)
      && (s != start ==> forall k :: !less(s, k) ==> user(k) != user(limit))
    }

    ghost predicate Good() {
      && BlockIter.Transitive(less)
      && (forall a, b {:trigger separator(a, b)} :: less(a, b) ==> Separates(a, b))
      && forall a :: successor(a) == a || less(a, successor(a))
    }
  }

  function InternalComparator(): Comparator {
    Comparator(ByteKeys.InternalBefore, ByteKeys.InternalSeparator, ByteKeys.InternalSuccessor, ByteKeys.UserKey)
  }

  lemma InternalComparatorGood()
    ensures InternalComparator().Good()
  {
    var c := InternalComparator();
    forall a, b, d | c.less(a, b) && c.less(b, d) ensures c.less(a, d) {
      ByteKeys.InternalTransitive(a, b, d);
    }
    forall a, b | c.less(a, b) ensures c.Separates(a, b) {
      forall k {
        ByteKeys.InternalSeparates(a, b, k);
      }
      ByteKeys.InternalSeparates(a, b, a);
    }
    forall a ensures c.successor(a) == a || c.less(a, c.successor(a)) {
      ByteKeys.InternalFollows(a);
    }
  }

  function BytewiseComparator(): Comparator {
    Comparator(ByteKeys.Before, ByteKeys.Separator, k => ByteKeys.SuccessorFrom(k, 0), k => k)
  }

  lemma BytewiseComparatorGood()
    ensures BytewiseComparator().Good()
  {
    var c := BytewiseComparator();
    forall a, b, d | c.less(a, b) && c.less(b, d) ensures c.less(a, d) {
      ByteKeys.BeforeTransitive(a, b, d);
    }
    forall a, b | c.less(a, b) ensures c.Separates(a, b) {
      ByteKeys.SeparatorSeparates(a, b);
    }
    forall a ensures c.successor(a) == a || c.less(a, c.successor(a)) {
      ByteKeys.SuccessorFollows(a, 0);
    }
  }

  // ----- the bloom filter on user keys -----

  function UserKeys(keys: seq<Bytes>): (r: seq<Bytes>)
    ensures |r| == |keys|
  {
    seq(|keys|, i requires 0 <= i < |keys| => ByteKeys.UserKey(keys[i]))
  }

  /** The policy of a database: a bloom filter on the user keys alone. */
  function InternalBloomPolicy(p: Bloom.Policy): FilterBlock.FilterPolicy
    requires p.Valid()
  {
    FilterBlock.FilterPolicy(keys => p.Filter(UserKeys(keys)), (key, filter) => p.MayMatch(ByteKeys.UserKey(key), filter))
  }

  lemma InternalBloomGood(p: Bloom.Policy)
    requires p.Valid()
    ensures InternalBloomPolicy(p).Good(ByteKeys.UserKey)
  {
    var policy := InternalBloomPolicy(p);
    forall keys: seq<Bytes>, e: Bytes, k: Bytes | e in keys && ByteKeys.UserKey(e) == ByteKeys.UserKey(k)
      ensures policy.mayMatch(k, policy.create(keys))
    {
      var i :| 0 <= i < |keys| && keys[i] == e;
      assert UserKeys(keys)[i] == ByteKeys.UserKey(k);
      Bloom.NoFalseNegatives(p, UserKeys(keys), ByteKeys.UserKey(k));
    }
  }

  // ----- block handles -----

  datatype BlockHandle = BlockHandle(offset: nat, size: nat)

  function EncodeHandle(h: BlockHandle): Bytes {
    VarintBytes(h.offset) + VarintBytes(h.size)
  }

  function DecodeHandle(s: Bytes): Option<Read<BlockHandle>> {
    var offset := VarintFrom(s, 0, 0, 63, TWO64);
    if offset.None? then None
    else
      var size := VarintFrom(offset.value.rest, 0, 0, 63, TWO64);
      if size.None? then None else Some(Read(BlockHandle(offset.value.value, size.value.value), size.value.rest))
  }

  lemma HandleRead(h: BlockHandle, rest: Bytes)
    requires h.offset < TWO64 && h.size < TWO64
    ensures DecodeHandle(EncodeHandle(h) + rest) == Some(Read(h, rest))
  {
    ReadVarint64(h.offset, VarintBytes(h.size) + rest);
    ReadVarint64(h.size, rest);
    assert EncodeHandle(h) + rest == VarintBytes(h.offset) + (VarintBytes(h.size) + rest);
  }

  lemma HandleLength(h: BlockHandle)
    requires h.offset < TWO64 && h.size < TWO64
    ensures |EncodeHandle(h)| <= 20
  {
    TwoTo64();
    VarintLength(h.offset, 10);
    VarintLength(h.size, 10);
  }

  // ----- the footer -----

  const MAGIC: word64 := 0xdb4775248b80fb57

  const FOOTER_SIZE := 48

  /** What is missing to the length of two handles at their longest. */
  function Padding(n: nat): nat {
    if n < 40 then 40 - n else 0
  }

  function EncodeFooter(metaindex: BlockHandle, index: BlockHandle): Bytes {
    var handles := EncodeHandle(metaindex) + EncodeHandle(index);
    handles + Zeros(Padding(|handles|)) + EncodeFixed64(MAGIC)
  }

  datatype Footer = Footer(metaindex: BlockHandle, index: BlockHandle)

  function DecodeFooter(s: Bytes): Option<Footer>
    requires |s| == FOOTER_SIZE
  {
    if DecodeFixed64(s[40..48]) != MAGIC then None
    else
      var metaindex := DecodeHandle(s);
      if metaindex.None? then None
      else
        var index := DecodeHandle(metaindex.value.rest);
        if index.None? then None else Some(Footer(metaindex.value.value, index.value.value))
  }

  lemma FooterRead(metaindex: BlockHandle, index: BlockHandle)
    requires metaindex.offset < TWO64 && metaindex.size < TWO64 && index.offset < TWO64 && index.size < TWO64
    ensures |EncodeFooter(metaindex, index)| == FOOTER_SIZE
    ensures DecodeFooter(EncodeFooter(metaindex, index)) == Some(Footer(metaindex, index))
  {
    HandleLength(metaindex);
    HandleLength(index);
    WordBack(EncodeFixed64(MAGIC), MAGIC);
    FooterDecodes(metaindex, index, Zeros(Padding(|EncodeHandle(metaindex) + EncodeHandle(index)|)), EncodeFixed64(MAGIC));
  }

  lemma FooterDecodes(metaindex: BlockHandle, index: BlockHandle, zeros: Bytes, magic: EightBytes)
    requires metaindex.offset < TWO64 && metaindex.size < TWO64 && index.offset < TWO64 && index.size < TWO64
    requires |EncodeHandle(metaindex) + EncodeHandle(index) + zeros| == 40 && DecodeFixed64(magic) == MAGIC
    ensures var s := EncodeHandle(metaindex) + EncodeHandle(index) + zeros + magic;
            |s| == FOOTER_SIZE && DecodeFooter(s) == Some(Footer(metaindex, index))
  {
    var m, i := EncodeHandle(metaindex), EncodeHandle(index);
    FooterParts(m, i, zeros, magic);
    HandleRead(metaindex, i + (zeros + magic));
    HandleRead(index, zeros + magic);
  }

  lemma WordBack(b: EightBytes, w: word64)
    requires b == EncodeFixed64(w)
    ensures DecodeFixed64(b) == w
  {
    DecodeEncodeFixed64(w);
  }

  lemma FooterParts(m: Bytes, i: Bytes, zeros: Bytes, magic: Bytes)
    requires |m + i + zeros| == 40 && |magic| == 8
    ensures var s := m + i + zeros + magic;
            |s| == 48 && s[40..48] == magic && s == m + (i + (zeros + magic))
  {
  }

  // ----- blocks in the file -----

  /** What is written for a block: the contents, the type of no compression, and the checksum of both. */
  function RawBlock(codec: Log.Codec, contents: Bytes): Bytes {
    contents + ([0] + codec.store(codec.crc(contents + [0])))
  }

  ghost predicate Stored(codec: Log.Codec, file: Bytes, h: BlockHandle, contents: Bytes) {
    && h.size == |contents| && h.offset + h.size + 5 <= |file|
    && file[h.offset..h.offset + h.size + 5] == RawBlock(codec, contents)
  }

  function ReadBlock(codec: Log.Codec, file: Bytes, verify: bool, h: BlockHandle): Option<Bytes> {
    var n := h.size;
    if h.offset + n + 5 > |file| then None  // truncated block read
    else
      var data := file[h.offset..h.offset + n + 5];
      if verify && codec.crc(data[..n + 1]) != codec.load(data[n + 1..n + 5]) then None  // block checksum mismatch
      else if data[n] != 0 then None  // compressed, or a bad block type
      else Some(data[..n])
  }

  lemma StoredIsRead(codec: Log.Codec, file: Bytes, verify: bool, h: BlockHandle, contents: Bytes)
    requires codec.Good() && Stored(codec, file, h, contents)
    ensures ReadBlock(codec, file, verify, h) == Some(contents)
  {
    var data, n := RawBlock(codec, contents), h.size;
    assert data[..n] == contents && data[n] == 0 && data[..n + 1] == contents + [0];
    assert data[n + 1..n + 5] == codec.store(codec.crc(contents + [0]));
  }

  lemma StoredStays(codec: Log.Codec, file: Bytes, more: Bytes, h: BlockHandle, contents: Bytes)
    requires Stored(codec, file, h, contents)
    ensures Stored(codec, file + more, h, contents)
  {
    assert (file + more)[h.offset..h.offset + h.size + 5] == file[h.offset..h.offset + h.size + 5];
  }

  lemma StoredAtEnd(codec: Log.Codec, file: Bytes, contents: Bytes)
    ensures Stored(codec, file + RawBlock(codec, contents), BlockHandle(|file|, |contents|), contents)
  {
    var h := BlockHandle(|file|, |contents|);
    assert (file + RawBlock(codec, contents))[h.offset..h.offset + h.size + 5] == RawBlock(codec, contents);
  }
}
