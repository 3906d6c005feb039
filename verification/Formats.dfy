/** The formats of the store's files and buffers, as anyone reads them who knows the numbers: little-endian words,
    base-128 numbers, strings behind their length, and the constants written out. */
module Formats {
  import opened Options
  import opened Coding
  import opened BlockLayout
  import Block
  import ByteKeys
  import DbFormat
  import FilterBlock
  import LengthPrefix
  import Log
  import MemTable
  import TableFormat
  import VersionEditCodec
  import WriteBatch

  /** A number of bytes, and so many of them. */
  function ScanString(s: Bytes): Option<Read<Bytes>> {
    var n := ScanNumber(s);
    if n.None? || n.value.value > |n.value.rest| then None
    else Some(Read(n.value.rest[..n.value.value], n.value.rest[n.value.value..]))
  }

  lemma StringScans(b: Bytes, rest: Bytes)
    requires |b| < TWO32
    ensures ScanString(LengthPrefix.Prefixed(b) + rest) == Some(Read(b, rest))
  {
    hide VarintBytes, ScanNumber;
    LengthPrefix.ShortPrefix(b);
    NumberScans(|b|, b + rest);
    Regroup(VarintBytes(|b|), b, rest);
    assert (b + rest)[..|b|] == b && (b + rest)[|b|..] == rest;
  }

  // ----- internal keys, memtable entries and batches -----

  /** An internal key is the user key and eight bytes: 256 times the sequence number, plus one for a value. */
  lemma InternalKeyFormat(keyOf: DbFormat.UserKey -> Bytes, k: DbFormat.InternalKey)
    requires k.seqno <= 0xFF_FFFF_FFFF_FFFF
    ensures var s, user := ByteKeys.Encode(keyOf, k), keyOf(k.ukey);
            && |s| == |user| + 8 && s[..|user|] == user
            && LittleEndian(s[|user|..]) == k.seqno * 256 + if k.kind.Put? then 1 else 0
  {
    hide EncodeFixed64;
    EightScans(DbFormat.Tag(k));
    var s, user := ByteKeys.Encode(keyOf, k), keyOf(k.ukey);
    assert s[|user|..] == EncodeFixed64(DbFormat.Tag(k));
  }

  /** A memtable entry is the internal key and the value, both behind their lengths. */
  lemma MemTableEntryFormat(ikey: Bytes, value: Bytes)
    requires |ikey| < TWO32 && |value| < TWO32
    ensures var first := ScanString(MemTable.EntryBytes(ikey, value));
            first.Some? && first.value.value == ikey && ScanString(first.value.rest) == Some(Read(value, []))
  {
    hide ScanString, LengthPrefix.Prefixed;
    StringScans(ikey, LengthPrefix.Prefixed(value));
    StringScans(value, []);
    assert LengthPrefix.Prefixed(value) + [] == LengthPrefix.Prefixed(value);
  }

  /** A batch is eight bytes of sequence number, four of count, and the updates. */
  lemma BatchFormat(sequence: word64, ops: seq<WriteBatch.Op>)
    requires |ops| < TWO32
    ensures var s := WriteBatch.Contents(sequence, ops);
            && |s| >= 12 && LittleEndian(s[..8]) == sequence && LittleEndian(s[8..12]) == |ops|
            && s[12..] == WriteBatch.OpsBytes(ops)
  {
    hide EncodeFixed64, EncodeFixed32, WriteBatch.OpsBytes;
    EightScans(sequence);
    FourScans(|ops|);
    WriteBatch.Parts(EncodeFixed64(sequence), EncodeFixed32(|ops|), WriteBatch.OpsBytes(ops));
  }

  /** An update is the byte 1, the key and the value, or the byte 0 and the key. */
  lemma UpdateFormat(op: WriteBatch.Op)
    requires WriteBatch.Fits(op)
    ensures var s := WriteBatch.OpBytes(op);
            && |s| > 0 && s[0] == (if op.Put? then 1 else 0)
            && var key := ScanString(s[1..]);
               key.Some? && key.value.value == op.key &&
               if op.Delete? then key.value.rest == [] else ScanString(key.value.rest) == Some(Read(op.value, []))
  {
    hide ScanString, LengthPrefix.Prefixed;
    var s := WriteBatch.OpBytes(op);
    if op.Delete? {
      assert s[1..] == LengthPrefix.Prefixed(op.key) + [];
      StringScans(op.key, []);
    } else {
      assert s[1..] == LengthPrefix.Prefixed(op.key) + LengthPrefix.Prefixed(op.value);
      StringScans(op.key, LengthPrefix.Prefixed(op.value));
      assert LengthPrefix.Prefixed(op.value) + [] == LengthPrefix.Prefixed(op.value);
      StringScans(op.value, []);
    }
  }

  // ----- the log -----

  function Trailer(off: nat): nat {
    if off <= 32768 && 32768 - off < 7 then 32768 - off else 0
  }

  /** How much of `left` bytes fits the block behind a header. */
  function Fitting(off: nat, left: nat): nat {
    var room := (if off <= 32768 - 7 then 32768 - off else 32768) - 7;
    if left < room then left else room
  }

  /** Whole, first, middle and last fragments. */
  function FragmentCode(begin: bool, end: bool): byte {
    if begin && end then 1 else if begin then 2 else if end then 4 else 3
  }

  /** Zeros, then the stored checksum of type and payload, two bytes of length, the type, and the payload. */
  ghost predicate IsFragment(codec: Log.Codec, s: Bytes, zeros: nat, code: byte, payload: Bytes) {
    && |s| == zeros + 7 + |payload| && (forall i :: 0 <= i < zeros ==> s[i] == 0)
    && codec.load(s[zeros..zeros + 4]) == codec.crc([code] + payload)
    && LittleEndian(s[zeros + 4..zeros + 6]) == |payload| && s[zeros + 6] == code && s[zeros + 7..] == payload
  }

  /** A fragment begins behind zeros where fewer than seven bytes are left in the block, and holds all that is left of
      the record or fits the block. */
  lemma FragmentFormat(codec: Log.Codec, off: nat, data: Bytes, begin: bool)
    requires codec.Good() && off <= 32768
    ensures var n := Fitting(off, |data|);
            n <= |data| && IsFragment(codec, Log.FragmentBytes(codec, off, data, begin), Trailer(off), FragmentCode(begin, n == |data|), data[..n])
  {
    var z, n := Log.Pad(off), Log.FragmentLength(off, |data|);
    assert z == Trailer(off) && n == Fitting(off, |data|);
    var t, payload := Log.FragmentType(begin, n == |data|), data[..n];
    assert Log.TypeCode(t) == FragmentCode(begin, n == |data|);
    FragmentParts(codec, z, t, payload);
    assert Log.FragmentBytes(codec, off, data, begin) == Zeros(z) + Log.Header(codec, t, payload) + payload;
  }

  lemma FragmentParts(codec: Log.Codec, z: nat, t: Log.RecordType, payload: Bytes)
    requires codec.Good() && |payload| < 0x1_0000
    ensures IsFragment(codec, Zeros(z) + Log.Header(codec, t, payload) + payload, z, Log.TypeCode(t), payload)
  {
    var zeros, stored := Zeros(z), codec.store(codec.crc([Log.TypeCode(t)] + payload));
    var low: byte, high: byte := |payload| % 256, |payload| / 256;
    FragmentSlices(zeros, stored, low, high, Log.TypeCode(t), payload);
    var s := zeros + (stored + [low, high, Log.TypeCode(t)]) + payload;
    assert s == Zeros(z) + Log.Header(codec, t, payload) + payload;
    assert s[z..z + 4] == stored && codec.load(s[z..z + 4]) == codec.load(stored);
    assert [low, high][1..] == [high] && [high][1..] == [];
    assert LittleEndian([high]) == high as int;
    forall i | 0 <= i < z ensures s[i] == 0 {
      assert s[i] == s[..z][i];
    }
  }

  lemma FragmentSlices(zeros: Bytes, stored: Bytes, low: byte, high: byte, code: byte, payload: Bytes)
    requires |stored| == 4
    ensures var s, z := zeros + (stored + [low, high, code]) + payload, |zeros|;
            s[..z] == zeros && s[z..z + 4] == stored && s[z + 4..z + 6] == [low, high] && s[z + 6] == code && s[z + 7..] == payload
  {
  }

  /** The checksum is rotated by 15 bits and a constant is added; here by its first values. */
  lemma MaskFormat()
    ensures Log.Mask(0) == 0xa282_ead8 && Log.Mask(1) == 0xa284_ead8 && Log.Mask(0x8000) == 0xa282_ead9
    ensures Log.Mask(0xFFFF_FFFF) == 0xa282_ead7
  {
  }

  // ----- the manifest -----

  /** A manifest item by its tag: a string, a number, or a level and what belongs to it. */
  function ScanItem(s: Bytes): Option<Read<VersionEditCodec.Item>> {
    var tag := ScanNumber(s);
    if tag.None? then None
    else
      var body := tag.value.rest;
      if tag.value.value == 1 then
        var name := ScanString(body);
        if name.None? then None else Some(Read(VersionEditCodec.Comparator(name.value.value), name.value.rest))
      else
        var n := ScanNumber(body);
        if n.None? then None
        else
          var first, rest := n.value.value, n.value.rest;
          match tag.value.value
          case 2 => Some(Read(VersionEditCodec.LogNumber(first), rest))
          case 3 => Some(Read(VersionEditCodec.NextFileNumber(first), rest))
          case 4 => Some(Read(VersionEditCodec.LastSequence(first), rest))
          case 9 => Some(Read(VersionEditCodec.PrevLogNumber(first), rest))
          case 5 =>
            var key := ScanString(rest);
            if key.None? then None else Some(Read(VersionEditCodec.CompactPointer(first, key.value.value), key.value.rest))
          case 6 =>
            var number := ScanNumber(rest);
            if number.None? then None else Some(Read(VersionEditCodec.DeletedFile(first, number.value.value), number.value.rest))
          case 7 => ScanNewFile(first, rest)
          case _ => None
  }

  /** Number and size of the file, and its least and greatest key. */
  function ScanNewFile(level: nat, s: Bytes): Option<Read<VersionEditCodec.Item>> {
    var number := ScanNumber(s);
    if number.None? then None
    else
      var size := ScanNumber(number.value.rest);
      if size.None? then None
      else
        var smallest := ScanString(size.value.rest);
        if smallest.None? then None
        else
          var largest := ScanString(smallest.value.rest);
          if largest.None? then None
          else
            var f := VersionEditCodec.FileMeta(number.value.value, size.value.value, smallest.value.value, largest.value.value);
            Some(Read(VersionEditCodec.NewFile(level, f), largest.value.rest))
  }

  lemma NewFileFormat(level: nat, f: VersionEditCodec.FileMeta, rest: Bytes)
    requires |f.smallest| < TWO32 && |f.largest| < TWO32
    ensures ScanNewFile(level, VarintBytes(f.number) + (VarintBytes(f.size) + (LengthPrefix.Prefixed(f.smallest) +
                               (LengthPrefix.Prefixed(f.largest) + rest)))) == Some(Read(VersionEditCodec.NewFile(level, f), rest))
  {
    hide VarintBytes, ScanNumber, ScanString, LengthPrefix.Prefixed;
    var d := LengthPrefix.Prefixed(f.largest) + rest;
    var c := LengthPrefix.Prefixed(f.smallest) + d;
    NumberScans(f.number, VarintBytes(f.size) + c);
    NumberScans(f.size, c);
    StringScans(f.smallest, d);
    StringScans(f.largest, rest);
  }

  lemma ItemFormat(item: VersionEditCodec.Item, rest: Bytes)
    requires VersionEditCodec.Fits(item)
    ensures ScanItem(VersionEditCodec.ItemBytes(item) + rest) == Some(Read(item, rest))
  {
    hide VarintBytes, ScanNumber, ScanString, LengthPrefix.Prefixed, ScanNewFile;
    var body := VersionEditCodec.Body(item);
    Regroup(VarintBytes(VersionEditCodec.TagOf(item)), body, rest);
    NumberScans(VersionEditCodec.TagOf(item), body + rest);
    match item
    case Comparator(name) => StringScans(name, rest);
    case LogNumber(n) => NumberScans(n, rest);
    case PrevLogNumber(n) => NumberScans(n, rest);
    case NextFileNumber(n) => NumberScans(n, rest);
    case LastSequence(n) => NumberScans(n, rest);
    case CompactPointer(level, key) =>
      NumberScans(level, LengthPrefix.Prefixed(key) + rest);
      Regroup(VarintBytes(level), LengthPrefix.Prefixed(key), rest);
      StringScans(key, rest);
    case DeletedFile(level, n) =>
      NumberScans(level, VarintBytes(n) + rest);
      Regroup(VarintBytes(level), VarintBytes(n), rest);
      NumberScans(n, rest);
    case NewFile(level, f) =>
      var a, b, c, d, e := VarintBytes(level), VarintBytes(f.number), VarintBytes(f.size),
        LengthPrefix.Prefixed(f.smallest), LengthPrefix.Prefixed(f.largest);
      Regroup(a, b + (c + (d + e)), rest);
      Regroup(b, c + (d + e), rest);
      Regroup(c, d + e, rest);
      Regroup(d, e, rest);
      NumberScans(level, b + (c + (d + (e + rest))));
      NewFileFormat(level, f, rest);
  }

  // ----- tables -----

  /** A block entry is three numbers (the length shared with the key before, that of the rest of the key, that of the
      value), then the rest of the key, and the value. */
  lemma EntryFormat(shared: nat, e: Pair, rest: Bytes)
    requires shared <= |e.key| < TWO32 && |e.value| < TWO32
    ensures var a := ScanNumber(EntryBytes(shared, e) + rest);
            && a.Some? && a.value.value == shared
            && var b := ScanNumber(a.value.rest);
               && b.Some? && b.value.value == |e.key| - shared
               && ScanNumber(b.value.rest) == Some(Read(|e.value|, e.key[shared..] + e.value + rest))
  {
    hide VarintBytes, ScanNumber;
    var body := e.key[shared..] + e.value;
    var a, b, c := VarintBytes(shared), VarintBytes(|e.key| - shared), VarintBytes(|e.value|);
    ThreeNumbers(shared, |e.key| - shared, |e.value|);
    assert EntryBytes(shared, e) + rest == a + (b + (c + (body + rest)));
    NumberScans(shared, b + (c + (body + rest)));
    NumberScans(|e.key| - shared, c + (body + rest));
    NumberScans(|e.value|, body + rest);
  }

  lemma OneMore(ns: seq<nat>)
    requires ns != [] && ns[0] < TWO32
    ensures Varints(ns) == VarintBytes(ns[0]) + Varints(ns[1..])
  {
    hide VarintBytes;
    Block.SmallMod(ns[0]);
  }

  lemma ThreeNumbers(a: nat, b: nat, c: nat)
    requires a < TWO32 && b < TWO32 && c < TWO32
    ensures Varints([a, b, c]) == VarintBytes(a) + (VarintBytes(b) + (VarintBytes(c) + []))
  {
    hide VarintBytes, Varints;
    OneMore([a, b, c]);
    OneMore([b, c]);
    OneMore([c]);
    NoNumbers();
    assert [a, b, c][1..] == [b, c] && [b, c][1..] == [c] && [c][1..] == [];
  }

  lemma NoNumbers()
    ensures Varints([]) == []
  {
  }

  /** Behind the entries of a block come the restart offsets, four bytes each, and their number. */
  lemma BlockFormat(cells: seq<Bytes>, interval: nat)
    requires interval > 0 && |Restarts(cells, interval)| < TWO32
    ensures var s, n := BlockBytes(cells, interval), |Restarts(cells, interval)|;
            && |s| == |Flat(cells)| + 4 * n + 4 && s[..|Flat(cells)|] == Flat(cells)
            && LittleEndian(s[|s| - 4..]) == n
  {
    hide EncodeFixed32, Flat, Words, Restarts;
    var s, n := BlockBytes(cells, interval), |Restarts(cells, interval)|;
    FourScans(n);
    assert s[|s| - 4..] == EncodeFixed32(n);
  }

  /** Restart points are the first entry and every one whose index the interval divides, and only there a key shares
      nothing; elsewhere it shares all it can. */
  lemma RestartsFormat(es: seq<Pair>, interval: nat, i: nat)
    requires interval > 0 && i < |es|
    ensures Phase(i, interval) == i % interval
    ensures i in Starts(|es|, interval) <==> i == 0 || i % interval == 0
    ensures var r := Shared(es, interval, i);
            if i % interval == 0 then r == 0
            else && r <= |es[i - 1].key| && r <= |es[i].key| && es[i - 1].key[..r] == es[i].key[..r]
                 && (r < |es[i - 1].key| && r < |es[i].key| ==> es[i - 1].key[r] != es[i].key[r])
  {
    PhaseIs(i, interval);
    StartsAre(|es|, interval, i);
    if i % interval != 0 {
      CommonGood(es[i - 1].key, es[i].key, 0);
    }
  }

  lemma {:induction false} PhaseIs(i: nat, interval: nat)
    requires interval > 0
    ensures Phase(i, interval) == i % interval
    decreases i
  {
    if i > 0 {
      PhaseIs(i - 1, interval);
      var q, r := (i - 1) / interval, (i - 1) % interval;
      assert i - 1 == interval * q + r;
      if r + 1 == interval {
        assert i == interval * (q + 1) + 0 by {
          Distribute(interval, q, 1);
        }
        ModMultiple(0, interval, q + 1);
      } else {
        ModMultiple(r + 1, interval, q);
      }
    }
  }

  lemma {:induction false} StartsAre(n: nat, interval: nat, i: nat)
    requires interval > 0 && i < n
    ensures i in Starts(n, interval) <==> i == 0 || i % interval == 0
    decreases n
  {
    PhaseIs(n - 1, interval);
    if i < n - 1 {
      StartsAre(n - 1, interval, i);
    } else if i > 0 {
      StartsBelow(n - 1, interval);
    } else {
      assert Starts(0, interval) == [0];
    }
  }

  lemma {:induction false} StartsBelow(n: nat, interval: nat)
    requires interval > 0 && n > 0
    ensures n !in Starts(n, interval)
  {
    if n in Starts(n, interval) {
      var k :| 0 <= k < |Starts(n, interval)| && Starts(n, interval)[k] == n;
      StartsGood(n, interval, k);
      assert false;
    }
  }

  /** A stored block is the contents, a zero for no compression, and the stored checksum of both. */
  lemma RawBlockFormat(codec: Log.Codec, contents: Bytes)
    requires codec.Good()
    ensures var s := TableFormat.RawBlock(codec, contents);
            && |s| == |contents| + 5 && s[..|contents|] == contents && s[|contents|] == 0
            && codec.load(s[|contents| + 1..]) == codec.crc(contents + [0])
  {
    var s := TableFormat.RawBlock(codec, contents);
    assert s[|contents| + 1..] == codec.store(codec.crc(contents + [0]));
  }

  /** The footer is 48 bytes: offset and size of the metaindex and of the index, zeros, and eight bytes that no
      other file ends in. */
  lemma FooterFormat(metaindex: TableFormat.BlockHandle, index: TableFormat.BlockHandle)
    requires metaindex.offset < TWO64 && metaindex.size < TWO64 && index.offset < TWO64 && index.size < TWO64
    ensures var s := TableFormat.EncodeFooter(metaindex, index);
            && |s| == 48 && s[40..] == [0x57, 0xfb, 0x80, 0x8b, 0x24, 0x75, 0x47, 0xdb]
            && var a := ScanNumber(s);
               && a.Some? && a.value.value == metaindex.offset
               && var b := ScanNumber(a.value.rest);
                  && b.Some? && b.value.value == metaindex.size
                  && var c := ScanNumber(b.value.rest);
                     && c.Some? && c.value.value == index.offset
                     && var d := ScanNumber(c.value.rest);
                        d.Some? && d.value.value == index.size
  {
    hide VarintBytes, ScanNumber;
    TableFormat.FooterRead(metaindex, index);
    MagicBytes();
    var s := TableFormat.EncodeFooter(metaindex, index);
    var a, b, c, d := VarintBytes(metaindex.offset), VarintBytes(metaindex.size), VarintBytes(index.offset), VarintBytes(index.size);
    var rest := Zeros(TableFormat.Padding(|a + b + (c + d)|)) + EncodeFixed64(TableFormat.MAGIC);
    assert s == a + (b + (c + (d + rest)));
    NumberScans(metaindex.offset, b + (c + (d + rest)));
    NumberScans(metaindex.size, c + (d + rest));
    NumberScans(index.offset, d + rest);
    NumberScans(index.size, rest);
    assert s[40..] == EncodeFixed64(TableFormat.MAGIC);
  }

  lemma MagicBytes()
    ensures EncodeFixed64(TableFormat.MAGIC) == [0x57, 0xfb, 0x80, 0x8b, 0x24, 0x75, 0x47, 0xdb]
  {
    assert EncodeFixed32(0x8b80_fb57) == [0x57, 0xfb, 0x80, 0x8b];
    assert EncodeFixed32(0xdb47_7524) == [0x24, 0x75, 0x47, 0xdb];
  }

  /** A file that ends otherwise is no table. */
  lemma OtherFooterRefused(s: Bytes)
    requires |s| == 48 && s[40..] != [0x57, 0xfb, 0x80, 0x8b, 0x24, 0x75, 0x47, 0xdb]
    ensures TableFormat.DecodeFooter(s) == None
  {
    MagicBytes();
    assert s[40..48] == s[40..];
    if DecodeFixed64(s[40..48]) == TableFormat.MAGIC {
      DecodeInjective(s[40..48], EncodeFixed64(TableFormat.MAGIC));
      assert false;
    }
  }

  lemma DecodeInjective(a: EightBytes, b: EightBytes)
    requires DecodeFixed64(a) == DecodeFixed64(b)
    ensures a == b
  {
    hide DecodeFixed32;
    var x: nat, y: nat := DecodeFixed32(a[4..]), DecodeFixed32(b[4..]);
    RemainderUnique(0x1_0000_0000, x, DecodeFixed32(a[..4]), y, DecodeFixed32(b[..4]));
    FourInjective(a[..4], b[..4]);
    FourInjective(a[4..], b[4..]);
    assert a == a[..4] + a[4..] && b == b[..4] + b[4..];
  }

  lemma FourInjective(a: FourBytes, b: FourBytes)
    requires DecodeFixed32(a) == DecodeFixed32(b)
    ensures a == b
  {
    var a2: nat, b2: nat := a[2] as int + 256 * a[3] as int, b[2] as int + 256 * b[3] as int;
    var a1: nat, b1: nat := a[1] as int + 256 * a2, b[1] as int + 256 * b2;
    RemainderUnique(256, a1, a[0] as int, b1, b[0] as int);
    RemainderUnique(256, a2, a[1] as int, b2, b[1] as int);
    RemainderUnique(256, a[3] as int, a[2] as int, b[3] as int, b[2] as int);
  }

  /** Whatever the file holds, a block that is read with verification is whole, uncompressed, and has its checksum. */
  lemma BlockSound(codec: Log.Codec, file: Bytes, h: TableFormat.BlockHandle)
    ensures var r := TableFormat.ReadBlock(codec, file, true, h);
            r.Some? <==>
              && h.offset + h.size + 5 <= |file| && file[h.offset + h.size] == 0
              && codec.crc(file[h.offset..h.offset + h.size + 1]) == codec.load(file[h.offset + h.size + 1..h.offset + h.size + 5])
    ensures var r := TableFormat.ReadBlock(codec, file, true, h);
            r.Some? ==> r.value == file[h.offset..h.offset + h.size]
  {
    var n := h.size;
    if h.offset + n + 5 <= |file| {
      var data := file[h.offset..h.offset + n + 5];
      assert data[..n + 1] == file[h.offset..h.offset + n + 1];
      assert data[n + 1..n + 5] == file[h.offset + n + 1..h.offset + n + 5];
      assert data[..n] == file[h.offset..h.offset + n];
    }
  }

  /** A filter block ends in the offset of the list of offsets and the number 11: there is a filter for each 2048 bytes. */
  lemma FilterFormat(cells: seq<Bytes>)
    requires |Flat(cells)| < TWO32
    ensures var s := FilterBlock.Contents(cells);
            && |s| == |Flat(cells)| + 4 * |cells| + 5 && s[..|Flat(cells)|] == Flat(cells)
            && s[|s| - 1] == 11 && LittleEndian(s[|s| - 5..|s| - 1]) == |Flat(cells)|
    ensures FilterBlock.FILTER_BASE == 2048
  {
    hide Flat, Words, EncodeFixed32, LittleEndian, FilterBlock.Contents, FilterBlock.StartsOf;
    var starts, n := FilterBlock.StartsOf(cells), |Flat(cells)|;
    FilterIs(cells);
    FourScans(n);
    EndSlices(Flat(cells), Words(starts), EncodeFixed32(n), 11);
  }

  lemma FilterIs(cells: seq<Bytes>)
    requires |Flat(cells)| < TWO32
    ensures FilterBlock.Contents(cells) ==
            Flat(cells) + (Words(FilterBlock.StartsOf(cells)) + EncodeFixed32(|Flat(cells)|)) + [11]
  {
    hide EncodeFixed32, Flat, Words;
    FilterBlock.WordsPlusOne(FilterBlock.StartsOf(cells), |Flat(cells)|);
  }

  lemma EndSlices(flat: Bytes, words: Bytes, word: Bytes, last: byte)
    requires |word| == 4
    ensures var s := flat + (words + word) + [last];
            && |s| == |flat| + |words| + 5 && s[..|flat|] == flat && s[|s| - 1] == last && s[|s| - 5..|s| - 1] == word
  {
  }
}
