/** Building a table (table/table_builder.cc): data blocks, an index whose keys are short separators added
    when the next block begins, a filter block, and the footer. */
module TableBuilder {
  import opened Options
  import opened BlockLayout
  import opened TableFormat
  import opened BlockIter
  import BlockBuilder
  import FilterBlock
  import Log

  /** The data blocks written: their entries, their contents, their handles, and the index keys so far. */
  datatype Blocks = Blocks(es: seq<seq<Pair>>, contents: seq<Bytes>, handles: seq<BlockHandle>, seps: seq<Bytes>)

  function LastKey(es: seq<Pair>): Bytes
    requires es != []
  {
    es[|es| - 1].key
  }

  function Concat(ess: seq<seq<Pair>>): seq<Pair> {
    if ess == [] then [] else Concat(ess[..|ess| - 1]) + ess[|ess| - 1]
  }

  /** The bytes are what finishing a builder of these entries gives. */
  ghost predicate Encodes(data: Bytes, es: seq<Pair>, interval: nat) {
    interval > 0 && data == BlockBytes(Cells(es, interval), interval)
  }

  ghost predicate BlockThere(codec: Log.Codec, interval: nat, file: Bytes, b: Blocks, i: nat) {
    && i < |b.es| == |b.contents| == |b.handles|
    && Encodes(b.contents[i], b.es[i], interval) && Stored(codec, file, b.handles[i], b.contents[i])
  }

  ghost predicate BlocksThere(codec: Log.Codec, interval: nat, file: Bytes, b: Blocks) {
    && |b.es| == |b.contents| == |b.handles|
    && forall i {:trigger BlockThere(codec, interval, file, b, i)} :: 0 <= i < |b.es| ==> BlockThere(codec, interval, file, b, i)
  }

  /** The entries after block `i`. */
  function Following(b: Blocks, cur: seq<Pair>, i: nat): seq<Pair> {
    if i + 1 < |b.es| then b.es[i + 1] else cur
  }

  ghost predicate BlockInOrder(c: Comparator, b: Blocks, cur: seq<Pair>, i: nat) {
    && i < |b.es| && b.es[i] != [] && Ordered(c.less, b.es[i])
    && (i + 1 < |b.es| ==> b.es[i + 1] != [])
    && (Following(b, cur, i) != [] ==> c.less(LastKey(b.es[i]), Following(b, cur, i)[0].key))
  }

  /** The entries are strictly increasing, within blocks and from each block to what follows it. */
  ghost predicate InOrder(c: Comparator, b: Blocks, cur: seq<Pair>) {
    && Ordered(c.less, cur)
    && forall i {:trigger BlockInOrder(c, b, cur, i)} :: 0 <= i < |b.es| ==> BlockInOrder(c, b, cur, i)
  }

  ghost predicate SepRight(c: Comparator, b: Blocks, cur: seq<Pair>, i: nat) {
    && i < |b.seps| && i < |b.es| && b.es[i] != [] && Following(b, cur, i) != []
    && b.seps[i] == c.separator(LastKey(b.es[i]), Following(b, cur, i)[0].key)
  }

  /** A block has its index key once something follows it. */
  ghost predicate SepsRight(c: Comparator, b: Blocks, cur: seq<Pair>) {
    && |b.seps| == (if cur == [] && b.es != [] then |b.es| - 1 else |b.es|)
    && forall i {:trigger SepRight(c, b, cur, i)} :: 0 <= i < |b.seps| ==> SepRight(c, b, cur, i)
  }

  /** The index entries of the first `n` blocks. */
  function IndexEntries(b: Blocks, n: nat): (r: seq<Pair>)
    requires n <= |b.seps| && n <= |b.handles|
    ensures |r| == n
  {
    seq(n, i requires 0 <= i < n => Pair(b.seps[i], EncodeHandle(b.handles[i])))
  }

  /** The key of every entry is, or will be, in the filter of its block's offset. */
  ghost predicate Filtered(b: Blocks, cur: seq<Pair>, at: nat, groups: seq<seq<Bytes>>, pending: seq<Bytes>) {
    && |b.handles| == |b.es| && |groups| == at / FilterBlock.FILTER_BASE
    && (forall i, e {:trigger e in b.es[i]} :: 0 <= i < |b.es| && e in b.es[i] ==>
          FilterBlock.InFilter(groups, pending, b.handles[i].offset / FilterBlock.FILTER_BASE, e.key))
    && forall e :: e in cur ==> FilterBlock.InFilter(groups, pending, |groups|, e.key)
  }

  // ----- one entry more -----

  lemma OrderedAppend(c: Comparator, es: seq<Pair>, e: Pair)
    requires c.Good() && Ordered(c.less, es) && (es != [] ==> c.less(LastKey(es), e.key))
    ensures Ordered(c.less, es + [e])
  {
    forall i, j | 0 <= i < j < |es| + 1 ensures KeyBefore(c.less, es + [e], i, j) {
      if j < |es| {
        assert KeyBefore(c.less, es, i, j);
      } else if i < |es| - 1 {
        assert KeyBefore(c.less, es, i, |es| - 1);
      }
    }
  }

  lemma AddInOrder(c: Comparator, b: Blocks, cur: seq<Pair>, e: Pair, last: Bytes)
    requires c.Good() && InOrder(c, b, cur)
    requires cur != [] ==> last == LastKey(cur)
    requires cur == [] && b.es != [] ==> b.es[|b.es| - 1] != [] && last == LastKey(b.es[|b.es| - 1])
    requires (cur != [] || b.es != []) ==> c.less(last, e.key)
    ensures InOrder(c, b, cur + [e])
  {
    OrderedAppend(c, cur, e);
    forall i | 0 <= i < |b.es| ensures BlockInOrder(c, b, cur + [e], i) {
      assert BlockInOrder(c, b, cur, i);
    }
  }

  lemma AddSeps(c: Comparator, b: Blocks, b': Blocks, cur: seq<Pair>, e: Pair)
    requires SepsRight(c, b, cur) && forall i :: 0 <= i < |b.es| ==> b.es[i] != []
    requires if cur == [] && b.es != [] then b' == b.(seps := b.seps + [c.separator(LastKey(b.es[|b.es| - 1]), e.key)]) else b' == b
    ensures SepsRight(c, b', cur + [e])
  {
    forall i | 0 <= i < |b'.seps| ensures SepRight(c, b', cur + [e], i) {
      if i < |b.seps| {
        assert SepRight(c, b, cur, i);
      }
    }
  }

  lemma InOrderSeps(c: Comparator, b: Blocks, b': Blocks, cur: seq<Pair>)
    requires InOrder(c, b, cur) && b'.es == b.es
    ensures InOrder(c, b', cur)
  {
    forall i | 0 <= i < |b'.es| ensures BlockInOrder(c, b', cur, i) {
      assert BlockInOrder(c, b, cur, i);
    }
  }

  // ----- a block written -----

  function Flushed(b: Blocks, cur: seq<Pair>, contents: Bytes, h: BlockHandle): Blocks {
    b.(es := b.es + [cur], contents := b.contents + [contents], handles := b.handles + [h])
  }

  lemma FlushInOrder(c: Comparator, b: Blocks, cur: seq<Pair>, contents: Bytes, h: BlockHandle)
    requires InOrder(c, b, cur) && SepsRight(c, b, cur) && cur != []
    ensures InOrder(c, Flushed(b, cur, contents, h), []) && SepsRight(c, Flushed(b, cur, contents, h), [])
  {
    var b' := Flushed(b, cur, contents, h);
    forall i | 0 <= i < |b'.es| ensures BlockInOrder(c, b', [], i) {
      if i < |b.es| {
        assert BlockInOrder(c, b, cur, i);
      }
    }
    forall i | 0 <= i < |b'.seps| ensures SepRight(c, b', [], i) {
      assert SepRight(c, b, cur, i);
    }
  }

  lemma FlushThere(codec: Log.Codec, interval: nat, file: Bytes, b: Blocks, cur: seq<Pair>, contents: Bytes)
    requires BlocksThere(codec, interval, file, b) && Encodes(contents, cur, interval)
    ensures var h := BlockHandle(|file|, |contents|);
            BlocksThere(codec, interval, file + RawBlock(codec, contents), Flushed(b, cur, contents, h))
  {
    var h := BlockHandle(|file|, |contents|);
    var b', file' := Flushed(b, cur, contents, h), file + RawBlock(codec, contents);
    StoredAtEnd(codec, file, contents);
    forall i | 0 <= i < |b'.es| ensures BlockThere(codec, interval, file', b', i) {
      if i < |b.es| {
        assert BlockThere(codec, interval, file, b, i);
        StoredStays(codec, file, RawBlock(codec, contents), b.handles[i], b.contents[i]);
      }
    }
  }

  lemma MoreThere(codec: Log.Codec, interval: nat, file: Bytes, b: Blocks, more: Bytes)
    requires BlocksThere(codec, interval, file, b)
    ensures BlocksThere(codec, interval, file + more, b)
  {
    forall i | 0 <= i < |b.es| ensures BlockThere(codec, interval, file + more, b, i) {
      assert BlockThere(codec, interval, file, b, i);
      StoredStays(codec, file, more, b.handles[i], b.contents[i]);
    }
  }

  lemma FlushFiltered(b: Blocks, cur: seq<Pair>, contents: Bytes, h: BlockHandle, at: nat, g: seq<seq<Bytes>>, p: seq<Bytes>, at': nat,
                      g': seq<seq<Bytes>>, p': seq<Bytes>)
    requires Filtered(b, cur, at, g, p) && h.offset == at
    requires FilterBlock.Extends(g, p, g', p') && |g'| == at' / FilterBlock.FILTER_BASE
    ensures Filtered(Flushed(b, cur, contents, h), [], at', g', p')
  {
  }

  // ----- the builder -----

  /** `filterKey` is the filter's key in the metaindex block: "filter." and the name of the policy. */
  datatype TableOptions = TableOptions(comparator: Comparator, codec: Log.Codec, interval: nat, blockSize: nat,
                                       policy: Option<FilterBlock.FilterPolicy>, filterKey: Bytes)
  {
    ghost predicate Good() {
      && comparator.Good() && codec.Good() && interval >= 1
      && (policy.Some? ==> policy.value.Good(comparator.user))
    }
  }

  datatype KeptPart = KeptBlocks | KeptOrder | KeptSeparators | KeptEntries

  ghost predicate PartKept(o: TableOptions, file: Bytes, b: Blocks, cur: seq<Pair>, added: seq<Pair>, part: KeptPart) {
    match part
    case KeptBlocks => BlocksThere(o.codec, o.interval, file, b)
    case KeptOrder => InOrder(o.comparator, b, cur)
    case KeptSeparators => SepsRight(o.comparator, b, cur)
    case KeptEntries => added == Concat(b.es) + cur
  }

  /** The data blocks written, what is still to be written, and the index keys. */
  ghost predicate Kept(o: TableOptions, file: Bytes, b: Blocks, cur: seq<Pair>, added: seq<Pair>) {
    forall part {:trigger PartKept(o, file, b, cur, added, part)} :: PartKept(o, file, b, cur, added, part)
  }

  lemma KeptParts(o: TableOptions, file: Bytes, b: Blocks, cur: seq<Pair>, added: seq<Pair>)
    requires Kept(o, file, b, cur, added)
    ensures BlocksThere(o.codec, o.interval, file, b) && InOrder(o.comparator, b, cur) && SepsRight(o.comparator, b, cur)
    ensures added == Concat(b.es) + cur
  {
    assert PartKept(o, file, b, cur, added, KeptBlocks) && PartKept(o, file, b, cur, added, KeptOrder);
    assert PartKept(o, file, b, cur, added, KeptSeparators) && PartKept(o, file, b, cur, added, KeptEntries);
  }

  lemma KeptFrom(o: TableOptions, file: Bytes, b: Blocks, cur: seq<Pair>, added: seq<Pair>)
    requires BlocksThere(o.codec, o.interval, file, b) && InOrder(o.comparator, b, cur) && SepsRight(o.comparator, b, cur)
    requires added == Concat(b.es) + cur
    ensures Kept(o, file, b, cur, added)
  {
    forall part ensures PartKept(o, file, b, cur, added, part) {
      match part
      case _ =>
    }
  }

  ghost predicate IsLast(b: Blocks, cur: seq<Pair>, last: Bytes) {
    if cur != [] then last == LastKey(cur)
    else b.es != [] && b.es[|b.es| - 1] != [] && last == LastKey(b.es[|b.es| - 1])
  }

  lemma LastOfAdded(o: TableOptions, file: Bytes, b: Blocks, cur: seq<Pair>, added: seq<Pair>)
    requires Kept(o, file, b, cur, added)
    ensures added == [] <==> cur == [] && b.es == []
    ensures added != [] ==> IsLast(b, cur, LastKey(added))
  {
    KeptParts(o, file, b, cur, added);
    if cur != [] {
      assert added[|added| - 1] == cur[|cur| - 1];
    } else if b.es != [] {
      assert BlockInOrder(o.comparator, b, cur, |b.es| - 1);
      assert added == Concat(b.es);
    } else {
      assert added == [];
    }
  }

  /** The index entry for the last block, if it still waits for one. */
  function WithSep(c: Comparator, b: Blocks, cur: seq<Pair>, last: Bytes, key: Bytes): Blocks {
    if cur == [] && b.es != [] then b.(seps := b.seps + [c.separator(last, key)]) else b
  }

  lemma InsertKeeps(o: TableOptions, file: Bytes, b: Blocks, cur: seq<Pair>, added: seq<Pair>, last: Bytes, e: Pair)
    requires o.comparator.Good() && Kept(o, file, b, cur, added)
    requires added != [] ==> last == LastKey(added) && o.comparator.less(last, e.key)
    ensures Kept(o, file, WithSep(o.comparator, b, cur, last, e.key), cur + [e], added + [e])
  {
    var b' := WithSep(o.comparator, b, cur, last, e.key);
    KeptParts(o, file, b, cur, added);
    LastOfAdded(o, file, b, cur, added);
    AddInOrder(o.comparator, b, cur, e, last);
    forall i | 0 <= i < |b.es| ensures b.es[i] != [] {
      assert BlockInOrder(o.comparator, b, cur, i);
    }
    AddSeps(o.comparator, b, b', cur, e);
    InOrderSeps(o.comparator, b, b', cur + [e]);
    SepsThere(o.codec, o.interval, file, b, b');
    assert Concat(b.es) + cur + [e] == Concat(b.es) + (cur + [e]);
    KeptFrom(o, file, b', cur + [e], added + [e]);
  }

  lemma FlushKeeps(o: TableOptions, file: Bytes, b: Blocks, cur: seq<Pair>, added: seq<Pair>, raw: Bytes)
    requires Kept(o, file, b, cur, added) && cur != [] && Encodes(raw, cur, o.interval)
    ensures Kept(o, file + RawBlock(o.codec, raw), Flushed(b, cur, raw, BlockHandle(|file|, |raw|)), [], added)
    ensures |b.seps| <= |b.handles| &&
            IndexEntries(Flushed(b, cur, raw, BlockHandle(|file|, |raw|)), |b.seps|) == IndexEntries(b, |b.seps|)
  {
    var h := BlockHandle(|file|, |raw|);
    KeptParts(o, file, b, cur, added);
    FlushThere(o.codec, o.interval, file, b, cur, raw);
    FlushInOrder(o.comparator, b, cur, raw, h);
    FlushConcat(b, cur, raw, h);
    KeptFrom(o, file + RawBlock(o.codec, raw), Flushed(b, cur, raw, h), [], added);
  }

  // ----- a finished table -----

  /** All that a finished table holds. */
  datatype Layout = Layout(b: Blocks, filter: BlockHandle, groups: seq<seq<Bytes>>, metaindex: BlockHandle, metaContents: Bytes,
                           index: BlockHandle, indexContents: Bytes, body: Bytes)

  ghost predicate FinalSeps(c: Comparator, b: Blocks) {
    && |b.seps| == |b.es|
    && (forall i {:trigger SepRight(c, b, [], i)} :: 0 <= i < |b.es| - 1 ==> SepRight(c, b, [], i))
    && (b.es != [] ==> b.es[|b.es| - 1] != [] && b.seps[|b.es| - 1] == c.successor(LastKey(b.es[|b.es| - 1])))
  }

  function MetaEntries(o: TableOptions, filter: BlockHandle): seq<Pair> {
    if o.policy.Some? then [Pair(o.filterKey, EncodeHandle(filter))] else []
  }

  ghost predicate MetaThere(o: TableOptions, file: Bytes, y: Layout) {
    Stored(o.codec, file, y.metaindex, y.metaContents) && Encodes(y.metaContents, MetaEntries(o, y.filter), o.interval)
  }

  ghost predicate IndexThere(o: TableOptions, file: Bytes, y: Layout) {
    && |y.b.seps| <= |y.b.handles|
    && Stored(o.codec, file, y.index, y.indexContents) && Encodes(y.indexContents, IndexEntries(y.b, |y.b.seps|), 1)
  }

  datatype TablePart = DataBlocks | Order | Separators | Filter | Meta | Index | Footing

  ghost predicate PartThere(o: TableOptions, file: Bytes, y: Layout, part: TablePart) {
    match part
    case DataBlocks => BlocksThere(o.codec, o.interval, file, y.b)
    case Order => InOrder(o.comparator, y.b, [])
    case Separators => FinalSeps(o.comparator, y.b)
    case Filter => FilterPart(o, file, y.b, y.filter, y.groups)
    case Meta => MetaThere(o, file, y)
    case Index => IndexThere(o, file, y)
    case Footing => file == y.body + EncodeFooter(y.metaindex, y.index)
  }

  /** The file is a table with this layout. */
  ghost predicate IsTable(o: TableOptions, file: Bytes, y: Layout) {
    forall part {:trigger PartThere(o, file, y, part)} :: PartThere(o, file, y, part)
  }

  // ----- what a builder keeps -----

  /** A builder at one moment; the last two are of the filter block, if there is one. */
  datatype Progress = Progress(file: Bytes, offset: nat, numEntries: nat, added: seq<Pair>, b: Blocks, cur: seq<Pair>, lastKey: Bytes,
                               pending: bool, pendingHandle: BlockHandle, index: seq<Pair>, groups: seq<seq<Bytes>>, keys: seq<Bytes>)

  datatype ProgressPart = Counts | Entries | Last | Pending | Indexed | FilterKeys

  ghost predicate PartRight(o: TableOptions, s: Progress, part: ProgressPart) {
    match part
    case Counts => s.offset == |s.file| && s.numEntries == |s.added|
    case Entries => Kept(o, s.file, s.b, s.cur, s.added)
    case Last => s.added != [] ==> s.lastKey == LastKey(s.added)
    case Pending =>
      && s.pending == (s.cur == [] && s.b.es != []) && |s.b.seps| + (if s.pending then 1 else 0) == |s.b.handles|
      && (s.pending ==> s.pendingHandle == s.b.handles[|s.b.handles| - 1])
    case Indexed => |s.b.seps| <= |s.b.handles| && s.index == IndexEntries(s.b, |s.b.seps|)
    case FilterKeys => o.policy.Some? ==> Filtered(s.b, s.cur, s.offset, s.groups, s.keys)
  }

  ghost predicate Consistent(o: TableOptions, s: Progress) {
    forall part {:trigger PartRight(o, s, part)} :: PartRight(o, s, part)
  }

  lemma ConsistentParts(o: TableOptions, s: Progress)
    requires Consistent(o, s)
    ensures s.offset == |s.file| && s.numEntries == |s.added| && Kept(o, s.file, s.b, s.cur, s.added)
    ensures s.added != [] ==> s.lastKey == LastKey(s.added)
    ensures s.pending == (s.cur == [] && s.b.es != []) && |s.b.seps| + (if s.pending then 1 else 0) == |s.b.handles|
    ensures s.pending ==> s.pendingHandle == s.b.handles[|s.b.handles| - 1]
    ensures s.index == IndexEntries(s.b, |s.b.seps|)
    ensures o.policy.Some? ==> Filtered(s.b, s.cur, s.offset, s.groups, s.keys)
  {
    assert PartRight(o, s, Counts) && PartRight(o, s, Entries) && PartRight(o, s, Last);
    assert PartRight(o, s, Pending) && PartRight(o, s, Indexed) && PartRight(o, s, FilterKeys);
  }

  lemma InsertConsistent(o: TableOptions, s: Progress, t: Progress, e: Pair)
    requires o.comparator.Good() && Consistent(o, s) && (s.added != [] ==> o.comparator.less(s.lastKey, e.key))
    requires t == s.(numEntries := s.numEntries + 1, added := s.added + [e], b := WithSep(o.comparator, s.b, s.cur, s.lastKey, e.key),
                     cur := s.cur + [e], lastKey := e.key, pending := false, index := t.index, keys := t.keys)
    requires |t.b.seps| <= |t.b.handles| && t.index == IndexEntries(t.b, |t.b.seps|)
    requires o.policy.Some? ==> FilterBlock.Extends(s.groups, s.keys, t.groups, t.keys)
                                && FilterBlock.InFilter(t.groups, t.keys, |t.groups|, e.key)
    ensures Consistent(o, t)
  {
    ConsistentParts(o, s);
    InsertKeeps(o, s.file, s.b, s.cur, s.added, s.lastKey, e);
    if o.policy.Some? {
      AddFiltered(s.b, t.b, s.cur, e, s.offset, s.groups, s.keys, t.groups, t.keys);
    }
    forall part ensures PartRight(o, t, part) {
      match part
      case _ =>
    }
  }

  lemma FlushConsistent(o: TableOptions, s: Progress, t: Progress, raw: Bytes)
    requires Consistent(o, s) && s.cur != [] && Encodes(raw, s.cur, o.interval)
    requires var h := BlockHandle(|s.file|, |raw|);
             t == s.(file := s.file + RawBlock(o.codec, raw), offset := |s.file + RawBlock(o.codec, raw)|, b := Flushed(s.b, s.cur, raw, h),
                     cur := [], pending := true, pendingHandle := h, groups := t.groups, keys := t.keys)
    requires o.policy.Some? ==>
               FilterBlock.Extends(s.groups, s.keys, t.groups, t.keys) && |t.groups| == t.offset / FilterBlock.FILTER_BASE
    ensures Consistent(o, t)
  {
    ConsistentParts(o, s);
    FlushKeeps(o, s.file, s.b, s.cur, s.added, raw);
    if o.policy.Some? {
      FlushFiltered(s.b, s.cur, raw, t.pendingHandle, s.offset, s.groups, s.keys, t.offset, t.groups, t.keys);
    }
    forall part ensures PartRight(o, t, part) {
      match part
      case _ =>
    }
  }

  lemma StartConsistent(o: TableOptions, s: Progress)
    requires s.file == [] && s.offset == 0 && s.numEntries == 0 && s.added == [] && s.b == Blocks([], [], [], []) && s.cur == []
    requires !s.pending && s.index == [] && s.groups == [] && s.keys == []
    ensures Consistent(o, s)
  {
    KeptFrom(o, [], s.b, [], []);
    forall part ensures PartRight(o, s, part) {
      match part
      case _ =>
    }
  }

  /** The size of the block of these entries. */
  function BlockSize(o: TableOptions, es: seq<Pair>): nat
    requires o.interval > 0
  {
    |BlockBytes(Cells(es, o.interval), o.interval)|
  }

  /** A block is ended by the entry that brings it to the block size, and by the last entry of all. */
  ghost predicate CutAtSize(o: TableOptions, es: seq<Pair>, last: bool)
    requires o.interval > 0
  {
    && (forall n :: 0 < n < |es| ==> BlockSize(o, es[..n]) < o.blockSize)
    && (!last ==> BlockSize(o, es) >= o.blockSize)
  }

  ghost predicate BlocksCut(o: TableOptions, ess: seq<seq<Pair>>)
    requires o.interval > 0
  {
    forall i :: 0 <= i < |ess| ==> ess[i] != [] && CutAtSize(o, ess[i], i == |ess| - 1)
  }

  /** The blocks written are full, and the open one is not. */
  ghost predicate Filling(o: TableOptions, ess: seq<seq<Pair>>, cur: seq<Pair>)
    requires o.interval > 0
  {
    && (forall i :: 0 <= i < |ess| ==> ess[i] != [] && CutAtSize(o, ess[i], false))
    && forall n :: 0 < n <= |cur| ==> BlockSize(o, cur[..n]) < o.blockSize
  }

  lemma FillingGrows(o: TableOptions, ess: seq<seq<Pair>>, cur: seq<Pair>, e: Pair)
    requires o.interval > 0 && Filling(o, ess, cur)
    ensures if BlockSize(o, cur + [e]) >= o.blockSize then Filling(o, ess + [cur + [e]], []) else Filling(o, ess, cur + [e])
  {
    hide BlockSize;
    var es := cur + [e];
    forall n | 0 < n < |es| ensures BlockSize(o, es[..n]) < o.blockSize {
      assert es[..n] == cur[..n];
    }
    assert es[..|es|] == es;
  }

  lemma FillingEnds(o: TableOptions, ess: seq<seq<Pair>>, cur: seq<Pair>)
    requires o.interval > 0 && Filling(o, ess, cur)
    ensures BlocksCut(o, if cur == [] then ess else ess + [cur])
  {
    hide BlockSize;
  }

  class Builder {
    const options: TableOptions
    const dataBlock: BlockBuilder.Builder
    const indexBlock: BlockBuilder.Builder
    const filterBlock: FilterBlock.Builder?
    var file: Bytes
    var offset: nat
    var lastKey: Bytes
    var numEntries: nat
    var closed: bool
    var pendingIndexEntry: bool  // true only if the data block is empty
    var pendingHandle: BlockHandle
    ghost var b: Blocks
    ghost var added: seq<Pair>

    ghost function Parts(): set<object> {
      {dataBlock, indexBlock} + if filterBlock == null then {} else {filterBlock}
    }

    /** The builders of the parts are as they should be. */
    ghost predicate PartsValid()
      reads this, Parts()
    {
      && options.Good() && dataBlock != indexBlock
      && dataBlock.Valid() && !dataBlock.finished && dataBlock.interval == options.interval
      && indexBlock.Valid() && !indexBlock.finished && indexBlock.interval == 1
      && (filterBlock == null <==> options.policy.None?)
      && (filterBlock != null ==> filterBlock.Valid() && filterBlock.policy == options.policy.value)
    }

    ghost function Now(): Progress
      reads this, Parts()
    {
      Progress(file, offset, numEntries, added, b, dataBlock.entries, lastKey, pendingIndexEntry, pendingHandle, indexBlock.entries,
               if filterBlock == null then [] else filterBlock.groups, if filterBlock == null then [] else filterBlock.pending)
    }

    ghost predicate Valid()
      reads this, Parts()
    {
      PartsValid() && Consistent(options, Now())
    }

    constructor (options: TableOptions)
      requires options.Good()
      ensures Valid() && fresh(Parts()) && !closed && added == [] && this.options == options
      ensures b.es == [] && dataBlock.entries == []
    {
      this.options := options;
      dataBlock := new BlockBuilder.Builder(options.interval);
      indexBlock := new BlockBuilder.Builder(1);
      var filter: FilterBlock.Builder? := null;
      if options.policy.Some? {
        filter := new FilterBlock.Builder(options.policy.value);
      }
      filterBlock := filter;
      file, offset, lastKey, numEntries, closed, pendingIndexEntry := [], 0, [], 0, false, false;
      pendingHandle := BlockHandle(0, 0);
      b, added := Blocks([], [], [], []), [];
      new;
      if filterBlock != null {
        filterBlock.StartBlock(0);
      }
      StartConsistent(options, Now());
    }

    /** Appends contents, type and checksum. */
    method WriteRawBlock(contents: Bytes) returns (h: BlockHandle)
      requires offset == |file|
      modifies `file, `offset
      ensures h == BlockHandle(|old(file)|, |contents|) && file == old(file) + RawBlock(options.codec, contents) && offset == |file|
    {
      h := BlockHandle(offset, |contents|);
      var crc := options.codec.crc(contents + [0]);
      file := file + contents;
      file := file + ([0] + options.codec.store(crc));
      offset := offset + |contents| + 5;
      assert old(file) + contents + ([0] + options.codec.store(crc)) == old(file) + RawBlock(options.codec, contents);
    }

    /** Finishes a block, writes it and starts it anew. */
    method WriteBlock(block: BlockBuilder.Builder) returns (h: BlockHandle, ghost raw: Bytes)
      requires block.Valid() && !block.finished && offset == |file|
      modifies `file, `offset, block
      ensures Encodes(raw, old(block.entries), block.interval)
      ensures h == BlockHandle(|old(file)|, |raw|) && file == old(file) + RawBlock(options.codec, raw) && offset == |file|
      ensures block.Valid() && !block.finished && block.entries == []
    {
      var contents := block.Finish();
      raw := contents;
      h := WriteRawBlock(contents);
      block.Reset();
    }

    /** The index waits for the key of the last block. */
    ghost predicate IndexWaits()
      reads this, indexBlock
    {
      && indexBlock.Valid() && !indexBlock.finished
      && |b.seps| + 1 == |b.handles| && pendingHandle == b.handles[|b.handles| - 1]
      && indexBlock.entries == IndexEntries(b, |b.seps|)
    }

    /** The index entry of the last block. */
    method AddIndexEntry()
      requires IndexWaits()
      modifies this`b, this`pendingIndexEntry, indexBlock
      ensures indexBlock.Valid() && !indexBlock.finished && !pendingIndexEntry
      ensures b == old(b).(seps := old(b).seps + [lastKey]) && indexBlock.entries == IndexEntries(b, |b.seps|)
    {
      var handleEncoding := EncodeHandle(pendingHandle);
      IndexGrows(b, lastKey);
      indexBlock.Add(lastKey, handleEncoding);
      b := b.(seps := b.seps + [lastKey]);
      pendingIndexEntry := false;
    }

    method PutEntry(key: Bytes, value: Bytes)
      requires PartsValid()
      modifies this`lastKey, this`numEntries, this`added, dataBlock, filterBlock
      ensures PartsValid() && lastKey == key && numEntries == old(numEntries) + 1
      ensures dataBlock.entries == old(dataBlock.entries) + [Pair(key, value)] && added == old(added) + [Pair(key, value)]
      ensures filterBlock != null ==>
                && filterBlock.groups == old(filterBlock.groups)
                && FilterBlock.Extends(old(filterBlock.groups), old(filterBlock.pending), filterBlock.groups, filterBlock.pending)
                && FilterBlock.InFilter(filterBlock.groups, filterBlock.pending, |filterBlock.groups|, key)
    {
      if filterBlock != null {
        filterBlock.AddKey(key);
      }
      lastKey := key;
      numEntries := numEntries + 1;
      dataBlock.Add(key, value);
      added := added + [Pair(key, value)];
    }

    /** Everything of adding an entry but ending the block. */
    method Insert(key: Bytes, value: Bytes)
      requires Valid() && (added != [] ==> options.comparator.less(lastKey, key))
      modifies this`lastKey, this`numEntries, this`added, this`b, this`pendingIndexEntry, Parts()
      ensures Valid() && added == old(added) + [Pair(key, value)]
      ensures dataBlock.entries == old(dataBlock.entries) + [Pair(key, value)] && b.es == old(b.es)
    {
      ghost var s := Now();
      ConsistentParts(options, s);
      if pendingIndexEntry {
        lastKey := options.comparator.separator(lastKey, key);
        AddIndexEntry();
      }
      PutEntry(key, value);
      InsertConsistent(options, s, Now(), Pair(key, value));
    }

    /** Ends the data block, if there is anything in it. */
    method Flush()
      requires Valid()
      modifies this`file, this`offset, this`b, this`pendingIndexEntry, this`pendingHandle, Parts()
      ensures Valid() && dataBlock.entries == []
      ensures b.es == if old(dataBlock.entries) == [] then old(b.es) else old(b.es) + [old(dataBlock.entries)]
    {
      dataBlock.EmptyIs();
      if dataBlock.Empty() {
        return;
      }
      ghost var s := Now();
      ConsistentParts(options, s);
      ghost var raw;
      pendingHandle, raw := WriteBlock(dataBlock);
      b := Flushed(b, s.cur, raw, pendingHandle);
      pendingIndexEntry := true;
      if filterBlock != null {
        filterBlock.StartBlock(offset);
      }
      FlushConsistent(options, s, Now(), raw);
    }

    /** Adds an entry with a key above all before. */
    method Add(key: Bytes, value: Bytes)
      requires Valid() && !closed && (added != [] ==> options.comparator.less(lastKey, key))
      modifies this, Parts()
      ensures Valid() && !closed && added == old(added) + [Pair(key, value)]
      ensures var cur := old(dataBlock.entries) + [Pair(key, value)];
              if BlockSize(options, cur) >= options.blockSize then dataBlock.entries == [] && b.es == old(b.es) + [cur]
              else dataBlock.entries == cur && b.es == old(b.es)
    {
      Insert(key, value);
      dataBlock.EstimateExact();
      if dataBlock.CurrentSizeEstimate() >= options.blockSize {
        Flush();
      }
    }

    /** Writes the filter block, if there is a policy. */
    method FinishFilter() returns (h: BlockHandle, ghost groups: seq<seq<Bytes>>, ghost more: Bytes)
      requires Valid() && dataBlock.entries == []
      modifies this`file, this`offset, filterBlock
      ensures file == old(file) + more && offset == |file| && FilterPart(options, file, b, h, groups)
      ensures Kept(options, old(file), b, [], added)
      ensures IndexAlmost() && (b.es != [] ==> IsLast(b, [], lastKey)) && pendingIndexEntry == (b.es != [])
    {
      Flushing();
      ConsistentParts(options, Now());
      h, groups, more := BlockHandle(0, 0), [], [];
      if filterBlock != null {
        var contents := filterBlock.Finish();
        groups := filterBlock.groups;
        FinishFiltered(b, offset, old(filterBlock.groups), old(filterBlock.pending), groups);
        StoredAtEnd(options.codec, file, contents);
        h := WriteRawBlock(contents);
        more := RawBlock(options.codec, contents);
      }
    }

    method FinishMeta(filter: BlockHandle) returns (h: BlockHandle, ghost raw: Bytes)
      requires options.Good() && offset == |file|
      modifies `file, `offset
      ensures file == old(file) + RawBlock(options.codec, raw) && offset == |file|
      ensures h == BlockHandle(|old(file)|, |raw|) && Encodes(raw, MetaEntries(options, filter), options.interval)
    {
      var metaIndexBlock := new BlockBuilder.Builder(options.interval);
      if options.policy.Some? {
        metaIndexBlock.Add(options.filterKey, EncodeHandle(filter));
      }
      assert metaIndexBlock.entries == MetaEntries(options, filter);
      h, raw := WriteBlock(metaIndexBlock);
    }

    /** The index is complete but for the entry it may wait for. */
    ghost predicate IndexAlmost()
      reads this, indexBlock
    {
      && indexBlock.Valid() && !indexBlock.finished && indexBlock.interval == 1 && |b.seps| <= |b.handles|
      && indexBlock.entries == IndexEntries(b, |b.seps|) && (pendingIndexEntry ==> IndexWaits())
    }

    method FinishIndex() returns (h: BlockHandle, ghost raw: Bytes)
      requires IndexAlmost() && offset == |file|
      modifies this`file, this`offset, this`lastKey, this`b, this`pendingIndexEntry, indexBlock
      ensures file == old(file) + RawBlock(options.codec, raw) && h == BlockHandle(|old(file)|, |raw|)
      ensures b == if old(pendingIndexEntry) then old(b).(seps := old(b).seps + [options.comparator.successor(old(lastKey))]) else old(b)
      ensures |b.seps| <= |b.handles| && Encodes(raw, IndexEntries(b, |b.seps|), 1)
    {
      if pendingIndexEntry {
        lastKey := options.comparator.successor(lastKey);
        AddIndexEntry();
      }
      h, raw := WriteBlock(indexBlock);
    }

    lemma Flushing()
      requires Valid() && dataBlock.entries == []
      ensures IndexAlmost() && (b.es != [] ==> IsLast(b, [], lastKey)) && pendingIndexEntry == (b.es != [])
    {
      ConsistentParts(options, Now());
      LastOfAdded(options, file, b, [], added);
    }

    /** Writes metaindex, index and footer. */
    method FinishRest(filter: BlockHandle, ghost groups: seq<seq<Bytes>>, ghost file0: Bytes, ghost more: Bytes) returns (ghost y: Layout)
      requires options.Good() && offset == |file| && IndexAlmost() && file == file0 + more
      requires Kept(options, file0, b, [], added) && FilterPart(options, file, b, filter, groups)
      requires (b.es != [] ==> IsLast(b, [], lastKey)) && pendingIndexEntry == (b.es != [])
      modifies this`file, this`offset, this`lastKey, this`b, this`pendingIndexEntry, indexBlock
      ensures IsTable(options, file, y) && Concat(y.b.es) == added && y.b.es == old(b.es)
    {
      hide PartKept, Kept, IsTable, FilterPart, IsLast, PartThere, EncodeFooter, Concat, Encodes, RawBlock, IndexEntries, MetaEntries, BlockBuilder.Builder.Valid;
      ghost var b0, last, metaRaw, indexRaw := b, lastKey, [], [];
      var metaindex, index;
      metaindex, metaRaw := FinishMeta(filter);
      index, indexRaw := FinishIndex();
      y := Layout(b, filter, groups, metaindex, metaRaw, index, indexRaw, file);
      TableFinished(options, file0, b0, last, added, more, y);
      file := file + EncodeFooter(metaindex, index);
      offset := |file|;
    }

    method FinishParts() returns (ghost y: Layout)
      requires Valid() && dataBlock.entries == []
      modifies this`file, this`offset, this`lastKey, this`b, this`pendingIndexEntry, indexBlock, filterBlock
      ensures IsTable(options, file, y) && Concat(y.b.es) == old(added) && y.b.es == old(b.es)
    {
      ghost var file0, groups, more := file, [], [];
      var filter;
      filter, groups, more := FinishFilter();
      y := FinishRest(filter, groups, file0, more);
    }

    /** Writes all that comes after the data blocks. */
    method Finish() returns (ghost y: Layout)
      requires Valid() && !closed
      modifies this, Parts()
      ensures closed && IsTable(options, file, y) && Concat(y.b.es) == old(added)
      ensures y.b.es == if old(dataBlock.entries) == [] then old(b.es) else old(b.es) + [old(dataBlock.entries)]
    {
      Flush();
      y := FinishParts();
      closed := true;
    }
  }

  /** The filter block at the end of the file. */
  ghost predicate FilterPart(o: TableOptions, file: Bytes, b: Blocks, h: BlockHandle, groups: seq<seq<Bytes>>) {
    o.policy.Some? ==>
      && Stored(o.codec, file, h, FilterBlock.Contents(FilterBlock.Filters(o.policy.value, groups)))
      && AllFiltered(b, groups)
  }

  function WithLast(c: Comparator, b: Blocks, last: Bytes): Blocks {
    if b.es == [] then b else b.(seps := b.seps + [c.successor(last)])
  }

  lemma FinalBlocks(c: Comparator, b: Blocks, last: Bytes)
    requires InOrder(c, b, []) && SepsRight(c, b, []) && (b.es != [] ==> IsLast(b, [], last))
    ensures InOrder(c, WithLast(c, b, last), []) && FinalSeps(c, WithLast(c, b, last))
  {
    var b' := WithLast(c, b, last);
    InOrderSeps(c, b, b', []);
    forall i | 0 <= i < |b'.es| - 1 ensures SepRight(c, b', [], i) {
      assert SepRight(c, b, [], i);
    }
  }

  /** The whole file, part after part. */
  lemma TableFinished(o: TableOptions, file0: Bytes, b0: Blocks, last: Bytes, added: seq<Pair>, more: Bytes, y: Layout)
    requires Kept(o, file0, b0, [], added) && (b0.es != [] ==> IsLast(b0, [], last))
    requires y.b == WithLast(o.comparator, b0, last) && FilterPart(o, file0 + more, b0, y.filter, y.groups)
    requires y.metaindex == BlockHandle(|file0 + more|, |y.metaContents|) && Encodes(y.metaContents, MetaEntries(o, y.filter), o.interval)
    requires y.index == BlockHandle(|file0 + more + RawBlock(o.codec, y.metaContents)|, |y.indexContents|)
    requires |y.b.seps| <= |y.b.handles| && Encodes(y.indexContents, IndexEntries(y.b, |y.b.seps|), 1)
    requires y.body == file0 + more + RawBlock(o.codec, y.metaContents) + RawBlock(o.codec, y.indexContents)
    ensures IsTable(o, y.body + EncodeFooter(y.metaindex, y.index), y) && Concat(y.b.es) == added
  {
    var r1, r2, r3 := RawBlock(o.codec, y.metaContents), RawBlock(o.codec, y.indexContents), EncodeFooter(y.metaindex, y.index);
    KeptParts(o, file0, b0, [], added);
    Tail(file0, more, r1, r2, r3);
    FinalBlocks(o.comparator, b0, last);
    SepsThere(o.codec, o.interval, file0, b0, y.b);
    MoreThere(o.codec, o.interval, file0, y.b, more + r1 + r2 + r3);
    StoredAtEnd(o.codec, file0 + more, y.metaContents);
    StoredStays(o.codec, file0 + more + r1, r2 + r3, y.metaindex, y.metaContents);
    StoredAtEnd(o.codec, file0 + more + r1, y.indexContents);
    StoredStays(o.codec, file0 + more + r1 + r2, r3, y.index, y.indexContents);
    if o.policy.Some? {
      StoredStays(o.codec, file0 + more, r1 + r2 + r3, y.filter, FilterBlock.Contents(FilterBlock.Filters(o.policy.value, y.groups)));
    }
    forall part ensures PartThere(o, y.body + r3, y, part) {
      match part
      case _ =>
    }
  }

  lemma Tail(f: Bytes, m: Bytes, a: Bytes, b: Bytes, c: Bytes)
    ensures f + m + a + b + c == f + (m + a + b + c)
    ensures f + m + a + b + c == f + m + (a + b + c) && f + m + a + b + c == f + m + a + (b + c)
  {
  }

  ghost predicate AllFiltered(b: Blocks, groups: seq<seq<Bytes>>) {
    && |b.handles| == |b.es|
    && forall i, e {:trigger e in b.es[i]} :: 0 <= i < |b.es| && e in b.es[i] ==>
         FilterBlock.InFilter(groups, [], b.handles[i].offset / FilterBlock.FILTER_BASE, e.key)
  }

  lemma FinishFiltered(b: Blocks, at: nat, g: seq<seq<Bytes>>, p: seq<Bytes>, g': seq<seq<Bytes>>)
    requires Filtered(b, [], at, g, p) && FilterBlock.Extends(g, p, g', [])
    ensures AllFiltered(b, g')
  {
  }

  lemma FlushConcat(b: Blocks, cur: seq<Pair>, contents: Bytes, h: BlockHandle)
    ensures Concat(Flushed(b, cur, contents, h).es) == Concat(b.es) + cur
    ensures |b.seps| <= |b.handles| ==> IndexEntries(Flushed(b, cur, contents, h), |b.seps|) == IndexEntries(b, |b.seps|)
  {
    assert (b.es + [cur])[..|b.es|] == b.es;
  }

  lemma IndexGrows(b: Blocks, sep: Bytes)
    requires |b.seps| + 1 == |b.handles|
    ensures IndexEntries(b.(seps := b.seps + [sep]), |b.seps| + 1) ==
            IndexEntries(b, |b.seps|) + [Pair(sep, EncodeHandle(b.handles[|b.handles| - 1]))]
  {
  }

  lemma SepsThere(codec: Log.Codec, interval: nat, file: Bytes, b: Blocks, b': Blocks)
    requires BlocksThere(codec, interval, file, b) && b' == b.(seps := b'.seps)
    ensures BlocksThere(codec, interval, file, b')
  {
    forall i | 0 <= i < |b'.es| ensures BlockThere(codec, interval, file, b', i) {
      assert BlockThere(codec, interval, file, b, i);
    }
  }

  lemma AddFiltered(b: Blocks, b': Blocks, cur: seq<Pair>, e: Pair, at: nat, g: seq<seq<Bytes>>, p: seq<Bytes>, g': seq<seq<Bytes>>, p': seq<Bytes>)
    requires Filtered(b, cur, at, g, p) && b' == b.(seps := b'.seps) && g' == g
    requires FilterBlock.Extends(g, p, g', p') && FilterBlock.InFilter(g', p', |g'|, e.key)
    ensures Filtered(b', cur + [e], at, g', p')
  {
  }
}
