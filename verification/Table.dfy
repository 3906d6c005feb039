/** Looking a key up in a table: one index seek, the filter, one block seek (table/table.cc). */
module Table {
  import opened Options
  import opened Coding
  import opened BlockLayout
  import opened TableFormat
  import opened TableBuilder
  import opened BlockIter
  import ByteKeys
  import FilterBlock

  // ----- runs of runs -----

  lemma {:induction false} ConcatPrefix(ess: seq<seq<Pair>>, i: nat)
    requires i <= |ess|
    ensures Concat(ess[..i]) <= Concat(ess)
    decreases |ess|
  {
    if i < |ess| {
      ConcatPrefix(ess[..|ess| - 1], i);
      assert ess[..|ess| - 1][..i] == ess[..i];
    } else {
      assert ess[..i] == ess;
    }
  }

  lemma ConcatStep(ess: seq<seq<Pair>>, i: nat)
    requires i < |ess|
    ensures Concat(ess[..i + 1]) == Concat(ess[..i]) + ess[i]
  {
    assert ess[..i + 1][..i] == ess[..i];
  }

  /** Entry `p` of run `i` in the whole. */
  lemma ConcatAt(ess: seq<seq<Pair>>, i: nat, p: nat)
    requires i < |ess| && p < |ess[i]|
    ensures |Concat(ess[..i])| + p < |Concat(ess)| && Concat(ess)[|Concat(ess[..i])| + p] == ess[i][p]
  {
    ConcatStep(ess, i);
    ConcatPrefix(ess, i + 1);
    assert Concat(ess)[|Concat(ess[..i])| + p] == Concat(ess[..i + 1])[|Concat(ess[..i])| + p];
  }

  ghost predicate WhollyBefore(less: Less, es: seq<Pair>, k: Bytes) {
    AllBefore(less, es, |es|, k)
  }

  lemma {:induction false} ConcatBefore(less: Less, ess: seq<seq<Pair>>, i: nat, k: Bytes)
    requires i <= |ess| && forall j :: 0 <= j < i ==> WhollyBefore(less, ess[j], k)
    ensures WhollyBefore(less, Concat(ess[..i]), k)
  {
    if i > 0 {
      ConcatBefore(less, ess, i - 1, k);
      ConcatStep(ess, i - 1);
      assert WhollyBefore(less, ess[i - 1], k);
    }
  }

  /** Landing in run `i` after runs that lie before the key is landing in the whole. */
  lemma ConcatLands(less: Less, ess: seq<seq<Pair>>, i: nat, p: nat, k: Bytes)
    requires i < |ess| && forall j :: 0 <= j < i ==> WhollyBefore(less, ess[j], k)
    requires LandsAt(less, ess[i], p, k) && p < |ess[i]|
    ensures LandsAt(less, Concat(ess), |Concat(ess[..i])| + p, k)
  {
    ConcatBefore(less, ess, i, k);
    ConcatAt(ess, i, p);
    ConcatStep(ess, i);
    ConcatPrefix(ess, i + 1);
    var n := |Concat(ess[..i])|;
    forall q | 0 <= q < n + p ensures less(Concat(ess)[q].key, k) {
      assert Concat(ess)[q] == Concat(ess[..i + 1])[q];
      if q < n {
        assert Concat(ess)[q] == Concat(ess[..i])[q];
      } else {
        assert Concat(ess)[q] == ess[i][q - n];
      }
    }
  }

  /** Landing after all runs. */
  lemma ConcatLandsBehind(less: Less, ess: seq<seq<Pair>>, k: Bytes)
    requires forall j :: 0 <= j < |ess| ==> WhollyBefore(less, ess[j], k)
    ensures LandsAt(less, Concat(ess), |Concat(ess)|, k)
  {
    ConcatBefore(less, ess, |ess|, k);
    assert ess[..|ess|] == ess;
  }

  // ----- what the index decides -----

  lemma SepAfterLast(c: Comparator, b: Blocks, i: nat)
    requires c.Good() && InOrder(c, b, []) && FinalSeps(c, b) && i < |b.es|
    ensures b.es[i] != [] && (b.seps[i] == LastKey(b.es[i]) || c.less(LastKey(b.es[i]), b.seps[i]))
    ensures i + 1 < |b.es| ==> b.es[i + 1] != [] && c.Separates(LastKey(b.es[i]), b.es[i + 1][0].key)
                               && b.seps[i] == c.separator(LastKey(b.es[i]), b.es[i + 1][0].key)
  {
    assert BlockInOrder(c, b, [], i);
    if i + 1 < |b.es| {
      assert SepRight(c, b, [], i);
      assert c.Separates(LastKey(b.es[i]), b.es[i + 1][0].key);
    }
  }

  lemma FirstToLast(c: Comparator, b: Blocks, i: nat)
    requires InOrder(c, b, []) && i < |b.es|
    ensures b.es[i] != [] && (b.es[i][0].key == LastKey(b.es[i]) || c.less(b.es[i][0].key, LastKey(b.es[i])))
  {
    assert BlockInOrder(c, b, [], i);
    if |b.es[i]| > 1 {
      assert KeyBefore(c.less, b.es[i], 0, |b.es[i]| - 1);
    }
  }

  lemma {:induction false} SepsGrow(c: Comparator, b: Blocks, i: nat, j: nat)
    requires c.Good() && InOrder(c, b, []) && FinalSeps(c, b) && i < j < |b.es|
    ensures c.less(b.seps[i], b.seps[j])
    decreases j
  {
    SepAfterLast(c, b, j - 1);
    SepAfterLast(c, b, j);
    FirstToLast(c, b, j);
    assert c.less(b.seps[j - 1], b.es[j][0].key);
    if i < j - 1 {
      SepsGrow(c, b, i, j - 1);
    }
  }

  lemma IndexOrdered(c: Comparator, b: Blocks)
    requires c.Good() && InOrder(c, b, []) && FinalSeps(c, b) && |b.handles| == |b.es|
    ensures Ordered(c.less, IndexEntries(b, |b.seps|))
  {
    var index := IndexEntries(b, |b.seps|);
    forall i, j | 0 <= i < j < |index| ensures KeyBefore(c.less, index, i, j) {
      SepsGrow(c, b, i, j);
    }
  }

  /** A block whose separator is before the key lies before it. */
  lemma BlockBefore(c: Comparator, b: Blocks, i: nat, k: Bytes)
    requires c.Good() && InOrder(c, b, []) && FinalSeps(c, b) && i < |b.es| && c.less(b.seps[i], k)
    ensures WhollyBefore(c.less, b.es[i], k)
  {
    SepAfterLast(c, b, i);
    LastDecides(c, b, i, k);
  }

  lemma LastDecides(c: Comparator, b: Blocks, i: nat, k: Bytes)
    requires c.Good() && InOrder(c, b, []) && i < |b.es| && b.es[i] != [] && c.less(LastKey(b.es[i]), k)
    ensures WhollyBefore(c.less, b.es[i], k)
  {
    assert BlockInOrder(c, b, [], i);
    BeforeOne(c.less, b.es[i], |b.es[i]| - 1, k);
  }

  /** When the one block that is looked at lies before the key, the first entry at or after the key begins
      the next block, and has another user key. */
  lemma NextBlockDiffers(c: Comparator, b: Blocks, i: nat, k: Bytes)
    requires c.Good() && InOrder(c, b, []) && FinalSeps(c, b) && i + 1 < |b.es|
    requires !c.less(b.seps[i], k) && WhollyBefore(c.less, b.es[i], k)
    ensures b.es[i + 1] != [] && LandsAt(c.less, b.es[i + 1], 0, k) && c.user(b.es[i + 1][0].key) != c.user(k)
  {
    SepAfterLast(c, b, i);
    var last := LastKey(b.es[i]);
    assert c.less(last, k);
    assert b.seps[i] != last;
  }

  /** Where the first entry at or after the key is, given the first separator that is: in the block it
      belongs to, or else at the start of the next one, with another user key. */
  lemma IndexDecides(c: Comparator, b: Blocks, i: nat, p: nat, k: Bytes) returns (pos: nat)
    requires c.Good() && InOrder(c, b, []) && FinalSeps(c, b) && |b.handles| == |b.es|
    requires LandsAt(c.less, IndexEntries(b, |b.seps|), i, k)
    requires i < |b.es| ==> LandsAt(c.less, b.es[i], p, k)
    ensures LandsAt(c.less, Concat(b.es), pos, k)
    ensures i < |b.es| && p < |b.es[i]| ==> pos < |Concat(b.es)| && Concat(b.es)[pos] == b.es[i][p]
    ensures pos < |Concat(b.es)| && !(i < |b.es| && p < |b.es[i]|) ==> c.user(Concat(b.es)[pos].key) != c.user(k)
  {
    forall j | 0 <= j < i ensures WhollyBefore(c.less, b.es[j], k) {
      assert IndexEntries(b, |b.seps|)[j].key == b.seps[j];
      BlockBefore(c, b, j, k);
    }
    if i == |b.es| {
      ConcatLandsBehind(c.less, b.es, k);
      return |Concat(b.es)|;
    }
    if p < |b.es[i]| {
      ConcatLands(c.less, b.es, i, p, k);
      ConcatAt(b.es, i, p);
      return |Concat(b.es[..i])| + p;
    }
    assert WhollyBefore(c.less, b.es[i], k);
    if i + 1 == |b.es| {
      ConcatLandsBehind(c.less, b.es, k);
      return |Concat(b.es)|;
    }
    assert IndexEntries(b, |b.seps|)[i].key == b.seps[i];
    NextBlockDiffers(c, b, i, k);
    ConcatLands(c.less, b.es, i + 1, 0, k);
    ConcatAt(b.es, i + 1, 0);
    return |Concat(b.es[..i + 1])|;
  }

  // ----- an open table -----

  /** No number in the file leaves its width. */
  ghost predicate Small(file: Bytes, y: Layout) {
    && |file| < TWO64 && |y.indexContents| < TWO32 && |y.metaContents| < TWO32
    && (forall i :: 0 <= i < |y.b.contents| ==> |y.b.contents[i]| < TWO32)
  }

  ghost predicate SmallFilter(o: TableOptions, y: Layout) {
    o.policy.Some? ==> |FilterBlock.Contents(FilterBlock.Filters(o.policy.value, y.groups))| < TWO32
  }

  lemma SmallFile(o: TableOptions, file: Bytes, y: Layout)
    requires IsTable(o, file, y) && |file| < TWO32
    ensures Small(file, y) && SmallFilter(o, y)
  {
    assert PartThere(o, file, y, Meta) && PartThere(o, file, y, Index) && PartThere(o, file, y, Filter) && PartThere(o, file, y, DataBlocks);
    forall i | 0 <= i < |y.b.contents| ensures |y.b.contents[i]| < TWO32 {
      assert BlockThere(o.codec, o.interval, file, y.b, i);
    }
  }

  lemma HandlesSmall(o: TableOptions, file: Bytes, y: Layout)
    requires IsTable(o, file, y) && Small(file, y)
    ensures y.metaindex.offset < TWO64 && y.metaindex.size < TWO64 && y.index.offset < TWO64 && y.index.size < TWO64
    ensures o.policy.Some? ==> y.filter.offset < TWO64 && y.filter.size < TWO64
  {
    assert PartThere(o, file, y, Meta) && PartThere(o, file, y, Index) && PartThere(o, file, y, Filter);
  }

  lemma FooterThere(o: TableOptions, file: Bytes, y: Layout)
    requires IsTable(o, file, y) && Small(file, y)
    ensures |file| >= FOOTER_SIZE && DecodeFooter(file[|file| - FOOTER_SIZE..]) == Some(Footer(y.metaindex, y.index))
  {
    HandlesSmall(o, file, y);
    FooterRead(y.metaindex, y.index);
    assert PartThere(o, file, y, Footing);
    assert file[|file| - FOOTER_SIZE..] == EncodeFooter(y.metaindex, y.index);
  }

  lemma IndexIsBlock(o: TableOptions, file: Bytes, y: Layout)
    requires IsTable(o, file, y) && Small(file, y)
    ensures |y.b.seps| <= |y.b.handles| && Stored(o.codec, file, y.index, y.indexContents)
    ensures IsBlock(y.indexContents, IndexEntries(y.b, |y.b.seps|), 1)
  {
    assert PartThere(o, file, y, Index);
  }

  lemma MetaIsBlock(o: TableOptions, file: Bytes, y: Layout)
    requires IsTable(o, file, y) && Small(file, y)
    ensures Stored(o.codec, file, y.metaindex, y.metaContents) && IsBlock(y.metaContents, MetaEntries(o, y.filter), o.interval)
  {
    assert PartThere(o, file, y, Meta);
  }

  lemma DataIsBlock(o: TableOptions, file: Bytes, y: Layout, i: nat)
    requires IsTable(o, file, y) && Small(file, y) && i < |y.b.es|
    ensures |y.b.handles| == |y.b.contents| == |y.b.es| && y.b.handles[i].offset < TWO64 && y.b.handles[i].size < TWO64
    ensures Stored(o.codec, file, y.b.handles[i], y.b.contents[i]) && IsBlock(y.b.contents[i], y.b.es[i], o.interval)
  {
    assert PartThere(o, file, y, DataBlocks);
    assert BlockThere(o.codec, o.interval, file, y.b, i);
  }

  lemma OrderThere(o: TableOptions, file: Bytes, y: Layout)
    requires IsTable(o, file, y)
    ensures InOrder(o.comparator, y.b, []) && FinalSeps(o.comparator, y.b) && |y.b.seps| == |y.b.es| == |y.b.handles|
  {
    assert PartThere(o, file, y, Order) && PartThere(o, file, y, Separators) && PartThere(o, file, y, DataBlocks);
  }

  lemma DataOrdered(o: TableOptions, file: Bytes, y: Layout, i: nat)
    requires IsTable(o, file, y) && i < |y.b.es|
    ensures Ordered(o.comparator.less, y.b.es[i])
  {
    OrderThere(o, file, y);
    assert BlockInOrder(o.comparator, y.b, [], i);
  }

  class Table {
    const options: TableOptions
    const file: Bytes
    const verifyChecksums: bool
    const indexBlock: Contents
    var filter: FilterBlock.Reader?
    ghost const layout: Layout

    ghost predicate Valid()
      reads this, indexBlock, filter
    {
      && options.Good() && IsTable(options, file, layout) && Small(file, layout)
      && |layout.b.seps| <= |layout.b.handles|
      && indexBlock.On(IndexEntries(layout.b, |layout.b.seps|), 1)
      && (filter != null ==>
            && options.policy.Some? && filter.policy == options.policy.value && filter.Valid()
            && filter.Holds(FilterBlock.Filters(options.policy.value, layout.groups)))
    }

    constructor (options: TableOptions, file: Bytes, verifyChecksums: bool, indexBlock: Contents, ghost layout: Layout)
      requires options.Good() && IsTable(options, file, layout) && Small(file, layout)
      requires |layout.b.seps| <= |layout.b.handles| && indexBlock.On(IndexEntries(layout.b, |layout.b.seps|), 1)
      ensures Valid() && filter == null && this.options == options && this.layout == layout
      ensures this.file == file && this.verifyChecksums == verifyChecksums && this.indexBlock == indexBlock
    {
      this.options, this.file, this.verifyChecksums, this.indexBlock, this.layout := options, file, verifyChecksums, indexBlock, layout;
      filter := null;
    }

    method ReadFilter(h: BlockHandle)
      requires Valid() && filter == null && options.policy.Some? && h == layout.filter && SmallFilter(options, layout)
      modifies this
      ensures Valid() && filter != null && fresh(filter)
    {
      ghost var cells := FilterBlock.Filters(options.policy.value, layout.groups);
      assert PartThere(options, file, layout, Filter);
      FilterBlock.ContentsReadable(cells);
      var contents := ReadTableBlock(options, file, verifyChecksums, h, FilterBlock.Contents(cells));
      filter := new FilterBlock.Reader(options.policy.value, contents.value);
    }

    /** An iterator over the data block that the index value leads to. */
    method BlockReader(indexValue: Bytes, ghost i: nat) returns (it: Iter)
      requires Valid() && i < |layout.b.es| == |layout.b.handles| && indexValue == EncodeHandle(layout.b.handles[i])
      ensures fresh(it) && it.Valid() && it.less == options.comparator.less && it.layout.es == layout.b.es[i]
    {
      DataIsBlock(options, file, layout, i);
      HandleRead(layout.b.handles[i], []);
      assert indexValue + [] == indexValue;
      var handle := DecodeHandle(indexValue);
      StoredIsRead(options.codec, file, verifyChecksums, layout.b.handles[i], layout.b.contents[i]);
      var contents := ReadBlock(options.codec, file, verifyChecksums, handle.value.value);
      var block := new Contents(contents.value);
      it := block.NewIterator(options.comparator.less, layout.b.es[i], options.interval);
    }

    /** Whether the filter of the two kilobytes that block `i` begins in has not the key. */
    ghost predicate Absent(i: nat, k: Bytes)
      requires options.policy.Some? && i < |layout.b.handles|
    {
      var cells, index := FilterBlock.Filters(options.policy.value, layout.groups), layout.b.handles[i].offset / 2048;
      index < |cells| && !options.policy.value.mayMatch(k, cells[index])
    }

    /** Whether the filter rules the key out of block `i`. */
    method RuledOut(indexValue: Bytes, k: Bytes, ghost i: nat) returns (out: bool)
      requires Valid() && i < |layout.b.es| == |layout.b.handles| && indexValue == EncodeHandle(layout.b.handles[i])
      ensures out <==> filter != null && Absent(i, k)
      ensures out ==> forall e :: e in layout.b.es[i] ==> options.comparator.user(e.key) != options.comparator.user(k)
    {
      out := false;
      if filter != null {
        DataIsBlock(options, file, layout, i);
        HandleRead(layout.b.handles[i], []);
        assert indexValue + [] == indexValue;
        var handle := DecodeHandle(indexValue);
        if handle.Some? {
          ghost var cells := FilterBlock.Filters(options.policy.value, layout.groups);
          var may := filter.KeyMayMatch(handle.value.value.offset, k, cells);
          out := !may;
          if out {
            RuledOutRight(options, file, layout, i, k);
          }
        }
      }
    }

    /** Main result: passes on an entry only if it is the first at or after the key in the whole table, and does
        so whenever that entry has the key's user key, although one block at most is read: block `i`, unless the
        filter rules the key out of it. */
    method InternalGet(k: Bytes) returns (r: Option<Pair>, ghost pos: nat, ghost i: nat)
      requires Valid()
      ensures LandsAt(options.comparator.less, IndexEntries(layout.b, |layout.b.seps|), i, k) && |layout.b.es| == |layout.b.handles|
      ensures r.Some? <==> i < |layout.b.es| && !(filter != null && Absent(i, k)) && !WhollyBefore(options.comparator.less, layout.b.es[i], k)
      ensures var es := Concat(layout.b.es);
              && LandsAt(options.comparator.less, es, pos, k)
              && (r.Some? ==> pos < |es| && r.value == es[pos])
              && (pos < |es| && options.comparator.user(es[pos].key) == options.comparator.user(k) ==> r == Some(es[pos]))
      ensures r.Some? ==> r.value in Concat(layout.b.es) && !options.comparator.less(r.value.key, k)
    {
      OrderThere(options, file, layout);
      IndexOrdered(options.comparator, layout.b);
      var iiter := indexBlock.NewIterator(options.comparator.less, IndexEntries(layout.b, |layout.b.seps|), 1);
      iiter.Seek(k);
      r := None;
      ghost var p := 0;
      i := iiter.pos;
      if iiter.Positioned() {
        DataOrdered(options, file, layout, i);
        p := LandingPlace(options.comparator.less, layout.b.es[i], k);
        var handleValue := iiter.Value();
        var out := RuledOut(handleValue, k, i);
        if out {
          // not found
        } else {
          r := BlockGet(handleValue, k, i, p);
        }
      }
      pos := IndexDecides(options.comparator, layout.b, i, p, k);
    }

    method BlockGet(indexValue: Bytes, k: Bytes, ghost i: nat, ghost p: nat) returns (r: Option<Pair>)
      requires Valid() && i < |layout.b.es| == |layout.b.handles| && indexValue == EncodeHandle(layout.b.handles[i])
      requires LandsAt(options.comparator.less, layout.b.es[i], p, k)
      ensures r == if p < |layout.b.es[i]| then Some(layout.b.es[i][p]) else None
    {
      DataOrdered(options, file, layout, i);
      var blockIter := BlockReader(indexValue, i);
      blockIter.Seek(k);
      LandsOnce(options.comparator.less, layout.b.es[i], p, blockIter.pos, k);
      r := None;
      if blockIter.Positioned() {
        var v := blockIter.Value();
        r := Some(Pair(blockIter.key, v));
      }
    }
  }

  // ----- opening -----

  lemma MetaOrdered(o: TableOptions, filter: BlockHandle)
    ensures Transitive(ByteKeys.Before) && Ordered(ByteKeys.Before, MetaEntries(o, filter))
  {
    forall a, b, c | ByteKeys.Before(a, b) && ByteKeys.Before(b, c) ensures ByteKeys.Before(a, c) {
      ByteKeys.BeforeTransitive(a, b, c);
    }
  }

  /** Reads the block a handle leads to. */
  method ReadTableBlock(o: TableOptions, file: Bytes, verify: bool, h: BlockHandle, ghost contents: Bytes) returns (r: Option<Bytes>)
    requires o.Good()
    ensures Stored(o.codec, file, h, contents) ==> r == Some(contents)
  {
    r := ReadBlock(o.codec, file, verify, h);
    if Stored(o.codec, file, h, contents) {
      StoredIsRead(o.codec, file, verify, h, contents);
    }
  }

  /** The handle of the filter block, from the metaindex. */
  method FindFilter(o: TableOptions, file: Bytes, verify: bool, metaindex: BlockHandle, ghost y: Layout) returns (r: Option<BlockHandle>)
    requires o.Good() && IsTable(o, file, y) && Small(file, y) && metaindex == y.metaindex
    ensures o.policy.Some? ==> r == Some(y.filter)
  {
    HandlesSmall(o, file, y);
    MetaIsBlock(o, file, y);
    MetaOrdered(o, y.filter);
    r := None;
    var contents := ReadTableBlock(o, file, verify, metaindex, y.metaContents);
    var meta := new Contents(contents.value);
    var it := meta.NewIterator(ByteKeys.Before, MetaEntries(o, y.filter), o.interval);
    it.Seek(o.filterKey);
    ByteKeys.BeforeTotal(o.filterKey, o.filterKey);
    if it.Positioned() && it.key == o.filterKey {
      var v := it.Value();
      HandleRead(y.filter, []);
      assert EncodeHandle(y.filter) + [] == EncodeHandle(y.filter);
      var h := DecodeHandle(v);
      if h.Some? {
        r := Some(h.value.value);
      }
    }
  }

  /** Opens a table, with its filter if it has one. */
  method Open(o: TableOptions, file: Bytes, verify: bool, ghost y: Layout) returns (t: Table)
    requires o.Good() && IsTable(o, file, y) && Small(file, y) && SmallFilter(o, y)
    ensures fresh(t) && t.Valid() && t.layout == y && t.options == o && (o.policy.Some? ==> t.filter != null)
  {
    FooterThere(o, file, y);
    if |file| < FOOTER_SIZE {
      assert false;  // a table is never too short
    }
    var footer := DecodeFooter(file[|file| - FOOTER_SIZE..]);
    IndexIsBlock(o, file, y);
    var indexContents := ReadTableBlock(o, file, verify, footer.value.index, y.indexContents);
    var indexBlock := new Contents(indexContents.value);
    t := new Table(o, file, verify, indexBlock, y);
    if o.policy.None? {
      return;
    }
    var filterHandle := FindFilter(o, file, verify, footer.value.metaindex, y);
    t.ReadFilter(filterHandle.value);
  }

  lemma FillingStarts(o: TableOptions)
    requires o.interval > 0
    ensures Filling(o, [], [])
  {
  }

  /** Builds a table of sorted entries, in blocks of the size that the options ask for. */
  method Build(o: TableOptions, es: seq<Pair>) returns (file: Bytes)
    requires o.Good() && Ordered(o.comparator.less, es)
    ensures exists y :: IsTable(o, file, y) && Concat(y.b.es) == es && BlocksCut(o, y.b.es)
  {
    hide BlockSize, Filling, BlocksCut;
    var b := new Builder(o);
    FillingStarts(o);
    for i := 0 to |es|
      invariant b.Valid() && !b.closed && b.options == o && b.added == es[..i] && fresh(b) && fresh(b.Parts())
      invariant Filling(o, b.b.es, b.dataBlock.entries)
    {
      if i > 0 {
        assert KeyBefore(o.comparator.less, es, i - 1, i);
        ConsistentParts(o, b.Now());
      }
      FillingGrows(o, b.b.es, b.dataBlock.entries, Pair(es[i].key, es[i].value));
      b.Add(es[i].key, es[i].value);
    }
    assert es[..|es|] == es;
    FillingEnds(o, b.b.es, b.dataBlock.entries);
    ghost var y := b.Finish();
    file := b.file;
    assert IsTable(o, file, y);
  }

  lemma RuledOutRight(o: TableOptions, file: Bytes, y: Layout, i: nat, k: Bytes)
    requires o.Good() && IsTable(o, file, y) && o.policy.Some? && i < |y.b.es| == |y.b.handles|
    requires var index, cells := y.b.handles[i].offset / FilterBlock.FILTER_BASE, FilterBlock.Filters(o.policy.value, y.groups);
             !(index >= |cells| || o.policy.value.mayMatch(k, cells[index]))
    ensures forall e :: e in y.b.es[i] ==> o.comparator.user(e.key) != o.comparator.user(k)
  {
    assert PartThere(o, file, y, Filter);
    forall e | e in y.b.es[i] ensures o.comparator.user(e.key) != o.comparator.user(k) {
      if o.comparator.user(e.key) == o.comparator.user(k) {
        FilterBlock.NoFalseNegatives(o.policy.value, o.comparator.user, y.groups, y.b.handles[i].offset / FilterBlock.FILTER_BASE, e.key, k);
      }
    }
  }

  lemma LandsOnce(less: Less, es: seq<Pair>, p: nat, q: nat, k: Bytes)
    requires LandsAt(less, es, p, k) && LandsAt(less, es, q, k)
    ensures p == q
  {
  }

  lemma {:induction false} LandingFrom(less: Less, es: seq<Pair>, n: nat, k: Bytes) returns (p: nat)
    requires n <= |es| && AllBefore(less, es, n, k)
    ensures LandsAt(less, es, p, k)
    decreases |es| - n
  {
    if n < |es| && less(es[n].key, k) {
      p := LandingFrom(less, es, n + 1, k);
    } else {
      p := n;
    }
  }

  lemma LandingPlace(less: Less, es: seq<Pair>, k: Bytes) returns (p: nat)
    ensures LandsAt(less, es, p, k)
  {
    p := LandingFrom(less, es, 0, k);
  }
}
