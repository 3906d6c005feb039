/** An iterator over an index and the blocks it leads to: one cursor on their entries, empty blocks included
    (table/two_level_iterator.cc). */
module TwoLevel {
  import opened Coding
  import opened BlockLayout
  import opened TableFormat
  import opened TableBuilder
  import opened BlockIter
  import opened Table
  import Log

  /** Blocks stored in a file, and the index keys that separate them. */
  datatype Store = Store(codec: Log.Codec, file: Bytes, less: Less, interval: nat, es: seq<seq<Pair>>, contents: seq<Bytes>,
                         handles: seq<BlockHandle>, seps: seq<Bytes>)
  {
    ghost predicate Sizes() {
      |es| == |contents| == |handles| == |seps|
    }

    ghost predicate There(i: nat)
      requires Sizes() && i < |es|
    {
      && Stored(codec, file, handles[i], contents[i]) && IsBlock(contents[i], es[i], interval)
      && handles[i].offset < TWO64 && handles[i].size < TWO64
    }

    ghost predicate Valid() {
      codec.Good() && Sizes() && forall i {:trigger There(i)} :: 0 <= i < |es| ==> There(i)
    }

    function Index(): (r: seq<Pair>)
      requires |handles| == |seps|
      ensures |r| == |seps|
    {
      seq(|seps|, i requires 0 <= i < |seps| => Pair(seps[i], EncodeHandle(handles[i])))
    }

    /** Block `i` ends at its index key, and whatever follows is beyond it. */
    ghost predicate Splits(i: nat)
      requires Sizes() && i < |es|
    {
      && (forall e :: e in es[i] ==> e.key == seps[i] || less(e.key, seps[i]))
      && forall j, e {:trigger e in es[j]} :: i < j < |es| && e in es[j] ==> less(seps[i], e.key)
    }

    /** What seeking needs of the order. */
    ghost predicate Sorted()
      requires Sizes()
    {
      && Transitive(less) && Ordered(less, Index())
      && forall i {:trigger Splits(i)} :: 0 <= i < |es| ==> Ordered(less, es[i]) && Splits(i)
    }

    function All(): seq<Pair> {
      Concat(es)
    }

    /** How many entries there are before block `i`. */
    function Before(i: nat): nat {
      if i <= |es| then |Concat(es[..i])| else 0
    }
  }

  lemma BeforeStep(s: Store, i: nat)
    requires i < |s.es|
    ensures s.Before(i + 1) == s.Before(i) + |s.es[i]| && s.Before(i + 1) <= |s.All()|
    ensures forall p :: 0 <= p < |s.es[i]| ==> s.All()[s.Before(i) + p] == s.es[i][p]
  {
    ConcatStep(s.es, i);
    ConcatPrefix(s.es, i + 1);
    forall p | 0 <= p < |s.es[i]| ensures s.All()[s.Before(i) + p] == s.es[i][p] {
      ConcatAt(s.es, i, p);
    }
  }

  lemma BeforeEnds(s: Store)
    ensures s.Before(0) == 0 && s.Before(|s.es|) == |s.All()|
  {
    assert s.es[..0] == [] && s.es[..|s.es|] == s.es;
  }

  lemma SameHandle(h: BlockHandle, h': BlockHandle)
    requires h.offset < TWO64 && h.size < TWO64 && h'.offset < TWO64 && h'.size < TWO64
    requires EncodeHandle(h) == EncodeHandle(h')
    ensures h == h'
  {
    HandleRead(h, []);
    HandleRead(h', []);
  }

  /** The same index value leads to the same entries. */
  lemma SameBlock(s: Store, i: nat, j: nat)
    requires s.Valid() && i < |s.es| && j < |s.es| && EncodeHandle(s.handles[i]) == EncodeHandle(s.handles[j])
    ensures s.es[i] == s.es[j]
  {
    assert s.There(i) && s.There(j);
    SameHandle(s.handles[i], s.handles[j]);
    StoredIsRead(s.codec, s.file, false, s.handles[i], s.contents[i]);
    StoredIsRead(s.codec, s.file, false, s.handles[i], s.contents[j]);
    BlockUnique(s.contents[i], s.es[i], s.interval, s.es[j], s.interval);
  }

  class TwoLevelIterator {
    const codec: Log.Codec
    const file: Bytes
    const verify: bool
    const less: Less
    const indexIter: Iter
    var dataIter: Iter?
    var dataBlockHandle: Bytes  // where the data iterator's block is, if there is one
    ghost const store: Store
    ghost var dataIndex: nat    // which block that is
    ghost var pos: nat          // the position in all entries; their number when not valid

    ghost predicate Parts()
      reads this, indexIter, dataIter
    {
      && store.Valid() && codec == store.codec && file == store.file && less == store.less
      && indexIter.Valid() && indexIter.less == less && indexIter.layout.es == store.Index()
      && (dataIter != null ==>
            && dataIter != indexIter && dataIter.Valid() && dataIter.less == less
            && dataIndex < |store.es| && dataIter.layout.es == store.es[dataIndex]
            && dataBlockHandle == EncodeHandle(store.handles[dataIndex]))
    }

    /** The data iterator is on the block the index iterator is at; without one the index iterator is at its end. */
    ghost predicate Together()
      reads this, indexIter, dataIter
      requires Parts()
    {
      if dataIter == null then !indexIter.Positioned() else indexIter.Positioned() && dataIndex == indexIter.pos
    }

    ghost predicate Valid()
      reads this, indexIter, dataIter
    {
      && Parts() && Together()
      && (if dataIter == null then pos == |store.All()| else dataIter.Positioned() && pos == store.Before(dataIndex) + dataIter.pos)
    }

    constructor (indexIter: Iter, codec: Log.Codec, file: Bytes, verify: bool, ghost store: Store)
      requires store.Valid() && codec == store.codec && file == store.file
      requires indexIter.Valid() && !indexIter.Positioned() && indexIter.less == store.less && indexIter.layout.es == store.Index()
      ensures Valid() && dataIter == null && this.store == store && this.indexIter == indexIter
    {
      this.indexIter, this.codec, this.file, this.verify, this.store := indexIter, codec, file, verify, store;
      less := indexIter.less;
      dataIter, dataBlockHandle, dataIndex := null, [], 0;
      pos := |store.All()|;
    }

    predicate Positioned()
      reads this, dataIter
    {
      dataIter != null && dataIter.Positioned()
    }

    /** Where `Positioned`, the entry is that of the position. */
    method Current() returns (e: Pair)
      requires Valid() && Positioned()
      ensures pos < |store.All()| && e == store.All()[pos]
    {
      BeforeStep(store, dataIndex);
      var v := dataIter.Value();
      e := Pair(dataIter.key, v);
    }

    /** Opens the block of an index value. */
    method BlockFunction(handle: Bytes, ghost i: nat) returns (it: Iter)
      requires Parts() && i < |store.es| && handle == EncodeHandle(store.handles[i])
      ensures fresh(it) && it.Valid() && it.less == less && it.layout.es == store.es[i]
    {
      assert store.There(i);
      HandleRead(store.handles[i], []);
      assert handle + [] == handle;
      var h := DecodeHandle(handle);
      StoredIsRead(codec, file, verify, store.handles[i], store.contents[i]);
      var contents := ReadBlock(codec, file, verify, h.value.value);
      var block := new Contents(contents.value);
      it := block.NewIterator(less, store.es[i], store.interval);
    }

    /** Takes the block the index iterator is at; the one already open is kept if it is the same. */
    method InitDataBlock()
      requires Parts()
      modifies this`dataIter, this`dataBlockHandle, this`dataIndex
      ensures Parts() && Together() && (dataIter == old(dataIter) || dataIter == null || fresh(dataIter))
    {
      if !indexIter.Positioned() {
        dataIter := null;
      } else {
        var handle := indexIter.Value();
        if dataIter != null && handle == dataBlockHandle {
          // already open
          SameBlock(store, dataIndex, indexIter.pos);
          dataIndex := indexIter.pos;
        } else {
          var it := BlockFunction(handle, indexIter.pos);
          dataBlockHandle := handle;
          dataIter, dataIndex := it, indexIter.pos;
        }
      }
    }

    /** The place in all entries, whether or not there is one in this block. */
    ghost predicate AtPlace(p: nat)
      reads this, indexIter, dataIter
      requires Parts()
    {
      if dataIter == null then p == |store.All()| else p == store.Before(dataIndex) + dataIter.pos
    }

    /** The next block with an entry, from the end of this one on. */
    method SkipEmptyDataBlocksForward(ghost p: nat)
      requires Parts() && Together() && AtPlace(p)
      modifies this, indexIter, dataIter
      ensures Valid() && pos == p && (dataIter == old(dataIter) || dataIter == null || fresh(dataIter))
    {
      while dataIter == null || !dataIter.Positioned()
        invariant Parts() && Together() && AtPlace(p)
        invariant dataIter == old(dataIter) || dataIter == null || fresh(dataIter)
        decreases |store.es| - indexIter.pos
      {
        if !indexIter.Positioned() {
          dataIter := null;
          pos := p;
          return;
        }
        BeforeStep(store, dataIndex);
        BeforeEnds(store);
        NextBlock();
      }
      pos := p;
    }

    method NextBlock()
      requires Parts() && Together() && indexIter.Positioned()
      modifies this`dataIter, this`dataBlockHandle, this`dataIndex, indexIter, dataIter
      ensures Parts() && Together() && indexIter.pos == old(indexIter.pos) + 1
      ensures dataIter != null ==> dataIndex == old(dataIndex) + 1 && dataIter.pos == 0
      ensures dataIter == old(dataIter) || dataIter == null || fresh(dataIter)
    {
      indexIter.Next();
      InitDataBlock();
      if dataIter != null {
        dataIter.SeekToFirst();
      }
    }

    /** `n` entries lie before the place and at it; without an entry in this block, before it. */
    ghost predicate Behind(n: nat)
      reads this, indexIter, dataIter
      requires Parts()
    {
      if dataIter == null then n == 0
      else n == store.Before(dataIndex) + if dataIter.Positioned() then dataIter.pos + 1 else 0
    }

    /** The block before with an entry. */
    method SkipEmptyDataBlocksBackward(ghost n: nat)
      requires Parts() && Together() && Behind(n)
      modifies this, indexIter, dataIter
      ensures Valid() && pos == (if n == 0 then |store.All()| else n - 1)
      ensures dataIter == old(dataIter) || dataIter == null || fresh(dataIter)
    {
      hide Store.Valid, Store.Index, Store.All, Store.Before;
      while dataIter == null || !dataIter.Positioned()
        invariant Parts() && Together() && Behind(n)
        invariant dataIter == old(dataIter) || dataIter == null || fresh(dataIter)
        decreases if indexIter.Positioned() then indexIter.pos + 1 else 0
      {
        if !indexIter.Positioned() {
          dataIter := null;
          pos := |store.All()|;
          return;
        }
        BeforeEnds(store);
        if dataIndex > 0 {
          BeforeStep(store, dataIndex - 1);
        }
        PrevBlock();
      }
      pos := n - 1;
    }

    method PrevBlock()
      requires Parts() && Together() && indexIter.Positioned()
      modifies this`dataIter, this`dataBlockHandle, this`dataIndex, indexIter, dataIter
      ensures Parts() && Together() && (dataIter == null <==> old(indexIter.pos) == 0)
      ensures dataIter != null ==> dataIndex == old(indexIter.pos) - 1 && (dataIter.Positioned() ==> dataIter.pos == |store.es[dataIndex]| - 1)
      ensures dataIter != null && !dataIter.Positioned() ==> store.es[dataIndex] == []
      ensures dataIter == old(dataIter) || dataIter == null || fresh(dataIter)
    {
      indexIter.Prev();
      InitDataBlock();
      if dataIter != null {
        dataIter.SeekToLast();
      }
    }

    method SeekToFirst()
      requires Valid()
      modifies this, indexIter, dataIter
      ensures Valid() && pos == 0 && (dataIter == old(dataIter) || dataIter == null || fresh(dataIter))
    {
      BeforeEnds(store);
      indexIter.SeekToFirst();
      InitDataBlock();
      if dataIter != null {
        dataIter.SeekToFirst();
      }
      SkipEmptyDataBlocksForward(0);
    }

    method SeekToLast()
      requires Valid()
      modifies this, indexIter, dataIter
      ensures Valid() && pos == (if store.All() == [] then 0 else |store.All()| - 1)
      ensures dataIter == old(dataIter) || dataIter == null || fresh(dataIter)
    {
      BeforeEnds(store);
      if store.es != [] {
        BeforeStep(store, |store.es| - 1);
      }
      indexIter.SeekToLast();
      InitDataBlock();
      if dataIter != null {
        dataIter.SeekToLast();
      }
      SkipEmptyDataBlocksBackward(|store.All()|);
    }

    method Next()
      requires Valid() && Positioned()
      modifies this, indexIter, dataIter
      ensures Valid() && pos == old(pos) + 1 && (dataIter == old(dataIter) || dataIter == null || fresh(dataIter))
    {
      dataIter.Next();
      SkipEmptyDataBlocksForward(pos + 1);
    }

    method Prev()
      requires Valid() && Positioned()
      modifies this, indexIter, dataIter
      ensures Valid() && pos == (if old(pos) == 0 then |store.All()| else old(pos) - 1)
      ensures dataIter == old(dataIter) || dataIter == null || fresh(dataIter)
    {
      dataIter.Prev();
      SkipEmptyDataBlocksBackward(pos);
    }

    /** The first entry at or after the target, in whichever block. */
    method Seek(target: Bytes)
      requires Valid() && store.Sorted()
      modifies this, indexIter, dataIter
      ensures Valid() && LandsAt(less, store.All(), pos, target)
      ensures dataIter == old(dataIter) || dataIter == null || fresh(dataIter)
    {
      indexIter.Seek(target);
      InitDataBlock();
      ghost var p := 0;
      if dataIter != null {
        assert store.Splits(dataIndex);
        dataIter.Seek(target);
        p := dataIter.pos;
      }
      ghost var place := SeekPlace(store, indexIter.pos, p, target);
      SkipEmptyDataBlocksForward(place);
    }
  }

  // ----- seeking -----

  lemma BlocksBefore(s: Store, i: nat, target: Bytes)
    requires s.Sizes() && s.Sorted() && i <= |s.es| && AllBefore(s.less, s.Index(), i, target)
    ensures forall j :: 0 <= j < i ==> WhollyBefore(s.less, s.es[j], target)
  {
    forall j | 0 <= j < i ensures WhollyBefore(s.less, s.es[j], target) {
      assert s.Splits(j) && s.Index()[j].key == s.seps[j];
      forall q | 0 <= q < |s.es[j]| ensures s.less(s.es[j][q].key, target) {
        assert s.es[j][q] in s.es[j];
      }
    }
  }

  /** Everything after a block whose index key is not before the target is not before it either. */
  lemma FollowersAfter(s: Store, i: nat, target: Bytes, q: nat)
    requires s.Sizes() && s.Sorted() && i < |s.es| && !s.less(s.seps[i], target)
    requires s.Before(i + 1) <= q < |s.All()|
    ensures !s.less(s.All()[q].key, target)
  {
    var j, p := InBlock(s.es, q);
    BeforeStep(s, j);
    if j <= i {
      BeforeMonotone(s, j + 1, i + 1);
      assert false;
    }
    assert s.Splits(i) && s.es[j][p] in s.es[j];
  }

  lemma {:induction false} BeforeMonotone(s: Store, i: nat, j: nat)
    requires i <= j <= |s.es|
    ensures s.Before(i) <= s.Before(j)
    decreases j
  {
    if i < j {
      BeforeStep(s, j - 1);
      BeforeMonotone(s, i, j - 1);
    }
  }

  /** The block an entry is in. */
  lemma {:induction false} InBlock(ess: seq<seq<Pair>>, q: nat) returns (j: nat, p: nat)
    requires q < |Concat(ess)|
    ensures j < |ess| && p < |ess[j]| && q == |Concat(ess[..j])| + p && Concat(ess)[q] == ess[j][p]
  {
    var n := |ess| - 1;
    if q < |Concat(ess[..n])| {
      j, p := InBlock(ess[..n], q);
      assert ess[..n][..j] == ess[..j];
    } else {
      j, p := n, q - |Concat(ess[..n])|;
    }
  }

  lemma PrefixBefore(less: Less, part: seq<Pair>, all: seq<Pair>, target: Bytes)
    requires part <= all && WhollyBefore(less, part, target)
    ensures AllBefore(less, all, |part|, target)
  {
    forall q | 0 <= q < |part| ensures less(all[q].key, target) {
      assert all[q] == part[q];
    }
  }

  /** Where the first entry at or after the target is. */
  lemma SeekPlace(s: Store, i: nat, p: nat, target: Bytes) returns (place: nat)
    requires s.Sizes() && s.Sorted() && LandsAt(s.less, s.Index(), i, target)
    requires i < |s.es| ==> LandsAt(s.less, s.es[i], p, target)
    ensures place == (if i < |s.es| then s.Before(i) + p else |s.All()|)
    ensures LandsAt(s.less, s.All(), place, target)
  {
    BlocksBefore(s, i, target);
    if i == |s.es| {
      ConcatLandsBehind(s.less, s.es, target);
      return |s.All()|;
    }
    place := s.Before(i) + p;
    if p < |s.es[i]| {
      ConcatLands(s.less, s.es, i, p, target);
      return;
    }
    BeforeStep(s, i);
    assert s.Index()[i].key == s.seps[i];
    assert WhollyBefore(s.less, s.es[i], target);
    ConcatBefore(s.less, s.es, i + 1, target);
    ConcatPrefix(s.es, i + 1);
    PrefixBefore(s.less, Concat(s.es[..i + 1]), s.All(), target);
    if place < |s.All()| {
      FollowersAfter(s, i, target, place);
    }
  }

  // ----- tables -----

  /** The blocks of a table. */
  ghost function TableStore(o: TableOptions, file: Bytes, y: Layout): Store {
    Store(o.codec, file, o.comparator.less, o.interval, y.b.es, y.b.contents, y.b.handles, y.b.seps)
  }

  lemma TableStoreValid(o: TableOptions, file: Bytes, y: Layout)
    requires o.Good() && IsTable(o, file, y) && Small(file, y)
    ensures TableStore(o, file, y).Valid()
  {
    OrderThere(o, file, y);
    var s := TableStore(o, file, y);
    assert PartThere(o, file, y, DataBlocks);
    forall i | 0 <= i < |s.es| ensures s.There(i) {
      DataIsBlock(o, file, y, i);
    }
  }

  /** Later blocks lie beyond the index key. */
  lemma {:induction false} LaterBeyond(c: Comparator, b: Blocks, i: nat, j: nat, e: Pair)
    requires c.Good() && InOrder(c, b, []) && FinalSeps(c, b) && i < j < |b.es| && e in b.es[j]
    ensures c.less(b.seps[i], e.key)
  {
    SepAfterLast(c, b, j - 1);
    var first := b.es[j][0];
    assert c.less(b.seps[j - 1], first.key);
    if i < j - 1 {
      SepsGrow(c, b, i, j - 1);
    }
    assert BlockInOrder(c, b, [], j);
    var q :| 0 <= q < |b.es[j]| && b.es[j][q] == e;
    if q > 0 {
      assert KeyBefore(c.less, b.es[j], 0, q);
    }
  }

  lemma EndsAtSep(c: Comparator, b: Blocks, i: nat, e: Pair)
    requires c.Good() && InOrder(c, b, []) && FinalSeps(c, b) && i < |b.es| && e in b.es[i]
    ensures e.key == b.seps[i] || c.less(e.key, b.seps[i])
  {
    SepAfterLast(c, b, i);
    assert BlockInOrder(c, b, [], i);
    var q :| 0 <= q < |b.es[i]| && b.es[i][q] == e;
    if q < |b.es[i]| - 1 {
      assert KeyBefore(c.less, b.es[i], q, |b.es[i]| - 1);
    }
  }

  lemma TableStoreSorted(o: TableOptions, file: Bytes, y: Layout)
    requires o.Good() && IsTable(o, file, y)
    ensures TableStore(o, file, y).Sizes() && TableStore(o, file, y).Sorted()
  {
    OrderThere(o, file, y);
    assert PartThere(o, file, y, DataBlocks);
    IndexOrdered(o.comparator, y.b);
    var s := TableStore(o, file, y);
    assert s.Index() == IndexEntries(y.b, |y.b.seps|);
    forall i | 0 <= i < |s.es| ensures Ordered(s.less, s.es[i]) && s.Splits(i) {
      DataOrdered(o, file, y, i);
      forall e | e in s.es[i] ensures e.key == s.seps[i] || s.less(e.key, s.seps[i]) {
        EndsAtSep(o.comparator, y.b, i, e);
      }
      forall j, e | i < j < |s.es| && e in s.es[j] ensures s.less(s.seps[i], e.key) {
        LaterBeyond(o.comparator, y.b, i, j, e);
      }
    }
  }

  /** An iterator over a whole table. */
  method NewIterator(t: Table) returns (it: TwoLevelIterator)
    requires t.Valid()
    ensures fresh(it) && fresh(it.indexIter) && it.Valid() && it.dataIter == null && it.less == t.options.comparator.less
    ensures it.store.All() == Concat(t.layout.b.es) && it.store.Sizes() && it.store.Sorted()
  {
    TableStoreValid(t.options, t.file, t.layout);
    TableStoreSorted(t.options, t.file, t.layout);
    OrderThere(t.options, t.file, t.layout);
    ghost var s := TableStore(t.options, t.file, t.layout);
    assert s.Index() == IndexEntries(t.layout.b, |t.layout.b.seps|);
    var indexIter := t.indexBlock.NewIterator(t.options.comparator.less, IndexEntries(t.layout.b, |t.layout.b.seps|), 1);
    it := new TwoLevelIterator(indexIter, t.options.codec, t.file, t.verifyChecksums, s);
  }
}
