/** The iterator over a table's bytes as a cursor on the table's entries. */
module TableCursor {
  import opened DbFormat
  import opened TwoLevel
  import ByteKeys
  import Table
  import TableBuilder
  import TableFormat
  import TableGet

  class TableCursor {
    const f: ByteKeys.Format
    const it: TwoLevelIterator
    ghost const entries: seq<Entry>
    ghost var Repr: set<object>

    /** The objects that the iterator is made of. */
    ghost predicate Owned()
      reads this, it
    {
      && this in Repr && it in Repr && it.indexIter in Repr && (it.dataIter != null ==> it.dataIter in Repr)
      && this !in {it as object, it.indexIter, it.dataIter}
    }

    ghost predicate Valid()
      reads this, Repr
    {
      && this in Repr && it in Repr && Owned()
      && it.Valid() && it.store.Sizes() && it.store.Sorted() && it.less == it.store.less == ByteKeys.InternalBefore
      && f.Good() && SortedEntries(entries) && TableGet.Written(f, entries, it.store.All())
    }

    ghost function Pos(): nat
      requires Valid()
      reads this, Repr
    {
      it.pos
    }

    constructor (f: ByteKeys.Format, t: Table.Table, ghost entries: seq<Entry>)
      requires t.Valid() && t.options.comparator == TableFormat.InternalComparator()
      requires f.Good() && SortedEntries(entries) && TableGet.Written(f, entries, TableBuilder.Concat(t.layout.b.es))
      ensures Valid() && fresh(Repr) && this.f == f && this.entries == entries && Pos() == |entries|
    {
      this.f, this.entries := f, entries;
      var iter := NewIterator(t);
      it := iter;
      Repr := {this, iter, iter.indexIter};
    }

    predicate Positioned()
      requires Valid()
      reads this, Repr
      ensures Pos() <= |entries| && (Positioned() <==> Pos() < |entries|)
    {
      PlaceInside(it);
      it.Positioned()
    }

    method Current() returns (e: Entry)
      requires Valid() && Pos() < |entries|
      ensures e == entries[Pos()]
    {
      PlaceInside(it);
      var p := it.Current();
      assert TableGet.WrittenAt(f, entries, it.store.All(), it.pos);
      ByteKeys.DecodeEncode(f, entries[it.pos].key);
      e := Entry(ByteKeys.Decode(f, p.key), f.read(p.value));
    }

    method Seek(target: InternalKey)
      requires Valid() && target.seqno <= MAX_SEQUENCE
      modifies Repr
      ensures Valid() && fresh(Repr - old(Repr)) && AtSeek(entries, Pos(), target)
    {
      hide TableGet.Written, SortedEntries, Store.Valid, Store.Sorted;
      var k := ByteKeys.Encode(f.keyOf, target);
      it.Seek(k);
      TableGet.LandsAtSeek(f, entries, it.store.All(), it.pos, target);
      SeekIndexAt(entries, target);
      Own();
    }

    method SeekToFirst()
      requires Valid()
      modifies Repr
      ensures Valid() && fresh(Repr - old(Repr)) && Pos() == 0
    {
      it.SeekToFirst();
      Own();
    }

    method SeekToLast()
      requires Valid()
      modifies Repr
      ensures Valid() && fresh(Repr - old(Repr)) && Pos() == if entries == [] then 0 else |entries| - 1
    {
      it.SeekToLast();
      Own();
    }

    method Next()
      requires Valid() && Pos() < |entries|
      modifies Repr
      ensures Valid() && fresh(Repr - old(Repr)) && Pos() == old(Pos()) + 1
    {
      PlaceInside(it);
      it.Next();
      Own();
    }

    method Prev()
      requires Valid() && Pos() < |entries|
      modifies Repr
      ensures Valid() && fresh(Repr - old(Repr)) && Pos() == PrevPos(old(Pos()), |entries|)
    {
      PlaceInside(it);
      it.Prev();
      Own();
    }

    /** The data iterator may be a new one. */
    ghost method Own()
      modifies `Repr
      ensures Repr == old(Repr) + if it.dataIter != null then {it.dataIter} else {}
    {
      Repr := Repr + if it.dataIter != null then {it.dataIter} else {};
    }
  }

  lemma PlaceInside(it: TwoLevelIterator)
    requires it.Valid()
    ensures it.pos <= |it.store.All()| && (it.Positioned() <==> it.pos < |it.store.All()|)
  {
    if it.dataIter != null {
      BeforeStep(it.store, it.dataIndex);
    }
  }
}
