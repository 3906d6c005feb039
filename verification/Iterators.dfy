/** Iterators: a cursor on one sorted run, and the merging iterator, which behaves as one
    cursor on the sorted union of its children (table/merger.cc). */
module Iterators {
  import opened Options
  import opened DbFormat
  import opened Compaction
  import opened LevelCursor
  import opened TableCursor

  ghost predicate KeysFit(es: seq<Entry>) {
    forall e :: e in es ==> e.key.seqno <= MAX_SEQUENCE
  }

  /** A cursor on a sorted run: one in memory, the bytes of a table, or the tables of a level. */
  class Cursor {
    const run: seq<Entry>
    const table: TableCursor?
    const level: LevelCursor?
    var at: nat             // the place in a run in memory
    ghost const entries: seq<Entry>
    ghost var pos: nat      // |entries| when not positioned
    ghost var Repr: set<object>

    ghost predicate OnTable()
      requires table != null
      reads this, Repr
    {
      && table in Repr && table.Repr <= Repr && this !in table.Repr
      && table.Valid() && table.entries == entries && table.Pos() == pos
    }

    ghost predicate OnLevel()
      requires level != null
      reads this, Repr
    {
      && level in Repr && level.Repr <= Repr && this !in level.Repr
      && level.Valid() && Flatten(level.files) == entries && level.pos == pos
    }

    ghost predicate Valid()
      reads this, Repr
      ensures Valid() ==> this in Repr
    {
      && this in Repr && SortedEntries(entries) && KeysFit(entries) && pos <= |entries|
      && if table != null then OnTable() else if level != null then OnLevel() else run == entries && at == pos
    }

    constructor OfRun(run: seq<Entry>)
      requires SortedEntries(run) && KeysFit(run)
      ensures Valid() && fresh(Repr) && entries == run && pos == |run|
    {
      this.run, table, level, at := run, null, null, |run|;
      entries, pos, Repr := run, |run|, {this};
    }

    constructor OfTable(table: TableCursor)
      requires table.Valid() && SortedEntries(table.entries) && KeysFit(table.entries) && table.Pos() == |table.entries|
      ensures Valid() && Repr == {this} + table.Repr && entries == table.entries && pos == |entries|
    {
      run, this.table, level, at := [], table, null, 0;
      entries, pos, Repr := table.entries, |table.entries|, {this} + table.Repr;
    }

    constructor OfLevel(level: LevelCursor)
      requires level.Valid() && SortedEntries(Flatten(level.files)) && KeysFit(Flatten(level.files))
      requires level.pos == |Flatten(level.files)|
      ensures Valid() && Repr == {this} + level.Repr && entries == Flatten(level.files) && pos == |entries|
    {
      run, table, this.level, at := [], null, level, 0;
      entries, pos, Repr := Flatten(level.files), |Flatten(level.files)|, {this} + level.Repr;
    }

    predicate Positioned()
      requires Valid()
      reads this, Repr
      ensures Positioned() <==> pos < |entries|
    {
      if table != null then table.Positioned() else if level != null then level.Positioned() else at < |run|
    }

    method Current() returns (e: Entry)
      requires Valid() && pos < |entries|
      ensures e == entries[pos]
    {
      if table != null {
        e := table.Current();
      } else if level != null {
        e := level.Current();
      } else {
        e := run[at];
      }
    }

    method Seek(target: InternalKey)
      requires Valid() && target.seqno <= MAX_SEQUENCE
      modifies Repr
      ensures Valid() && fresh(Repr - old(Repr)) && AtSeek(entries, pos, target)
    {
      hide TableCursor.Valid, LevelCursor.Valid, Flatten, SortedEntries, KeysFit;
      SeekIndexAt(entries, target);
      if table != null {
        table.Seek(target);
        pos, Repr := table.Pos(), Repr + table.Repr;
      } else if level != null {
        level.Seek(target);
        pos, Repr := level.pos, Repr + level.Repr;
      } else {
        at := SeekIndex(run, target);
        pos := at;
      }
    }

    method SeekToFirst()
      requires Valid()
      modifies Repr
      ensures Valid() && fresh(Repr - old(Repr)) && pos == 0
    {
      hide TableCursor.Valid, LevelCursor.Valid, Flatten, SortedEntries, KeysFit;
      if table != null {
        table.SeekToFirst();
        Repr := Repr + table.Repr;
      } else if level != null {
        level.SeekToFirst();
        Repr := Repr + level.Repr;
      } else {
        at := 0;
      }
      pos := 0;
    }

    method SeekToLast()
      requires Valid()
      modifies Repr
      ensures Valid() && fresh(Repr - old(Repr)) && pos == if entries == [] then 0 else |entries| - 1
    {
      hide TableCursor.Valid, LevelCursor.Valid, Flatten, SortedEntries, KeysFit;
      if table != null {
        table.SeekToLast();
        Repr := Repr + table.Repr;
      } else if level != null {
        level.SeekToLast();
        Repr := Repr + level.Repr;
      } else {
        at := if |run| == 0 then 0 else |run| - 1;
      }
      pos := if entries == [] then 0 else |entries| - 1;
    }

    method Next()
      requires Valid() && pos < |entries|
      modifies Repr
      ensures Valid() && fresh(Repr - old(Repr)) && pos == old(pos) + 1
    {
      hide TableCursor.Valid, LevelCursor.Valid, Flatten, SortedEntries, KeysFit;
      if table != null {
        table.Next();
        Repr := Repr + table.Repr;
      } else if level != null {
        level.Next();
        Repr := Repr + level.Repr;
      } else {
        at := at + 1;
      }
      pos := pos + 1;
    }

    method Prev()
      requires Valid() && pos < |entries|
      modifies Repr
      ensures Valid() && fresh(Repr - old(Repr)) && pos == PrevPos(old(pos), |entries|)
    {
      hide TableCursor.Valid, LevelCursor.Valid, Flatten, SortedEntries, KeysFit;
      if table != null {
        table.Prev();
        Repr := Repr + table.Repr;
      } else if level != null {
        level.Prev();
        Repr := Repr + level.Repr;
      } else {
        at := if at == 0 then |run| else at - 1;
      }
      pos := PrevPos(pos, |entries|);
    }
  }

  // ----- positions of a child relative to a position of the merged run -----

  ghost predicate SubRun(es: seq<Entry>, merged: seq<Entry>) {
    SortedEntries(es) && SortedEntries(merged) && forall e :: e in es ==> e in merged
  }

  /** The child is at its first entry that is not before merged index `p`. */
  ghost predicate AtIndex(es: seq<Entry>, pos: nat, merged: seq<Entry>, p: nat)
    requires p <= |merged|
  {
    if p < |merged| then AtSeek(es, pos, merged[p].key) else pos == |es|
  }

  /** The child is at its last entry before merged index `p`, or past its end. */
  ghost predicate BehindIndex(es: seq<Entry>, pos: nat, merged: seq<Entry>, p: nat)
    requires p <= |merged|
  {
    && pos <= |es|
    && (if pos < |es| then AtIndex(es, pos + 1, merged, p) else AtIndex(es, 0, merged, p))
  }

  lemma SameKeySameEntry(merged: seq<Entry>, i: nat, j: nat)
    requires SortedEntries(merged) && i < |merged| && j < |merged|
    ensures Less(merged[i].key, merged[j].key) <==> i < j
  {
    assert i < j ==> Precedes(merged[i], merged[j]);
    assert j < i ==> Precedes(merged[j], merged[i]);
  }

  /** One step of the merged position moves a child only if it holds the entry stepped over. */
  lemma StepOver(es: seq<Entry>, pos: nat, merged: seq<Entry>, p: nat)
    requires SubRun(es, merged) && p < |merged| && AtIndex(es, pos, merged, p)
    ensures pos < |es| && es[pos] == merged[p] ==> AtIndex(es, pos + 1, merged, p + 1)
    ensures merged[p] !in es ==> AtIndex(es, pos, merged, p + 1)
  {
    forall i | 0 <= i < |es| ensures exists q :: 0 <= q < |merged| && es[i] == merged[q] {
      assert es[i] in merged;
    }
    forall i | 0 <= i < |es|
      ensures i < pos ==> p + 1 < |merged| ==> Less(es[i].key, merged[p + 1].key)
      ensures i >= pos && es[i] != merged[p] ==> p + 1 < |merged| && LessEq(merged[p + 1].key, es[i].key)
      ensures i > pos && es[pos] == merged[p] ==> es[i] != merged[p]
      ensures es[i] == merged[p] && p + 1 < |merged| ==> Less(es[i].key, merged[p + 1].key)
    {
      var q :| 0 <= q < |merged| && es[i] == merged[q];
      SameKeySameEntry(merged, p, q);
      SameKeySameEntry(merged, q, p);
      if p + 1 < |merged| {
        SameKeySameEntry(merged, q, p + 1);
      }
      assert i > pos ==> Precedes(es[pos], es[i]);
    }
    assert pos + 1 < |es| && es[pos] == merged[p] ==> es[pos + 1] != merged[p];
  }

  /** A child with the same entries before `p` and before `p + 1` is behind both. */
  lemma StepBack(es: seq<Entry>, pos: nat, merged: seq<Entry>, p: nat)
    requires SubRun(es, merged) && p < |merged| && BehindIndex(es, pos, merged, p + 1)
    ensures pos < |es| && es[pos] == merged[p] ==> BehindIndex(es, PrevPos(pos, |es|), merged, p)
    ensures merged[p] !in es ==> BehindIndex(es, pos, merged, p)
  {
    forall i | 0 <= i < |es|
      ensures Less(es[i].key, merged[p].key) || LessEq(merged[p].key, es[i].key)
      ensures p + 1 < |merged| && Less(es[i].key, merged[p + 1].key) && es[i] != merged[p] ==> Less(es[i].key, merged[p].key)
      ensures p + 1 == |merged| && es[i] != merged[p] ==> Less(es[i].key, merged[p].key)
      ensures p + 1 < |merged| && LessEq(merged[p + 1].key, es[i].key) ==> LessEq(merged[p].key, es[i].key)
      ensures pos < |es| && es[pos] == merged[p] && i < pos ==> Less(es[i].key, merged[p].key)
      ensures pos < |es| && es[pos] == merged[p] && i >= pos ==> LessEq(merged[p].key, es[i].key)
    {
      assert es[i] in merged;
      var q :| 0 <= q < |merged| && es[i] == merged[q];
      SameKeySameEntry(merged, q, p);
      if p + 1 < |merged| {
        SameKeySameEntry(merged, q, p + 1);
      }
      assert pos < |es| && i > pos ==> Precedes(es[pos], es[i]);
      assert pos < |es| && i < pos ==> Precedes(es[i], es[pos]);
    }
  }

  datatype Direction = Forward | Reverse

  datatype Aspect = Contents | Objects | Place

  class MergingIterator {
    const children: seq<Cursor>
    var current: Option<nat>
    var direction: Direction
    ghost const merged: seq<Entry>  // the sorted union of the children
    ghost var pos: nat              // the position in it
    ghost var Repr: set<object>

    /** The children hold `merged` between them, each entry in one child. */
    ghost predicate Parts() {
      && (forall i :: 0 <= i < |children| ==> SubRun(children[i].entries, merged))
      && (forall e :: e in merged ==> exists i :: 0 <= i < |children| && e in children[i].entries)
      && (forall i, j, e :: 0 <= i < j < |children| && e in children[i].entries ==> e !in children[j].entries)
      && SortedEntries(merged)
    }

    /** The children share no object. */
    ghost predicate Whole()
      reads this, Repr
    {
      && this in Repr
      && (forall i :: 0 <= i < |children| ==> children[i] in Repr)
      && (forall i :: 0 <= i < |children| ==> children[i].Repr <= Repr && this !in children[i].Repr && children[i].Valid())
      && forall i, j :: 0 <= i < j < |children| ==> children[i].Repr !! children[j].Repr
    }

    ghost predicate CurrentIs(c: nat)
      reads this, children
    {
      && c < |children| && pos < |merged| && children[c].pos < |children[c].entries|
      && children[c].entries[children[c].pos] == merged[pos]
    }

    ghost predicate OthersAt(c: nat)
      requires pos <= |merged|
      reads this, children
    {
      forall i :: 0 <= i < |children| && i != c ==> AtIndex(children[i].entries, children[i].pos, merged, pos)
    }

    ghost predicate OthersBehind(c: nat)
      requires pos <= |merged|
      reads this, children
    {
      forall i :: 0 <= i < |children| && i != c ==> BehindIndex(children[i].entries, children[i].pos, merged, pos)
    }

    /** The current child is on the entry of the position, and the others are where the direction wants them. */
    ghost predicate Placed()
      reads this, children
    {
      && pos <= |merged| && (current.None? <==> pos == |merged|)
      && (current.Some? ==>
            CurrentIs(current.value) && if direction == Forward then OthersAt(current.value) else OthersBehind(current.value))
    }

    ghost predicate Keeps(aspect: Aspect)
      reads this, children, Repr
    {
      match aspect
      case Contents => Parts()
      case Objects => Whole()
      case Place => Placed()
    }

    ghost predicate Valid()
      reads this, Repr
      ensures Valid() ==> this in Repr && pos <= |merged| && SortedEntries(merged)
    {
      && this in Repr && (forall c :: c in children ==> c in Repr)
      && pos <= |merged| && SortedEntries(merged)
      && forall aspect {:trigger Keeps(aspect)} :: Keeps(aspect)
    }

    lemma Unpack()
      requires Valid()
      ensures Parts() && Whole() && Placed()
    {
      assert Keeps(Contents) && Keeps(Objects) && Keeps(Place);
    }

    lemma Pack()
      requires Parts() && Whole() && Placed()
      ensures Valid()
    {
      forall aspect ensures Keeps(aspect) {
        match aspect
        case _ =>
      }
    }

    constructor (children: seq<Cursor>, ghost merged: seq<Entry>)
      requires forall i :: 0 <= i < |children| ==> SubRun(children[i].entries, merged) && children[i].Valid()
      requires forall e :: e in merged ==> exists i :: 0 <= i < |children| && e in children[i].entries
      requires forall i, j, e :: 0 <= i < j < |children| && e in children[i].entries ==> e !in children[j].entries
      requires forall i, j :: 0 <= i < j < |children| ==> children[i].Repr !! children[j].Repr
      requires SortedEntries(merged)
      ensures Valid() && this.merged == merged && this.children == children && pos == |merged|
      ensures Repr == {this} + set c: Cursor, o: object | c in children && o in c.Repr :: o
    {
      hide Cursor.Valid, SubRun;
      this.children, this.merged := children, merged;
      current, direction := None, Forward;
      pos := |merged|;
      Repr := {this} + set c: Cursor, o: object | c in children && o in c.Repr :: o;
      new;
      forall i | 0 <= i < |children| ensures children[i].Repr <= Repr && children[i] in Repr {
        assert children[i] in children;
      }
      Pack();
    }

    predicate Positioned()
      requires Valid()
      reads this, Repr
      ensures pos <= |merged| && (Positioned() <==> pos < |merged|)
    {
      Unpack();
      current.Some?
    }

    method Current() returns (e: Entry)
      requires Valid() && pos < |merged|
      ensures e == merged[pos]
    {
      Unpack();
      e := children[current.value].Current();
    }

    // ----- moving one child -----

    method SeekChild(i: nat, k: InternalKey)
      requires Whole() && i < |children| && k.seqno <= MAX_SEQUENCE
      modifies children[i].Repr, `Repr
      ensures Whole() && fresh(Repr - old(Repr)) && AtSeek(children[i].entries, children[i].pos, k)
      ensures forall j :: 0 <= j < |children| && j != i ==> children[j].pos == old(children[j].pos) && children[j].Repr == old(children[j].Repr)
      ensures fresh(children[i].Repr - old(children[i].Repr))
    {
      hide Cursor.Valid, AtSeek;
      children[i].Seek(k);
      Repr := Repr + children[i].Repr;
    }

    method FirstOf(i: nat)
      requires Whole() && i < |children|
      modifies children[i].Repr, `Repr
      ensures Whole() && fresh(Repr - old(Repr)) && children[i].pos == 0
      ensures forall j :: 0 <= j < |children| && j != i ==> children[j].pos == old(children[j].pos) && children[j].Repr == old(children[j].Repr)
      ensures fresh(children[i].Repr - old(children[i].Repr))
    {
      hide Cursor.Valid;
      children[i].SeekToFirst();
      Repr := Repr + children[i].Repr;
    }

    method LastOf(i: nat)
      requires Whole() && i < |children|
      modifies children[i].Repr, `Repr
      ensures Whole() && fresh(Repr - old(Repr))
      ensures children[i].pos == if children[i].entries == [] then 0 else |children[i].entries| - 1
      ensures forall j :: 0 <= j < |children| && j != i ==> children[j].pos == old(children[j].pos) && children[j].Repr == old(children[j].Repr)
      ensures fresh(children[i].Repr - old(children[i].Repr))
    {
      hide Cursor.Valid;
      children[i].SeekToLast();
      Repr := Repr + children[i].Repr;
    }

    method NextOf(i: nat)
      requires Whole() && i < |children| && children[i].pos < |children[i].entries|
      modifies children[i].Repr, `Repr
      ensures Whole() && fresh(Repr - old(Repr)) && children[i].pos == old(children[i].pos) + 1
      ensures forall j :: 0 <= j < |children| && j != i ==> children[j].pos == old(children[j].pos) && children[j].Repr == old(children[j].Repr)
      ensures fresh(children[i].Repr - old(children[i].Repr))
    {
      hide Cursor.Valid;
      children[i].Next();
      Repr := Repr + children[i].Repr;
    }

    method PrevOf(i: nat)
      requires Whole() && i < |children| && children[i].pos < |children[i].entries|
      modifies children[i].Repr, `Repr
      ensures Whole() && fresh(Repr - old(Repr)) && children[i].pos == PrevPos(old(children[i].pos), |children[i].entries|)
      ensures forall j :: 0 <= j < |children| && j != i ==> children[j].pos == old(children[j].pos) && children[j].Repr == old(children[j].Repr)
      ensures fresh(children[i].Repr - old(children[i].Repr))
    {
      hide Cursor.Valid;
      children[i].Prev();
      Repr := Repr + children[i].Repr;
    }

    // ----- the smallest and the largest child -----

    ghost predicate AllAt(p: nat)
      requires p <= |merged|
      reads children
    {
      forall i :: 0 <= i < |children| ==> AtIndex(children[i].entries, children[i].pos, merged, p)
    }

    ghost predicate AllBehind(p: nat)
      requires p <= |merged|
      reads children
    {
      forall i :: 0 <= i < |children| ==> BehindIndex(children[i].entries, children[i].pos, merged, p)
    }

    ghost predicate On(i: nat)
      requires i < |children|
      reads children
    {
      children[i].pos < |children[i].entries|
    }

    ghost function KeyAt(i: nat): InternalKey
      requires i < |children| && On(i)
      reads children
    {
      children[i].entries[children[i].pos].key
    }

    /** `c` is the first of the children before `n` with the least key, if any is positioned. */
    ghost predicate LeastOf(c: Option<nat>, n: nat)
      requires n <= |children|
      reads children
    {
      if c.None? then forall j :: 0 <= j < n ==> !On(j)
      else c.value < |children| && On(c.value) && forall j :: 0 <= j < n && On(j) ==> LessEq(KeyAt(c.value), KeyAt(j))
    }

    ghost predicate GreatestOf(c: Option<nat>, n: nat)
      requires n <= |children|
      reads children
    {
      if c.None? then forall j :: n <= j < |children| ==> !On(j)
      else c.value < |children| && On(c.value) && forall j :: n <= j < |children| && On(j) ==> LessEq(KeyAt(j), KeyAt(c.value))
    }

    /** The first child with the least key. */
    method LeastChild() returns (smallest: Option<nat>)
      requires Whole()
      ensures LeastOf(smallest, |children|)
    {
      hide Cursor.Valid;
      smallest := None;
      for i := 0 to |children|
        invariant LeastOf(smallest, i)
      {
        if children[i].Positioned() {
          if smallest.None? {
            smallest := Some(i);
          } else {
            var a := children[i].Current();
            var b := children[smallest.value].Current();
            if Less(a.key, b.key) {
              smallest := Some(i);
            }
          }
        }
      }
    }

    method FindSmallest(ghost p: nat)
      requires Parts() && Whole() && p <= |merged| && AllAt(p)
      modifies `current, `pos
      ensures Parts() && Whole() && pos == p && AllAt(p)
      ensures current.None? <==> p == |merged|
      ensures current.Some? ==> CurrentIs(current.value)
    {
      hide Cursor.Valid, AtIndex, Parts;
      var smallest := LeastChild();
      SmallestIs(p, smallest);
      current, pos := smallest, p;
    }

    lemma SmallestIs(p: nat, c: Option<nat>)
      requires Parts() && p <= |merged| && AllAt(p) && LeastOf(c, |children|)
      ensures c.None? <==> p == |merged|
      ensures c.Some? ==> On(c.value) && children[c.value].entries[children[c.value].pos] == merged[p]
    {
      if p < |merged| {
        var e := merged[p];
        assert e in merged;
        var d :| 0 <= d < |children| && e in children[d].entries;
        AtReaches(p, d);
        SmallestIsAt(p, c.value);
      } else {
        forall i | 0 <= i < |children| ensures !On(i) {
          assert AtIndex(children[i].entries, children[i].pos, merged, p);
        }
      }
    }

    lemma AtReaches(p: nat, c: nat)
      requires Parts() && p < |merged| && AllAt(p) && c < |children| && merged[p] in children[c].entries
      ensures On(c) && LessEq(KeyAt(c), merged[p].key)
    {
      var es, at := children[c].entries, children[c].pos;
      var k :| 0 <= k < |es| && es[k] == merged[p];
      assert AtIndex(es, at, merged, p);
      assert at < k ==> Precedes(es[at], es[k]);
    }

    lemma SmallestIsAt(p: nat, c: nat)
      requires Parts() && p < |merged| && AllAt(p)
      requires c < |children| && On(c) && LessEq(KeyAt(c), merged[p].key)
      ensures children[c].entries[children[c].pos] == merged[p]
    {
      var e := children[c].entries[children[c].pos];
      assert AtIndex(children[c].entries, children[c].pos, merged, p);
      assert e in merged;
      var q :| 0 <= q < |merged| && merged[q] == e;
      SameKeySameEntry(merged, q, p);
      SameKeySameEntry(merged, p, q);
    }

    /** The last child with the greatest key. */
    method GreatestChild() returns (largest: Option<nat>)
      requires Whole()
      ensures GreatestOf(largest, 0)
    {
      hide Cursor.Valid;
      largest := None;
      for i := |children| downto 0
        invariant GreatestOf(largest, i)
      {
        if children[i].Positioned() {
          if largest.None? {
            largest := Some(i);
          } else {
            var a := children[largest.value].Current();
            var b := children[i].Current();
            if Less(a.key, b.key) {
              largest := Some(i);
            }
          }
        }
      }
    }

    method FindLargest(ghost p: nat)
      requires Parts() && Whole() && p <= |merged| && AllBehind(p)
      modifies `current, `pos
      ensures Parts() && Whole() && pos == PrevPos(p, |merged|)
      ensures current.None? <==> p == 0
      ensures current.Some? ==> CurrentIs(current.value) && OthersBehind(current.value)
    {
      hide Cursor.Valid, BehindIndex, Parts;
      var largest := GreatestChild();
      LargestIs(p, largest);
      current, pos := largest, PrevPos(p, |merged|);
      NonCurrentBehind();
    }

    lemma LargestIs(p: nat, c: Option<nat>)
      requires Parts() && p <= |merged| && AllBehind(p) && GreatestOf(c, 0)
      ensures c.None? <==> p == 0
      ensures c.Some? ==> On(c.value) && children[c.value].entries[children[c.value].pos] == merged[p - 1]
    {
      if p > 0 {
        var d := SomeChildBehind(p);
        LargestIsAt(p, c.value);
      } else {
        forall i | 0 <= i < |children| ensures !On(i) {
          NothingBehindFirst(i);
        }
      }
    }

    lemma SomeChildBehind(p: nat) returns (c: nat)
      requires Parts() && 0 < p <= |merged| && AllBehind(p)
      ensures c < |children| && On(c) && LessEq(merged[p - 1].key, KeyAt(c))
    {
      var e := merged[p - 1];
      assert e in merged;
      c :| 0 <= c < |children| && e in children[c].entries;
      BehindReaches(p, c);
    }

    lemma BehindReaches(p: nat, c: nat)
      requires Parts() && 0 < p <= |merged| && AllBehind(p) && c < |children| && merged[p - 1] in children[c].entries
      ensures On(c) && LessEq(merged[p - 1].key, KeyAt(c))
    {
      var es, at := children[c].entries, children[c].pos;
      var k :| 0 <= k < |es| && es[k] == merged[p - 1];
      assert BehindIndex(es, at, merged, p);
      if p < |merged| {
        SameKeySameEntry(merged, p - 1, p);
        SameKeySameEntry(merged, p, p - 1);
      }
      assert at < |es| && k < at ==> Precedes(es[k], es[at]);
    }

    lemma LargestIsAt(p: nat, c: nat)
      requires Parts() && 0 < p <= |merged| && AllBehind(p)
      requires c < |children| && On(c) && LessEq(merged[p - 1].key, KeyAt(c))
      ensures children[c].entries[children[c].pos] == merged[p - 1]
    {
      var es, at := children[c].entries, children[c].pos;
      var e := es[at];
      assert BehindIndex(es, at, merged, p);
      assert e in merged;
      var q :| 0 <= q < |merged| && merged[q] == e;
      SameKeySameEntry(merged, q, p - 1);
      if p < |merged| {
        SameKeySameEntry(merged, q, p);
      }
    }

    lemma NothingBehindFirst(i: nat)
      requires Parts() && AllBehind(0) && i < |children|
      ensures !On(i)
    {
      var es, at := children[i].entries, children[i].pos;
      assert BehindIndex(es, at, merged, 0);
      if at < |es| {
        assert es[at] in merged;
        var q :| 0 <= q < |merged| && merged[q] == es[at];
        SameKeySameEntry(merged, q, 0);
      }
    }

    // ----- seeks -----

    method SeekToFirst()
      requires Valid()
      modifies Repr
      ensures Valid() && fresh(Repr - old(Repr)) && pos == 0
    {
      hide Cursor.Valid, Parts, AtIndex;
      Unpack();
      for i := 0 to |children|
        invariant Parts() && Whole() && fresh(Repr - old(Repr))
        invariant forall j :: 0 <= j < i ==> children[j].pos == 0
      {
        FirstOf(i);
      }
      forall i | 0 <= i < |children| ensures AtIndex(children[i].entries, children[i].pos, merged, 0) {
        FirstOfChild(i);
      }
      FindSmallest(0);
      direction := Forward;
      Pack();
    }

    lemma FirstOfChild(i: nat)
      requires Parts() && i < |children|
      ensures AtIndex(children[i].entries, 0, merged, 0)
    {
      var es := children[i].entries;
      forall k | 0 <= k < |es| ensures merged != [] && LessEq(merged[0].key, es[k].key) {
        assert es[k] in merged;
        var q :| 0 <= q < |merged| && merged[q] == es[k];
        SameKeySameEntry(merged, q, 0);
      }
      assert es != [] ==> LessEq(merged[0].key, es[0].key);
    }

    method SeekToLast()
      requires Valid()
      modifies Repr
      ensures Valid() && fresh(Repr - old(Repr)) && pos == PrevPos(|merged|, |merged|)
    {
      hide Cursor.Valid, Parts;
      Unpack();
      for i := 0 to |children|
        invariant Parts() && Whole() && fresh(Repr - old(Repr))
        invariant forall j :: 0 <= j < i ==> BehindIndex(children[j].entries, children[j].pos, merged, |merged|)
      {
        LastOf(i);
      }
      FindLargest(|merged|);
      direction := Reverse;
      Pack();
    }

    /** A child that is not current is behind the current entry as well as behind the next. */
    lemma NonCurrentBehind()
      requires Parts() && pos <= |merged|
      requires current.Some? ==> CurrentIs(current.value) && AllBehind(pos + 1)
      ensures current.Some? ==> OthersBehind(current.value)
    {
      if current.Some? {
        forall i | 0 <= i < |children| && i != current.value ensures BehindIndex(children[i].entries, children[i].pos, merged, pos) {
          OnlyOneHolds(current.value, i, merged[pos]);
          StepBack(children[i].entries, children[i].pos, merged, pos);
        }
      }
    }

    lemma OnlyOneHolds(c: nat, i: nat, e: Entry)
      requires Parts() && c < |children| && i < |children| && i != c && e in children[c].entries
      ensures e !in children[i].entries
    {
    }

    method Seek(target: InternalKey)
      requires Valid() && target.seqno <= MAX_SEQUENCE
      modifies Repr
      ensures Valid() && fresh(Repr - old(Repr)) && AtSeek(merged, pos, target)
    {
      hide Cursor.Valid, AtIndex, AtSeek, SeekIndex, SortedEntries;
      Unpack();
      SeekIndexAt(merged, target);
      ghost var p := SeekIndex(merged, target);
      for i := 0 to |children|
        invariant Parts() && Whole() && fresh(Repr - old(Repr))
        invariant forall j :: 0 <= j < i ==> AtIndex(children[j].entries, children[j].pos, merged, p)
      {
        SeekChild(i, target);
        SeekOfChild(children[i].entries, children[i].pos, target, p);
      }
      FindSmallest(p);
      direction := Forward;
      Pack();
    }

    lemma SeekOfChild(es: seq<Entry>, at: nat, target: InternalKey, p: nat)
      requires SubRun(es, merged) && AtSeek(merged, p, target) && AtSeek(es, at, target)
      ensures AtIndex(es, at, merged, p)
    {
      forall k | 0 <= k < |es|
        ensures k < at ==> p < |merged| ==> Less(es[k].key, merged[p].key)
        ensures k >= at ==> p < |merged| && LessEq(merged[p].key, es[k].key)
      {
        assert es[k] in merged;
        var q :| 0 <= q < |merged| && merged[q] == es[k];
        if p < |merged| {
          SameKeySameEntry(merged, q, p);
        }
      }
      assert at < |es| ==> LessEq(target, es[at].key);
    }

    // ----- turning and stepping -----

    lemma KeyFits(c: nat)
      requires Whole() && c < |children| && On(c)
      ensures KeyAt(c).seqno <= MAX_SEQUENCE
    {
      assert children[c].entries[children[c].pos] in children[c].entries;
    }

    /** Positions every other child after the current entry. */
    method TurnForward()
      requires Valid() && pos < |merged|
      modifies Repr
      ensures Valid() && fresh(Repr - old(Repr)) && direction == Forward && pos == old(pos) && current == old(current)
    {
      hide Cursor.Valid, Parts;
      Unpack();
      var c := current.value;
      for i := 0 to |children|
        invariant Parts() && Whole() && fresh(Repr - old(Repr)) && CurrentIs(c) && pos == old(pos) && current == old(current)
        invariant forall j :: 0 <= j < i && j != c ==> AtIndex(children[j].entries, children[j].pos, merged, pos)
      {
        if i != c {
          KeyFits(c);
          var e := children[c].Current();
          SeekChild(i, e.key);
          if children[i].Positioned() {
            var x := children[i].Current();
            if e.key == x.key {
              // the source steps past the equal key; no two children hold one
              SameKeyInTwo(c, i);
              assert false;
            }
          }
        }
      }
      direction := Forward;
      Pack();
    }

    method Next()
      requires Valid() && pos < |merged|
      modifies Repr
      ensures Valid() && fresh(Repr - old(Repr)) && pos == old(pos) + 1
    {
      hide Cursor.Valid, Parts, AtIndex;
      Unpack();
      var c := current.value;
      if direction != Forward {
        TurnForward();
        Unpack();
      }
      ghost var p := pos;
      AllOver(c);
      NextOf(c);
      FindSmallest(p + 1);
      Pack();
    }

    /** Stepping the current child over its entry steps all of them over it. */
    lemma AllOver(c: nat)
      requires Parts() && Whole() && CurrentIs(c) && OthersAt(c)
      ensures forall i :: 0 <= i < |children| ==>
                AtIndex(children[i].entries, if i == c then children[i].pos + 1 else children[i].pos, merged, pos + 1)
    {
      hide Cursor.Valid, AtIndex, SortedEntries;
      CurrentAt(c);
      forall i | 0 <= i < |children|
        ensures AtIndex(children[i].entries, if i == c then children[i].pos + 1 else children[i].pos, merged, pos + 1)
      {
        if i != c { OnlyOneHolds(c, i, merged[pos]); }
        StepOver(children[i].entries, children[i].pos, merged, pos);
      }
    }

    /** The current child is at its first entry not before the current one. */
    lemma CurrentAt(c: nat)
      requires Parts() && CurrentIs(c)
      ensures AtIndex(children[c].entries, children[c].pos, merged, pos)
    {
      var es, at := children[c].entries, children[c].pos;
      forall k | 0 <= k < |es| ensures k < at ==> Less(es[k].key, es[at].key) ensures k >= at ==> LessEq(es[at].key, es[k].key) {
        SameKeySameEntry(es, k, at);
      }
    }

    lemma CurrentBehind(c: nat)
      requires Parts() && CurrentIs(c)
      ensures BehindIndex(children[c].entries, PrevPos(children[c].pos, |children[c].entries|), merged, pos)
    {
      CurrentAt(c);
    }

    /** Two children never hold the same key. */
    lemma SameKeyInTwo(c: nat, i: nat)
      requires Parts() && CurrentIs(c) && i < |children| && i != c && On(i)
      ensures KeyAt(i) != merged[pos].key
    {
      var e := children[i].entries[children[i].pos];
      assert e in children[i].entries && e in merged;
      assert children[c].entries[children[c].pos] in children[c].entries;
      var q :| 0 <= q < |merged| && merged[q] == e;
      OnlyOneHolds(c, i, merged[pos]);
      SameKeySameEntry(merged, q, pos);
      SameKeySameEntry(merged, pos, q);
    }

    /** Positions every other child before the current entry. */
    method TurnReverse()
      requires Valid() && pos < |merged|
      modifies Repr
      ensures Valid() && fresh(Repr - old(Repr)) && direction == Reverse && pos == old(pos) && current == old(current)
    {
      hide Cursor.Valid, Parts;
      Unpack();
      var c := current.value;
      for i := 0 to |children|
        invariant Parts() && Whole() && fresh(Repr - old(Repr)) && CurrentIs(c) && pos == old(pos) && current == old(current)
        invariant forall j :: 0 <= j < i && j != c ==> BehindIndex(children[j].entries, children[j].pos, merged, pos)
      {
        if i != c {
          TurnChild(c, i);
        }
      }
      direction := Reverse;
      Pack();
    }

    /** A child that is sought to the current key and stepped back, or to its end. */
    method TurnChild(c: nat, i: nat)
      requires Parts() && Whole() && CurrentIs(c) && i < |children| && i != c
      modifies children[i].Repr, `Repr
      ensures Whole() && fresh(Repr - old(Repr)) && BehindIndex(children[i].entries, children[i].pos, merged, pos)
      ensures forall j :: 0 <= j < |children| && j != i ==> children[j].pos == old(children[j].pos) && children[j].Repr == old(children[j].Repr)
      ensures fresh(children[i].Repr - old(children[i].Repr))
    {
      hide Cursor.Valid, Parts;
      KeyFits(c);
      var e := children[c].Current();
      SeekChild(i, e.key);
      if children[i].Positioned() {
        PrevOf(i);
      } else {
        LastOf(i);
      }
    }

    method Prev()
      requires Valid() && pos < |merged|
      modifies Repr
      ensures Valid() && fresh(Repr - old(Repr)) && pos == PrevPos(old(pos), |merged|)
    {
      hide Cursor.Valid, Parts, BehindIndex;
      Unpack();
      var c := current.value;
      if direction != Reverse {
        TurnReverse();
        Unpack();
      }
      CurrentBehind(c);
      ghost var p := pos;
      PrevOf(c);
      FindLargest(p);
      Pack();
    }
  }
}
