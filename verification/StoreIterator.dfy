/** The iterators over a whole store, from the bytes of its tables up: table, level and memtable iterators under
    one merging iterator, and the user's iterator over it (DBImpl::NewIterator and NewInternalIterator in
    db/db_impl.cc, Version::AddIterators and VersionSet::MakeInputIterator in db/version_set.cc). */
module StoreIterator {
  import opened Options
  import opened DbFormat
  import opened FileLevels
  import opened Version
  import opened Compaction
  import opened CompactionInputs
  import opened Install
  import opened Iterators
  import opened LevelCursor
  import opened MergeInput
  import Db
  import DbIter
  import TableBuilder
  import TableCursor

  type Layouts = seq<TableBuilder.Layout>

  /** The bytes are the tables of the files, one by one. */
  ghost predicate OnDisk(ts: Tables, fs: seq<File>, bytes: seq<Bytes>, layouts: Layouts) {
    ts.Good() && |bytes| == |layouts| == |fs| && forall i :: 0 <= i < |fs| ==> ts.Holds(fs[i], bytes[i], layouts[i])
  }

  ghost predicate VersionOnDisk(ts: Tables, v: Levels, bytes: seq<seq<Bytes>>, layouts: seq<Layouts>) {
    |bytes| == |layouts| == |v| && forall l :: 0 <= l < |v| ==> OnDisk(ts, v[l], bytes[l], layouts[l])
  }

  // ----- lists of children -----

  ghost function Runs(cs: seq<Cursor>): seq<seq<Entry>> {
    seq(|cs|, i requires 0 <= i < |cs| => cs[i].entries)
  }

  ghost function Objects(cs: seq<Cursor>): set<object>
    reads cs
  {
    set c: Cursor, o: object | c in cs && o in c.Repr :: o
  }

  /** Cursors that share no object and together hold `es`, none of it twice. */
  ghost predicate Children(cs: seq<Cursor>, es: set<Entry>)
    reads cs, Objects(cs)
  {
    && (forall i :: 0 <= i < |cs| ==> cs[i].Valid())
    && (forall i, j :: 0 <= i < j < |cs| ==> cs[i].Repr !! cs[j].Repr)
    && RunsOf(Runs(cs), es)
  }

  lemma NoChildren()
    ensures Children([], {})
  {
    assert UnionOf(Runs([])) == {};
  }

  lemma ChildrenTogether(x: seq<Cursor>, y: seq<Cursor>, a: set<Entry>, b: set<Entry>)
    requires Children(x, a) && Children(y, b) && a !! b && Objects(x) !! Objects(y)
    ensures Children(x + y, a + b) && Objects(x + y) == Objects(x) + Objects(y)
  {
    hide RunsOf, Cursor.Valid;
    RunsTogether(Runs(x), Runs(y), a, b);
    assert Runs(x + y) == Runs(x) + Runs(y);
    var cs := x + y;
    forall i, j | 0 <= i < j < |cs| ensures cs[i].Repr !! cs[j].Repr {
      if i < |x| <= j {
        assert cs[i] in x && cs[j] in y;
        assert cs[i].Repr <= Objects(x) && cs[j].Repr <= Objects(y);
      }
    }
  }

  lemma OneChild(c: Cursor, es: set<Entry>)
    requires c.Valid() && RunsOf([c.entries], es)
    ensures Children([c], es) && Objects([c]) == c.Repr
  {
    assert Runs([c]) == [c.entries];
  }

  lemma RunChild(run: seq<Entry>)
    requires SortedEntries(run)
    ensures RunsOf([run], SetOf(run))
  {
    forall e ensures e in UnionOf([run]) <==> e in SetOf(run) {
      assert e in UnionOf([run]) <==> e in [run][0];
    }
  }

  /** A memtable's iterator. */
  method NewRun(run: seq<Entry>) returns (cs: seq<Cursor>)
    requires SortedEntries(run) && KeysFit(run)
    ensures Children(cs, SetOf(run)) && fresh(Objects(cs))
  {
    var c := new Cursor.OfRun(run);
    RunChild(run);
    OneChild(c, SetOf(run));
    cs := [c];
  }

  /** One iterator for each file. */
  method NewTables(ts: Tables, fs: seq<File>, bytes: seq<Bytes>, ghost layouts: Layouts) returns (cs: seq<Cursor>)
    requires OnDisk(ts, fs, bytes, layouts) && RunsOf(EntriesOf(fs), LevelEntries(fs))
    requires forall i :: 0 <= i < |fs| ==> SortedEntries(fs[i].entries) && KeysFit(fs[i].entries)
    ensures Children(cs, LevelEntries(fs)) && fresh(Objects(cs))
  {
    hide Cursor.Valid, Tables.Good, Tables.Holds, SortedEntries, KeysFit, TableCursor.TableCursor.Valid, LevelEntries, RunsOf;
    cs := [];
    for i := 0 to |fs|
      invariant |cs| == i
      invariant forall j :: 0 <= j < i ==> fresh(cs[j].Repr) && cs[j].Valid() && cs[j].entries == fs[j].entries
      invariant forall j, k :: 0 <= j < k < |cs| ==> cs[j].Repr !! cs[k].Repr
    {
      var c := NewTable(ts, bytes[i], fs[i], layouts[i]);
      cs := cs + [c];
    }
    assert Runs(cs) == EntriesOf(fs);
  }

  method NewTable(ts: Tables, bytes: Bytes, ghost f: File, ghost y: TableBuilder.Layout) returns (c: Cursor)
    requires ts.Good() && ts.Holds(f, bytes, y) && SortedEntries(f.entries) && KeysFit(f.entries)
    ensures c.Valid() && fresh(c) && fresh(c.Repr) && c.entries == f.entries
  {
    hide Tables.Good, Tables.Holds, SortedEntries, KeysFit, TableCursor.TableCursor.Valid;
    var t := NewFileIterator(ts, bytes, f, y);
    c := new Cursor.OfTable(t);
  }

  /** The concatenating iterator over the files of a deeper level, if there are any. */
  method NewLevel(ts: Tables, ghost level: nat, ghost all: seq<File>, fs: seq<File>, bytes: seq<Bytes>, ghost layouts: Layouts)
      returns (cs: seq<Cursor>)
    requires level > 0 && ShapedLevel(level, all) && SortedFiles(fs) && (forall f :: f in fs ==> f in all)
    requires OnDisk(ts, fs, bytes, layouts)
    ensures Children(cs, LevelEntries(fs)) && fresh(Objects(cs))
  {
    hide Cursor.Valid, Tables.Good, Tables.Holds, Flatten, LevelCursor.Valid;
    if |fs| == 0 {
      NoChildren();
      return [];
    }
    LevelRun(level, all, fs);
    LevelRunFits(level, all, fs);
    var l := new LevelCursor(ts, fs, bytes, layouts);
    var c := new Cursor.OfLevel(l);
    OneChild(c, LevelEntries(fs));
    cs := [c];
  }

  lemma LevelRunFits(level: nat, all: seq<File>, fs: seq<File>)
    requires level > 0 && ShapedLevel(level, all) && SortedFiles(fs) && forall f :: f in fs ==> f in all
    ensures SortedRun(fs) && SortedEntries(Flatten(fs)) && KeysFit(Flatten(fs))
  {
    ConcatenationSorted(level, all, fs);
    forall e | e in Flatten(fs) ensures e.key.seqno <= MAX_SEQUENCE {
      assert e in SetOf(Flatten(fs));
      var f :| f in fs && e in f.entries;
      assert GoodFile(f);
    }
  }

  lemma FileFits(level: nat, fs: seq<File>, f: File)
    requires ShapedLevel(level, fs) && f in fs
    ensures SortedEntries(f.entries) && KeysFit(f.entries)
  {
    assert GoodFile(f);
  }

  /** Files of one level: level 0 file by file, a deeper level as one run. */
  method NewFiles(ts: Tables, ghost v: Levels, level: nat, fs: seq<File>, bytes: seq<Bytes>, ghost layouts: Layouts)
      returns (cs: seq<Cursor>)
    requires Shaped(v) && level < |v| && SortedFiles(fs) && (forall f :: f in fs ==> f in v[level])
    requires OnDisk(ts, fs, bytes, layouts)
    ensures Children(cs, LevelEntries(fs)) && fresh(Objects(cs))
  {
    hide Children, OnDisk, LevelEntries, RunsOf, KeysFit, SortedEntries;
    assert ShapedLevel(level, v[level]);
    if level == 0 {
      FileRuns(v, fs);
      forall i | 0 <= i < |fs| ensures SortedEntries(fs[i].entries) && KeysFit(fs[i].entries) {
        FileFits(level, v[level], fs[i]);
      }
      cs := NewTables(ts, fs, bytes, layouts);
    } else {
      cs := NewLevel(ts, level, v[level], fs, bytes, layouts);
    }
  }

  // ----- the iterator over a store -----

  lemma LevelAdded(v: Levels, l: nat)
    requires Shaped(v) && l < |v|
    ensures VersionEntries(v[..l + 1]) == VersionEntries(v[..l]) + LevelEntries(v[l])
    ensures VersionEntries(v[..l]) !! LevelEntries(v[l])
  {
    forall e ensures e in VersionEntries(v[..l + 1]) <==> e in VersionEntries(v[..l]) || e in LevelEntries(v[l]) {
      if e in VersionEntries(v[..l]) {
        var m, f :| 0 <= m < l && f in v[..l][m] && e in f.entries;
        assert f in v[..l + 1][m];
      }
      if e in LevelEntries(v[l]) {
        assert v[..l + 1][l] == v[l];
      }
    }
    forall e | e in VersionEntries(v[..l]) && e in LevelEntries(v[l]) ensures false {
      var m, f :| 0 <= m < l && f in v[..l][m] && e in f.entries;
      var g :| g in v[l] && e in g.entries;
      OnePlace(v, m, f, e, l, g, e);
    }
  }

  lemma NoLevels(v: Levels)
    ensures VersionEntries(v[..0]) == {}
  {
  }

  /** The files of level 0 one by one, each other level as one run. */
  method AddIterators(ts: Tables, v: Levels, bytes: seq<seq<Bytes>>, ghost layouts: seq<Layouts>) returns (cs: seq<Cursor>)
    requires Shaped(v) && VersionOnDisk(ts, v, bytes, layouts)
    ensures Children(cs, VersionEntries(v)) && fresh(Objects(cs))
  {
    hide Children, OnDisk, VersionEntries, LevelEntries, RunsOf, KeysFit;
    NoChildren();
    NoLevels(v);
    cs := [];
    for l := 0 to |v|
      invariant Children(cs, VersionEntries(v[..l])) && fresh(Objects(cs))
    {
      assert ShapedLevel(l, v[l]);
      var more := NewFiles(ts, v, l, v[l], bytes[l], layouts[l]);
      LevelAdded(v, l);
      ChildrenTogether(cs, more, VersionEntries(v[..l]), LevelEntries(v[l]));
      cs := cs + more;
    }
    assert v[..|v|] == v;
  }

  /** One merging iterator over all children. */
  method NewMergingIterator(cs: seq<Cursor>, ghost es: set<Entry>) returns (iter: MergingIterator)
    requires Children(cs, es) && UniqueSeqnos(es)
    ensures iter.Valid() && fresh(iter.Repr - Objects(cs)) && SetOf(iter.merged) == es
  {
    hide Cursor.Valid, UniqueSeqnos;
    ghost var merged := SortedListing(es);
    ChildRuns(cs, es, merged);
    iter := new MergingIterator(cs, merged);
  }

  lemma ChildRuns(cs: seq<Cursor>, es: set<Entry>, merged: seq<Entry>)
    requires Children(cs, es) && SortedEntries(merged) && SetOf(merged) == es
    ensures forall i :: 0 <= i < |cs| ==> SubRun(cs[i].entries, merged)
    ensures forall e :: e in merged ==> exists i :: 0 <= i < |cs| && e in cs[i].entries
    ensures forall i, j, e :: 0 <= i < j < |cs| && e in cs[i].entries ==> e !in cs[j].entries
  {
    var runs := Runs(cs);
    forall i | 0 <= i < |cs| ensures SubRun(cs[i].entries, merged) {
      assert SortedEntries(runs[i]);
      forall e | e in cs[i].entries ensures e in merged {
        assert e in runs[i] && e in UnionOf(runs);
      }
    }
    forall e | e in merged ensures exists i :: 0 <= i < |cs| && e in cs[i].entries {
      assert e in UnionOf(runs);
      var i :| 0 <= i < |runs| && e in runs[i];
      assert e in cs[i].entries;
    }
    forall i, j, e | 0 <= i < j < |cs| && e in cs[i].entries ensures e !in cs[j].entries {
      assert e in runs[i] && e !in runs[j];
    }
  }

  method NewMemTables(db: Db.DBImpl) returns (cs: seq<Cursor>)
    requires db.Valid()
    ensures Children(cs, SetOf(db.mem) + db.ImmEntries()) && fresh(Objects(cs))
  {
    hide Children, RunsOf, KeysFit, SortedEntries, VersionEntries;
    StoreApart(db);
    cs := NewRun(db.mem);
    if db.imm.Some? {
      var imm := NewRun(db.imm.value);
      ChildrenTogether(cs, imm, SetOf(db.mem), SetOf(db.imm.value));
      cs := cs + imm;
    } else {
      assert SetOf(db.mem) + db.ImmEntries() == SetOf(db.mem);
    }
  }

  /** Everything in the memtables and the files, in key order. */
  method NewInternalIterator(db: Db.DBImpl, ts: Tables, bytes: seq<seq<Bytes>>, ghost layouts: seq<Layouts>)
      returns (iter: MergingIterator)
    requires db.Valid() && VersionOnDisk(ts, db.current, bytes, layouts)
    ensures iter.Valid() && fresh(iter.Repr) && SetOf(iter.merged) == db.Store()
  {
    hide Children, VersionOnDisk, VersionEntries, RunsOf, KeysFit, SetOf, UniqueSeqnos, Shaped, SortedEntries;
    StoreApart(db);
    var cs := NewMemTables(db);
    var files := AddIterators(ts, db.current, bytes, layouts);
    ChildrenTogether(cs, files, SetOf(db.mem) + db.ImmEntries(), VersionEntries(db.current));
    assert SetOf(db.mem) + db.ImmEntries() + VersionEntries(db.current) == db.Store();
    iter := NewMergingIterator(cs + files, db.Store());
  }

  lemma StoreApart(db: Db.DBImpl)
    requires db.Valid()
    ensures SortedEntries(db.mem) && KeysFit(db.mem)
    ensures db.imm.Some? ==> SortedEntries(db.imm.value) && KeysFit(db.imm.value)
    ensures Shaped(db.current) && UniqueSeqnos(db.Store())
    ensures db.ImmEntries() !! VersionEntries(db.current) && SetOf(db.mem) !! db.ImmEntries() + VersionEntries(db.current)
  {
    assert forall e :: e in db.mem ==> e in SetOf(db.mem);
    assert db.imm.Some? ==> forall e :: e in db.imm.value ==> e in db.ImmEntries();
  }

  /** The user's iterator, from table bytes and memtables up, is one cursor on what the store shows at the snapshot:
      its map is what reads return. */
  method NewIterator(db: Db.DBImpl, ts: Tables, bytes: seq<seq<Bytes>>, ghost layouts: seq<Layouts>, snapshot: Option<nat>)
      returns (iter: DbIter.DBIter)
    requires db.Valid() && VersionOnDisk(ts, db.current, bytes, layouts)
    requires snapshot.Some? ==> snapshot.value <= db.lastSequence
    ensures iter.Valid() && fresh(iter) && fresh(iter.iter.Repr) && !iter.valid
    ensures iter.sequence == if snapshot.Some? then snapshot.value else db.lastSequence
    ensures forall u :: iter.Map(u) == Read(db.Store(), u, iter.sequence)
    ensures db.Faithful() && iter.sequence >= db.floor ==> forall u :: iter.Map(u) == Read(db.history, u, iter.sequence)
  {
    hide VersionOnDisk, MergingIterator.Valid, Read, VersionEntries;
    var internal := NewInternalIterator(db, ts, bytes, layouts);
    iter := new DbIter.DBIter(internal, if snapshot.Some? then snapshot.value else db.lastSequence);
  }

  // ----- the input of a compaction -----

  /** The inputs of a compaction, read from their bytes, give every input entry once and in key order. */
  method MakeInputIterator(ts: Tables, ghost v: Levels, level: nat, i0: seq<File>, i1: seq<File>, bytes0: seq<Bytes>, bytes1: seq<Bytes>,
                           ghost layouts0: Layouts, ghost layouts1: Layouts, ghost a: InternalKey, ghost b: InternalKey)
      returns (iter: MergingIterator)
    requires Shaped(v) && GoodInputs(v, level, i0, i1, a, b)
    requires OnDisk(ts, i0, bytes0, layouts0) && OnDisk(ts, i1, bytes1, layouts1)
    ensures iter.Valid() && fresh(iter.Repr) && SetOf(iter.merged) == InputEntries(i0, i1)
  {
    hide Children, OnDisk, LevelEntries, RunsOf, KeysFit, Shaped, SortedEntries, UniqueSeqnos;
    InputsUnique(v, level, i0, i1, a, b);
    InputsApart(v, level, i0, i1, a, b);
    var upper := NewFiles(ts, v, level, i0, bytes0, layouts0);
    var lower := NewFiles(ts, v, level + 1, i1, bytes1, layouts1);
    ChildrenTogether(upper, lower, LevelEntries(i0), LevelEntries(i1));
    iter := NewMergingIterator(upper + lower, InputEntries(i0, i1));
  }

  /** What a compaction reads from the bytes is the sequence that it reads from the entries. */
  method ReadInputs(ts: Tables, v: Levels, level: nat, i0: seq<File>, i1: seq<File>, bytes0: seq<Bytes>, bytes1: seq<Bytes>,
                    ghost layouts0: Layouts, ghost layouts1: Layouts, ghost a: InternalKey, ghost b: InternalKey)
      returns (input: seq<Entry>)
    requires Shaped(v) && GoodInputs(v, level, i0, i1, a, b)
    requires OnDisk(ts, i0, bytes0, layouts0) && OnDisk(ts, i1, bytes1, layouts1)
    ensures forall r :: SortedEntries(r) && SetOf(r) == InputEntries(i0, i1) ==> r == input
    ensures SortedEntries(input) && SetOf(input) == InputEntries(i0, i1)
  {
    hide MergingIterator.Valid, OnDisk, InputEntries, Shaped, GoodInputs, SortedEntries, SetOf;
    var iter := MakeInputIterator(ts, v, level, i0, i1, bytes0, bytes1, layouts0, layouts1, a, b);
    input := ReadAll(iter);
    forall r | SortedEntries(r) && SetOf(r) == SetOf(input) ensures r == input {
      SortedSame(r, input);
    }
  }
}
