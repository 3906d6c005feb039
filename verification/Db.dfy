/** The store as its users see it: whatever is flushed, moved or merged, a read at a live
    snapshot returns what the history of writes says (db/db_impl.cc). */
module Db {
  import opened Options
  import opened DbFormat
  import opened FileLevels
  import opened Version
  import opened CompactionInputs
  import opened Compaction
  import opened Install
  import opened CompactionReads
  import opened MergeInput
  import opened Builder
  import opened VersionSet

  // ----- memtable -----

  /** Inserts an entry newer than those of its key, keeping key order. */
  method MemTableAdd(mem: seq<Entry>, e: Entry) returns (r: seq<Entry>)
    requires SortedEntries(mem) && forall x :: x in mem ==> x.key.seqno < e.key.seqno
    ensures SortedEntries(r) && SetOf(r) == SetOf(mem) + {e}
  {
    var k := 0;
    while k < |mem| && Precedes(mem[k], e)
      invariant 0 <= k <= |mem|
      invariant forall i :: 0 <= i < k ==> Precedes(mem[i], e)
    {
      k := k + 1;
    }
    r := mem[..k] + [e] + mem[k..];
    forall i | k <= i < |mem| ensures Precedes(e, mem[i]) {
      assert mem[k] in mem && mem[i] in mem;
      assert k < i ==> Precedes(mem[k], mem[i]);
    }
    forall x ensures x in r <==> x in mem || x == e {
      assert x in mem <==> x in mem[..k] || x in mem[k..] by {
        assert mem == mem[..k] + mem[k..];
      }
    }
  }

  // ----- batches -----

  datatype Update = Update(ukey: UserKey, kind: Kind, value: Value)

  function BatchEntries(updates: seq<Update>, first: nat): (r: seq<Entry>)
    ensures |r| == |updates|
  {
    seq(|updates|, i requires 0 <= i < |updates| => Entry(InternalKey(updates[i].ukey, first + i, updates[i].kind), updates[i].value))
  }

  lemma AddNewerKeepsReads(store: set<Entry>, history: set<Entry>, news: set<Entry>, u: UserKey, s: nat)
    requires store <= history && UniqueSeqnos(history + news)
    requires forall a, b :: a in news && b in history ==> a.key.seqno > b.key.seqno
    requires Read(store, u, s) == Read(history, u, s)
    ensures Read(news + store, u, s) == Read(news + history, u, s)
  {
    NewestExists(news, u, s);
    ReadLayers(news, store, u, s);
    ReadLayers(news, history, u, s);
  }

  // ----- layers -----

  /** Every sequence number of `newer` is above every one of `older`. */
  ghost predicate After(newer: set<Entry>, older: set<Entry>) {
    forall a, b {:trigger a in newer, b in older} :: a in newer && b in older ==> a.key.seqno > b.key.seqno
  }

  lemma ReadThroughLayer(newer: set<Entry>, older: set<Entry>, u: UserKey, s: nat, st: SaverState)
    requires UniqueSeqnos(newer + older) && After(newer, older)
    requires Saves(newer, u, s, st)
    ensures Read(newer + older, u, s) ==
            if st.NotFound? then Read(older, u, s) else if st.Found? then Some(st.value) else None
  {
    ReadLayers(newer, older, u, s);
  }

  lemma PlacedEntries(v: Levels, w: Levels, level: nat, f: File, gone: Option<File>)
    requires Placed(v, w, level, f, gone) && (gone.Some? ==> gone.value == f)
    ensures VersionEntries(w) == VersionEntries(v) + SetOf(f.entries)
  {
    forall e ensures e in VersionEntries(w) <==> e in VersionEntries(v) || e in f.entries {
      if e in VersionEntries(v) {
        var l, g :| 0 <= l < |v| && g in v[l] && e in g.entries;
        assert g in w[l] || g == f;
      }
      assert f in w[level];
      if e in VersionEntries(w) {
        var l, g :| 0 <= l < |w| && g in w[l] && e in g.entries;
        assert g in v[l] || g == f;
      }
    }
  }

  /** A merge takes exactly the dropped entries out of the version. */
  lemma MergeEntries(m: Merge, w: Levels, dropped: set<Entry>)
    requires m.Valid() && m.Installs(w)
    requires m.es == InputEntries(m.i0, m.i1) - dropped && dropped <= InputEntries(m.i0, m.i1)
    ensures VersionEntries(w) == VersionEntries(m.v) - dropped
  {
    forall e | e in VersionEntries(w) ensures e in VersionEntries(m.v) && e !in dropped {
      var l, g :| 0 <= l < |w| && g in w[l] && e in g.entries;
      KeptEntry(m, w, dropped, l, g, e);
    }
    forall e | e in VersionEntries(m.v) && e !in dropped ensures e in VersionEntries(w) {
      var l, g :| 0 <= l < |m.v| && g in m.v[l] && e in g.entries;
      SurvivingEntry(m, w, dropped, l, g, e);
    }
  }

  lemma KeptEntry(m: Merge, w: Levels, dropped: set<Entry>, l: nat, g: File, e: Entry)
    requires m.Valid() && m.Installs(w)
    requires m.es == InputEntries(m.i0, m.i1) - dropped && dropped <= InputEntries(m.i0, m.i1)
    requires l < |w| && g in w[l] && e in g.entries
    ensures e in VersionEntries(m.v) && e !in dropped
  {
    if l == m.level + 1 && g in m.outs {
      var n, h := OutputSource(m, g, e);
      InputIsGood(m, n, h);
      assert e in LevelEntries(m.outs);
    } else {
      assert g in m.v[l] && !m.Input(l, g);
      if e in dropped {
        var n, h := InputPlace(m.v, m.level, m.i0, m.i1, m.a, m.b, e);
        OnePlace(m.v, l, g, e, n, h, e);
      }
    }
  }

  lemma SurvivingEntry(m: Merge, w: Levels, dropped: set<Entry>, l: nat, g: File, e: Entry)
    requires m.Valid() && m.Installs(w)
    requires m.es == InputEntries(m.i0, m.i1) - dropped
    requires l < |m.v| && g in m.v[l] && e in g.entries && e !in dropped
    ensures e in VersionEntries(w)
  {
    hide Swapped, GoodInputs, Shaped, DroppedEntries;
    if m.Input(l, g) {
      assert e in LevelEntries(m.i0) || e in LevelEntries(m.i1);
      assert e in LevelEntries(m.outs);
      var o :| o in m.outs && e in o.entries;
      StaysOrComes(m, w, m.level + 1, o);
    } else {
      StaysOrComes(m, w, l, g);
    }
  }

  lemma StaysOrComes(m: Merge, w: Levels, l: nat, g: File)
    requires m.Installs(w)
    requires (l < |m.v| && g in m.v[l] && !m.Input(l, g)) || (l == m.level + 1 && g in m.outs)
    ensures l < |w| == |m.v| && g in w[l]
  {
  }

  lemma FileAfterMerge(m: Merge, w: Levels, l: nat, f: File)
    requires m.Valid() && m.Installs(w) && l < |w| && f in w[l]
    ensures if f in m.outs then l == m.level + 1 && m.firstNumber <= f.number < m.firstNumber + |m.outs|
            else f in m.v[l] && f.number < m.firstNumber
  {
    assert f in m.v[l] ==> f.number < m.firstNumber;
    if f in m.outs {
      var k := OutputIsGood(m, f);
    }
  }

  lemma MergeNumbers(m: Merge, w: Levels)
    requires m.Valid() && m.Installs(w) && NumbersUnique(m.v)
    ensures NumbersUnique(w) && NumbersBelow(w, m.firstNumber + |m.outs|)
  {
    forall l, f | 0 <= l < |w| && f in w[l] ensures f.number < m.firstNumber + |m.outs| {
      FileAfterMerge(m, w, l, f);
    }
    forall l, n, f, g | 0 <= l < |w| && 0 <= n < |w| && f in w[l] && g in w[n] && f.number == g.number
      ensures l == n && f == g
    {
      FileAfterMerge(m, w, l, f);
      FileAfterMerge(m, w, n, g);
      if f in m.outs && g in m.outs {
        OutputNumbers(m, f, g);
      }
    }
  }

  lemma OutputNumbers(m: Merge, f: File, g: File)
    requires m.Valid() && f in m.outs && g in m.outs && f.number == g.number
    ensures f == g
  {
    var j := OutputIsGood(m, f);
    var k := OutputIsGood(m, g);
  }

  ghost predicate GoodVersion(v: Levels, nextFileNumber: nat) {
    Shaped(v) && NumbersUnique(v) && NumbersBelow(v, nextFileNumber)
  }

  /** The memtable is newer than the one being flushed, and that newer than the files; all of it is history. */
  ghost predicate Layered(mem: set<Entry>, imm: set<Entry>, files: set<Entry>, history: set<Entry>, lastSequence: nat) {
    && After(mem, imm) && After(mem, files) && After(imm, files)
    && mem + (imm + files) <= history && UniqueSeqnos(history)
    && (forall e :: e in history ==> e.key.seqno <= lastSequence)
  }

  /** Snapshots are kept oldest first, none older than what a merge relied on. */
  ghost predicate GoodSnapshots(snapshots: seq<nat>, floor: nat, lastSequence: nat) {
    && floor <= lastSequence < MAX_SEQUENCE
    && (forall i :: 0 <= i < |snapshots| ==> floor <= snapshots[i] <= lastSequence)
    && (forall i, j :: 0 <= i < j < |snapshots| ==> snapshots[i] <= snapshots[j])
  }

  /** The table a memtable is flushed to. */
  function FlushedFile(es: seq<Entry>, number: nat, size: nat): File
    requires es != []
  {
    File(number, size, es[0].key, es[|es| - 1].key, es)
  }

  lemma FlushedFileGood(v: Levels, es: seq<Entry>, f: File)
    requires SortedEntries(es) && es != [] && f == FlushedFile(es, f.number, f.size)
    requires After(SetOf(es), VersionEntries(v)) && forall e :: e in SetOf(es) ==> e.key.seqno <= MAX_SEQUENCE
    ensures GoodFile(f)
    ensures forall l, g :: 0 <= l < |v| && g in v[l] ==> Newer(f, g)
  {
    forall e | e in f.entries ensures e.key.seqno <= MAX_SEQUENCE {
      assert e in SetOf(es);
    }
    SortedEntriesMakeGoodFile(f);
    forall l, g | 0 <= l < |v| && g in v[l] ensures Newer(f, g) {
      forall e, x | e in f.entries && x in g.entries ensures e.key.seqno > x.key.seqno {
        assert e in SetOf(es) && x in VersionEntries(v);
      }
    }
  }

  lemma PlacedNumbers(v: Levels, w: Levels, level: nat, f: File, gone: Option<File>)
    requires Placed(v, w, level, f, gone) && NumbersUnique(v)
    requires gone.None? ==> NumbersBelow(v, f.number)
    requires gone.Some? ==> gone.value == f
    ensures NumbersUnique(w)
    ensures forall n :: n > f.number && NumbersBelow(v, n) ==> NumbersBelow(w, n)
  {
    forall l, g | 0 <= l < |w| && g in w[l]
      ensures (l == level && g == f) || (g in v[l] && g.number != f.number)
    {
      if g in v[l] && !(l == level && g == f) && gone.Some? {
        assert g.number == f.number ==> l == level - 1 && g == f;
      }
    }
  }

  lemma FlushInstalls(v: Levels, w: Levels, es: seq<Entry>, level: nat, f: File)
    requires GoodVersion(v, f.number) && level < NUM_LEVELS
    requires SortedEntries(es) && es != [] && f == FlushedFile(es, f.number, f.size)
    requires After(SetOf(es), VersionEntries(v)) && forall e :: e in SetOf(es) ==> e.key.seqno <= MAX_SEQUENCE
    requires level > 0 ==> forall l, g :: 0 <= l <= level && g in v[l] ==> !Overlaps(g, Some(f.smallest.ukey), Some(f.largest.ukey))
    requires Applied(v, AddFileEdit(level, f), w)
    ensures GoodVersion(w, f.number + 1)
    ensures VersionEntries(w) == VersionEntries(v) + SetOf(es)
  {
    AddFilePlaces(v, w, level, f);
    PlacedEntries(v, w, level, f, None);
    PlacedNumbers(v, w, level, f, None);
    FlushedFileGood(v, es, f);
    FlushShaped(v, w, level, f);
  }

  lemma FreshNumber(v: Levels, level: nat, f: File)
    requires NumbersBelow(v, f.number) && |v| == NUM_LEVELS
    ensures forall l, g, k :: 0 <= l < NUM_LEVELS && g in v[l] && k in AddedAt(AddFileEdit(level, f), l) ==> g.number != k.number
  {
  }

  lemma NewEntriesUnique(past: set<Entry>, entries: seq<Entry>, last: nat)
    requires UniqueSeqnos(past) && forall e :: e in past ==> e.key.seqno <= last
    requires forall i :: 0 <= i < |entries| ==> entries[i].key.seqno == last + 1 + i
    ensures UniqueSeqnos(past + SetOf(entries)) && After(SetOf(entries), past)
    ensures forall e :: e in past + SetOf(entries) ==> e.key.seqno <= last + |entries|
  {
    forall a, b | a in past + SetOf(entries) && b in past + SetOf(entries) && a.key.seqno == b.key.seqno && a.key.ukey == b.key.ukey
      ensures a == b
    {
      if a in SetOf(entries) && b in SetOf(entries) {
        var i :| 0 <= i < |entries| && entries[i] == a;
        var j :| 0 <= j < |entries| && entries[j] == b;
      }
    }
  }

  lemma BatchKeepsReads(store: set<Entry>, history: set<Entry>, news: set<Entry>, floor: nat)
    requires store <= history && UniqueSeqnos(history + news) && After(news, history)
    requires SameReads(history, store, floor)
    ensures SameReads(history + news, news + store, floor)
  {
    assert history + news == news + history;
    forall u, s | s >= floor ensures Read(news + store, u, s) == Read(history + news, u, s) {
      AddNewerKeepsReads(store, history, news, u, s);
    }
  }

  lemma WriteLayers(mem: set<Entry>, imm: set<Entry>, files: set<Entry>, history: set<Entry>, last: nat, entries: seq<Entry>)
    requires Layered(mem, imm, files, history, last)
    requires forall i :: 0 <= i < |entries| ==> entries[i].key.seqno == last + 1 + i
    ensures Layered(mem + SetOf(entries), imm, files, history + SetOf(entries), last + |entries|)
  {
    NewEntriesUnique(history, entries, last);
  }

  lemma FlushLayers(mem: set<Entry>, imm: set<Entry>, files: set<Entry>, history: set<Entry>, last: nat)
    requires Layered(mem, imm, files, history, last)
    ensures Layered(mem, {}, files + imm, history, last)
  {
  }

  /** WriteBatchInternal::InsertInto: every update of the batch, in order. */
  method InsertInto(mem: seq<Entry>, entries: seq<Entry>, ghost history: set<Entry>, ghost last: nat) returns (r: seq<Entry>)
    requires SortedEntries(mem) && SetOf(mem) <= history
    requires forall e :: e in history ==> e.key.seqno <= last
    requires forall i :: 0 <= i < |entries| ==> entries[i].key.seqno == last + 1 + i
    ensures SortedEntries(r) && SetOf(r) == SetOf(mem) + SetOf(entries)
  {
    r := mem;
    for i := 0 to |entries|
      invariant SortedEntries(r) && SetOf(r) == SetOf(mem) + SetOf(entries[..i])
    {
      forall x | x in r ensures x.key.seqno < entries[i].key.seqno {
        assert x in SetOf(r);
      }
      r := MemTableAdd(r, entries[i]);
      assert entries[..i + 1] == entries[..i] + [entries[i]];
    }
    assert entries[..|entries|] == entries;
  }

  // ----- background compaction -----

  lemma JobValid(mem: set<Entry>, imm: set<Entry>, v: Levels, history: set<Entry>, last: nat, j: Job)
    requires Layered(mem, imm, VersionEntries(v), history, last)
    requires j.all == mem + (imm + VersionEntries(v)) && j.v == v && Shaped(v)
    requires GoodInputs(v, j.level, j.i0, j.i1, j.a, j.b)
    ensures j.Valid()
  {
  }

  lemma MoveEditFresh(v: Levels, level: nat, f: File)
    requires NumbersUnique(v) && level + 1 < |v| == NUM_LEVELS && f in v[level]
    ensures GoodEdit(MoveFileEdit(level, f))
    ensures forall l, g, k :: 0 <= l < NUM_LEVELS && g in v[l] && k in AddedAt(MoveFileEdit(level, f), l) ==> g.number != k.number
  {
  }

  lemma MoveInstalls(v: Levels, w: Levels, level: nat, f: File, a: InternalKey, b: InternalKey, next: nat)
    requires GoodVersion(v, next) && GoodInputs(v, level, [f], [], a, b)
    requires f in v[level] && Applied(v, MoveFileEdit(level, f), w)
    ensures GoodVersion(w, next) && VersionEntries(w) == VersionEntries(v) && Placed(v, w, level + 1, f, Some(f))
  {
    MoveFilePlaces(v, w, level, f);
    MoveShaped(v, w, level, f, a, b);
    PlacedNumbers(v, w, level + 1, f, Some(f));
    PlacedEntries(v, w, level + 1, f, Some(f));
    assert SetOf(f.entries) <= VersionEntries(v);
    assert NumbersBelow(v, next) ==> next > f.number;
  }

  /** Moves a file down a level and finds the version that has it there. */
  method MoveFile(v: Levels, level: nat, f: File, ghost a: InternalKey, ghost b: InternalKey, ghost next: nat) returns (w: Levels)
    requires GoodVersion(v, next) && GoodInputs(v, level, [f], [], a, b)
    ensures GoodVersion(w, next) && VersionEntries(w) == VersionEntries(v) && Placed(v, w, level + 1, f, Some(f))
  {
    assert f in [f];
    assert f in v[level];
    MoveEditFresh(v, level, f);
    w := ApplyEdit(v, MoveFileEdit(level, f));
    MoveInstalls(v, w, level, f, a, b, next);
  }

  lemma MergeEntriesDropped(m: Merge, w: Levels, snapshot: nat)
    requires m.Valid() && m.Installs(w)
    requires m.es == InputEntries(m.i0, m.i1) - DroppedEntries(m.v, m.level, InputEntries(m.i0, m.i1), snapshot)
    ensures VersionEntries(w) == VersionEntries(m.v) - DroppedEntries(m.v, m.level, InputEntries(m.i0, m.i1), snapshot)
  {
    MergeEntries(m, w, DroppedEntries(m.v, m.level, InputEntries(m.i0, m.i1), snapshot));
  }

  /** The outputs of a merge hold what is kept of its inputs, and are cut where they should be. */
  ghost predicate MergeOutputs(v: Levels, level: nat, i0: seq<File>, i1: seq<File>, grandparents: seq<File>, snapshot: nat,
                               sizes: Sizes, maxFileSize: nat, next: nat, outs: seq<File>) {
    && OutputRun(outs, next, InputEntries(i0, i1) - DroppedEntries(v, level, InputEntries(i0, i1), snapshot))
    && exists input :: SortedEntries(input) && SetOf(input) == InputEntries(i0, i1)
         && CutRight(Work(v, level, input, snapshot, grandparents, sizes, maxFileSize), outs)
  }

  /** Merges the inputs and finds the version that has the outputs in their place. */
  method MergeFiles(v: Levels, level: nat, i0: seq<File>, i1: seq<File>, grandparents: seq<File>, ghost a: InternalKey, ghost b: InternalKey,
                    smallestSnapshot: nat, next: nat, sizes: Sizes, maxFileSize: nat) returns (w: Levels, next': nat, ghost outs: seq<File>)
    requires GoodVersion(v, next) && GoodInputs(v, level, i0, i1, a, b) && smallestSnapshot < MAX_SEQUENCE && SortedRun(grandparents)
    ensures next' == next + |outs| && GoodVersion(w, next')
    ensures VersionEntries(w) == VersionEntries(v) - DroppedEntries(v, level, InputEntries(i0, i1), smallestSnapshot)
    ensures Swapped(v, w, level, i0, i1, outs)
    ensures MergeOutputs(v, level, i0, i1, grandparents, smallestSnapshot, sizes, maxFileSize, next, outs)
  {
    hide CutRight, SortedRun, Swapped;
    var input := MakeInputIterator(v, level, i0, i1, a, b);
    var c := new Compaction(level, v, i0, i1, grandparents, maxFileSize);
    var work := Work(v, level, input, smallestSnapshot, grandparents, sizes, maxFileSize);
    var files := DoCompactionWork(c, work, next);
    outs := files;
    next' := next + |files|;
    ghost var m := Merge(v, level, i0, i1, a, b, files, next,
                         SetOf(input) - DroppedEntries(v, level, SetOf(input), smallestSnapshot));
    assert m.Valid();
    var edit := MergeEdit(level, i0, i1, files);
    MergeEditGood(m, edit);
    w := ApplyEdit(v, edit);
    MergeInstalls(m, edit, w);
    MergeShaped(m, w);
    MergeNumbers(m, w);
    MergeEntriesDropped(m, w, smallestSnapshot);
  }

  /** A lone file that overlaps nothing below and little further down. */
  predicate TrivialMove(v: Levels, level: nat, i0: seq<File>, i1: seq<File>, maxFileSize: nat) {
    && |i0| == 1 && |i1| == 0
    && (level + 2 < |v| ==> OverlapBytes(v[level + 2], i0[0].smallest.ukey, i0[0].largest.ukey) <= 10 * maxFileSize)
  }

  lemma MoveDecided(v: Levels, level: nat, i0: seq<File>, i1: seq<File>, grandparents: seq<File>, maxFileSize: nat)
    requires |v| == NUM_LEVELS && AreGrandparents(v, level, i0 + i1, grandparents)
    ensures TrivialMove(v, level, i0, i1, maxFileSize) <==> |i0| == 1 && |i1| == 0 && SumSizes(grandparents) <= 10 * maxFileSize
  {
    if |i0| == 1 && |i1| == 0 {
      var f := i0[0];
      assert i0 + i1 == [f];
      var a, b :| IsRange([f], a, b) &&
        grandparents == if level + 2 < |v| then Overlapping(v[level + 2], Some(a.ukey), Some(b.ukey)) else [];
      RangeUnique([f], a, b, f.smallest, f.largest);
      if level + 2 < |v| {
        OverlappingBytes(v[level + 2], a.ukey, b.ukey);
      }
    }
  }

  /** What a compaction makes of the version: it moves the lone file, or swaps the inputs for the outputs of their merge. */
  ghost predicate Outcome(j: Job, w: Levels, next: nat, sizes: Sizes, maxFileSize: nat, outs: seq<File>) {
    if TrivialMove(j.v, j.level, j.i0, j.i1, maxFileSize) then Placed(j.v, w, j.level + 1, j.i0[0], Some(j.i0[0]))
    else
      && Swapped(j.v, w, j.level, j.i0, j.i1, outs)
      && exists gps :: AreGrandparents(j.v, j.level, j.i0 + j.i1, gps)
           && MergeOutputs(j.v, j.level, j.i0, j.i1, gps, j.snapshot, sizes, maxFileSize, next, outs)
  }

  /** The inputs are those that the file picked leads to. */
  ghost predicate PickedInputs(v: Levels, level: nat, f: File, maxFileSize: nat, i0: seq<File>, i1: seq<File>)
    requires |v| == NUM_LEVELS
  {
    f in i0 && exists picked :: PickedFor(v, level, f, picked) && SetUp(v, level, maxFileSize, picked, i0, i1)
  }

  /** Picks the inputs around `f`, then moves or merges them. */
  method Compact(v: Levels, level: nat, f: File, smallestSnapshot: nat, next: nat, sizes: Sizes, maxFileSize: nat)
      returns (moved: bool, w: Levels, next': nat, i0: seq<File>, i1: seq<File>, ghost a: InternalKey, ghost b: InternalKey,
               ghost outs: seq<File>)
    requires GoodVersion(v, next) && level + 1 < NUM_LEVELS && f in v[level] && smallestSnapshot < MAX_SEQUENCE
    ensures GoodInputs(v, level, i0, i1, a, b) && PickedInputs(v, level, f, maxFileSize, i0, i1)
    ensures next <= next' && GoodVersion(w, next')
    ensures moved <==> TrivialMove(v, level, i0, i1, maxFileSize)
    ensures VersionEntries(w) ==
            VersionEntries(v) - if moved then {} else DroppedEntries(v, level, InputEntries(i0, i1), smallestSnapshot)
    ensures forall all :: Outcome(Job(all, v, level, i0, i1, a, b, smallestSnapshot), w, next, sizes, maxFileSize, outs)
  {
    hide PickedFor, SetUp, AreGrandparents, Shaped, SortedRun, Placed, Swapped, MergeOutputs;
    var grandparents;
    i0, i1, grandparents, a, b := PickCompaction(v, level, f, maxFileSize);
    var overlapped := TotalFileSize(grandparents);
    moved := |i0| == 1 && |i1| == 0 && overlapped <= 10 * maxFileSize;
    MoveDecided(v, level, i0, i1, grandparents, maxFileSize);
    outs := [];
    if moved {
      assert i0 == [i0[0]] && i1 == [];
      w := MoveFile(v, level, i0[0], a, b, next);
      next' := next;
    } else {
      w, next', outs := MergeFiles(v, level, i0, i1, grandparents, a, b, smallestSnapshot, next, sizes, maxFileSize);
    }
  }

  lemma DropLayers(mem: set<Entry>, imm: set<Entry>, files: set<Entry>, dropped: set<Entry>, history: set<Entry>, last: nat)
    requires Layered(mem, imm, files, history, last) && dropped <= files
    ensures Layered(mem, imm, files - dropped, history, last)
    ensures mem + (imm + (files - dropped)) == mem + (imm + files) - dropped
  {
    forall e | e in dropped ensures e !in mem && e !in imm {
    }
  }

  /** After a merge the store is faithful from the merge's snapshot on exactly when it exposed nothing. */
  lemma MergeFaithful(j: Job, history: set<Entry>, floor: nat)
    requires j.Valid() && floor <= j.snapshot
    ensures SameReads(history, j.all, floor) ==> (SameReads(history, j.Kept(), j.snapshot) <==> !j.ExposesSome())
  {
    ReadsPreserved(j);
    if SameReads(history, j.all, floor) {
      SameReadsChain(j, history, floor);
    }
  }

  lemma SameReadsChain(j: Job, history: set<Entry>, floor: nat)
    requires SameReads(history, j.all, floor) && floor <= j.snapshot
    ensures SameReads(history, j.Kept(), j.snapshot) <==> SameReads(j.all, j.Kept(), j.snapshot)
  {
    if SameReads(history, j.Kept(), j.snapshot) {
      forall u, s | s >= j.snapshot ensures Read(j.Kept(), u, s) == Read(j.all, u, s) {
        assert Read(j.all, u, s) == Read(history, u, s);
      }
    }
    if SameReads(j.all, j.Kept(), j.snapshot) {
      forall u, s | s >= j.snapshot ensures Read(j.Kept(), u, s) == Read(history, u, s) {
        assert Read(j.all, u, s) == Read(history, u, s);
      }
    }
  }

  lemma DroppedInVersion(j: Job)
    requires j.Valid()
    ensures j.DroppedOnes() <= VersionEntries(j.v)
  {
    forall d | d in j.DroppedOnes() ensures d in VersionEntries(j.v) {
      var m, h := InputSource(j, d);
    }
  }

  lemma GrowNumbers(v: Levels, n: nat, m: nat)
    requires GoodVersion(v, n) && n <= m
    ensures GoodVersion(v, m)
  {
  }

  /** A compaction step on the whole store: what is left of it, and whether readers can tell. */
  method CompactStore(ghost mem: set<Entry>, ghost imm: set<Entry>, v: Levels, ghost history: set<Entry>, ghost floor: nat,
                      level: nat, f: File, smallestSnapshot: nat, next: nat, ghost last: nat,
                      sizes: Sizes, maxFileSize: nat)
      returns (moved: bool, w: Levels, next': nat, ghost job: Job, ghost outs: seq<File>)
    requires GoodVersion(v, next) && level + 1 < NUM_LEVELS && f in v[level]
    requires Layered(mem, imm, VersionEntries(v), history, last) && floor <= smallestSnapshot < MAX_SEQUENCE
    ensures GoodInputs(v, level, job.i0, job.i1, job.a, job.b)
    ensures job.all == mem + (imm + VersionEntries(v)) && job.v == v && job.level == level
    ensures job.snapshot == smallestSnapshot && PickedInputs(v, level, f, maxFileSize, job.i0, job.i1)
    ensures moved <==> TrivialMove(v, level, job.i0, job.i1, maxFileSize)
    ensures Outcome(job, w, next, sizes, maxFileSize, outs)
    ensures next <= next' && GoodVersion(w, next') && GoodVersion(v, next')
    ensures Layered(mem, imm, VersionEntries(w), history, last)
    ensures mem + (imm + VersionEntries(w)) == if moved then job.all else job.Kept()
    ensures SameReads(history, job.all, floor) ==> (SameReads(history, job.Kept(), smallestSnapshot) <==> !job.ExposesSome())
    ensures job.LowerClosed() ==> !job.ExposesSome()
  {
    hide PickedInputs, Outcome, TrivialMove;
    ghost var a, b;
    var i0, i1;
    moved, w, next', i0, i1, a, b, outs := Compact(v, level, f, smallestSnapshot, next, sizes, maxFileSize);
    job := Job(mem + (imm + VersionEntries(v)), v, level, i0, i1, a, b, smallestSnapshot);
    JobValid(mem, imm, v, history, last, job);
    DroppedInVersion(job);
    DropLayers(mem, imm, VersionEntries(v), if moved then {} else job.DroppedOnes(), history, last);
    GrowNumbers(v, next, next');
    MergeFaithful(job, history, floor);
    LowerClosedExposesNothing(job);
  }

  /** A compaction whose manifest write may fail: the version to make current, the same one then. */
  method TryCompaction(ghost mem: set<Entry>, ghost imm: set<Entry>, v: Levels, ghost history: set<Entry>, ghost floor: nat,
                       level: nat, f: File, smallestSnapshot: nat, next: nat, ghost last: nat,
                       sizes: Sizes, maxFileSize: nat, committed: bool)
      returns (merged: bool, w: Levels, next': nat, ghost job: Job, ghost newFloor: nat, ghost outs: seq<File>)
    requires GoodVersion(v, next) && level + 1 < NUM_LEVELS && f in v[level]
    requires Layered(mem, imm, VersionEntries(v), history, last) && floor <= smallestSnapshot < MAX_SEQUENCE
    ensures job.all == mem + (imm + VersionEntries(v)) && job.v == v && job.level == level
    ensures job.snapshot == smallestSnapshot && PickedInputs(v, level, f, maxFileSize, job.i0, job.i1)
    ensures merged <==> committed && !TrivialMove(v, level, job.i0, job.i1, maxFileSize)
    ensures if committed then Outcome(job, w, next, sizes, maxFileSize, outs) else w == v
    ensures next <= next' && GoodVersion(w, next') && newFloor == (if merged then smallestSnapshot else floor)
    ensures Layered(mem, imm, VersionEntries(w), history, last)
    ensures mem + (imm + VersionEntries(w)) == if merged then job.Kept() else job.all
    ensures SameReads(history, job.all, floor) ==>
              (SameReads(history, mem + (imm + VersionEntries(w)), newFloor) <==> !merged || !job.ExposesSome())
    ensures job.LowerClosed() ==> !job.ExposesSome()
  {
    hide PickedInputs, Outcome, TrivialMove;
    var moved;
    moved, w, next', job, outs := CompactStore(mem, imm, v, history, floor, level, f, smallestSnapshot, next, last, sizes, maxFileSize);
    merged := committed && !moved;
    newFloor := if merged then smallestSnapshot else floor;
    if !committed {
      w := v;
    }
  }

  /** A table of the entries goes to the level that their user keys allow; no entries leave the version as it is. */
  ghost predicate Flushed(v: Levels, w: Levels, es: seq<Entry>, number: nat, size: nat, maxFileSize: nat, level: nat)
    requires |v| == NUM_LEVELS
  {
    if es == [] then w == v && level == 0
    else
      && Placed(v, w, level, FlushedFile(es, number, size), None)
      && IsFlushLevel(v, level, es[0].key.ukey, es[|es| - 1].key.ukey, maxFileSize)
  }

  /** Writes a memtable to a table and finds the version that holds it. */
  method WriteLevel0Table(v: Levels, es: seq<Entry>, number: nat, tableSize: seq<Entry> -> nat, maxFileSize: nat)
      returns (w: Levels, level: nat)
    requires GoodVersion(v, number) && SortedEntries(es)
    requires After(SetOf(es), VersionEntries(v)) && forall e :: e in SetOf(es) ==> e.key.seqno <= MAX_SEQUENCE
    ensures GoodVersion(w, number + 1)
    ensures VersionEntries(w) == VersionEntries(v) + SetOf(es)
    ensures Flushed(v, w, es, number, tableSize(es), maxFileSize, level)
  {
    if es == [] {
      // an empty table is deleted and never enters the version
      return v, 0;
    }
    var f := FlushedFile(es, number, tableSize(es));
    level := PickLevelForMemTableOutput(v, f.smallest.ukey, f.largest.ukey, maxFileSize);
    FlushLevelFree(v, level, f.smallest.ukey, f.largest.ukey, maxFileSize);
    FreshNumber(v, level, f);
    w := ApplyEdit(v, AddFileEdit(level, f));
    FlushInstalls(v, w, es, level, f);
    AddFilePlaces(v, w, level, f);
  }

  class DBImpl {
    var mem: seq<Entry>
    var imm: Option<seq<Entry>>
    var current: Levels
    var nextFileNumber: nat
    var lastSequence: nat
    var snapshots: seq<nat>      // oldest first
    const maxFileSize: nat
    ghost var history: set<Entry>  // every entry ever written
    ghost var floor: nat           // the latest oldest-snapshot a merge relied on

    ghost function ImmEntries(): set<Entry>
      reads this
    {
      if imm.Some? then SetOf(imm.value) else {}
    }

    /** Every entry that a read can find. */
    ghost function Store(): set<Entry>
      reads this
    {
      SetOf(mem) + (ImmEntries() + VersionEntries(current))
    }

    ghost predicate Valid()
      reads this
    {
      && SortedEntries(mem) && (imm.Some? ==> SortedEntries(imm.value))
      && GoodVersion(current, nextFileNumber)
      && Layered(SetOf(mem), ImmEntries(), VersionEntries(current), history, lastSequence)
      && GoodSnapshots(snapshots, floor, lastSequence)
    }

    /** The store answers reads at every live snapshot as the whole history would. */
    ghost predicate Faithful()
      reads this
    {
      SameReads(history, Store(), floor)
    }

    constructor (maxFileSize: nat)
      ensures Valid() && Faithful() && history == {} && snapshots == []
    {
      mem, imm := [], None;
      current := seq(NUM_LEVELS, _ => []);
      nextFileNumber, lastSequence, snapshots := 2, 0, [];
      this.maxFileSize := maxFileSize;
      history, floor := {}, 0;
      new;
      assert Store() == {};
    }

    method Write(updates: seq<Update>)
      requires Valid() && lastSequence + |updates| < MAX_SEQUENCE
      modifies `mem, `lastSequence, `history
      ensures Valid() && (old(Faithful()) ==> Faithful())
      ensures history == old(history) + SetOf(BatchEntries(updates, old(lastSequence) + 1))
      ensures lastSequence == old(lastSequence) + |updates|
    {
      var entries := BatchEntries(updates, lastSequence + 1);
      ghost var news, store := SetOf(entries), Store();
      WriteLayers(SetOf(mem), ImmEntries(), VersionEntries(current), history, lastSequence, entries);
      NewEntriesUnique(history, entries, lastSequence);
      mem := InsertInto(mem, entries, history, lastSequence);
      lastSequence := lastSequence + |updates|;
      history := history + news;
      assert Store() == news + store;
      if old(Faithful()) {
        BatchKeepsReads(store, old(history), news, floor);
      }
    }

    /** MakeRoomForWrite: the full memtable becomes the one to flush. */
    method SwitchMemTable()
      requires Valid() && imm.None?
      modifies `mem, `imm
      ensures Valid() && (old(Faithful()) ==> Faithful())
      ensures mem == [] && imm == Some(old(mem))
    {
      imm, mem := Some(mem), [];
      assert Store() == old(Store());
    }

    method GetSnapshot() returns (s: nat)
      requires Valid()
      modifies `snapshots
      ensures Valid() && (old(Faithful()) ==> Faithful())
      ensures s == lastSequence && snapshots == old(snapshots) + [s]
    {
      s := lastSequence;
      snapshots := snapshots + [s];
    }

    method ReleaseSnapshot(i: nat)
      requires Valid() && i < |snapshots|
      modifies `snapshots
      ensures Valid() && (old(Faithful()) ==> Faithful())
      ensures snapshots == old(snapshots[..i] + snapshots[i + 1..])
    {
      snapshots := snapshots[..i] + snapshots[i + 1..];
    }

    /** Memtable, then the one being flushed, then the files. */
    method Get(u: UserKey, s: nat) returns (r: Option<Value>)
      requires Valid()
      ensures r == Read(Store(), u, s)
      ensures Faithful() && s >= floor ==> r == Read(history, u, s)
    {
      ghost var files := VersionEntries(current);
      SeekFindsNewest(mem, u, s);
      var st := RunGet(mem, u, s);
      ReadThroughLayer(SetOf(mem), ImmEntries() + files, u, s, st);
      if !st.NotFound? {
        return if st.Found? then Some(st.value) else None;
      }
      if imm.Some? {
        SeekFindsNewest(imm.value, u, s);
        st := RunGet(imm.value, u, s);
      }
      ReadThroughLayer(ImmEntries(), files, u, s, st);
      if !st.NotFound? {
        return if st.Found? then Some(st.value) else None;
      }
      r := Version.Get(current, u, s);
    }

    /** Flushes the immutable memtable; `committed` says whether the manifest write succeeded. */
    method CompactMemTable(tableSize: seq<Entry> -> nat, committed: bool) returns (level: nat)
      requires Valid() && imm.Some?
      modifies `imm, `current, `nextFileNumber
      ensures Valid() && (old(Faithful()) ==> Faithful())
      ensures imm == if committed then None else old(imm)
      ensures Store() == old(Store())
      ensures if !committed then current == old(current)
              else Flushed(old(current), current, old(imm.value), old(nextFileNumber), tableSize(old(imm.value)), maxFileSize, level)
    {
      hide Flushed;
      FlushLayers(SetOf(mem), ImmEntries(), VersionEntries(current), history, lastSequence);
      var w;
      w, level := WriteLevel0Table(current, imm.value, nextFileNumber, tableSize, maxFileSize);
      nextFileNumber := nextFileNumber + 1;
      if committed {
        current, imm := w, None;
      }
      assert Store() == old(Store());
    }

    /** Makes `w` the current version. */
    method AppendVersion(w: Levels, next: nat, ghost newFloor: nat)
      requires Valid() && GoodVersion(w, next) && GoodSnapshots(snapshots, newFloor, lastSequence)
      requires Layered(SetOf(mem), ImmEntries(), VersionEntries(w), history, lastSequence)
      modifies `current, `nextFileNumber, `floor
      ensures Valid() && floor == newFloor && current == w
      ensures Store() == SetOf(mem) + (old(ImmEntries()) + VersionEntries(w))
      ensures Faithful() <==> SameReads(history, SetOf(mem) + (old(ImmEntries()) + VersionEntries(w)), newFloor)
    {
      current, nextFileNumber, floor := w, next, newFloor;
    }

    /** Compacts around file `f` of `level`: a lone file that overlaps nothing below and little
        further down is moved, anything else is merged. `committed` says whether the manifest
        write succeeded. A merge keeps the store faithful if and only if it exposes nothing,
        which closed lower inputs would ensure. */
    method BackgroundCompaction(level: nat, f: File, sizes: Sizes, committed: bool)
        returns (merged: bool, ghost job: Job, ghost outs: seq<File>)
      requires Valid() && level + 1 < NUM_LEVELS && f in current[level]
      modifies `current, `nextFileNumber, `floor
      ensures Valid()
      ensures job.all == old(Store()) && job.v == old(current) && job.level == level
      ensures PickedInputs(old(current), level, f, maxFileSize, job.i0, job.i1)
      ensures merged <==> committed && !TrivialMove(old(current), level, job.i0, job.i1, maxFileSize)
      ensures if committed then Outcome(job, current, old(nextFileNumber), sizes, maxFileSize, outs) else current == old(current)
      ensures job.snapshot == if |snapshots| == 0 then lastSequence else snapshots[0]
      ensures Store() == if merged then job.Kept() else job.all
      ensures floor == if merged then job.snapshot else old(floor)
      ensures old(Faithful()) ==> (Faithful() <==> !merged || !job.ExposesSome())
      ensures job.LowerClosed() ==> !job.ExposesSome()
    {
      hide Job.Kept, Job.ExposesSome, Job.LowerClosed, Job.DroppedOnes, Shaped, SetOf, PickedInputs, Outcome, TrivialMove;
      var smallestSnapshot := if |snapshots| == 0 then lastSequence else snapshots[0];
      var w, next;
      ghost var newFloor;
      merged, w, next, job, newFloor, outs := TryCompaction(SetOf(mem), ImmEntries(), current, history, floor, level, f, smallestSnapshot,
                                                      nextFileNumber, lastSequence, sizes, maxFileSize, committed);
      AppendVersion(w, next, newFloor);
    }
  }
}
