/** The input of a compaction: a merging iterator over its files, read to the end
    (VersionSet::MakeInputIterator in db/version_set.cc). */
module MergeInput {
  import opened DbFormat
  import opened FileLevels
  import opened Version
  import opened CompactionInputs
  import opened Compaction
  import opened Install
  import opened Iterators

  lemma {:induction false} LeastExists(es: set<Entry>) returns (least: Entry)
    requires es != {} && UniqueSeqnos(es)
    ensures least in es && forall e :: e in es && e != least ==> Precedes(least, e)
    decreases |es|
  {
    var x :| x in es;
    if es == {x} {
      return x;
    }
    var rest := es - {x};
    least := LeastExists(rest);
    if !Precedes(least, x) {
      forall e | e in es && e != x ensures Precedes(x, e) {
        assert e in rest;
        assert x.key.ukey == least.key.ukey && x.key.seqno == least.key.seqno ==> x == least;
      }
      least := x;
    }
  }

  /** Entries with unique sequence numbers can be listed in key order. */
  lemma {:induction false} SortedListing(es: set<Entry>) returns (r: seq<Entry>)
    requires UniqueSeqnos(es)
    ensures SortedEntries(r) && SetOf(r) == es
    decreases |es|
  {
    if es == {} {
      return [];
    }
    var least := LeastExists(es);
    var rest := SortedListing(es - {least});
    r := [least] + rest;
    forall i | 0 < i < |r| ensures Precedes(r[0], r[i]) {
      assert r[i] in SetOf(rest);
    }
    assert SetOf(r) == {least} + SetOf(rest);
  }

  lemma NoEntries(es: seq<Entry>)
    ensures SetOf(es) == {} <==> es == []
  {
    if es != [] {
      assert es[0] in SetOf(es);
    }
  }

  lemma LeastFirst(es: seq<Entry>)
    requires SortedEntries(es) && es != []
    ensures forall e :: e in SetOf(es) && e != es[0] ==> Precedes(es[0], e)
    ensures SetOf(es[1..]) == SetOf(es) - {es[0]} && SortedEntries(es[1..])
  {
    forall e | e in es[1..] ensures Precedes(es[0], e) {
      var i :| 0 < i < |es| && es[i] == e;
    }
    assert es == [es[0]] + es[1..];
  }

  /** There is one listing in key order. */
  lemma {:induction false} SortedSame(x: seq<Entry>, y: seq<Entry>)
    requires SortedEntries(x) && SortedEntries(y) && SetOf(x) == SetOf(y)
    ensures x == y
    decreases |x|
  {
    if x == [] || y == [] {
      NoEntries(x);
      NoEntries(y);
      return;
    }
    LeastFirst(x);
    LeastFirst(y);
    assert x[0] in SetOf(y) && y[0] in SetOf(x);
    assert x[0] == y[0];
    SortedSame(x[1..], y[1..]);
  }

  ghost function UnionOf(runs: seq<seq<Entry>>): set<Entry> {
    set i, e | 0 <= i < |runs| && e in runs[i] :: e
  }

  /** Sorted runs that share no entry and no sequence number of a key. */
  ghost predicate GoodRuns(runs: seq<seq<Entry>>) {
    && (forall i :: 0 <= i < |runs| ==> SortedEntries(runs[i]))
    && (forall i, j, e :: 0 <= i < j < |runs| && e in runs[i] ==> e !in runs[j])
    && UniqueSeqnos(UnionOf(runs))
  }

  method NewChildren(runs: seq<seq<Entry>>) returns (children: seq<Cursor>)
    requires forall i :: 0 <= i < |runs| ==> SortedEntries(runs[i]) && KeysFit(runs[i])
    ensures |children| == |runs|
    ensures forall i :: 0 <= i < |runs| ==> fresh(children[i].Repr) && children[i].Valid() && children[i].entries == runs[i]
    ensures forall i, j :: 0 <= i < j < |children| ==> children[i].Repr !! children[j].Repr
  {
    hide Cursor.Valid, SortedEntries, KeysFit;
    children := [];
    for i := 0 to |runs|
      invariant |children| == i
      invariant forall j :: 0 <= j < i ==> fresh(children[j].Repr) && children[j].Valid() && children[j].entries == runs[j]
      invariant forall j, k :: 0 <= j < k < |children| ==> children[j].Repr !! children[k].Repr
    {
      var c := new Cursor.OfRun(runs[i]);
      children := children + [c];
    }
  }

  ghost predicate KeysFitIn(es: set<Entry>) {
    forall e :: e in es ==> e.key.seqno <= MAX_SEQUENCE
  }

  /** From the first entry to the last. */
  method ReadAll(iter: MergingIterator) returns (input: seq<Entry>)
    requires iter.Valid()
    modifies iter.Repr
    ensures iter.Valid() && fresh(iter.Repr - old(iter.Repr)) && input == iter.merged
  {
    hide MergingIterator.Valid, SortedEntries;
    iter.SeekToFirst();
    input := [];
    while iter.Positioned()
      invariant iter.Valid() && fresh(iter.Repr - old(iter.Repr)) && input == iter.merged[..iter.pos]
      decreases |iter.merged| - iter.pos
    {
      var e := iter.Current();
      input := input + [e];
      iter.Next();
    }
    assert iter.merged[..|iter.merged|] == iter.merged;
  }

  method MergeRuns(runs: seq<seq<Entry>>) returns (input: seq<Entry>)
    requires GoodRuns(runs) && KeysFitIn(UnionOf(runs))
    ensures SortedEntries(input) && SetOf(input) == UnionOf(runs)
  {
    hide Cursor.Valid, MergingIterator.Valid, SortedEntries;
    var children := NewChildren(runs);
    ghost var merged := SortedListing(UnionOf(runs));
    assert forall e :: e in merged <==> e in UnionOf(runs);
    var iter := new MergingIterator(children, merged);
    input := ReadAll(iter);
  }

  /** A list of sorted files read through its file index is one sorted run. */
  lemma {:induction false} ConcatenationSorted(level: nat, fs: seq<File>, part: seq<File>)
    requires level > 0 && ShapedLevel(level, fs)
    requires SortedFiles(part) && forall f :: f in part ==> f in fs
    ensures SortedEntries(Flatten(part)) && SetOf(Flatten(part)) == LevelEntries(part)
    decreases |part|
  {
    if part != [] {
      var init, f := part[..|part| - 1], part[|part| - 1];
      ConcatenationSorted(level, fs, init);
      assert part == init + [f];
      LevelEntriesAppend(init, f);
      var es := Flatten(init);
      forall i, j | 0 <= i < |es| && 0 <= j < |f.entries| ensures Precedes(es[i], f.entries[j]) {
        assert es[i] in SetOf(es);
        var g :| g in init && es[i] in g.entries;
        var k :| 0 <= k < |init| && init[k] == g;
        assert BySmallest(part[k], part[|part| - 1]);
        EarlierFile(level, fs, g, f, es[i], f.entries[j]);
      }
      assert f in part;
      AppendSorted(es, f.entries);
    }
  }

  lemma AppendSorted(a: seq<Entry>, b: seq<Entry>)
    requires SortedEntries(a) && SortedEntries(b)
    requires forall i, j :: 0 <= i < |a| && 0 <= j < |b| ==> Precedes(a[i], b[j])
    ensures SortedEntries(a + b) && SetOf(a + b) == SetOf(a) + SetOf(b)
  {
  }

  lemma EarlierFile(level: nat, fs: seq<File>, g: File, f: File, e: Entry, x: Entry)
    requires level > 0 && ShapedLevel(level, fs) && g in fs && f in fs && BySmallest(g, f)
    requires e in g.entries && x in f.entries
    ensures Precedes(e, x)
  {
    GoodFileOrder(g);
    GoodFileOrder(f);
    assert g != f;
    assert Before(g, f);
    assert Above(level, g, f);
    PrecedesIsLess(e, x);
  }

  lemma InputPlace(v: Levels, level: nat, i0: seq<File>, i1: seq<File>, a: InternalKey, b: InternalKey, e: Entry)
      returns (l: nat, f: File)
    requires Shaped(v) && GoodInputs(v, level, i0, i1, a, b) && e in InputEntries(i0, i1)
    ensures l < |v| && f in v[l] && e in f.entries && ShapedLevel(l, v[l])
    ensures (l == level && f in i0) || (l == level + 1 && f in i1)
  {
    if e in LevelEntries(i0) {
      l, f := level, var f :| f in i0 && e in f.entries; f;
    } else {
      l, f := level + 1, var f :| f in i1 && e in f.entries; f;
    }
    assert ShapedLevel(l, v[l]);
  }

  lemma InputsUnique(v: Levels, level: nat, i0: seq<File>, i1: seq<File>, a: InternalKey, b: InternalKey)
    requires Shaped(v) && GoodInputs(v, level, i0, i1, a, b)
    ensures UniqueSeqnos(InputEntries(i0, i1))
    ensures forall e :: e in InputEntries(i0, i1) ==> e.key.seqno <= MAX_SEQUENCE
  {
    forall e, x | e in InputEntries(i0, i1) && x in InputEntries(i0, i1) && e.key.ukey == x.key.ukey && e.key.seqno == x.key.seqno
      ensures e == x
    {
      var l, f := InputPlace(v, level, i0, i1, a, b, e);
      var m, g := InputPlace(v, level, i0, i1, a, b, x);
      OnePlace(v, l, f, e, m, g, x);
    }
    forall e | e in InputEntries(i0, i1) ensures e.key.seqno <= MAX_SEQUENCE {
      var l, f := InputPlace(v, level, i0, i1, a, b, e);
    }
  }

  lemma InputsApart(v: Levels, level: nat, i0: seq<File>, i1: seq<File>, a: InternalKey, b: InternalKey)
    requires Shaped(v) && GoodInputs(v, level, i0, i1, a, b)
    ensures LevelEntries(i0) !! LevelEntries(i1)
  {
    forall e | e in LevelEntries(i0) && e in LevelEntries(i1) ensures false {
      var f :| f in i0 && e in f.entries;
      var g :| g in i1 && e in g.entries;
      OnePlace(v, level, f, e, level + 1, g, e);
    }
  }

  /** Runs that together hold `es`, none of it twice. */
  ghost predicate RunsOf(runs: seq<seq<Entry>>, es: set<Entry>) {
    && (forall i :: 0 <= i < |runs| ==> SortedEntries(runs[i]))
    && (forall i, j, e :: 0 <= i < j < |runs| && e in runs[i] ==> e !in runs[j])
    && UnionOf(runs) == es
  }

  function EntriesOf(files: seq<File>): seq<seq<Entry>> {
    seq(|files|, i requires 0 <= i < |files| => files[i].entries)
  }

  /** Level-0 files are merged one by one. */
  lemma FileRuns(v: Levels, files: seq<File>)
    requires Shaped(v) && SortedFiles(files) && forall f :: f in files ==> f in v[0]
    ensures RunsOf(EntriesOf(files), LevelEntries(files))
  {
    var runs := EntriesOf(files);
    assert ShapedLevel(0, v[0]);
    forall i | 0 <= i < |runs| ensures SortedEntries(runs[i]) && files[i] in v[0] {
      assert files[i] in files;
    }
    forall i, j, e | 0 <= i < j < |runs| && e in runs[i] ensures e !in runs[j] {
      assert BySmallest(files[i], files[j]);
      if e in runs[j] {
        OnePlace(v, 0, files[i], e, 0, files[j], e);
      }
    }
    forall e ensures e in UnionOf(runs) <==> e in LevelEntries(files) {
      if e in LevelEntries(files) {
        var f :| f in files && e in f.entries;
        var i :| 0 <= i < |files| && files[i] == f;
        assert e in runs[i];
      }
      if e in UnionOf(runs) {
        var i :| 0 <= i < |runs| && e in runs[i];
        assert files[i] in files;
      }
    }
  }

  /** The files of a deeper level are read as one run. */
  lemma LevelRun(level: nat, fs: seq<File>, files: seq<File>)
    requires level > 0 && ShapedLevel(level, fs)
    requires SortedFiles(files) && forall f :: f in files ==> f in fs
    ensures RunsOf([Flatten(files)], LevelEntries(files))
  {
    ConcatenationSorted(level, fs, files);
    var runs := [Flatten(files)];
    forall e ensures e in UnionOf(runs) <==> e in LevelEntries(files) {
      assert e in Flatten(files) <==> e in SetOf(Flatten(files));
      assert e in UnionOf(runs) <==> e in runs[0];
    }
  }

  lemma RunsTogether(x: seq<seq<Entry>>, y: seq<seq<Entry>>, a: set<Entry>, b: set<Entry>)
    requires RunsOf(x, a) && RunsOf(y, b) && a !! b
    ensures RunsOf(x + y, a + b)
  {
    var runs := x + y;
    forall i, e | 0 <= i < |runs| && e in runs[i] ensures if i < |x| then e in a else e in b {
      if i < |x| {
        assert e in x[i];
      } else {
        assert e in y[i - |x|];
      }
    }
    forall i, j, e | 0 <= i < j < |runs| && e in runs[i] ensures e !in runs[j] {
      assert i < |x| ==> runs[i] == x[i];
      assert i >= |x| ==> runs[i] == y[i - |x|];
      assert j < |x| ==> runs[j] == x[j];
      assert j >= |x| ==> runs[j] == y[j - |x|];
      assert e in runs[j] ==> if j < |x| then e in a else e in b;
    }
    forall e ensures e in UnionOf(runs) <==> e in a || e in b {
      if e in a {
        var i :| 0 <= i < |x| && e in x[i];
        assert e in runs[i];
      }
      if e in b {
        var i :| 0 <= i < |y| && e in y[i];
        assert e in runs[|x| + i];
      }
    }
  }

  /** Every entry of the input files, once and in key order. */
  method MakeInputIterator(v: Levels, level: nat, i0: seq<File>, i1: seq<File>, ghost a: InternalKey, ghost b: InternalKey)
      returns (input: seq<Entry>)
    requires Shaped(v) && GoodInputs(v, level, i0, i1, a, b)
    ensures SortedEntries(input) && SetOf(input) == InputEntries(i0, i1)
    ensures forall e :: e in input ==> e.key.seqno <= MAX_SEQUENCE
  {
    InputsUnique(v, level, i0, i1, a, b);
    InputsApart(v, level, i0, i1, a, b);
    assert ShapedLevel(level, v[level]) && ShapedLevel(level + 1, v[level + 1]);
    var upper;
    if level == 0 {
      FileRuns(v, i0);
      upper := EntriesOf(i0);
    } else {
      LevelRun(level, v[level], i0);
      upper := [Flatten(i0)];
    }
    LevelRun(level + 1, v[level + 1], i1);
    var lower := [Flatten(i1)];
    RunsTogether(upper, lower, LevelEntries(i0), LevelEntries(i1));
    input := MergeRuns(upper + lower);
    assert forall e :: e in input <==> e in SetOf(input);
  }
}
