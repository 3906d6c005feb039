/** Table files, the levels that hold them, and the searches over one level
    (db/version_set.cc). */
module FileLevels {
  import opened Options
  import opened DbFormat

  const NUM_LEVELS := 7

  /** File metadata together with the entries of the table it names. */
  datatype File = File(number: nat, size: nat, smallest: InternalKey, largest: InternalKey, entries: seq<Entry>)

  ghost predicate GoodFile(f: File) {
    && |f.entries| > 0
    && SortedEntries(f.entries)
    && f.smallest == f.entries[0].key
    && f.largest == f.entries[|f.entries| - 1].key
    && forall e :: e in f.entries ==>
         LessEq(f.smallest, e.key) && LessEq(e.key, f.largest) && e.key.seqno <= MAX_SEQUENCE
  }

  lemma SortedEntriesMakeGoodFile(f: File)
    requires |f.entries| > 0 && SortedEntries(f.entries)
    requires f.smallest == f.entries[0].key && f.largest == f.entries[|f.entries| - 1].key
    requires forall e :: e in f.entries ==> e.key.seqno <= MAX_SEQUENCE
    ensures GoodFile(f)
  {
    forall e | e in f.entries ensures LessEq(f.smallest, e.key) && LessEq(e.key, f.largest) {
      var i :| 0 <= i < |f.entries| && f.entries[i] == e;
      assert i > 0 ==> Precedes(f.entries[0], f.entries[i]);
      assert i < |f.entries| - 1 ==> Precedes(f.entries[i], f.entries[|f.entries| - 1]);
    }
  }

  /** The order of a level's file list: by smallest key, ties broken by number. */
  predicate BySmallest(a: File, b: File) {
    Less(a.smallest, b.smallest) || (a.smallest == b.smallest && a.number < b.number)
  }

  predicate Before(a: File, b: File) {
    Less(a.largest, b.smallest)
  }

  ghost predicate SortedFiles(fs: seq<File>) {
    forall i, j :: 0 <= i < j < |fs| ==> BySmallest(fs[i], fs[j])
  }

  ghost predicate PairwiseDisjoint(fs: seq<File>) {
    forall f, g :: f in fs && g in fs && f != g ==> Before(f, g) || Before(g, f)
  }

  ghost predicate GoodFiles(fs: seq<File>) {
    && (forall f :: f in fs ==> GoodFile(f))
    && (forall f, g {:trigger f in fs, g in fs} :: f in fs && g in fs && f.number == g.number ==> f == g)
    && SortedFiles(fs)
  }

  /** What every level but level 0 is: a sorted run of files that do not overlap. */
  ghost predicate SortedRun(fs: seq<File>) {
    GoodFiles(fs) && PairwiseDisjoint(fs)
  }

  lemma GoodFileOrder(f: File)
    requires GoodFile(f)
    ensures LessEq(f.smallest, f.largest)
    ensures f.smallest.ukey <= f.largest.ukey
    ensures f.smallest.seqno <= MAX_SEQUENCE && f.largest.seqno <= MAX_SEQUENCE
  {
    assert f.entries[0] in f.entries && f.entries[|f.entries| - 1] in f.entries;
  }

  lemma RunOrder(fs: seq<File>, i: nat, j: nat)
    requires SortedRun(fs) && i < j < |fs|
    ensures Before(fs[i], fs[j])
  {
    assert fs[i] in fs && fs[j] in fs;
    assert BySmallest(fs[i], fs[j]);
    GoodFileOrder(fs[i]);
    GoodFileOrder(fs[j]);
  }

  ghost function LevelEntries(fs: seq<File>): set<Entry> {
    set f, e | f in fs && e in f.entries :: e
  }

  // ----- user-key ranges; a missing bound is infinite -----

  type Bound = Option<UserKey>

  predicate AfterFile(k: Bound, f: File) {
    k.Some? && k.value > f.largest.ukey
  }

  predicate BeforeFile(k: Bound, f: File) {
    k.Some? && k.value < f.smallest.ukey
  }

  predicate Overlaps(f: File, lo: Bound, hi: Bound) {
    !AfterFile(lo, f) && !BeforeFile(hi, f)
  }

  /** Binary search for the first file that does not end before `key`. */
  method FindFile(files: seq<File>, key: InternalKey) returns (right: nat)
    requires SortedRun(files)
    ensures right <= |files|
    ensures forall i :: 0 <= i < right ==> Less(files[i].largest, key)
    ensures forall i :: right <= i < |files| ==> LessEq(key, files[i].largest)
  {
    var left := 0;
    right := |files|;
    while left < right
      invariant left <= right <= |files|
      invariant forall i :: 0 <= i < left ==> Less(files[i].largest, key)
      invariant forall i :: right <= i < |files| ==> LessEq(key, files[i].largest)
    {
      var mid := (left + right) / 2;
      forall i | 0 <= i < |files| && i != mid
        ensures if i < mid then Less(files[i].largest, files[mid].largest) else Less(files[mid].largest, files[i].largest)
      {
        assert files[i] in files && files[mid] in files;
        GoodFileOrder(files[i]);
        GoodFileOrder(files[mid]);
        if i < mid { RunOrder(files, i, mid); } else { RunOrder(files, mid, i); }
      }
      if Less(files[mid].largest, key) {
        left := mid + 1;
      } else {
        right := mid;
      }
    }
  }

  method SomeFileOverlapsRange(disjointSorted: bool, files: seq<File>, smallest: Bound, largest: Bound) returns (b: bool)
    requires GoodFiles(files)
    requires disjointSorted ==> SortedRun(files)
    ensures b <==> exists f :: f in files && Overlaps(f, smallest, largest)
  {
    if !disjointSorted {
      for i := 0 to |files|
        invariant forall j :: 0 <= j < i ==> !Overlaps(files[j], smallest, largest)
      {
        if !(AfterFile(smallest, files[i]) || BeforeFile(largest, files[i])) {
          assert files[i] in files;
          return true;
        }
      }
      return false;
    }
    var index := 0;
    if smallest.Some? {
      index := FindFile(files, LookupKey(smallest.value, MAX_SEQUENCE));
    }
    forall i | 0 <= i < |files|
      ensures AfterFile(smallest, files[i]) <==> i < index
      ensures index < i ==> files[index].smallest.ukey <= files[i].smallest.ukey
    {
      assert files[i] in files;
      GoodFileOrder(files[i]);
      if index < i {
        RunOrder(files, index, i);
        GoodFileOrder(files[index]);
      }
    }
    if index >= |files| {
      return false;
    }
    assert files[index] in files;
    b := !BeforeFile(largest, files[index]);
    if !b {
      forall f | f in files ensures !Overlaps(f, smallest, largest) {
        var i :| 0 <= i < |files| && files[i] == f;
      }
    }
  }

  // ----- GetOverlappingInputs -----

  /** Every file that overlaps the range lies inside it. */
  ghost predicate ClosedRange(files: seq<File>, lo: Bound, hi: Bound) {
    forall f :: f in files && Overlaps(f, lo, hi) ==> Inside(f, lo, hi)
  }

  predicate Inside(f: File, lo: Bound, hi: Bound) {
    && (lo.Some? ==> lo.value <= f.smallest.ukey)
    && (hi.Some? ==> f.largest.ukey <= hi.value)
  }

  predicate Within(lo: Bound, hi: Bound, lo': Bound, hi': Bound) {
    && (lo'.Some? ==> lo.Some? && lo'.value <= lo.value)
    && (hi'.Some? ==> hi.Some? && hi.value <= hi'.value)
  }

  /** The files of `files` that overlap [lo,hi], in the same order. */
  function Overlapping(files: seq<File>, lo: Bound, hi: Bound): (r: seq<File>)
    ensures forall f :: f in r <==> f in files && Overlaps(f, lo, hi)
  {
    if files == [] then []
    else
      var r := Overlapping(files[..|files| - 1], lo, hi);
      var f := files[|files| - 1];
      if Overlaps(f, lo, hi) then r + [f] else r
  }

  lemma {:induction false} OverlappingSorted(files: seq<File>, lo: Bound, hi: Bound)
    requires SortedFiles(files)
    ensures SortedFiles(Overlapping(files, lo, hi))
    decreases |files|
  {
    if files != [] {
      var init, f := files[..|files| - 1], files[|files| - 1];
      OverlappingSorted(init, lo, hi);
      var r := Overlapping(init, lo, hi);
      forall i | 0 <= i < |r| ensures BySmallest(r[i], f) {
        assert r[i] in init;
      }
    }
  }

  ghost function StartsBelow(files: seq<File>, lo: Bound): set<File> {
    set f | f in files && lo.Some? && f.smallest.ukey < lo.value
  }

  ghost function EndsAbove(files: seq<File>, hi: Bound): set<File> {
    set f | f in files && hi.Some? && f.largest.ukey > hi.value
  }

  lemma ProperSubset<T>(a: set<T>, b: set<T>, x: T)
    requires a <= b && x in b && x !in a
    ensures |a| < |b|
  {
    assert |b| == |a| + |b - a| by {
      assert a + (b - a) == b && a !! (b - a);
    }
    assert x in b - a;
  }

  /** Every closed range around the range asked for is around this one. */
  ghost predicate InAllClosed(files: seq<File>, begin: Bound, end: Bound, lo: Bound, hi: Bound) {
    forall l, h :: ClosedRange(files, l, h) && Within(begin, end, l, h) ==> Within(lo, hi, l, h)
  }

  /** A file that starts before the range lowers the begin, and there are fewer such files then. */
  lemma BeginLowered(files: seq<File>, begin: Bound, end: Bound, lo: Bound, hi: Bound, f: File)
    requires f in files && Overlaps(f, lo, hi) && lo.Some? && f.smallest.ukey < lo.value
    requires InAllClosed(files, begin, end, lo, hi)
    ensures InAllClosed(files, begin, end, Some(f.smallest.ukey), hi)
    ensures |StartsBelow(files, Some(f.smallest.ukey))| < |StartsBelow(files, lo)|
  {
    forall l, h | ClosedRange(files, l, h) && Within(begin, end, l, h) ensures Within(Some(f.smallest.ukey), hi, l, h) {
      assert Within(lo, hi, l, h) && Overlaps(f, l, h) && Inside(f, l, h);
    }
    ProperSubset(StartsBelow(files, Some(f.smallest.ukey)), StartsBelow(files, lo), f);
  }

  lemma EndRaised(files: seq<File>, begin: Bound, end: Bound, lo: Bound, hi: Bound, f: File)
    requires f in files && Overlaps(f, lo, hi) && hi.Some? && f.largest.ukey > hi.value
    requires InAllClosed(files, begin, end, lo, hi)
    ensures InAllClosed(files, begin, end, lo, Some(f.largest.ukey))
    ensures |EndsAbove(files, Some(f.largest.ukey))| < |EndsAbove(files, hi)|
  {
    forall l, h | ClosedRange(files, l, h) && Within(begin, end, l, h) ensures Within(lo, Some(f.largest.ukey), l, h) {
      assert Within(lo, hi, l, h) && Overlaps(f, l, h) && Inside(f, l, h);
    }
    ProperSubset(EndsAbove(files, Some(f.largest.ukey)), EndsAbove(files, hi), f);
  }

  /** Level 0 grows the range until no file sticks out of it, restarting the scan each time;
      the range found is the least closed one around the range asked for. */
  method GetOverlappingInputs(level: nat, files: seq<File>, begin: Bound, end: Bound)
      returns (inputs: seq<File>, ghost lo: Bound, ghost hi: Bound)
    ensures inputs == Overlapping(files, lo, hi)
    ensures forall f :: f in Overlapping(files, begin, end) ==> f in inputs
    ensures Within(begin, end, lo, hi)
    ensures level > 0 ==> lo == begin && hi == end && inputs == Overlapping(files, begin, end)
    ensures level == 0 ==> ClosedRange(files, lo, hi)
    ensures forall l, h :: ClosedRange(files, l, h) && Within(begin, end, l, h) ==> Within(lo, hi, l, h)
  {
    inputs := [];
    var userBegin, userEnd := begin, end;
    var i := 0;
    while i < |files|
      invariant 0 <= i <= |files|
      invariant Within(begin, end, userBegin, userEnd)
      invariant begin.Some? <==> userBegin.Some?
      invariant end.Some? <==> userEnd.Some?
      invariant level > 0 ==> userBegin == begin && userEnd == end
      invariant inputs == Overlapping(files[..i], userBegin, userEnd)
      invariant level == 0 ==> forall f :: f in inputs ==> Inside(f, userBegin, userEnd)
      invariant InAllClosed(files, begin, end, userBegin, userEnd)
      decreases |StartsBelow(files, userBegin)| + |EndsAbove(files, userEnd)|, |files| - i
    {
      var f := files[i];
      i := i + 1;
      assert files[..i][..i - 1] == files[..i - 1];
      if begin.Some? && f.largest.ukey < userBegin.value {
        // completely before the range
      } else if end.Some? && f.smallest.ukey > userEnd.value {
        // completely after the range
      } else {
        inputs := inputs + [f];
        if level == 0 {
          if begin.Some? && f.smallest.ukey < userBegin.value {
            BeginLowered(files, begin, end, userBegin, userEnd, f);
            userBegin := Some(f.smallest.ukey);
            inputs := [];
            i := 0;
          } else if end.Some? && f.largest.ukey > userEnd.value {
            EndRaised(files, begin, end, userBegin, userEnd, f);
            userEnd := Some(f.largest.ukey);
            inputs := [];
            i := 0;
          }
        }
      }
    }
    lo, hi := userBegin, userEnd;
    assert files[..|files|] == files;
  }

  // ----- AddBoundaryInputs -----

  method FindLargestKey(files: seq<File>) returns (r: Option<InternalKey>)
    ensures r.None? <==> files == []
    ensures r.Some? ==> (exists f :: f in files && f.largest == r.value)
    ensures r.Some? ==> forall f :: f in files ==> LessEq(f.largest, r.value)
  {
    if files == [] {
      return None;
    }
    var k := files[0].largest;
    for i := 1 to |files|
      invariant exists f :: f in files && f.largest == k
      invariant forall j :: 0 <= j < i ==> LessEq(files[j].largest, k)
    {
      if Less(k, files[i].largest) {
        k := files[i].largest;
        assert files[i] in files;
      }
    }
    return Some(k);
  }

  /** A file that starts after `k` on the same user key. */
  predicate BoundaryFile(f: File, k: InternalKey) {
    Less(k, f.smallest) && f.smallest.ukey == k.ukey
  }

  method FindSmallestBoundaryFile(levelFiles: seq<File>, largestKey: InternalKey) returns (r: Option<File>)
    ensures r.None? ==> forall f :: f in levelFiles ==> !BoundaryFile(f, largestKey)
    ensures r.Some? ==> r.value in levelFiles && BoundaryFile(r.value, largestKey)
    ensures r.Some? ==> forall f :: f in levelFiles && BoundaryFile(f, largestKey) ==> LessEq(r.value.smallest, f.smallest)
  {
    r := None;
    for i := 0 to |levelFiles|
      invariant r.None? ==> forall j :: 0 <= j < i ==> !BoundaryFile(levelFiles[j], largestKey)
      invariant r.Some? ==> r.value in levelFiles && BoundaryFile(r.value, largestKey)
      invariant r.Some? ==> forall j :: 0 <= j < i && BoundaryFile(levelFiles[j], largestKey) ==>
                              LessEq(r.value.smallest, levelFiles[j].smallest)
    {
      var f := levelFiles[i];
      if Less(largestKey, f.smallest) && f.smallest.ukey == largestKey.ukey {
        if r.None? || Less(f.smallest, r.value.smallest) {
          r := Some(f);
        }
      }
    }
  }

  /** No file of the level lies, in start order, between two files of `part` without being in it. */
  ghost predicate Contiguous(files: seq<File>, part: seq<File>) {
    forall f, g, h ::
      f in part && h in part && g in files
      && Less(f.smallest, g.smallest) && Less(g.smallest, h.smallest)
      ==> g in part
  }

  /** `f` continues the last user key of some file of `part`. */
  ghost predicate Continues(f: File, part: seq<File>) {
    exists h :: h in part && BoundaryFile(f, h.largest)
  }

  ghost predicate NothingContinues(files: seq<File>, part: seq<File>) {
    forall g :: g in files && Continues(g, part) ==> g in part
  }

  /** `last` ends `part`, and no file of the level continues its last user key. */
  ghost predicate EndsCleanly(files: seq<File>, part: seq<File>, last: File) {
    && last in part
    && (forall f :: f in part ==> LessEq(f.largest, last.largest))
    && forall f :: f in files ==> !BoundaryFile(f, last.largest)
  }

  method AddBoundaryInputs(levelFiles: seq<File>, files: seq<File>) returns (r: seq<File>, ghost last: File)
    requires forall f :: f in levelFiles ==> GoodFile(f)
    requires forall f :: f in files ==> f in levelFiles
    ensures files <= r && (files == [] ==> r == [])
    ensures forall f :: f in r ==> f in levelFiles
    ensures r != [] ==> EndsCleanly(levelFiles, r, last)
    ensures PairwiseDisjoint(levelFiles) && Contiguous(levelFiles, files) ==> Contiguous(levelFiles, r)
    ensures forall f :: f in r ==> f in files || Continues(f, r)
    ensures NothingContinues(levelFiles, files) ==> r == files
    ensures SortedFiles(files) ==> SortedFiles(r)
  {
    r := files;
    var largest := FindLargestKey(files);
    if largest.None? {
      last :| true;
      return;
    }
    var largestKey := largest.value;
    last :| last in files && last.largest == largestKey;
    var continueSearching := true;
    while continueSearching
      invariant Chain(levelFiles, files, r, last)
      invariant last.largest == largestKey
      invariant !continueSearching ==> forall f :: f in levelFiles ==> !BoundaryFile(f, largestKey)
      decreases |FilesAfter(levelFiles, largestKey)|, continueSearching
    {
      var next := FindSmallestBoundaryFile(levelFiles, largestKey);
      if next.Some? {
        ChainStep(levelFiles, files, r, last, next.value);
        r, largestKey, last := r + [next.value], next.value.largest, next.value;
      } else {
        continueSearching := false;
      }
    }
  }

  /** `r` extends `files` by boundary files only, and `last` ends it. */
  ghost predicate Chain(levelFiles: seq<File>, files: seq<File>, r: seq<File>, last: File) {
    && files <= r
    && (forall f :: f in r ==> f in levelFiles)
    && last in r
    && (forall f :: f in r ==> LessEq(f.largest, last.largest))
    && (PairwiseDisjoint(levelFiles) && Contiguous(levelFiles, files) ==> Contiguous(levelFiles, r))
    && (forall f :: f in r ==> f in files || Continues(f, r))
    && (r == files || !NothingContinues(levelFiles, files))
    && (SortedFiles(files) ==> SortedFiles(r))
  }

  ghost function FilesAfter(files: seq<File>, k: InternalKey): set<File> {
    set f | f in files && Less(k, f.smallest)
  }

  lemma ChainStep(levelFiles: seq<File>, files: seq<File>, r: seq<File>, last: File, g: File)
    requires forall f :: f in levelFiles ==> GoodFile(f)
    requires Chain(levelFiles, files, r, last)
    requires g in levelFiles && BoundaryFile(g, last.largest)
    requires forall f :: f in levelFiles && BoundaryFile(f, last.largest) ==> LessEq(g.smallest, f.smallest)
    ensures Chain(levelFiles, files, r + [g], g)
    ensures |FilesAfter(levelFiles, g.largest)| < |FilesAfter(levelFiles, last.largest)|
  {
    GoodFileOrder(g);
    if PairwiseDisjoint(levelFiles) && Contiguous(levelFiles, files) {
      ContiguousExtend(levelFiles, r, last, g);
    }
    ContinuesExtend(files, r, last, g);
    if r == files {
      SomethingContinues(levelFiles, r, last, g);
    }
    SortedExtend(r, last, g);
    forall f | f in r + [g] ensures LessEq(f.largest, g.largest) {
      assert f in r ==> LessEq(f.largest, last.largest);
    }
    FewerAfter(levelFiles, last.largest, g);
  }

  lemma FewerAfter(files: seq<File>, k: InternalKey, g: File)
    requires g in files && Less(k, g.smallest) && LessEq(g.smallest, g.largest)
    ensures |FilesAfter(files, g.largest)| < |FilesAfter(files, k)|
  {
    ProperSubset(FilesAfter(files, g.largest), FilesAfter(files, k), g);
  }

  lemma SortedExtend(r: seq<File>, last: File, g: File)
    requires forall f :: f in r ==> GoodFile(f) && LessEq(f.largest, last.largest)
    requires Less(last.largest, g.smallest)
    ensures SortedFiles(r) ==> SortedFiles(r + [g])
  {
    forall i | 0 <= i < |r| ensures BySmallest(r[i], g) {
      assert r[i] in r;
      GoodFileOrder(r[i]);
    }
  }

  lemma SomethingContinues(levelFiles: seq<File>, r: seq<File>, last: File, g: File)
    requires g in levelFiles && BoundaryFile(g, last.largest) && LessEq(g.smallest, g.largest)
    requires last in r && forall f :: f in r ==> LessEq(f.largest, last.largest)
    ensures !NothingContinues(levelFiles, r)
  {
    assert Continues(g, r);
  }

  lemma ContinuesExtend(files: seq<File>, part: seq<File>, last: File, g: File)
    requires last in part && BoundaryFile(g, last.largest)
    requires forall f :: f in part ==> f in files || Continues(f, part)
    ensures forall f :: f in part + [g] ==> f in files || Continues(f, part + [g])
  {
    forall f | f in part + [g] ensures f in files || Continues(f, part + [g]) {
      if f == g {
        assert last in part + [g];
      } else if f !in files {
        var h :| h in part && BoundaryFile(f, h.largest);
        assert h in part + [g];
      }
    }
  }

  lemma ContiguousExtend(files: seq<File>, part: seq<File>, top: File, g: File)
    requires forall f :: f in files ==> GoodFile(f)
    requires forall f :: f in part ==> f in files
    requires PairwiseDisjoint(files) && Contiguous(files, part)
    requires top in part
    requires forall f :: f in part ==> LessEq(f.largest, top.largest)
    requires g in files && BoundaryFile(g, top.largest)
    requires forall f :: f in files && BoundaryFile(f, top.largest) ==> LessEq(g.smallest, f.smallest)
    ensures Contiguous(files, part + [g])
  {
    forall f, x, h | f in part + [g] && h in part + [g] && x in files && Less(f.smallest, x.smallest) && Less(x.smallest, h.smallest)
      ensures x in part + [g]
    {
      GoodFileOrder(f); GoodFileOrder(h); GoodFileOrder(x); GoodFileOrder(top); GoodFileOrder(g);
      if h == g {
        // x starts before g, so it does not start after k; then it starts no later than top
        assert !BoundaryFile(x, top.largest);
        assert x == top || Before(x, top) || Before(top, x);
      }
    }
  }
}
