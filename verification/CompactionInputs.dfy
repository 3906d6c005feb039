/** Choosing the files of a compaction (VersionSet::PickCompaction and SetupOtherInputs
    in db/version_set.cc). */
module CompactionInputs {
  import opened Options
  import opened DbFormat
  import opened FileLevels
  import opened Version

  ghost predicate InRange(files: seq<File>, a: InternalKey, b: InternalKey) {
    forall f :: f in files ==> LessEq(a, f.smallest) && LessEq(f.largest, b)
  }

  /** [a,b] is the smallest range of internal keys that covers the files. */
  ghost predicate IsRange(files: seq<File>, a: InternalKey, b: InternalKey) {
    && InRange(files, a, b)
    && (exists f :: f in files && f.smallest == a)
    && (exists f :: f in files && f.largest == b)
  }

  method GetRange(inputs: seq<File>) returns (smallest: InternalKey, largest: InternalKey)
    requires inputs != []
    ensures IsRange(inputs, smallest, largest)
  {
    smallest, largest := inputs[0].smallest, inputs[0].largest;
    for i := 1 to |inputs|
      invariant forall f :: f in inputs[..i] ==> LessEq(smallest, f.smallest) && LessEq(f.largest, largest)
      invariant exists f :: f in inputs && f.smallest == smallest
      invariant exists f :: f in inputs && f.largest == largest
    {
      var f := inputs[i];
      assert f in inputs;
      if Less(f.smallest, smallest) {
        smallest := f.smallest;
      }
      if Less(largest, f.largest) {
        largest := f.largest;
      }
    }
    assert inputs[..|inputs|] == inputs;
  }

  function SumSizes(files: seq<File>): nat {
    if files == [] then 0 else SumSizes(files[..|files| - 1]) + files[|files| - 1].size
  }

  method TotalFileSize(files: seq<File>) returns (sum: nat)
    ensures sum == SumSizes(files)
  {
    sum := 0;
    for i := 0 to |files|
      invariant sum == SumSizes(files[..i])
    {
      assert files[..i + 1][..i] == files[..i];
      sum := sum + files[i].size;
    }
    assert files[..|files|] == files;
  }

  /** The bytes of the files that reach into the range of user keys. */
  function OverlapBytes(files: seq<File>, lo: UserKey, hi: UserKey): nat {
    if files == [] then 0
    else
      var f := files[|files| - 1];
      OverlapBytes(files[..|files| - 1], lo, hi) + if lo <= f.largest.ukey && f.smallest.ukey <= hi then f.size else 0
  }

  lemma {:induction false} OverlappingBytes(files: seq<File>, lo: UserKey, hi: UserKey)
    ensures SumSizes(Overlapping(files, Some(lo), Some(hi))) == OverlapBytes(files, lo, hi)
    decreases |files|
  {
    if files != [] {
      var init, f := files[..|files| - 1], files[|files| - 1];
      OverlappingBytes(init, lo, hi);
      var r := Overlapping(init, Some(lo), Some(hi));
      assert (r + [f])[..|r|] == r;
    }
  }

  /** The user-key ranges of two files do not meet. */
  predicate Apart(f: File, g: File) {
    f.largest.ukey < g.smallest.ukey || g.largest.ukey < f.smallest.ukey
  }

  /** Inputs of the upper level before boundary files are added. */
  ghost predicate SeedInputs(v: Levels, level: nat, files: seq<File>)
    requires level < |v|
  {
    && (forall f :: f in files ==> f in v[level])
    && SortedFiles(files)
    && if level == 0 then forall f, g :: f in files && g in v[0] && g !in files ==> Apart(f, g)
       else Contiguous(v[level], files)
  }

  /** What a left-out file of the upper level holds for a user key of an input file is newer. */
  ghost predicate UpperClosed(v: Levels, level: nat, i0: seq<File>)
    requires level < |v|
  {
    forall f, g :: f in i0 && g in v[level] && g !in i0 ==> Newer(g, f)
  }

  /** The inputs of a compaction of `level` into `level + 1` that covers [a,b] in the upper level. */
  ghost predicate GoodInputs(v: Levels, level: nat, i0: seq<File>, i1: seq<File>, a: InternalKey, b: InternalKey) {
    && |v| == NUM_LEVELS && level + 1 < |v|
    && i0 != [] && SortedFiles(i0) && SortedFiles(i1)
    && (forall f :: f in i0 ==> f in v[level])
    && UpperClosed(v, level, i0)
    && InRange(i0, a, b)
    && forall g :: g in i1 <==> g in v[level + 1] && Overlaps(g, Some(a.ukey), Some(b.ukey))
  }

  lemma ApartIsNewer(f: File, g: File)
    requires GoodFile(f) && GoodFile(g) && Apart(f, g)
    ensures Newer(f, g)
  {
    forall e, x | e in f.entries && x in g.entries ensures e.key.ukey != x.key.ukey {
    }
  }

  lemma SeedsCloseUpper(v: Levels, level: nat, i0: seq<File>, last: File)
    requires Shaped(v) && level < |v|
    requires SeedInputs(v, level, i0)
    requires level > 0 ==> i0 != [] ==> EndsCleanly(v[level], i0, last)
    ensures UpperClosed(v, level, i0)
  {
    assert ShapedLevel(level, v[level]);
    forall f, g | f in i0 && g in v[level] && g !in i0 ensures Newer(g, f) {
      if level == 0 {
        ApartIsNewer(g, f);
      } else {
        LeftOutOfRun(level, v[level], i0, last, f, g);
      }
    }
  }

  lemma LeftOutOfRun(level: nat, fs: seq<File>, i0: seq<File>, last: File, f: File, g: File)
    requires level > 0 && ShapedLevel(level, fs)
    requires forall f :: f in i0 ==> f in fs
    requires Contiguous(fs, i0) && EndsCleanly(fs, i0, last)
    requires f in i0 && g in fs && g !in i0
    ensures Newer(g, f)
  {
    GoodFileOrder(f); GoodFileOrder(g); GoodFileOrder(last);
    if Before(g, f) {
      assert Above(level, g, f);
    } else {
      assert Before(f, g);
      // g starts after f, so by contiguity after every input; and it does not continue the last key
      assert Before(last, g) || Before(g, last);
      assert !BoundaryFile(g, last.largest);
      forall e, x | e in g.entries && x in f.entries ensures e.key.ukey != x.key.ukey {
        assert LessEq(x.key, f.largest) && LessEq(f.largest, last.largest) && LessEq(g.smallest, e.key);
      }
    }
  }

  lemma OverlappingIsSeed(v: Levels, level: nat, files: seq<File>, lo: Bound, hi: Bound)
    requires Shaped(v) && level < |v|
    requires files == Overlapping(v[level], lo, hi)
    requires level == 0 ==> ClosedRange(v[0], lo, hi)
    ensures SeedInputs(v, level, files)
  {
    assert ShapedLevel(level, v[level]);
    OverlappingSorted(v[level], lo, hi);
    if level > 0 {
      forall f, g, h | f in files && h in files && g in v[level] && Less(f.smallest, g.smallest) && Less(g.smallest, h.smallest)
        ensures g in files
      {
        GoodFileOrder(f); GoodFileOrder(g); GoodFileOrder(h);
        assert Before(f, g) && Before(g, h);
      }
    }
  }

  /** Boundary files keep a seed a seed; at level 0 there are none to add. */
  lemma BoundaryKeepsSeed(v: Levels, level: nat, files: seq<File>, r: seq<File>)
    requires Shaped(v) && level < |v|
    requires SeedInputs(v, level, files)
    requires forall f :: f in r ==> f in v[level]
    requires PairwiseDisjoint(v[level]) && Contiguous(v[level], files) ==> Contiguous(v[level], r)
    requires NothingContinues(v[level], files) ==> r == files
    requires SortedFiles(r)
    ensures SeedInputs(v, level, r)
  {
    assert ShapedLevel(level, v[level]);
    if level == 0 {
      forall g | g in v[0] && Continues(g, files) ensures g in files {
        var h :| h in files && BoundaryFile(g, h.largest);
        GoodFileOrder(g); GoodFileOrder(h);
        assert !Apart(h, g);
      }
    }
  }

  /** One step of input selection: close `files` under boundary files, then take what they overlap below. */
  method CloseInputs(v: Levels, level: nat, files: seq<File>)
      returns (i0: seq<File>, i1: seq<File>, smallest: InternalKey, largest: InternalKey)
    requires Shaped(v) && level + 1 < NUM_LEVELS
    requires files != [] && SeedInputs(v, level, files)
    ensures files <= i0 && (forall f :: f in i0 ==> f in files || Continues(f, i0))
    ensures GoodInputs(v, level, i0, i1, smallest, largest) && IsRange(i0, smallest, largest)
  {
    assert ShapedLevel(level, v[level]);
    ghost var last, lo, hi;
    i0, last := AddBoundaryInputs(v[level], files);
    BoundaryKeepsSeed(v, level, files, i0);
    SeedsCloseUpper(v, level, i0, last);
    smallest, largest := GetRange(i0);
    i1, lo, hi := GetOverlappingInputs(level + 1, v[level + 1], Some(smallest.ukey), Some(largest.ukey));
    assert ShapedLevel(level + 1, v[level + 1]);
    OverlappingSorted(v[level + 1], lo, hi);
  }

  /** The range that the upper level is searched for: that of all inputs, at level 0 the least closed one around it. */
  ghost predicate SearchRange(v: Levels, level: nat, inputs: seq<File>, lo: Bound, hi: Bound) {
    && level < |v|
    && exists a, b :: IsRange(inputs, a, b) &&
         if level > 0 then lo == Some(a.ukey) && hi == Some(b.ukey)
         else && Within(Some(a.ukey), Some(b.ukey), lo, hi)
              && ClosedRange(v[0], lo, hi) && InAllClosed(v[0], Some(a.ukey), Some(b.ukey), lo, hi)
  }

  /** All that overlaps the range, closed under boundary files. */
  ghost predicate Gathers(files: seq<File>, lo: Bound, hi: Bound, c0: seq<File>) {
    && (forall f :: f in files && Overlaps(f, lo, hi) ==> f in c0)
    && (forall f :: f in c0 ==> Overlaps(f, lo, hi) || Continues(f, c0))
  }

  ghost predicate HasRange(v: Levels, level: nat, i0: seq<File>, i1: seq<File>) {
    exists a, b :: GoodInputs(v, level, i0, i1, a, b) && IsRange(i0, a, b)
  }

  /** The inputs that everything the whole range overlaps in the upper level gives. */
  ghost predicate GrownFrom(v: Levels, level: nat, i0: seq<File>, i1: seq<File>, c0: seq<File>, c1: seq<File>) {
    && level < |v| && HasRange(v, level, c0, c1)
    && exists lo, hi :: SearchRange(v, level, i0 + i1, lo, hi) && Gathers(v[level], lo, hi, c0)
  }

  /** The upper inputs are grown exactly when there is something to gain, the bytes are below the limit, and no
      further lower file comes in. */
  ghost predicate Grown(v: Levels, level: nat, maxFileSize: nat, i0: seq<File>, i1: seq<File>, e0: seq<File>, e1: seq<File>) {
    exists c0, c1 :: GrownFrom(v, level, i0, i1, c0, c1) && Decides(maxFileSize, i0, i1, c0, c1, e0, e1)
  }

  predicate Decides(maxFileSize: nat, i0: seq<File>, i1: seq<File>, c0: seq<File>, c1: seq<File>, e0: seq<File>, e1: seq<File>) {
    if |c0| > |i0| && SumSizes(i1) + SumSizes(c0) < 25 * maxFileSize && |c1| == |i1| then e0 == c0 && e1 == c1
    else e0 == i0 && e1 == i1
  }

  /** Everything the whole range overlaps in the upper level, and what that overlaps below. */
  method Candidates(v: Levels, level: nat, i0: seq<File>, i1: seq<File>, ghost smallest: InternalKey, ghost largest: InternalKey)
      returns (c0: seq<File>, c1: seq<File>, newStart: InternalKey, newLimit: InternalKey)
    requires Shaped(v) && GoodInputs(v, level, i0, i1, smallest, largest)
    ensures GoodInputs(v, level, c0, c1, newStart, newLimit) && IsRange(c0, newStart, newLimit)
    ensures (forall f :: f in i0 ==> f in c0) && GrownFrom(v, level, i0, i1, c0, c1)
  {
    hide GrownFrom, SeedInputs, Continues;
    assert ShapedLevel(level, v[level]);
    var allStart, allLimit := GetRange(i0 + i1);
    var overlapping;
    ghost var lo, hi;
    overlapping, lo, hi := GetOverlappingInputs(level, v[level], Some(allStart.ukey), Some(allLimit.ukey));
    OverlappingIsSeed(v, level, overlapping, lo, hi);
    RangeOverlapsItself(v[level], i0, i1, allStart, allLimit, overlapping, lo, hi);
    c0, c1, newStart, newLimit := CloseInputs(v, level, overlapping);
    GrownParts(v, level, i0, i1, c0, c1, allStart, allLimit, lo, hi, newStart, newLimit);
  }

  /** Tries to grow the upper inputs to everything the whole range overlaps, without changing
      the number of lower inputs. */
  method ExpandInputs(v: Levels, level: nat, i0: seq<File>, i1: seq<File>, maxFileSize: nat,
                      smallest: InternalKey, largest: InternalKey)
      returns (e0: seq<File>, e1: seq<File>, newSmallest: InternalKey, newLargest: InternalKey)
    requires Shaped(v) && GoodInputs(v, level, i0, i1, smallest, largest) && IsRange(i0, smallest, largest)
    ensures GoodInputs(v, level, e0, e1, newSmallest, newLargest) && IsRange(e0, newSmallest, newLargest)
    ensures forall f :: f in i0 ==> f in e0
    ensures Grown(v, level, maxFileSize, i0, i1, e0, e1)
  {
    hide Grown, GrownFrom, GoodInputs, IsRange, Shaped;
    e0, e1, newSmallest, newLargest := i0, i1, smallest, largest;
    var expanded0, expanded1, newStart, newLimit := Candidates(v, level, i0, i1, smallest, largest);
    var inputs1Size := TotalFileSize(i1);
    var expanded0Size := TotalFileSize(expanded0);
    if |expanded0| > |i0| && inputs1Size + expanded0Size < 25 * maxFileSize && |expanded1| == |i1| {
      e0, e1, newSmallest, newLargest := expanded0, expanded1, newStart, newLimit;
    }
    GrownAs(v, level, maxFileSize, i0, i1, e0, e1, expanded0, expanded1);
  }

  lemma GrownParts(v: Levels, level: nat, i0: seq<File>, i1: seq<File>, c0: seq<File>, c1: seq<File>,
                   a: InternalKey, b: InternalKey, lo: Bound, hi: Bound, a': InternalKey, b': InternalKey)
    requires GoodInputs(v, level, c0, c1, a', b') && IsRange(c0, a', b')
    requires IsRange(i0 + i1, a, b) && Within(Some(a.ukey), Some(b.ukey), lo, hi)
    requires level > 0 ==> lo == Some(a.ukey) && hi == Some(b.ukey)
    requires level == 0 ==> ClosedRange(v[0], lo, hi) && InAllClosed(v[0], Some(a.ukey), Some(b.ukey), lo, hi)
    requires forall f :: f in Overlapping(v[level], lo, hi) ==> f in c0
    requires forall f :: f in c0 ==> f in Overlapping(v[level], lo, hi) || Continues(f, c0)
    ensures GrownFrom(v, level, i0, i1, c0, c1)
  {
    hide IsRange, InAllClosed, ClosedRange, Continues, Within;
    assert SearchRange(v, level, i0 + i1, lo, hi);
    assert Gathers(v[level], lo, hi, c0);
  }

  lemma GrownAs(v: Levels, level: nat, maxFileSize: nat, i0: seq<File>, i1: seq<File>, e0: seq<File>, e1: seq<File>,
                c0: seq<File>, c1: seq<File>)
    requires GrownFrom(v, level, i0, i1, c0, c1) && Decides(maxFileSize, i0, i1, c0, c1, e0, e1)
    ensures Grown(v, level, maxFileSize, i0, i1, e0, e1)
  {
    hide GrownFrom, Decides;
  }

  /** The files two levels down that overlap the whole compaction, in order. */
  ghost predicate AreGrandparents(v: Levels, level: nat, inputs: seq<File>, grandparents: seq<File>) {
    exists a, b :: IsRange(inputs, a, b) &&
      grandparents == if level + 2 < |v| then Overlapping(v[level + 2], Some(a.ukey), Some(b.ukey)) else []
  }

  method Grandparents(v: Levels, level: nat, inputs: seq<File>) returns (grandparents: seq<File>)
    requires Shaped(v) && level + 1 < NUM_LEVELS && inputs != []
    ensures AreGrandparents(v, level, inputs, grandparents) && SortedRun(grandparents)
  {
    var allStart, allLimit := GetRange(inputs);
    grandparents := [];
    if level + 2 < NUM_LEVELS {
      ghost var lo, hi;
      grandparents, lo, hi := GetOverlappingInputs(level + 2, v[level + 2], Some(allStart.ukey), Some(allLimit.ukey));
      assert ShapedLevel(level + 2, v[level + 2]);
      OverlappingSorted(v[level + 2], lo, hi);
    }
  }

  /** What the files picked lead to: closed under boundary files, and grown if anything below is overlapped. */
  ghost predicate SetUp(v: Levels, level: nat, maxFileSize: nat, picked: seq<File>, i0: seq<File>, i1: seq<File>) {
    exists b0, b1 ::
      && HasRange(v, level, b0, b1) && Starts(picked, b0)
      && if b1 == [] then i0 == b0 && i1 == b1 else Grown(v, level, maxFileSize, b0, b1, i0, i1)
  }

  /** The files picked, and boundary files behind them. */
  ghost predicate Starts(picked: seq<File>, b0: seq<File>) {
    picked <= b0 && forall f :: f in b0 ==> f in picked || Continues(f, b0)
  }

  /** Fills the two input lists from the files picked in the upper level. */
  method SetupOtherInputs(v: Levels, level: nat, picked: seq<File>, maxFileSize: nat)
      returns (i0: seq<File>, i1: seq<File>, grandparents: seq<File>, smallest: InternalKey, largest: InternalKey)
    requires Shaped(v) && level + 1 < NUM_LEVELS
    requires picked != [] && SeedInputs(v, level, picked)
    ensures GoodInputs(v, level, i0, i1, smallest, largest) && IsRange(i0, smallest, largest)
    ensures forall f :: f in picked ==> f in i0
    ensures SetUp(v, level, maxFileSize, picked, i0, i1)
    ensures AreGrandparents(v, level, i0 + i1, grandparents) && SortedRun(grandparents)
  {
    hide Grown, SeedInputs, Shaped, AreGrandparents, SetUp;
    i0, i1, smallest, largest := CloseInputs(v, level, picked);
    ghost var b0, b1, a, b := i0, i1, smallest, largest;
    if i1 != [] {
      i0, i1, smallest, largest := ExpandInputs(v, level, i0, i1, maxFileSize, smallest, largest);
    }
    SetUpParts(v, level, maxFileSize, picked, i0, i1, b0, b1, a, b);
    grandparents := Grandparents(v, level, i0 + i1);
  }

  lemma SetUpParts(v: Levels, level: nat, maxFileSize: nat, picked: seq<File>, i0: seq<File>, i1: seq<File>,
                   b0: seq<File>, b1: seq<File>, a: InternalKey, b: InternalKey)
    requires GoodInputs(v, level, b0, b1, a, b) && IsRange(b0, a, b) && Starts(picked, b0)
    requires if b1 == [] then i0 == b0 && i1 == b1 else Grown(v, level, maxFileSize, b0, b1, i0, i1)
    ensures SetUp(v, level, maxFileSize, picked, i0, i1)
  {
    hide GoodInputs, IsRange, Grown, Starts;
    assert HasRange(v, level, b0, b1);
  }

  lemma RangeUnique(files: seq<File>, a: InternalKey, b: InternalKey, a': InternalKey, b': InternalKey)
    requires IsRange(files, a, b) && IsRange(files, a', b')
    ensures a == a' && b == b'
  {
    LessIsStrictTotalOrder(a, a', a);
    LessIsStrictTotalOrder(b, b', b);
  }

  /** The files that overlap the range of all inputs include the upper inputs. */
  lemma RangeOverlapsItself(files: seq<File>, i0: seq<File>, i1: seq<File>, a: InternalKey, b: InternalKey,
                            r: seq<File>, lo: Bound, hi: Bound)
    requires i0 != [] && IsRange(i0 + i1, a, b)
    requires forall f :: f in files ==> GoodFile(f)
    requires forall f :: f in i0 ==> f in files
    requires r == Overlapping(files, lo, hi) && Within(Some(a.ukey), Some(b.ukey), lo, hi)
    ensures r != [] && forall f :: f in i0 ==> f in r
  {
    forall f | f in i0 ensures f in r {
      assert f in i0 + i1;
      GoodFileOrder(f);
    }
    assert i0[0] in r;
  }

  /** A file picked at level 0 brings all that the least closed range around it overlaps. */
  ghost predicate PickedFor(v: Levels, level: nat, f: File, picked: seq<File>)
    requires |v| == NUM_LEVELS
  {
    if level > 0 then picked == [f]
    else exists lo, hi ::
      && picked == Overlapping(v[0], lo, hi) && Within(Some(f.smallest.ukey), Some(f.largest.ukey), lo, hi)
      && ClosedRange(v[0], lo, hi) && InAllClosed(v[0], Some(f.smallest.ukey), Some(f.largest.ukey), lo, hi)
  }

  /** The file the size or seek trigger chose, widened at level 0 to everything it overlaps. */
  method PickCompaction(v: Levels, level: nat, f: File, maxFileSize: nat)
      returns (i0: seq<File>, i1: seq<File>, grandparents: seq<File>, ghost smallest: InternalKey, ghost largest: InternalKey)
    requires Shaped(v) && level + 1 < NUM_LEVELS && f in v[level]
    ensures GoodInputs(v, level, i0, i1, smallest, largest) && IsRange(i0, smallest, largest)
    ensures f in i0
    ensures exists picked :: PickedFor(v, level, f, picked) && SetUp(v, level, maxFileSize, picked, i0, i1)
    ensures AreGrandparents(v, level, i0 + i1, grandparents) && SortedRun(grandparents)
  {
    hide SetUp, AreGrandparents;
    assert ShapedLevel(level, v[level]);
    var picked := [f];
    GoodFileOrder(f);
    if level == 0 {
      var s, l := GetRange(picked);
      ghost var lo, hi;
      picked, lo, hi := GetOverlappingInputs(0, v[0], Some(s.ukey), Some(l.ukey));
      OverlappingIsSeed(v, 0, picked, lo, hi);
      RangeUnique([f], s, l, f.smallest, f.largest);
      RangeOverlapsItself(v[0], [f], [], s, l, picked, lo, hi);
    }
    var s, l;
    i0, i1, grandparents, s, l := SetupOtherInputs(v, level, picked, maxFileSize);
    smallest, largest := s, l;
  }
}
