/** Every way a version changes keeps its shape: a flushed memtable, a moved file, and the
    output of a merge (db/version_set.cc and db/db_impl.cc). */
module Install {
  import opened Options
  import opened DbFormat
  import opened FileLevels
  import opened Version
  import opened CompactionInputs
  import opened Compaction

  ghost predicate SameMembers<T(!new)>(a: seq<T>, b: seq<T>) {
    forall x :: x in a <==> x in b
  }

  ghost predicate NumbersBelow(v: Levels, n: nat) {
    forall l, f :: 0 <= l < |v| && f in v[l] ==> f.number < n
  }

  // ----- one file placed into a level -----

  /** `w` is `v` with `f` added to `level` and `gone` taken out of the level above it. */
  ghost predicate Placed(v: Levels, w: Levels, level: nat, f: File, gone: Option<File>) {
    && |v| == |w| == NUM_LEVELS && level < |v|
    && (gone.Some? ==> level > 0 && gone.value in v[level - 1])
    && (forall l :: 0 <= l < |w| ==> SortedFiles(w[l]))
    && (forall l, g :: 0 <= l < |w| ==> (g in w[l] <==>
         (g in v[l] && !(gone.Some? && l == level - 1 && g == gone.value)) || (l == level && g == f)))
  }

  /** `f` fits where it is placed: newer than what it leaves above it never, and its own level has room. */
  ghost predicate Fits(v: Levels, w: Levels, level: nat, f: File) {
    && GoodFile(f)
    && (forall l, g :: 0 <= l < |w| && g in w[l] && g != f && l < level ==> Newer(g, f))
    && (forall l, g :: 0 <= l < |w| && g in w[l] && l > level ==> Newer(f, g))
    && (forall g :: level < |w| && g in w[level] && g != f ==>
          && g.number != f.number
          && (level > 0 ==> Before(f, g) || Before(g, f))
          && (Above(level, f, g) ==> Newer(f, g))
          && (Above(level, g, f) ==> Newer(g, f)))
  }

  lemma PlacedShaped(v: Levels, w: Levels, level: nat, f: File, gone: Option<File>)
    requires Shaped(v) && Placed(v, w, level, f, gone) && Fits(v, w, level, f)
    requires forall l :: 0 <= l < level ==> f !in w[l]
    ensures Shaped(w)
  {
    forall l | 0 <= l < |w| ensures ShapedLevel(l, w[l]) {
      assert ShapedLevel(l, v[l]);
      if l != level {
        assert forall g :: g in w[l] ==> g in v[l];
      } else {
        assert forall g :: g in w[l] ==> g in v[l] || g == f;
      }
    }
    forall i, j, g, h | 0 <= i < j < |w| && g in w[i] && h in w[j] ensures Newer(g, h) {
      if i == level && g == f {
      } else if j == level && h == f {
      } else {
        assert g in v[i] && h in v[j];
      }
    }
  }

  ghost predicate NoOverlap(files: seq<File>, f: File) {
    forall g :: g in files ==> !Overlaps(g, Some(f.smallest.ukey), Some(f.largest.ukey))
  }

  lemma NoOverlapIsApart(f: File, g: File)
    requires GoodFile(f) && GoodFile(g)
    requires !Overlaps(g, Some(f.smallest.ukey), Some(f.largest.ukey))
    ensures Apart(f, g) && Newer(f, g) && Newer(g, f) && (Before(f, g) || Before(g, f))
  {
    GoodFileOrder(f);
    GoodFileOrder(g);
    ApartIsNewer(f, g);
    ApartIsNewer(g, f);
  }

  /** A memtable newer than every file may go to a level no file of which, nor of any shallower
      level, overlaps it; or to level 0 under a fresh number. */
  lemma FlushShaped(v: Levels, w: Levels, level: nat, f: File)
    requires Shaped(v) && Placed(v, w, level, f, None) && GoodFile(f) && NumbersBelow(v, f.number)
    requires forall l, g :: 0 <= l < |v| && g in v[l] ==> Newer(f, g)
    requires level > 0 ==> forall l :: 0 <= l <= level ==> NoOverlap(v[l], f)
    ensures Shaped(w)
  {
    forall l, g | 0 <= l < |v| && g in v[l]
      ensures GoodFile(g) && g != f && g.number < f.number
      ensures level > 0 && l <= level ==> Newer(g, f) && (Before(f, g) || Before(g, f))
    {
      assert ShapedLevel(l, v[l]);
      if level > 0 && l <= level {
        NoOverlapIsApart(f, g);
      }
    }
    PlacedShaped(v, w, level, f, None);
  }

  /** A lone input file that overlaps nothing below moves down unchanged. */
  lemma MoveShaped(v: Levels, w: Levels, level: nat, f: File, a: InternalKey, b: InternalKey)
    requires Shaped(v) && GoodInputs(v, level, [f], [], a, b)
    requires Placed(v, w, level + 1, f, Some(f))
    requires forall l, m, g :: 0 <= l < m < |v| && g in v[l] ==> g !in v[m]
    requires forall g :: g in v[level + 1] ==> g.number != f.number
    ensures Shaped(w)
  {
    assert f in [f];
    assert ShapedLevel(level, v[level]) && ShapedLevel(level + 1, v[level + 1]);
    GoodFileOrder(f);
    forall g | g in v[level + 1] ensures Newer(g, f) && (Before(f, g) || Before(g, f)) {
      assert g !in [];
      NoOverlapIsApart(f, g);
    }
    forall g | g in v[level] && g != f ensures Newer(g, f) {
      assert g !in [f];
    }
    PlacedShaped(v, w, level + 1, f, Some(f));
  }

  // ----- the output of a merge -----

  ghost function InputEntries(i0: seq<File>, i1: seq<File>): set<Entry> {
    LevelEntries(i0) + LevelEntries(i1)
  }

  /** `w` is `v` with exactly `i0` gone from `level` and `i1` replaced by `outs` one level down. */
  ghost predicate Swapped(v: Levels, w: Levels, level: nat, i0: seq<File>, i1: seq<File>, outs: seq<File>) {
    && |v| == |w| == NUM_LEVELS && level + 1 < NUM_LEVELS
    && (forall l :: 0 <= l < |w| ==> SortedFiles(w[l]))
    && (forall g :: g in w[level] <==> g in v[level] && g !in i0)
    && (forall g :: g in w[level + 1] <==> (g in v[level + 1] && g !in i1) || g in outs)
    && (forall l :: 0 <= l < |w| && l != level && l != level + 1 ==> SameMembers(w[l], v[l]))
  }

  /** A merge of `i0` from `level` and `i1` from the level below, over [a,b], into `outs` holding `es`. */
  datatype Merge = Merge(v: Levels, level: nat, i0: seq<File>, i1: seq<File>, a: InternalKey, b: InternalKey,
                         outs: seq<File>, firstNumber: nat, es: set<Entry>)
  {
    ghost predicate Valid() {
      && Shaped(v) && GoodInputs(v, level, i0, i1, a, b)
      && OutputRun(outs, firstNumber, es) && es <= InputEntries(i0, i1)
      && NumbersBelow(v, firstNumber)
    }

    /** `w` is `v` with the inputs replaced by the outputs. */
    ghost predicate Installs(w: Levels) {
      Swapped(v, w, level, i0, i1, outs)
    }

    /** `h` is an input file in level `l`. */
    ghost predicate Input(l: nat, h: File) {
      (l == level && h in i0) || (l == level + 1 && h in i1)
    }
  }

  lemma InputIsGood(m: Merge, l: nat, h: File)
    requires m.Valid() && m.Input(l, h)
    ensures l < |m.v| && h in m.v[l] && ShapedLevel(l, m.v[l]) && GoodFile(h)
  {
    assert ShapedLevel(l, m.v[l]);
  }

  /** The input file an output entry came from. */
  lemma OutputSource(m: Merge, o: File, e: Entry) returns (l: nat, h: File)
    requires m.Valid() && o in m.outs && e in o.entries
    ensures m.Input(l, h) && e in h.entries
  {
    assert e in LevelEntries(m.outs);
    if e in LevelEntries(m.i0) {
      l, h := m.level, var f :| f in m.i0 && e in f.entries; f;
    } else {
      l, h := m.level + 1, var f :| f in m.i1 && e in f.entries; f;
    }
  }

  lemma OutputIsGood(m: Merge, o: File) returns (k: nat)
    requires m.Valid() && o in m.outs
    ensures k < |m.outs| && m.outs[k] == o && GoodFile(o) && o.number == m.firstNumber + k
  {
    k :| 0 <= k < |m.outs| && m.outs[k] == o;
  }

  /** A lower file left out of the merge lies before all inputs or after all of them. */
  lemma LeftOutLower(m: Merge, g: File, l: nat, h: File)
    requires m.Valid() && m.Input(l, h)
    requires g in m.v[m.level + 1] && g !in m.i1
    ensures GoodFile(g) && GoodFile(h)
    ensures if g.largest.ukey < m.a.ukey then Before(g, h) && Newer(g, h)
            else g.smallest.ukey > m.b.ukey && Before(h, g) && Newer(h, g)
  {
    InputIsGood(m, l, h);
    assert ShapedLevel(m.level + 1, m.v[m.level + 1]);
    GoodFileOrder(g);
    GoodFileOrder(h);
    assert !Overlaps(g, Some(m.a.ukey), Some(m.b.ukey));
    if h in m.i1 {
      assert Overlaps(h, Some(m.a.ukey), Some(m.b.ukey));
      assert Before(g, h) || Before(h, g);
      assert Above(m.level + 1, g, h) || Above(m.level + 1, h, g);
    } else {
      ApartIsNewer(g, h);
      ApartIsNewer(h, g);
    }
  }

  /** The same for an entry of an output file. */
  lemma LeftOutEntry(m: Merge, g: File, o: File, e: Entry)
    requires m.Valid() && g in m.v[m.level + 1] && g !in m.i1 && o in m.outs && e in o.entries
    ensures if g.largest.ukey < m.a.ukey then Less(g.largest, e.key) else Less(e.key, g.smallest)
    ensures forall x :: x in g.entries && x.key.ukey == e.key.ukey ==>
              if g.largest.ukey < m.a.ukey then x.key.seqno > e.key.seqno else e.key.seqno > x.key.seqno
  {
    var l, h := OutputSource(m, o, e);
    LeftOutLower(m, g, l, h);
  }

  /** The same for an output file. */
  lemma LeftOutOutput(m: Merge, g: File, o: File)
    requires m.Valid() && g in m.v[m.level + 1] && g !in m.i1 && o in m.outs
    ensures g.number != o.number
    ensures if g.largest.ukey < m.a.ukey then Before(g, o) && !Before(o, g) && Newer(g, o)
            else Before(o, g) && !Before(g, o) && Newer(o, g)
  {
    assert ShapedLevel(m.level + 1, m.v[m.level + 1]);
    var k := OutputIsGood(m, o);
    GoodFileOrder(o);
    GoodFileOrder(g);
    LeftOutEntry(m, g, o, o.entries[0]);
    LeftOutEntry(m, g, o, o.entries[|o.entries| - 1]);
    LeftOutNewer(m, g, o);
  }

  lemma LeftOutNewer(m: Merge, g: File, o: File)
    requires m.Valid() && g in m.v[m.level + 1] && g !in m.i1 && o in m.outs
    ensures if g.largest.ukey < m.a.ukey then Newer(g, o) else Newer(o, g)
  {
    forall e | e in o.entries
      ensures forall x :: x in g.entries && x.key.ukey == e.key.ukey ==>
                if g.largest.ukey < m.a.ukey then x.key.seqno > e.key.seqno else e.key.seqno > x.key.seqno
    {
      LeftOutEntry(m, g, o, e);
    }
  }

  /** An output file is placed right against the files of every other level. */
  lemma OutputAgainst(m: Merge, o: File, n: nat, g: File)
    requires m.Valid() && o in m.outs
    requires n < |m.v| && g in m.v[n] && n != m.level + 1 && (n == m.level ==> g !in m.i0)
    ensures if n <= m.level then Newer(g, o) else Newer(o, g)
  {
    forall e, x | e in o.entries && x in g.entries && x.key.ukey == e.key.ukey
      ensures if n <= m.level then x.key.seqno > e.key.seqno else e.key.seqno > x.key.seqno
    {
      var l, h := OutputSource(m, o, e);
      InputIsGood(m, l, h);
      if n == m.level && l == m.level {
        assert Newer(g, h);  // the upper inputs are closed
      } else if n < l {
        assert Newer(g, h);
      } else {
        assert Newer(h, g);
      }
    }
  }

  lemma OutputsOrdered(m: Merge, o: File, p: File)
    requires m.Valid() && o in m.outs && p in m.outs && o != p
    ensures o.number != p.number
    ensures Before(o, p) || Before(p, o)
    ensures Before(o, p) ==> Newer(o, p)
  {
    var i := OutputIsGood(m, o);
    var j := OutputIsGood(m, p);
    if Before(o, p) {
      forall e, x | e in o.entries && x in p.entries && e.key.ukey == x.key.ukey ensures e.key.seqno > x.key.seqno {
        OutputEntriesDiffer(m, o, e, p, x);
      }
    }
  }

  lemma OutputEntriesDiffer(m: Merge, o: File, e: Entry, p: File, x: Entry)
    requires m.Valid() && o in m.outs && e in o.entries && p in m.outs && x in p.entries
    requires Less(e.key, x.key) && e.key.ukey == x.key.ukey
    ensures e.key.seqno > x.key.seqno
  {
    var l, h := OutputSource(m, o, e);
    var n, k := OutputSource(m, p, x);
    InputIsGood(m, l, h);
    InputIsGood(m, n, k);
    if e.key.seqno == x.key.seqno {
      OnePlace(m.v, l, h, e, n, k, x);
    }
  }

  lemma LowerLevelShaped(m: Merge, w: Levels)
    requires m.Valid() && m.Installs(w)
    ensures ShapedLevel(m.level + 1, w[m.level + 1])
  {
    var fs := w[m.level + 1];
    assert ShapedLevel(m.level + 1, m.v[m.level + 1]);
    forall f | f in fs ensures GoodFile(f) {
      if f in m.outs {
        var k := OutputIsGood(m, f);
      }
    }
    forall f, g | f in fs && g in fs && f != g
      ensures f.number != g.number
      ensures Before(f, g) || Before(g, f)
      ensures Before(f, g) ==> Newer(f, g)
    {
      LowerPair(m, f, g);
    }
  }

  lemma LowerPair(m: Merge, f: File, g: File)
    requires m.Valid() && f != g
    requires f in m.outs || (f in m.v[m.level + 1] && f !in m.i1)
    requires g in m.outs || (g in m.v[m.level + 1] && g !in m.i1)
    ensures f.number != g.number
    ensures Before(f, g) || Before(g, f)
    ensures Before(f, g) ==> Newer(f, g)
  {
    if f in m.outs && g in m.outs {
      OutputsOrdered(m, f, g);
    } else if f in m.outs {
      LeftOutOutput(m, g, f);
    } else if g in m.outs {
      LeftOutOutput(m, f, g);
    } else {
      assert ShapedLevel(m.level + 1, m.v[m.level + 1]);
      assert Before(f, g) ==> Above(m.level + 1, f, g);
    }
  }

  /** Two files that stay in place, or one of them an output, in different levels. */
  lemma CrossLevels(m: Merge, w: Levels, i: nat, g: File, j: nat, h: File)
    requires m.Valid() && m.Installs(w)
    requires i < j < |w| && g in w[i] && h in w[j]
    ensures Newer(g, h)
  {
    if i == m.level + 1 && g in m.outs {
      OutputAgainst(m, g, j, h);
    } else if j == m.level + 1 && h in m.outs {
      OutputAgainst(m, h, i, g);
    } else {
      assert g in m.v[i] && h in m.v[j];
    }
  }

  /** Installing a merge keeps levels sorted and disjoint and newer entries shallower. */
  lemma MergeShaped(m: Merge, w: Levels)
    requires m.Valid() && m.Installs(w)
    ensures Shaped(w)
  {
    forall l | 0 <= l < |w| ensures ShapedLevel(l, w[l]) {
      if l == m.level + 1 {
        LowerLevelShaped(m, w);
      } else {
        assert ShapedLevel(l, m.v[l]);
        assert forall g :: g in w[l] ==> g in m.v[l];
      }
    }
    forall i, j, g, h | 0 <= i < j < |w| && g in w[i] && h in w[j] ensures Newer(g, h) {
      CrossLevels(m, w, i, g, j, h);
    }
  }
}
