/** Exactly when a compaction is invisible to readers.

    DoCompactionWork drops a deletion marker once no deeper level can hold its user key. The
    lower inputs are not closed under shared boundary user keys, though, so a lower file that
    was left out may still hold an older value of the key, and then the value comes back. This
    is the only way a read can change: `ReadsPreserved` is an if and only if. */
module CompactionReads {
  import opened Options
  import opened DbFormat
  import opened FileLevels
  import opened Version
  import opened CompactionInputs
  import opened Compaction
  import opened Install

  ghost predicate SameReads(before: set<Entry>, after: set<Entry>, snapshot: nat) {
    forall u, s :: s >= snapshot ==> Read(after, u, s) == Read(before, u, s)
  }

  /** A compaction of `i0` and `i1` in a store holding `all`, with the oldest snapshot there was. */
  datatype Job = Job(all: set<Entry>, v: Levels, level: nat, i0: seq<File>, i1: seq<File>,
                     a: InternalKey, b: InternalKey, snapshot: nat)
  {
    /** The entries outside the version are newer than those in it. */
    ghost predicate Valid() {
      && Shaped(v) && GoodInputs(v, level, i0, i1, a, b)
      && UniqueSeqnos(all) && VersionEntries(v) <= all
      && forall x, y {:trigger x in all, y in VersionEntries(v)} ::
           x in all && x !in VersionEntries(v) && y in VersionEntries(v) && x.key.ukey == y.key.ukey ==> x.key.seqno > y.key.seqno
    }

    ghost predicate Input(l: nat, h: File) {
      (l == level && h in i0) || (l == level + 1 && h in i1)
    }

    ghost function Inputs(): set<Entry> {
      InputEntries(i0, i1)
    }

    ghost function DroppedOnes(): set<Entry> {
      DroppedEntries(v, level, Inputs(), snapshot)
    }

    ghost function Kept(): set<Entry> {
      all - DroppedOnes()
    }

    /** The entries of the lower level that take no part in the merge. */
    ghost function LeftOut(): set<Entry> {
      set f, e | level + 1 < |v| && f in v[level + 1] && f !in i1 && e in f.entries :: e
    }

    /** `d` is the newest entry of its key for the oldest snapshot and is dropped as an obsolete
        deletion, while `x` is a value, the newest of the older entries left in the lower level. */
    ghost predicate Exposes(d: Entry, x: Entry) {
      && d in Inputs() && ObsoleteDeletion(v, level, d, snapshot) && NewestAt(all, d.key.ukey, snapshot, d)
      && OlderLeftOut(d, x) && x.key.kind == Put
      && forall y :: OlderLeftOut(d, y) ==> y.key.seqno <= x.key.seqno
    }

    /** Some value in a left-out lower file comes back. */
    ghost predicate ExposesSome() {
      exists d, x :: Exposes(d, x)
    }

    ghost predicate OlderLeftOut(d: Entry, x: Entry) {
      x in LeftOut() && x.key.ukey == d.key.ukey && x.key.seqno < d.key.seqno
    }

    /** No lower file left out continues the last user key of a lower input. */
    ghost predicate LowerClosed() {
      forall h, g :: h in i1 && level + 1 < |v| && g in v[level + 1] && g !in i1 ==> !BoundaryFile(g, h.largest)
    }
  }

  lemma InputSource(j: Job, d: Entry) returns (m: nat, h: File)
    requires j.Valid() && d in j.Inputs()
    ensures j.Input(m, h) && d in h.entries
    ensures m < |j.v| && h in j.v[m] && ShapedLevel(m, j.v[m])
  {
    if d in LevelEntries(j.i0) {
      m, h := j.level, var f :| f in j.i0 && d in f.entries; f;
    } else {
      m, h := j.level + 1, var f :| f in j.i1 && d in f.entries; f;
    }
    assert ShapedLevel(m, j.v[m]);
  }

  lemma PartsOfVersion(j: Job)
    requires j.Valid()
    ensures j.Inputs() <= j.all && j.LeftOut() <= j.all && j.Inputs() !! j.LeftOut()
  {
    forall x | x in j.LeftOut() ensures x in VersionEntries(j.v) && x !in j.Inputs() {
      var g :| g in j.v[j.level + 1] && g !in j.i1 && x in g.entries;
      if x in j.Inputs() {
        var m, h := InputSource(j, x);
        OnePlace(j.v, m, h, x, j.level + 1, g, x);
      }
    }
    forall d | d in j.Inputs() ensures d in VersionEntries(j.v) {
      var m, h := InputSource(j, d);
    }
  }

  /** A file holding an older entry of an input deletion's key is an input or was left out below. */
  lemma OlderFilePlace(j: Job, d: Entry, m: nat, h: File, x: Entry, l: nat, g: File)
    requires Shaped(j.v) && j.level + 1 < NUM_LEVELS && UpperClosed(j.v, j.level, j.i0)
    requires j.Input(m, h) && m < |j.v| && h in j.v[m] && d in h.entries
    requires l < |j.v| && g in j.v[l] && x in g.entries
    requires BaseLevelFor(j.v, j.level, d.key.ukey)
    requires x.key.ukey == d.key.ukey && x.key.seqno < d.key.seqno
    ensures j.Input(l, g) || (l == j.level + 1 && g !in j.i1)
  {
    OlderIsNotNewer(g, x, h, d);
    NotNewerIsNotShallower(j.v, l, g, m, h);
    BaseLevelBound(j.v, j.level, l, g, x);
  }

  lemma NotNewerIsNotShallower(v: Levels, l: nat, g: File, m: nat, h: File)
    requires Shaped(v) && l < |v| && m < |v| && g in v[l] && h in v[m] && !Newer(g, h)
    ensures m <= l
  {
  }

  lemma BaseLevelBound(v: Levels, level: nat, l: nat, g: File, x: Entry)
    requires Shaped(v) && l < |v| && g in v[l] && x in g.entries && BaseLevelFor(v, level, x.key.ukey)
    ensures l <= level + 1
  {
    assert ShapedLevel(l, v[l]);
    OnlyCoveringFiles(g, x.key.ukey);
  }

  lemma OlderIsNotNewer(g: File, x: Entry, h: File, d: Entry)
    requires x in g.entries && d in h.entries && x.key.ukey == d.key.ukey && x.key.seqno < d.key.seqno
    ensures !Newer(g, h)
  {
  }

  /** What survives next to an obsolete deletion that is the newest of its key was left out below. */
  lemma SurvivorsLeftOut(j: Job, s: nat, d: Entry, y: Entry)
    requires j.Valid() && s >= j.snapshot
    requires d in j.Inputs() && ObsoleteDeletion(j.v, j.level, d, j.snapshot) && NewestAt(j.all, d.key.ukey, s, d)
    requires y in j.Kept() && VisibleTo(y, d.key.ukey, s)
    ensures j.OlderLeftOut(d, y)
  {
    KeptIsOlder(j, s, d, y);
    var m, h := InputSource(j, d);
    var l, g :| 0 <= l < |j.v| && g in j.v[l] && y in g.entries;
    OlderFilePlace(j, d, m, h, y, l, g);
    assert j.Input(l, g) ==> y in LevelEntries(j.i0) || y in LevelEntries(j.i1);
  }

  lemma KeptIsOlder(j: Job, s: nat, d: Entry, y: Entry)
    requires j.Valid() && s >= j.snapshot
    requires d in j.Inputs() && ObsoleteDeletion(j.v, j.level, d, j.snapshot) && NewestAt(j.all, d.key.ukey, s, d)
    requires y in j.Kept() && VisibleTo(y, d.key.ukey, s)
    ensures y.key.seqno < d.key.seqno && y !in j.Inputs() && y in VersionEntries(j.v)
  {
    assert d in j.DroppedOnes();
    assert d in VersionEntries(j.v);
    PartsOfVersion(j);
    assert y in j.Inputs() ==> Shadowed(j.Inputs(), y, j.snapshot);
  }

  lemma KeptNewestKeepsRead(j: Job, u: UserKey, s: nat, e: Entry)
    requires UniqueSeqnos(j.all) && NewestAt(j.all, u, s, e) && e in j.Kept()
    ensures Read(j.Kept(), u, s) == Read(j.all, u, s)
  {
    assert NewestAt(j.Kept(), u, s, e);
    ReadNewest(j.Kept(), u, s, e);
    ReadNewest(j.all, u, s, e);
  }

  /** When the newest entry is dropped it is a deletion, and a value read in its place was exposed. */
  lemma DroppedNewestExposes(j: Job, u: UserKey, s: nat, e: Entry, x: Entry)
    requires j.Valid() && s >= j.snapshot
    requires NewestAt(j.all, u, s, e) && e in j.DroppedOnes()
    requires NewestAt(j.Kept(), u, s, x) && x.key.kind == Put
    ensures j.Exposes(e, x)
  {
    DroppedNewestIsObsolete(j, u, s, e);
    SurvivorsLeftOut(j, s, e, x);
    forall y | j.OlderLeftOut(e, y) ensures y.key.seqno <= x.key.seqno {
      OlderLeftOutIsVisible(j, u, s, e, y);
    }
    NewestLater(j.all, u, j.snapshot, s, e);
  }

  lemma NewestLater(es: set<Entry>, u: UserKey, r: nat, s: nat, e: Entry)
    requires NewestAt(es, u, s, e) && e.key.seqno <= r <= s
    ensures NewestAt(es, u, r, e)
  {
  }

  lemma OlderLeftOutIsVisible(j: Job, u: UserKey, s: nat, e: Entry, y: Entry)
    requires j.Valid() && VisibleTo(e, u, s) && j.OlderLeftOut(e, y)
    ensures y in j.Kept() && VisibleTo(y, u, s)
  {
    LeftOutIsKept(j, y);
  }

  lemma DroppedNewestIsObsolete(j: Job, u: UserKey, s: nat, e: Entry)
    requires j.Valid() && s >= j.snapshot
    requires NewestAt(j.all, u, s, e) && e in j.DroppedOnes()
    ensures e in j.Inputs() && ObsoleteDeletion(j.v, j.level, e, j.snapshot)
  {
    PartsOfVersion(j);
    assert !Shadowed(j.Inputs(), e, j.snapshot);
  }

  lemma LeftOutIsKept(j: Job, y: Entry)
    requires j.Valid() && y in j.LeftOut()
    ensures y in j.Kept()
  {
    PartsOfVersion(j);
  }

  /** A changed read exposes a value. */
  lemma ChangedReadExposes(j: Job, u: UserKey, s: nat)
    requires j.Valid() && s >= j.snapshot
    ensures Read(j.Kept(), u, s) == Read(j.all, u, s) || j.ExposesSome()
  {
    NewestExists(j.all, u, s);
    NewestExists(j.Kept(), u, s);
    if NoneVisible(j.all, u, s) {
      ReadNone(j.all, u, s);
      ReadNone(j.Kept(), u, s);
      return;
    }
    var e :| NewestAt(j.all, u, s, e);
    if e in j.Kept() {
      KeptNewestKeepsRead(j, u, s, e);
      return;
    }
    ReadNewest(j.all, u, s, e);
    DroppedNewestIsObsolete(j, u, s, e);
    if NoneVisible(j.Kept(), u, s) {
      ReadNone(j.Kept(), u, s);
      return;
    }
    var x :| NewestAt(j.Kept(), u, s, x);
    ReadNewest(j.Kept(), u, s, x);
    if x.key.kind == Put {
      DroppedNewestExposes(j, u, s, e, x);
    }
  }

  /** An exposed value is read at the oldest snapshot, where there was none. */
  lemma ExposedChangesRead(j: Job, d: Entry, x: Entry)
    requires j.Valid() && j.Exposes(d, x)
    ensures Read(j.all, d.key.ukey, j.snapshot) == None
    ensures Read(j.Kept(), d.key.ukey, j.snapshot) == Some(x.value)
  {
    PartsOfVersion(j);
    ReadNewest(j.all, d.key.ukey, j.snapshot, d);
    forall y | y in j.Kept() && VisibleTo(y, d.key.ukey, j.snapshot) ensures y.key.seqno <= x.key.seqno {
      SurvivorsLeftOut(j, j.snapshot, d, y);
    }
    assert NewestAt(j.Kept(), d.key.ukey, j.snapshot, x);
    ReadNewest(j.Kept(), d.key.ukey, j.snapshot, x);
  }

  /** Main result: the merge changes no read at or after the oldest snapshot if and only if it
      exposes no value in a lower file that was left out. */
  lemma ReadsPreserved(j: Job)
    requires j.Valid()
    ensures SameReads(j.all, j.Kept(), j.snapshot) <==> !j.ExposesSome()
  {
    if d, x :| j.Exposes(d, x) {
      ExposedChangesRead(j, d, x);
    } else {
      forall u, s | s >= j.snapshot ensures Read(j.Kept(), u, s) == Read(j.all, u, s) {
        ChangedReadExposes(j, u, s);
      }
    }
  }

  /** Closing the lower inputs under boundary files, as the upper ones are, would be enough. */
  lemma LowerClosedExposesNothing(j: Job)
    requires j.Valid()
    ensures j.LowerClosed() ==> !j.ExposesSome()
  {
    if j.LowerClosed() {
      forall d, x ensures !j.Exposes(d, x) {
        LowerClosedExposesNot(j, d, x);
      }
    }
  }

  lemma LowerClosedExposesNot(j: Job, d: Entry, x: Entry)
    requires j.Valid() && j.LowerClosed()
    ensures !j.Exposes(d, x)
  {
    if j.Exposes(d, x) {
      var g :| g in j.v[j.level + 1] && g !in j.i1 && x in g.entries;
      var m, h := InputSource(j, d);
      BoundaryHolds(j, d, m, h, x, g);
    }
  }

  lemma BoundaryHolds(j: Job, d: Entry, m: nat, h: File, x: Entry, g: File)
    requires j.Valid() && j.Input(m, h) && m < |j.v| && h in j.v[m] && d in h.entries
    requires g in j.v[j.level + 1] && g !in j.i1 && x in g.entries
    requires x.key.ukey == d.key.ukey && x.key.seqno < d.key.seqno
    ensures h in j.i1 && BoundaryFile(g, h.largest)
  {
    assert ShapedLevel(j.level + 1, j.v[j.level + 1]) && ShapedLevel(m, j.v[m]);
    GoodFileOrder(g);
    GoodFileOrder(h);
    assert !Overlaps(g, Some(j.a.ukey), Some(j.b.ukey));
    assert h !in j.i0;
    SplitKey(j.level + 1, j.v[j.level + 1], h, d, g, x);
  }

  /** A key split over two files of a sorted level: the file of the newer entry ends with it. */
  lemma SplitKey(level: nat, fs: seq<File>, h: File, d: Entry, g: File, x: Entry)
    requires level > 0 && ShapedLevel(level, fs) && h in fs && g in fs && h != g
    requires d in h.entries && x in g.entries && x.key.ukey == d.key.ukey && x.key.seqno < d.key.seqno
    ensures BoundaryFile(g, h.largest)
  {
    assert Before(h, g) || Before(g, h);
    assert Less(d.key, x.key);
  }
}
