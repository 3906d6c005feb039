/** Reading a manifest back (VersionSet::Recover and WriteSnapshot in db/version_set.cc): one builder over
    all the edits makes the version that the edits made one by one. */
module ManifestReplay {
  import opened DbFormat
  import opened FileLevels
  import opened Version
  import opened Builder
  import opened VersionSet

  /** What one builder has gathered for a level after the edits. */
  ghost function AllAdded(edits: seq<VersionEdit>, l: nat): set<File> {
    if edits == [] then {} else AllAdded(edits[..|edits| - 1], l) + AddedAt(edits[|edits| - 1], l)
  }

  ghost function StillDeleted(edits: seq<VersionEdit>, l: nat): set<nat> {
    if edits == [] then {}
    else
      var e := edits[|edits| - 1];
      StillDeleted(edits[..|edits| - 1], l) + DeletedAt(e, l) - Numbers(AddedAt(e, l))
  }

  /** On a level a file number stands for one file, throughout the history. */
  ghost predicate NumbersStable(edits: seq<VersionEdit>) {
    forall l, f, g {:trigger f in AllAdded(edits, l), g in AllAdded(edits, l)} ::
      0 <= l < NUM_LEVELS && f in AllAdded(edits, l) && g in AllAdded(edits, l) && f.number == g.number ==> f == g
  }

  function Empty(): (v: Levels)
    ensures |v| == NUM_LEVELS && forall l :: 0 <= l < NUM_LEVELS ==> v[l] == []
  {
    [[], [], [], [], [], [], []]
  }

  /** The versions the edits made, one after the other, each with a builder of its own. */
  ghost predicate History(edits: seq<VersionEdit>, versions: seq<Levels>) {
    && |versions| == |edits| + 1 && versions[0] == Empty()
    && forall i :: 0 <= i < |edits| ==> Applied(versions[i], edits[i], versions[i + 1])
  }

  lemma {:induction false} AddedGrows(edits: seq<VersionEdit>, k: nat, l: nat)
    requires k <= |edits|
    ensures AllAdded(edits[..k], l) <= AllAdded(edits, l)
    decreases |edits|
  {
    if k == |edits| {
      assert edits[..k] == edits;
    } else {
      AddedGrows(edits[..|edits| - 1], k, l);
      assert edits[..|edits| - 1][..k] == edits[..k];
    }
  }

  /** What one builder holds after the edits. */
  ghost predicate Gathered(builder: Builder, edits: seq<VersionEdit>)
    reads builder
  {
    && builder.Valid() && builder.base == Empty()
    && (forall l :: 0 <= l < NUM_LEVELS ==> builder.deleted[l] == StillDeleted(edits, l))
    && forall l :: 0 <= l < NUM_LEVELS ==> SetOf(builder.added[l]) == AllAdded(edits, l)
  }

  /** One edit more for the builder; `edit` says the same as the next of the edits. */
  method ApplyNext(builder: Builder, ghost edits: seq<VersionEdit>, ghost i: nat, edit: VersionEdit)
    requires i < |edits| && Gathered(builder, edits[..i]) && NumbersStable(edits) && GoodEdit(edit)
    requires forall l :: AddedAt(edit, l) == AddedAt(edits[i], l) && DeletedAt(edit, l) == DeletedAt(edits[i], l)
    modifies builder
    ensures Gathered(builder, edits[..i + 1])
  {
    assert edits[..i + 1][..i] == edits[..i];
    forall l, f, g | 0 <= l < NUM_LEVELS && f in builder.added[l] && g in AddedAt(edit, l) && f.number == g.number ensures f == g {
      assert f in SetOf(builder.added[l]);
      AddedGrows(edits, i, l);
      AddedGrows(edits, i + 1, l);
      assert f in AllAdded(edits, l) && g in AllAdded(edits, l);
    }
    builder.Apply(edit);
  }

  method Recover(edits: seq<VersionEdit>) returns (v: Levels)
    requires forall e :: e in edits ==> GoodEdit(e)
    requires NumbersStable(edits)
    ensures |v| == NUM_LEVELS
    ensures forall l :: 0 <= l < NUM_LEVELS ==> Rebuilt([], StillDeleted(edits, l), AllAdded(edits, l), v[l])
  {
    var builder := new Builder(Empty());
    for i := 0 to |edits|
      invariant Gathered(builder, edits[..i]) && fresh(builder)
    {
      ApplyNext(builder, edits, i, edits[i]);
    }
    assert edits[..|edits|] == edits;
    v := builder.SaveTo();
  }

  /** After `k` edits the version has the files added so far and not still deleted. */
  lemma {:induction false} HistoryMembers(edits: seq<VersionEdit>, versions: seq<Levels>, k: nat, l: nat)
    requires History(edits, versions) && NumbersStable(edits) && k <= |edits| && l < NUM_LEVELS
    ensures |versions[k]| == NUM_LEVELS
    ensures forall f :: f in versions[k][l] <==> f in AllAdded(edits[..k], l) && f.number !in StillDeleted(edits[..k], l)
  {
    if k > 0 {
      HistoryMembers(edits, versions, k - 1, l);
      assert Applied(versions[k - 1], edits[k - 1], versions[k - 1 + 1]);
      assert edits[..k][..k - 1] == edits[..k - 1];
      AddedGrows(edits, k - 1, l);
      AddedGrows(edits, k, l);
      MembersStep(AllAdded(edits[..k - 1], l), StillDeleted(edits[..k - 1], l), AddedAt(edits[k - 1], l), DeletedAt(edits[k - 1], l),
                  versions[k - 1][l], versions[k][l], AllAdded(edits, l));
    }
  }

  lemma MembersStep(added: set<File>, deleted: set<nat>, news: set<File>, gone: set<nat>, v: seq<File>, w: seq<File>, all: set<File>)
    requires forall f :: f in v <==> f in added && f.number !in deleted
    requires Rebuilt(v, gone - Numbers(news), news, w)
    requires added <= all && news <= all
    requires forall f, g {:trigger f in all, g in all} :: f in all && g in all && f.number == g.number ==> f == g
    ensures forall f :: f in w <==> f in added + news && f.number !in deleted + gone - Numbers(news)
  {
    forall f ensures f in w <==> f in added + news && f.number !in deleted + gone - Numbers(news) {
      if f.number in Numbers(news) && f in added {
        var g :| g in news && g.number == f.number;
        assert f in all && g in all;
      }
    }
  }

  lemma FirstIn(b: seq<File>)
    ensures b == [] || b[0] in b
  {
  }

  /** A level's order leaves no choice: the same files make the same list. */
  lemma {:induction false} SortedSame(a: seq<File>, b: seq<File>)
    requires SortedFiles(a) && SortedFiles(b) && forall f :: f in a <==> f in b
    ensures a == b
  {
    if a == [] {
      FirstIn(b);
    } else {
      assert a[0] in b;
      FirstIsLeast(a, b);
      var a', b' := a[1..], b[1..];
      forall f ensures f in a' <==> f in b' {
        RestMembers(a, f);
        RestMembers(b, f);
      }
      SortedSame(a', b');
      assert a == [a[0]] + a' && b == [b[0]] + b';
    }
  }

  lemma RestMembers(a: seq<File>, f: File)
    requires SortedFiles(a) && a != []
    ensures f in a[1..] <==> f in a && f != a[0]
  {
    assert a == [a[0]] + a[1..];
    if f in a[1..] {
      var i :| 0 <= i < |a| - 1 && a[1..][i] == f;
      assert BySmallest(a[0], a[i + 1]);
    }
  }

  lemma FirstIsLeast(a: seq<File>, b: seq<File>)
    requires SortedFiles(a) && SortedFiles(b) && a != [] && b != [] && forall f :: f in a <==> f in b
    ensures a[0] == b[0]
  {
    assert a[0] in b && b[0] in a;
    var i :| 0 <= i < |b| && b[i] == a[0];
    var j :| 0 <= j < |a| && a[j] == b[0];
    if i > 0 && j > 0 {
      assert BySmallest(b[0], a[0]) && BySmallest(a[0], b[0]);
    }
  }

  /** What is rebuilt from nothing by all the edits is what the last of them made. */
  lemma RebuiltIsLast(edits: seq<VersionEdit>, versions: seq<Levels>, v: Levels)
    requires NumbersStable(edits) && History(edits, versions) && |v| == NUM_LEVELS
    requires forall l :: 0 <= l < NUM_LEVELS ==> Rebuilt([], StillDeleted(edits, l), AllAdded(edits, l), v[l])
    ensures v == versions[|edits|]
  {
    var n := |edits|;
    assert edits[..n] == edits;
    HistoryMembers(edits, versions, n, 0);
    forall l | 0 <= l < NUM_LEVELS ensures v[l] == versions[n][l] {
      HistoryMembers(edits, versions, n, l);
      if n > 0 {
        assert Applied(versions[n - 1], edits[n - 1], versions[n - 1 + 1]);
      }
      SortedSame(v[l], versions[n][l]);
    }
  }

  /** Main result: the version a manifest is recovered to is, level by level and file by file, the one that
      the last of its edits made. */
  method RecoverLast(edits: seq<VersionEdit>, ghost versions: seq<Levels>) returns (v: Levels)
    requires forall e :: e in edits ==> GoodEdit(e)
    requires NumbersStable(edits) && History(edits, versions)
    ensures v == versions[|edits|]
  {
    v := Recover(edits);
    RebuiltIsLast(edits, versions, v);
  }

  /** WriteSnapshot: all the files of the version, on their levels. */
  method SnapshotEdit(v: Levels) returns (edit: VersionEdit)
    requires |v| == NUM_LEVELS
    ensures edit.deletedFiles == []
    ensures forall a :: a in edit.newFiles <==> a.0 < NUM_LEVELS && a.1 in v[a.0]
  {
    var files: seq<(nat, File)> := [];
    for l := 0 to NUM_LEVELS
      invariant forall a :: a in files <==> a.0 < l && a.1 in v[a.0]
    {
      for i := 0 to |v[l]|
        invariant forall a :: a in files <==> (a.0 < l && a.1 in v[a.0]) || (a.0 == l && a.1 in v[l][..i])
      {
        files := files + [(l, v[l][i])];
        assert v[l][..i + 1] == v[l][..i] + [v[l][i]];
      }
      assert v[l][..|v[l]|] == v[l];
    }
    edit := VersionEdit([], files);
  }

  /** A new manifest's first record restores the version it was written for. */
  lemma SnapshotRestores(v: Levels, edit: VersionEdit)
    requires |v| == NUM_LEVELS && forall l :: 0 <= l < NUM_LEVELS ==> SortedFiles(v[l])
    requires NumbersUnique(v) && edit.deletedFiles == []
    requires forall a :: a in edit.newFiles <==> a.0 < NUM_LEVELS && a.1 in v[a.0]
    ensures GoodEdit(edit) && Applied(Empty(), edit, v)
  {
    forall l | 0 <= l < NUM_LEVELS ensures Rebuilt([], DeletedAt(edit, l) - Numbers(AddedAt(edit, l)), AddedAt(edit, l), v[l]) {
      forall f ensures f in v[l] <==> f in AddedAt(edit, l) {
        if f in v[l] {
          assert (l, f) in edit.newFiles;
        }
      }
    }
  }
}
