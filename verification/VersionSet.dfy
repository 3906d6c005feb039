/** Edits that install a flush, a moved file or a merge, and the level a flush is placed in
    (VersionSet::LogAndApply, Version::PickLevelForMemTableOutput in db/version_set.cc). */
module VersionSet {
  import opened Options
  import opened DbFormat
  import opened FileLevels
  import opened Version
  import opened CompactionInputs
  import opened Install
  import opened Builder

  const MAX_MEM_COMPACT_LEVEL := 2

  /** A file number names one file in one level. */
  ghost predicate NumbersUnique(v: Levels) {
    forall l, m, f, g {:trigger f in v[l], g in v[m]} ::
      0 <= l < |v| && 0 <= m < |v| && f in v[l] && g in v[m] && f.number == g.number ==> l == m && f == g
  }

  ghost predicate Applied(v: Levels, edit: VersionEdit, w: Levels) {
    && |v| == |w| == NUM_LEVELS
    && forall l :: 0 <= l < NUM_LEVELS ==>
         Rebuilt(v[l], DeletedAt(edit, l) - Numbers(AddedAt(edit, l)), AddedAt(edit, l), w[l])
  }

  /** The version that LogAndApply installs. */
  method ApplyEdit(v: Levels, edit: VersionEdit) returns (w: Levels)
    requires Shaped(v) && GoodEdit(edit)
    requires forall l, f, g :: 0 <= l < NUM_LEVELS && f in v[l] && g in AddedAt(edit, l) ==> f.number != g.number
    ensures Applied(v, edit, w)
  {
    forall l | 0 <= l < NUM_LEVELS ensures SortedFiles(v[l]) {
      assert ShapedLevel(l, v[l]);
    }
    var builder := new Builder(v);
    builder.Apply(edit);
    forall l, f | 0 <= l < NUM_LEVELS && f in builder.added[l] ensures f in AddedAt(edit, l) {
      assert f in SetOf(builder.added[l]);
    }
    w := builder.SaveTo();
    forall l | 0 <= l < NUM_LEVELS
      ensures Rebuilt(v[l], DeletedAt(edit, l) - Numbers(AddedAt(edit, l)), AddedAt(edit, l), w[l])
    {
      assert SetOf(builder.added[l]) == AddedAt(edit, l);
      assert builder.deleted[l] == DeletedAt(edit, l) - Numbers(AddedAt(edit, l));
    }
  }

  method OverlapInLevel(v: Levels, level: nat, smallest: UserKey, largest: UserKey) returns (b: bool)
    requires Shaped(v) && level < NUM_LEVELS
    ensures b <==> exists f :: f in v[level] && Overlaps(f, Some(smallest), Some(largest))
  {
    assert ShapedLevel(level, v[level]);
    b := SomeFileOverlapsRange(level > 0, v[level], Some(smallest), Some(largest));
  }

  /** Why a table with these user keys goes no deeper than `level`. */
  ghost predicate Blocked(v: Levels, level: nat, smallest: UserKey, largest: UserKey, maxFileSize: nat)
    requires |v| == NUM_LEVELS && level < 2
  {
    || (level == 0 && exists f :: f in v[0] && Overlaps(f, Some(smallest), Some(largest)))
    || (exists f :: f in v[level + 1] && Overlaps(f, Some(smallest), Some(largest)))
    || OverlapBytes(v[level + 2], smallest, largest) > 10 * maxFileSize
  }

  /** The first level at which the table is blocked, or level 2. */
  ghost predicate IsFlushLevel(v: Levels, level: nat, smallest: UserKey, largest: UserKey, maxFileSize: nat)
    requires |v| == NUM_LEVELS
  {
    && level <= 2
    && (forall l :: 0 <= l < level ==> !Blocked(v, l, smallest, largest, maxFileSize))
    && (level < 2 ==> Blocked(v, level, smallest, largest, maxFileSize))
  }

  /** Whether the next level is free and what lies below it small. */
  method NextLevelFree(v: Levels, level: nat, smallest: UserKey, largest: UserKey, maxFileSize: nat) returns (free: bool)
    requires Shaped(v) && level < 2
    requires level == 0 ==> forall f :: f in v[0] ==> !Overlaps(f, Some(smallest), Some(largest))
    ensures free <==> !Blocked(v, level, smallest, largest, maxFileSize)
  {
    var overlap := OverlapInLevel(v, level + 1, smallest, largest);
    if overlap {
      return false;
    }
    if level + 2 < NUM_LEVELS {
      var overlaps;
      ghost var lo, hi;
      overlaps, lo, hi := GetOverlappingInputs(level + 2, v[level + 2], Some(smallest), Some(largest));
      OverlappingBytes(v[level + 2], smallest, largest);
      var sum := TotalFileSize(overlaps);
      if sum > 10 * maxFileSize {
        return false;
      }
    }
    free := true;
  }

  /** The level for a flushed memtable: as deep as nothing on the way overlaps it. */
  method PickLevelForMemTableOutput(v: Levels, smallest: UserKey, largest: UserKey, maxFileSize: nat) returns (level: nat)
    requires Shaped(v)
    ensures IsFlushLevel(v, level, smallest, largest, maxFileSize)
  {
    level := 0;
    var overlap := OverlapInLevel(v, 0, smallest, largest);
    if !overlap {
      while level < MAX_MEM_COMPACT_LEVEL
        invariant level <= MAX_MEM_COMPACT_LEVEL
        invariant forall l :: 0 <= l < level ==> !Blocked(v, l, smallest, largest, maxFileSize)
      {
        var free := NextLevelFree(v, level, smallest, largest, maxFileSize);
        if !free {
          break;
        }
        level := level + 1;
      }
    }
  }

  /** Above level 0 nothing on the way overlaps. */
  lemma FlushLevelFree(v: Levels, level: nat, smallest: UserKey, largest: UserKey, maxFileSize: nat)
    requires |v| == NUM_LEVELS && IsFlushLevel(v, level, smallest, largest, maxFileSize)
    ensures level > 0 ==> forall l, f :: 0 <= l <= level && f in v[l] ==> !Overlaps(f, Some(smallest), Some(largest))
  {
    forall l, f | 0 <= l <= level && level > 0 && f in v[l] ensures !Overlaps(f, Some(smallest), Some(largest)) {
      assert !Blocked(v, if l == 0 then 0 else l - 1, smallest, largest, maxFileSize);
    }
  }

  // ----- one file added -----

  function AddFileEdit(level: nat, f: File): VersionEdit {
    VersionEdit([], [(level, f)])
  }

  function MoveFileEdit(level: nat, f: File): VersionEdit {
    VersionEdit([(level, f.number)], [(level + 1, f)])
  }

  lemma AddFilePlaces(v: Levels, w: Levels, level: nat, f: File)
    requires Applied(v, AddFileEdit(level, f), w) && level < NUM_LEVELS
    ensures Placed(v, w, level, f, None)
  {
    var edit := AddFileEdit(level, f);
    forall l | 0 <= l < NUM_LEVELS
      ensures DeletedAt(edit, l) == {} && AddedAt(edit, l) == if l == level then {f} else {}
      ensures SortedFiles(w[l])
    {
      assert (level, f) in edit.newFiles;
      assert Rebuilt(v[l], DeletedAt(edit, l) - Numbers(AddedAt(edit, l)), AddedAt(edit, l), w[l]);
    }
  }

  lemma MoveFilePlaces(v: Levels, w: Levels, level: nat, f: File)
    requires Applied(v, MoveFileEdit(level, f), w) && level + 1 < NUM_LEVELS
    requires NumbersUnique(v) && f in v[level]
    ensures Placed(v, w, level + 1, f, Some(f))
  {
    var edit := MoveFileEdit(level, f);
    forall l | 0 <= l < NUM_LEVELS
      ensures DeletedAt(edit, l) == if l == level then {f.number} else {}
      ensures AddedAt(edit, l) == if l == level + 1 then {f} else {}
      ensures SortedFiles(w[l])
    {
      assert (level + 1, f) in edit.newFiles && (level, f.number) in edit.deletedFiles;
      assert Rebuilt(v[l], DeletedAt(edit, l) - Numbers(AddedAt(edit, l)), AddedAt(edit, l), w[l]);
    }
  }

  // ----- a merge installed -----

  /** AddInputDeletions followed by the outputs (InstallCompactionResults). */
  method MergeEdit(level: nat, i0: seq<File>, i1: seq<File>, outs: seq<File>) returns (edit: VersionEdit)
    ensures forall d :: d in edit.deletedFiles <==>
              (d.0 == level && exists f :: f in i0 && f.number == d.1) ||
              (d.0 == level + 1 && exists f :: f in i1 && f.number == d.1)
    ensures forall a :: a in edit.newFiles <==> a.0 == level + 1 && a.1 in outs
  {
    var deleted: seq<(nat, nat)> := [];
    for i := 0 to |i0|
      invariant forall d :: d in deleted <==> d.0 == level && exists f :: f in i0[..i] && f.number == d.1
    {
      assert i0[..i + 1] == i0[..i] + [i0[i]];
      deleted := deleted + [(level, i0[i].number)];
    }
    assert i0[..|i0|] == i0;
    for i := 0 to |i1|
      invariant forall d :: d in deleted <==>
                  (d.0 == level && exists f :: f in i0 && f.number == d.1) ||
                  (d.0 == level + 1 && exists f :: f in i1[..i] && f.number == d.1)
    {
      assert i1[..i + 1] == i1[..i] + [i1[i]];
      deleted := deleted + [(level + 1, i1[i].number)];
    }
    assert i1[..|i1|] == i1;
    var added: seq<(nat, File)> := [];
    for i := 0 to |outs|
      invariant forall a :: a in added <==> a.0 == level + 1 && a.1 in outs[..i]
    {
      assert outs[..i + 1] == outs[..i] + [outs[i]];
      added := added + [(level + 1, outs[i])];
    }
    assert outs[..|outs|] == outs;
    edit := VersionEdit(deleted, added);
  }

  ghost predicate IsMergeEdit(m: Merge, edit: VersionEdit) {
    && (forall d :: d in edit.deletedFiles <==>
         (d.0 == m.level && exists f :: f in m.i0 && f.number == d.1) ||
         (d.0 == m.level + 1 && exists f :: f in m.i1 && f.number == d.1))
    && (forall a :: a in edit.newFiles <==> a.0 == m.level + 1 && a.1 in m.outs)
  }

  lemma MergeEditGood(m: Merge, edit: VersionEdit)
    requires m.Valid() && IsMergeEdit(m, edit)
    ensures GoodEdit(edit)
    ensures forall l, f, g :: 0 <= l < NUM_LEVELS && f in m.v[l] && g in AddedAt(edit, l) ==> f.number != g.number
  {
    forall a, b | a in edit.newFiles && b in edit.newFiles && a.1.number == b.1.number ensures a == b {
      var i := OutputIsGood(m, a.1);
      var j := OutputIsGood(m, b.1);
    }
    forall l, f, g | 0 <= l < NUM_LEVELS && f in m.v[l] && g in AddedAt(edit, l) ensures f.number != g.number {
      var i := OutputIsGood(m, g);
    }
  }

  lemma MergeEditAt(m: Merge, edit: VersionEdit, l: nat)
    requires m.Valid() && IsMergeEdit(m, edit)
    ensures AddedAt(edit, l) == if l == m.level + 1 then SetOf(m.outs) else {}
    ensures forall n :: n in DeletedAt(edit, l) <==>
              (l == m.level && exists f :: f in m.i0 && f.number == n) ||
              (l == m.level + 1 && exists f :: f in m.i1 && f.number == n)
  {
    forall f | f in m.outs ensures l == m.level + 1 ==> f in AddedAt(edit, l) {
      assert (m.level + 1, f) in edit.newFiles;
    }
    forall n ensures n in DeletedAt(edit, l) <==> (l, n) in edit.deletedFiles {
    }
  }

  /** The files of the level whose numbers the edit deletes are the inputs. */
  lemma DeletedAreInputs(m: Merge, edit: VersionEdit, l: nat, f: File)
    requires m.Valid() && IsMergeEdit(m, edit) && NumbersUnique(m.v)
    requires l < NUM_LEVELS && f in m.v[l]
    ensures f.number in DeletedAt(edit, l) <==> m.Input(l, f)
  {
    MergeEditAt(m, edit, l);
    if m.Input(l, f) {
      assert f.number in DeletedAt(edit, l);
    }
    if f.number in DeletedAt(edit, l) {
      var g :| m.Input(l, g) && g.number == f.number;
      InputIsGood(m, l, g);
    }
  }

  lemma MergeInstalls(m: Merge, edit: VersionEdit, w: Levels)
    requires m.Valid() && IsMergeEdit(m, edit) && NumbersUnique(m.v)
    requires Applied(m.v, edit, w)
    ensures m.Installs(w)
  {
    forall l | 0 <= l < NUM_LEVELS ensures SortedFiles(w[l]) && MergedLevel(m, w, l) {
      MergeLevel(m, edit, w, l);
    }
    LevelsInstall(m, w);
  }

  ghost predicate MergedLevel(m: Merge, w: Levels, l: nat)
    requires l < |w| && l < |m.v|
  {
    forall f :: f in w[l] <==> (f in m.v[l] && !m.Input(l, f)) || (l == m.level + 1 && f in m.outs)
  }

  lemma LevelsInstall(m: Merge, w: Levels)
    requires |m.v| == |w| == NUM_LEVELS && m.level + 1 < NUM_LEVELS
    requires forall l :: 0 <= l < NUM_LEVELS ==> SortedFiles(w[l]) && MergedLevel(m, w, l)
    ensures m.Installs(w)
  {
    assert MergedLevel(m, w, m.level) && MergedLevel(m, w, m.level + 1);
    forall l | 0 <= l < |w| && l != m.level && l != m.level + 1 ensures SameMembers(w[l], m.v[l]) {
      assert MergedLevel(m, w, l);
    }
  }

  lemma MergeLevel(m: Merge, edit: VersionEdit, w: Levels, l: nat)
    requires m.Valid() && IsMergeEdit(m, edit) && NumbersUnique(m.v)
    requires Applied(m.v, edit, w) && l < NUM_LEVELS
    ensures SortedFiles(w[l]) && MergedLevel(m, w, l)
  {
    assert Rebuilt(m.v[l], DeletedAt(edit, l) - Numbers(AddedAt(edit, l)), AddedAt(edit, l), w[l]);
    MergeEditAt(m, edit, l);
    forall f | f in m.v[l] ensures f.number !in Numbers(AddedAt(edit, l)) && (f.number in DeletedAt(edit, l) <==> m.Input(l, f)) {
      DeletedAreInputs(m, edit, l, f);
      forall g | g in AddedAt(edit, l) ensures g.number != f.number {
        var i := OutputIsGood(m, g);
      }
    }
    forall f | f in AddedAt(edit, l) ensures f.number in Numbers(AddedAt(edit, l)) {
    }
  }
}
