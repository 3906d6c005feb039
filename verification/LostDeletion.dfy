/** A version on which a compaction brings a deleted value back. */
module LostDeletion {
  import opened Options
  import opened DbFormat
  import opened FileLevels
  import opened Version
  import opened CompactionInputs
  import opened Compaction
  import opened Install
  import opened CompactionReads

  // Level 1 holds a deletion of user key 10 and the value it deletes, level 2 an older value of user
  // key 5. A first merge, while a reader at sequence number 4 still needs the deleted value, cuts its
  // outputs between the two; then a flush puts a newer value of user key 5 into level 1.

  const OLDEST := Entry(InternalKey(5, 1, Put), "oldest")
  const OLDER := Entry(InternalKey(5, 2, Put), "older")
  const DELETED := Entry(InternalKey(10, 3, Put), "old")
  const MARKER := Entry(InternalKey(10, 5, Deletion), "")
  const NEWER := Entry(InternalKey(5, 7, Put), "new")

  const FIRST := File(1, 1, OLDEST.key, OLDEST.key, [OLDEST])
  const SECOND := File(2, 1, OLDER.key, DELETED.key, [OLDER, MARKER, DELETED])
  const LOWER := File(3, 1, OLDER.key, MARKER.key, [OLDER, MARKER])
  const LEFT_OUT := File(4, 1, DELETED.key, DELETED.key, [DELETED])
  const UPPER := File(5, 1, NEWER.key, NEWER.key, [NEWER])

  const BEGUN: Levels := [[], [SECOND], [FIRST], [], [], [], []]
  const MERGED: Levels := [[], [], [LOWER, LEFT_OUT], [], [], [], []]
  const STORE: Levels := [[], [UPPER], [LOWER, LEFT_OUT], [], [], [], []]

  const EARLIER_SNAPSHOT: nat := 4
  const SNAPSHOT: nat := 9

  ghost const COMPACTED := Job(VersionEntries(STORE), STORE, 1, [UPPER], [LOWER], NEWER.key, NEWER.key, SNAPSHOT)

  lemma StoreFiles(l: nat, f: File)
    requires l < |STORE|
    ensures f in STORE[l] <==> (l == 1 && f == UPPER) || (l == 2 && (f == LOWER || f == LEFT_OUT))
  {
    if l != 1 && l != 2 {
      assert STORE[l] == [];
    }
  }

  lemma FilesGood()
    ensures GoodFile(UPPER) && GoodFile(LOWER) && GoodFile(LEFT_OUT)
    ensures Newer(UPPER, LOWER) && Newer(UPPER, LEFT_OUT) && Newer(LOWER, LEFT_OUT)
    ensures Before(LOWER, LEFT_OUT) && !Before(LEFT_OUT, LOWER)
  {
  }

  lemma LevelGood(l: nat)
    requires l < |STORE|
    ensures ShapedLevel(l, STORE[l])
  {
    FilesGood();
    forall f, g | f in STORE[l] && g in STORE[l]
      ensures GoodFile(f)
      ensures f.number == g.number ==> f == g
      ensures f != g ==> Before(f, g) || Before(g, f)
      ensures Above(l, f, g) ==> Newer(f, g)
    {
      StoreFiles(l, f);
      StoreFiles(l, g);
    }
    if l != 1 && l != 2 {
      assert STORE[l] == [];
    }
    assert BySmallest(LOWER, LEFT_OUT);
  }

  lemma StoreShaped()
    ensures Shaped(STORE)
  {
    FilesGood();
    forall l | 0 <= l < |STORE| ensures ShapedLevel(l, STORE[l]) {
      LevelGood(l);
    }
    forall i, j, f, g | 0 <= i < j < |STORE| && f in STORE[i] && g in STORE[j] ensures Newer(f, g) {
      StoreFiles(i, f);
      StoreFiles(j, g);
    }
  }

  lemma InputsGood()
    ensures GoodInputs(STORE, 1, [UPPER], [LOWER], NEWER.key, NEWER.key)
  {
    assert UPPER in [UPPER];
    forall g ensures g in [LOWER] <==> g in STORE[2] && Overlaps(g, Some(5), Some(5)) {
      StoreFiles(2, g);
    }
    forall g ensures g in [UPPER] <==> g in STORE[1] {
      StoreFiles(1, g);
    }
  }

  lemma StoreEntries(e: Entry)
    ensures e in VersionEntries(STORE) <==> e == NEWER || e == OLDER || e == MARKER || e == DELETED
    ensures e in COMPACTED.LeftOut() <==> e == DELETED
    ensures e in COMPACTED.Inputs() <==> e == NEWER || e == OLDER || e == MARKER
  {
    forall l: nat, f | l < |STORE| ensures f in STORE[l] <==> (l == 1 && f == UPPER) || (l == 2 && (f == LOWER || f == LEFT_OUT)) {
      StoreFiles(l, f);
    }
    assert UPPER in STORE[1] && LOWER in STORE[2] && LEFT_OUT in STORE[2];
    assert NEWER in UPPER.entries && OLDER in LOWER.entries && MARKER in LOWER.entries && DELETED in LEFT_OUT.entries;
    assert UPPER in [UPPER] && LOWER in [LOWER] && LEFT_OUT !in [LOWER];
  }

  lemma NothingDeeper()
    ensures BaseLevelFor(STORE, 1, 10)
  {
    forall l, f | 3 <= l < |STORE| ensures f !in STORE[l] {
      StoreFiles(l, f);
    }
  }

  lemma CompactedValid()
    ensures COMPACTED.Valid()
  {
    StoreShaped();
    InputsGood();
    VersionUnique(STORE);
  }

  lemma MarkerNewest()
    ensures NewestAt(COMPACTED.all, 10, SNAPSHOT, MARKER)
  {
    forall e | e in VersionEntries(STORE) && VisibleTo(e, 10, SNAPSHOT) ensures e.key.seqno <= 5 {
      StoreEntries(e);
    }
    StoreEntries(MARKER);
  }

  lemma MarkerExposes()
    ensures COMPACTED.Exposes(MARKER, DELETED)
  {
    NothingDeeper();
    MarkerNewest();
    StoreEntries(MARKER);
    StoreEntries(DELETED);
    forall y | y in COMPACTED.LeftOut() ensures y == DELETED {
      StoreEntries(y);
    }
  }

  /** User key 10 is deleted at snapshot 9, and reads as "old" after the compaction. */
  lemma CompactionLosesDeletion()
    ensures COMPACTED.Valid()
    ensures Read(COMPACTED.all, 10, SNAPSHOT) == None
    ensures Read(COMPACTED.Kept(), 10, SNAPSHOT) == Some("old")
    ensures !SameReads(COMPACTED.all, COMPACTED.Kept(), SNAPSHOT)
  {
    CompactedValid();
    MarkerExposes();
    ExposedChangesRead(COMPACTED, MARKER, DELETED);
  }

  // ----- how the store came about -----

  ghost const FIRST_MERGE := Merge(BEGUN, 1, [SECOND], [FIRST], OLDER.key, DELETED.key, [LOWER, LEFT_OUT], 3,
                                   SetOf(SECOND.entries))

  lemma BegunFiles(l: nat, f: File)
    requires l < |BEGUN|
    ensures f in BEGUN[l] <==> (l == 1 && f == SECOND) || (l == 2 && f == FIRST)
    ensures f in MERGED[l] <==> l == 2 && (f == LOWER || f == LEFT_OUT)
  {
    if l != 1 && l != 2 {
      assert BEGUN[l] == [];
    }
    if l != 2 {
      assert MERGED[l] == [];
    }
  }

  lemma BegunShaped()
    ensures Shaped(BEGUN)
  {
    assert GoodFile(FIRST) && GoodFile(SECOND) && Newer(SECOND, FIRST);
    forall l | 0 <= l < |BEGUN| ensures ShapedLevel(l, BEGUN[l]) {
      forall f | f in BEGUN[l] ensures GoodFile(f) {
        BegunFiles(l, f);
      }
      forall f, g | f in BEGUN[l] && g in BEGUN[l] ensures f == g {
        BegunFiles(l, f);
        BegunFiles(l, g);
      }
    }
    forall i, j, f, g | 0 <= i < j < |BEGUN| && f in BEGUN[i] && g in BEGUN[j] ensures Newer(f, g) {
      BegunFiles(i, f);
      BegunFiles(j, g);
    }
  }

  lemma BegunInputs()
    ensures GoodInputs(BEGUN, 1, [SECOND], [FIRST], OLDER.key, DELETED.key)
  {
    assert SECOND in [SECOND];
    forall g ensures g in [FIRST] <==> g in BEGUN[2] && Overlaps(g, Some(5), Some(10)) {
      BegunFiles(2, g);
    }
    forall g ensures g in [SECOND] <==> g in BEGUN[1] {
      BegunFiles(1, g);
    }
  }

  lemma FirstInput(e: Entry)
    ensures e in InputEntries([SECOND], [FIRST]) <==> e == OLDEST || e == OLDER || e == MARKER || e == DELETED
  {
    assert SECOND in [SECOND] && FIRST in [FIRST];
    assert OLDEST in FIRST.entries && OLDER in SECOND.entries && MARKER in SECOND.entries && DELETED in SECOND.entries;
  }

  /** The drop rule keeps all but the oldest value, as the reader at the earlier snapshot sees no deletion. */
  lemma FirstMergeKeeps()
    ensures var input := InputEntries([SECOND], [FIRST]);
            input - DroppedEntries(BEGUN, 1, input, EARLIER_SNAPSHOT) == SetOf(SECOND.entries)
  {
    hide InputEntries;
    var input := InputEntries([SECOND], [FIRST]);
    forall e ensures e in input <==> e == OLDEST || e == OLDER || e == MARKER || e == DELETED {
      FirstInput(e);
    }
    assert Shadowed(input, OLDEST, EARLIER_SNAPSHOT) by {
      assert OLDER in input;
    }
    assert !Shadowed(input, OLDER, EARLIER_SNAPSHOT) && !Shadowed(input, DELETED, EARLIER_SNAPSHOT);
    assert !Shadowed(input, MARKER, EARLIER_SNAPSHOT);
    assert OLDER in input && DELETED in input && MARKER in input && OLDEST in input;
  }

  lemma FirstOutputs()
    ensures OutputRun([LOWER, LEFT_OUT], 3, SetOf(SECOND.entries))
  {
    FilesGood();
    assert LOWER in [LOWER, LEFT_OUT] && LEFT_OUT in [LOWER, LEFT_OUT];
    assert SECOND.entries == LOWER.entries + LEFT_OUT.entries;
    forall e ensures e in LevelEntries([LOWER, LEFT_OUT]) <==> e in SetOf(SECOND.entries) {
    }
  }

  /** A merge writes the lower files: what its drop rule keeps, numbered upwards. */
  lemma MergeMakesLower()
    ensures FIRST_MERGE.Valid() && FIRST_MERGE.Installs(MERGED)
    ensures var input := InputEntries([SECOND], [FIRST]);
            FIRST_MERGE.es == input - DroppedEntries(BEGUN, 1, input, EARLIER_SNAPSHOT)
  {
    hide DroppedEntries, InputEntries;
    BegunShaped();
    BegunInputs();
    FirstMergeKeeps();
    FirstOutputs();
    forall l, f | 0 <= l < |BEGUN|
      ensures f in BEGUN[l] <==> (l == 1 && f == SECOND) || (l == 2 && f == FIRST)
      ensures f in MERGED[l] <==> l == 2 && (f == LOWER || f == LEFT_OUT)
    {
      BegunFiles(l, f);
    }
    assert BySmallest(LOWER, LEFT_OUT);
  }

  /** A flush may then put the upper file where it is: neither its level nor any above overlaps it. */
  lemma FlushMakesUpper()
    ensures Placed(MERGED, STORE, 1, UPPER, None) && NumbersBelow(MERGED, UPPER.number)
    ensures forall l :: 0 <= l <= 1 ==> NoOverlap(MERGED[l], UPPER)
    ensures forall l, g :: 0 <= l < |MERGED| && g in MERGED[l] ==> Newer(UPPER, g)
  {
    FilesGood();
    forall l, f | 0 <= l < |MERGED|
      ensures f in MERGED[l] <==> l == 2 && (f == LOWER || f == LEFT_OUT)
      ensures f in STORE[l] <==> (l == 1 && f == UPPER) || (l == 2 && (f == LOWER || f == LEFT_OUT))
    {
      BegunFiles(l, f);
      StoreFiles(l, f);
    }
    assert BySmallest(LOWER, LEFT_OUT);
  }
}
