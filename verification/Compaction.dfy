/** The merge of a compaction: which entries it drops, what it writes, and when readers
    cannot tell (DBImpl::DoCompactionWork in db/db_impl.cc, Compaction in db/version_set.cc). */
module Compaction {
  import opened Options
  import opened DbFormat
  import opened FileLevels
  import opened Version
  import opened CompactionInputs

  // ----- what may be dropped -----

  /** No file below the output level has a range around the user key. */
  ghost predicate BaseLevelFor(v: Levels, level: nat, u: UserKey) {
    forall l, f :: level + 2 <= l < |v| && f in v[l] ==> !Covers(f, u)
  }

  /** Every remaining snapshot sees some newer input entry of the same user key instead. */
  ghost predicate Shadowed(input: set<Entry>, e: Entry, snapshot: nat) {
    exists x :: x in input && x.key.ukey == e.key.ukey && e.key.seqno < x.key.seqno <= snapshot
  }

  ghost predicate ObsoleteDeletion(v: Levels, level: nat, e: Entry, snapshot: nat) {
    e.key.kind == Deletion && e.key.seqno <= snapshot && BaseLevelFor(v, level, e.key.ukey)
  }

  ghost predicate Dropped(v: Levels, level: nat, input: set<Entry>, e: Entry, snapshot: nat) {
    Shadowed(input, e, snapshot) || ObsoleteDeletion(v, level, e, snapshot)
  }

  ghost function DroppedEntries(v: Levels, level: nat, input: set<Entry>, snapshot: nat): set<Entry> {
    set e | e in input && Dropped(v, level, input, e, snapshot)
  }

  /** The file at a sorted level's moving pointer decides whether the level covers the key. */
  lemma PointerDecides(fs: seq<File>, u: UserKey, p: nat)
    requires SortedRun(fs) && p < |fs|
    requires forall i :: 0 <= i < p ==> fs[i].largest.ukey < u
    requires u <= fs[p].largest.ukey
    ensures (exists f :: f in fs && Covers(f, u)) <==> fs[p].smallest.ukey <= u
  {
    assert fs[p] in fs;
    forall f | f in fs && Covers(f, u) ensures fs[p].smallest.ukey <= u {
      var i :| 0 <= i < |fs| && fs[i] == f;
      if i > p {
        RunOrder(fs, p, i);
        GoodFileOrder(fs[p]);
        GoodFileOrder(f);
      }
    }
  }

  /** The files a level pointer has passed end before the latest key asked about. */
  ghost predicate PointerValid(files: seq<File>, p: nat, lastAsked: Option<UserKey>) {
    && p <= |files|
    && (lastAsked.None? ==> p == 0)
    && (lastAsked.Some? ==> forall i :: 0 <= i < p ==> files[i].largest.ukey < lastAsked.value)
  }

  class Compaction {
    const level: nat
    const inputVersion: Levels
    const inputs0: seq<File>
    const inputs1: seq<File>
    const grandparents: seq<File>
    const maxOverlapBytes: nat
    const levelPtrs: array<nat>
    var grandparentIndex: nat
    var seenKey: bool
    var overlappedBytes: nat
    ghost var lastAsked: Option<UserKey>  // the key of the latest IsBaseLevelForKey

    ghost predicate Valid()
      reads this, levelPtrs
    {
      && Shaped(inputVersion) && level + 1 < NUM_LEVELS
      && levelPtrs.Length == NUM_LEVELS
      && (forall l :: level + 2 <= l < NUM_LEVELS ==> PointerValid(inputVersion[l], levelPtrs[l], lastAsked))
      && grandparentIndex <= |grandparents| && SortedRun(grandparents)
    }

    constructor (level: nat, v: Levels, inputs0: seq<File>, inputs1: seq<File>, grandparents: seq<File>, maxFileSize: nat)
      requires Shaped(v) && level + 1 < NUM_LEVELS && SortedRun(grandparents)
      ensures Valid() && fresh(levelPtrs) && lastAsked == None
      ensures this.level == level && inputVersion == v
      ensures this.grandparents == grandparents && maxOverlapBytes == 10 * maxFileSize
      ensures grandparentIndex == 0 && !seenKey && overlappedBytes == 0
    {
      this.level, inputVersion, this.inputs0, this.inputs1 := level, v, inputs0, inputs1;
      this.grandparents, maxOverlapBytes := grandparents, 10 * maxFileSize;
      levelPtrs := new nat[NUM_LEVELS](_ => 0);
      grandparentIndex, seenKey, overlappedBytes := 0, false, 0;
      lastAsked := None;
    }

    /** Answers like a scan of every deeper file, as long as it is asked about keys in order. */
    method IsBaseLevelForKey(u: UserKey) returns (b: bool)
      requires Valid() && (lastAsked.Some? ==> lastAsked.value <= u)
      modifies levelPtrs, `lastAsked
      ensures Valid() && lastAsked == Some(u)
      ensures b <==> BaseLevelFor(inputVersion, level, u)
    {
      lastAsked := Some(u);
      var lvl := level + 2;
      while lvl < NUM_LEVELS
        invariant level + 2 <= lvl <= NUM_LEVELS
        invariant Valid() && lastAsked == Some(u)
        invariant forall l, f :: level + 2 <= l < lvl && f in inputVersion[l] ==> !Covers(f, u)
      {
        var files := inputVersion[lvl];
        assert ShapedLevel(lvl, files);
        while levelPtrs[lvl] < |files|
          invariant Valid() && lastAsked == Some(u)
          decreases |files| - levelPtrs[lvl]
        {
          var f := files[levelPtrs[lvl]];
          if u <= f.largest.ukey {
            PointerDecides(files, u, levelPtrs[lvl]);
            if u >= f.smallest.ukey {
              return false;
            }
            break;
          }
          levelPtrs[lvl] := levelPtrs[lvl] + 1;
        }
        lvl := lvl + 1;
      }
      return true;
    }

    /** Advances past the grandparents that end before `key` and says whether the current output
        has crossed too many of their bytes. */
    method ShouldStopBefore(key: InternalKey) returns (stop: bool)
      requires Valid()
      modifies `grandparentIndex, `seenKey, `overlappedBytes
      ensures Valid() && seenKey && old(grandparentIndex) <= grandparentIndex
      ensures forall i :: old(grandparentIndex) <= i < grandparentIndex ==> Less(grandparents[i].largest, key)
      ensures grandparentIndex < |grandparents| ==> LessEq(key, grandparents[grandparentIndex].largest)
      ensures var crossed := old(overlappedBytes) +
                             (if old(seenKey) then SumSizes(grandparents[old(grandparentIndex)..grandparentIndex]) else 0);
              && (stop <==> crossed > maxOverlapBytes)
              && overlappedBytes == if stop then 0 else crossed
    {
      ghost var start := grandparentIndex;
      while grandparentIndex < |grandparents| && Less(grandparents[grandparentIndex].largest, key)
        invariant start <= grandparentIndex <= |grandparents|
        invariant Valid() && seenKey == old(seenKey)
        invariant forall i :: start <= i < grandparentIndex ==> Less(grandparents[i].largest, key)
        invariant overlappedBytes == old(overlappedBytes) +
                                     (if seenKey then SumSizes(grandparents[start..grandparentIndex]) else 0)
      {
        assert grandparents[start..grandparentIndex + 1][..grandparentIndex - start] == grandparents[start..grandparentIndex];
        if seenKey {
          overlappedBytes := overlappedBytes + grandparents[grandparentIndex].size;
        }
        grandparentIndex := grandparentIndex + 1;
      }
      seenKey := true;
      if overlappedBytes > maxOverlapBytes {
        overlappedBytes := 0;
        return true;
      }
      return false;
    }
  }

  // ----- the merge loop -----

  /** The loop's one-entry memory is enough: an entry is hidden exactly when the entry before it
      is of the same user key and already visible to every snapshot. */
  lemma LastSequenceDecides(input: seq<Entry>, i: nat, snapshot: nat)
    requires SortedEntries(input) && i < |input|
    ensures Shadowed(SetOf(input), input[i], snapshot) <==>
            i > 0 && input[i - 1].key.ukey == input[i].key.ukey && input[i - 1].key.seqno <= snapshot
  {
    if x :| x in SetOf(input) && x.key.ukey == input[i].key.ukey && input[i].key.seqno < x.key.seqno <= snapshot {
      var j :| 0 <= j < |input| && input[j] == x;
      assert j < i;
      assert j < i - 1 ==> Precedes(input[j], input[i - 1]);
    }
    if i > 0 && input[i - 1].key.ukey == input[i].key.ukey && input[i - 1].key.seqno <= snapshot {
      assert input[i - 1] in SetOf(input) && Precedes(input[i - 1], input[i]);
    }
  }

  function Flatten(outs: seq<File>): seq<Entry> {
    if outs == [] then [] else Flatten(outs[..|outs| - 1]) + outs[|outs| - 1].entries
  }

  /** Output files as the loop closes them: numbered in order, bounds taken from their entries. */
  ghost predicate Framed(outs: seq<File>, firstNumber: nat) {
    forall i :: 0 <= i < |outs| ==>
      && outs[i].number == firstNumber + i
      && |outs[i].entries| > 0
      && outs[i].smallest == outs[i].entries[0].key
      && outs[i].largest == outs[i].entries[|outs[i].entries| - 1].key
  }

  /** Good, ordered files numbered from `firstNumber` that together hold exactly `es`. */
  ghost predicate OutputRun(outs: seq<File>, firstNumber: nat, es: set<Entry>) {
    && (forall i :: 0 <= i < |outs| ==> GoodFile(outs[i]) && outs[i].number == firstNumber + i)
    && (forall i, j :: 0 <= i < j < |outs| ==> Before(outs[i], outs[j]))
    && LevelEntries(outs) == es
  }

  lemma {:induction false} SplitIsRun(outs: seq<File>, firstNumber: nat)
    requires Framed(outs, firstNumber) && SortedEntries(Flatten(outs))
    requires forall e :: e in Flatten(outs) ==> e.key.seqno <= MAX_SEQUENCE
    ensures OutputRun(outs, firstNumber, SetOf(Flatten(outs)))
    decreases |outs|
  {
    if outs != [] {
      hide OutputRun, SortedEntries, GoodFile, LevelEntries, SetOf, Framed;
      var init, f := outs[..|outs| - 1], outs[|outs| - 1];
      var es := Flatten(init);
      FramedParts(outs, firstNumber);
      SortedParts(es, f.entries);
      SplitIsRun(init, firstNumber);
      SortedEntriesMakeGoodFile(f);
      RunStep(init, f, firstNumber, es);
      assert outs == init + [f];
    }
  }

  lemma FramedParts(outs: seq<File>, firstNumber: nat)
    requires Framed(outs, firstNumber) && outs != []
    ensures Framed(outs[..|outs| - 1], firstNumber)
    ensures var f := outs[|outs| - 1];
            && f.number == firstNumber + |outs| - 1 && |f.entries| > 0
            && f.smallest == f.entries[0].key && f.largest == f.entries[|f.entries| - 1].key
  {
  }

  lemma RunStep(init: seq<File>, f: File, firstNumber: nat, es: seq<Entry>)
    requires OutputRun(init, firstNumber, SetOf(es)) && SortedEntries(es + f.entries)
    requires GoodFile(f) && f.number == firstNumber + |init|
    ensures OutputRun(init + [f], firstNumber, SetOf(es + f.entries))
  {
    hide SortedEntries, GoodFile, LevelEntries, SetOf, Before;
    forall i | 0 <= i < |init| ensures Before(init[i], f) {
      LastBeforeNext(init, i, es, f);
    }
    SortedParts(es, f.entries);
    RunAppend(init, f, firstNumber, SetOf(es));
  }

  lemma RunAppend(init: seq<File>, f: File, firstNumber: nat, es: set<Entry>)
    requires OutputRun(init, firstNumber, es)
    requires GoodFile(f) && f.number == firstNumber + |init|
    requires forall i :: 0 <= i < |init| ==> Before(init[i], f)
    ensures OutputRun(init + [f], firstNumber, es + SetOf(f.entries))
  {
    LevelEntriesAppend(init, f);
  }

  lemma SortedParts(a: seq<Entry>, b: seq<Entry>)
    requires SortedEntries(a + b)
    ensures SortedEntries(a) && SortedEntries(b)
    ensures forall e :: e in a ==> e in a + b
    ensures forall e :: e in b ==> e in a + b
    ensures SetOf(a + b) == SetOf(a) + SetOf(b)
  {
    forall i, j | 0 <= i < j < |a| ensures Precedes(a[i], a[j]) {
      assert Precedes((a + b)[i], (a + b)[j]);
    }
    forall i, j | 0 <= i < j < |b| ensures Precedes(b[i], b[j]) {
      assert Precedes((a + b)[|a| + i], (a + b)[|a| + j]);
    }
  }

  lemma LevelEntriesAppend(init: seq<File>, f: File)
    ensures LevelEntries(init + [f]) == LevelEntries(init) + SetOf(f.entries)
  {
    assert forall g :: g in init + [f] <==> g in init || g == f;
  }

  lemma LastBeforeNext(init: seq<File>, i: nat, es: seq<Entry>, f: File)
    requires i < |init| && GoodFile(init[i]) && GoodFile(f)
    requires LevelEntries(init) == SetOf(es)
    requires SortedEntries(es + f.entries)
    ensures Before(init[i], f)
  {
    var last := init[i].entries[|init[i].entries| - 1];
    assert last in LevelEntries(init);
    var k :| 0 <= k < |es| && es[k] == last;
    assert (es + f.entries)[k] == last && (es + f.entries)[|es|] == f.entries[0];
  }

  /** `kept` is what the loop has written of `input[..i]`. */
  ghost predicate KeptPrefix(v: Levels, level: nat, input: seq<Entry>, i: nat, snapshot: nat, kept: seq<Entry>)
    requires i <= |input|
  {
    && SortedEntries(kept)
    && (forall e :: e in kept <==> e in input[..i] && !Dropped(v, level, SetOf(input), e, snapshot))
    && (forall e, j :: e in kept && i <= j < |input| ==> Precedes(e, input[j]))
  }

  lemma KeptStep(v: Levels, level: nat, input: seq<Entry>, i: nat, snapshot: nat, kept: seq<Entry>)
    requires SortedEntries(input) && i < |input|
    requires KeptPrefix(v, level, input, i, snapshot, kept)
    ensures Dropped(v, level, SetOf(input), input[i], snapshot) ==> KeptPrefix(v, level, input, i + 1, snapshot, kept)
    ensures !Dropped(v, level, SetOf(input), input[i], snapshot) ==> KeptPrefix(v, level, input, i + 1, snapshot, kept + [input[i]])
  {
    assert input[..i + 1] == input[..i] + [input[i]];
    var kept' := kept + [input[i]];
    forall a, b | 0 <= a < b < |kept'| ensures Precedes(kept'[a], kept'[b]) {
      assert kept[a] in kept;
    }
  }

  /** The drop rule, given the sequence number of the entry before `e` if it has the same user key. */
  method ShouldDrop(c: Compaction, ghost input: set<Entry>, e: Entry, lastSequenceForKey: nat, smallestSnapshot: nat) returns (drop: bool)
    requires c.Valid() && (c.lastAsked.Some? ==> c.lastAsked.value <= e.key.ukey)
    requires lastSequenceForKey <= smallestSnapshot <==> Shadowed(input, e, smallestSnapshot)
    modifies c.levelPtrs, c`lastAsked
    ensures c.Valid() && (c.lastAsked == old(c.lastAsked) || c.lastAsked == Some(e.key.ukey))
    ensures drop <==> Dropped(c.inputVersion, c.level, input, e, smallestSnapshot)
  {
    drop := false;
    if lastSequenceForKey <= smallestSnapshot {
      drop := true;  // hidden by a newer entry for the same user key
    } else if e.key.kind == Deletion && e.key.seqno <= smallestSnapshot {
      drop := c.IsBaseLevelForKey(e.key.ukey);  // obsolete deletion marker
    }
  }

  // ----- where outputs are cut -----

  /** The size of a table while it is built, and when it is finished, for given entries. */
  datatype Sizes = Sizes(growing: seq<Entry> -> nat, finished: seq<Entry> -> nat)

  /** A merge: its version and level, input, smallest snapshot and grandparents, and how large tables are and may be. */
  datatype Work = Work(v: Levels, level: nat, input: seq<Entry>, snapshot: nat, grandparents: seq<File>, sizes: Sizes, maxFileSize: nat)
  {
    ghost predicate Kept(e: Entry) {
      !Dropped(v, level, SetOf(input), e, snapshot)
    }
  }

  /** The grandparents that end from `a` on but before `b` hold no more than `limit` bytes. */
  ghost predicate FewBetween(gps: seq<File>, a: InternalKey, b: InternalKey, limit: nat) {
    forall lo, hi :: 0 <= lo <= hi <= |gps| && EndBetween(gps, lo, hi, a, b) ==> SumSizes(gps[lo..hi]) <= limit
  }

  ghost predicate EndBetween(gps: seq<File>, lo: nat, hi: nat, a: InternalKey, b: InternalKey)
    requires lo <= hi <= |gps|
  {
    forall k :: lo <= k < hi ==> LessEq(a, gps[k].largest) && Less(gps[k].largest, b)
  }

  /** Not before its last entry was the table as large as it may be. */
  ghost predicate GrewTo(w: Work, es: seq<Entry>) {
    forall n :: 0 < n < |es| ==> w.sizes.growing(es[..n]) < w.maxFileSize
  }

  /** What every output is: as large as its table, cut when large enough, and across few grandparents. */
  ghost predicate CutInTime(w: Work, f: File) {
    f.size == w.sizes.finished(f.entries) && GrewTo(w, f.entries) && FewBetween(w.grandparents, f.smallest, f.largest, 10 * w.maxFileSize)
  }

  /** At the `m`-th input entry, the first one kept after the output or one before that, the merge had passed
      too many bytes of grandparents. */
  ghost predicate PassedTooMany(w: Work, f: File, m: nat, lo: nat, hi: nat) {
    && m < |w.input| && lo <= hi <= |w.grandparents| && SumSizes(w.grandparents[lo..hi]) > 10 * w.maxFileSize
    && (forall k :: lo <= k < hi ==> Less(w.grandparents[k].largest, w.input[m].key))
    && (forall j :: 0 <= j < m && w.Kept(w.input[j]) ==> LessEq(w.input[j].key, f.largest))
  }

  /** Why an output was closed before the input ended. */
  ghost predicate ClosedForReason(w: Work, f: File) {
    w.sizes.growing(f.entries) >= w.maxFileSize || exists m, lo, hi :: PassedTooMany(w, f, m, lo, hi)
  }

  ghost predicate CutRight(w: Work, outs: seq<File>) {
    && (forall i :: 0 <= i < |outs| ==> CutInTime(w, outs[i]))
    && (forall i :: 0 <= i < |outs| - 1 ==> ClosedForReason(w, outs[i]))
  }

  // ----- the merge loop -----

  /** What the merge loop carries from one input entry to the next. */
  datatype MergeState = MergeState(outs: seq<File>, builder: seq<Entry>,
                                   currentUserKey: Option<UserKey>, lastSequenceForKey: nat)

  ghost predicate MergedUpTo(w: Work, i: nat, firstNumber: nat, st: MergeState)
    requires i <= |w.input|
  {
    && st.currentUserKey == (if i == 0 then None else Some(w.input[i - 1].key.ukey))
    && (i > 0 ==> st.lastSequenceForKey == w.input[i - 1].key.seqno)
    && Framed(st.outs, firstNumber)
    && KeptPrefix(w.v, w.level, w.input, i, w.snapshot, Flatten(st.outs) + st.builder)
  }

  /** How many grandparents the merge had passed when it last counted from zero, and when the output began. */
  datatype Marks = Marks(cut: nat, start: nat)

  /** The counter of the merge, at input entry `i`, with respect to the open output. */
  ghost predicate Counted(w: Work, c: Compaction, i: nat, builder: seq<Entry>, marks: Marks)
    requires i <= |w.input|
    reads c
  {
    && c.grandparents == w.grandparents && c.maxOverlapBytes == 10 * w.maxFileSize && c.grandparentIndex <= |w.grandparents|
    && marks.cut <= c.grandparentIndex
    && (c.seenKey <==> i > 0)
    && c.overlappedBytes == (if c.seenKey then SumSizes(w.grandparents[marks.cut..c.grandparentIndex]) else 0)
    && c.overlappedBytes <= 10 * w.maxFileSize
    && (i > 0 ==> forall k :: 0 <= k < |w.grandparents| ==>
          if k < c.grandparentIndex then Less(w.grandparents[k].largest, w.input[i - 1].key)
          else LessEq(w.input[i - 1].key, w.grandparents[k].largest))
    && (i == 0 ==> builder == [] && c.grandparentIndex == 0)
    && (builder != [] ==>
          && marks.cut <= marks.start <= c.grandparentIndex
          && (forall k :: 0 <= k < marks.start ==> Less(w.grandparents[k].largest, builder[0].key))
          && LessEq(builder[|builder| - 1].key, w.input[i - 1].key))
  }

  /** The closed outputs are cut right, and the open one is not yet too large. */
  ghost predicate WellCut(w: Work, outs: seq<File>, builder: seq<Entry>) {
    && (forall i :: 0 <= i < |outs| ==> CutInTime(w, outs[i]) && ClosedForReason(w, outs[i]))
    && (forall n :: 0 < n <= |builder| ==> w.sizes.growing(builder[..n]) < w.maxFileSize)
  }

  // ----- sums over grandparents -----

  lemma {:induction false} SumTogether(x: seq<File>, y: seq<File>)
    ensures SumSizes(x + y) == SumSizes(x) + SumSizes(y)
    decreases |y|
  {
    if y == [] {
      assert x + y == x;
    } else {
      var init := y[..|y| - 1];
      SumTogether(x, init);
      assert (x + y)[..|x + y| - 1] == x + init;
    }
  }

  lemma SumPart(gps: seq<File>, a: nat, lo: nat, hi: nat, b: nat)
    requires a <= lo <= hi <= b <= |gps|
    ensures SumSizes(gps[lo..hi]) <= SumSizes(gps[a..b])
  {
    SumTogether(gps[a..lo], gps[lo..hi]);
    assert gps[a..lo] + gps[lo..hi] == gps[a..hi];
    SumTogether(gps[a..hi], gps[hi..b]);
    assert gps[a..hi] + gps[hi..b] == gps[a..b];
  }

  lemma FewCounted(gps: seq<File>, marks: Marks, index: nat, first: InternalKey, last: InternalKey, now: InternalKey, limit: nat)
    requires marks.cut <= marks.start <= index <= |gps| && SumSizes(gps[marks.cut..index]) <= limit
    requires forall k :: 0 <= k < marks.start ==> Less(gps[k].largest, first)
    requires LessEq(last, now) && forall k :: index <= k < |gps| ==> LessEq(now, gps[k].largest)
    ensures FewBetween(gps, first, last, limit)
  {
    forall lo, hi | 0 <= lo <= hi <= |gps| && EndBetween(gps, lo, hi, first, last) ensures SumSizes(gps[lo..hi]) <= limit {
      if lo == hi {
        assert gps[lo..hi] == [];
      } else {
        assert lo <= lo < hi && lo <= hi - 1 < hi;
        LessIsStrictTotalOrder(gps[lo].largest, first, first);
        LessIsStrictTotalOrder(gps[hi - 1].largest, last, now);
        assert lo >= marks.start && hi <= index;
        SumPart(gps, marks.cut, lo, hi, index);
      }
    }
  }

  lemma OpenIsFew(w: Work, c: Compaction, i: nat, builder: seq<Entry>, marks: Marks)
    requires i <= |w.input| && Counted(w, c, i, builder, marks) && builder != []
    ensures FewBetween(w.grandparents, builder[0].key, builder[|builder| - 1].key, 10 * w.maxFileSize)
  {
    FewCounted(w.grandparents, marks, c.grandparentIndex, builder[0].key, builder[|builder| - 1].key, w.input[i - 1].key, 10 * w.maxFileSize);
  }

  lemma KeptSoFar(w: Work, i: nat, kept: seq<Entry>, last: Entry)
    requires i <= |w.input| && KeptPrefix(w.v, w.level, w.input, i, w.snapshot, kept) && kept != [] && last == kept[|kept| - 1]
    ensures forall j :: 0 <= j < i && w.Kept(w.input[j]) ==> LessEq(w.input[j].key, last.key)
  {
    forall j | 0 <= j < i && w.Kept(w.input[j]) ensures LessEq(w.input[j].key, last.key) {
      assert w.input[j] in w.input[..i];
      assert w.input[j] in kept;
      var k :| 0 <= k < |kept| && kept[k] == w.input[j];
      assert k < |kept| - 1 ==> Precedes(kept[k], kept[|kept| - 1]);
    }
  }

  // ----- one round -----

  lemma CountedOn(gps: seq<File>, cut: nat, n: nat, index: nat)
    requires cut <= n <= index <= |gps|
    ensures SumSizes(gps[cut..n]) + SumSizes(gps[n..index]) == SumSizes(gps[cut..index])
  {
    SumTogether(gps[cut..n], gps[n..index]);
    assert gps[cut..n] + gps[n..index] == gps[cut..index];
  }

  lemma EndsBehind(gps: seq<File>, index: nat, key: InternalKey)
    requires SortedRun(gps) && index <= |gps| && (index < |gps| ==> LessEq(key, gps[index].largest))
    ensures forall k :: index <= k < |gps| ==> LessEq(key, gps[k].largest)
  {
    forall k | index <= k < |gps| ensures LessEq(key, gps[k].largest) {
      if k > index {
        assert gps[index] in gps && gps[k] in gps;
        GoodFileOrder(gps[index]);
        GoodFileOrder(gps[k]);
        RunOrder(gps, index, k);
      }
    }
  }

  /** Closing the open output at entry `m`, where too many grandparents were passed. */
  lemma ClosedEarly(w: Work, m: nat, kept: seq<Entry>, f: File, lo: nat, hi: nat)
    requires m < |w.input| && KeptPrefix(w.v, w.level, w.input, m, w.snapshot, kept)
    requires kept != [] && f.largest == kept[|kept| - 1].key
    requires lo <= hi <= |w.grandparents| && SumSizes(w.grandparents[lo..hi]) > 10 * w.maxFileSize
    requires forall k :: lo <= k < hi ==> Less(w.grandparents[k].largest, w.input[m].key)
    ensures ClosedForReason(w, f)
  {
    KeptSoFar(w, m, kept, kept[|kept| - 1]);
    assert PassedTooMany(w, f, m, lo, hi);
  }

  /** Asks the counter about the next key. */
  method Ask(c: Compaction, w: Work, i: nat, ghost builder: seq<Entry>, ghost marks: Marks) returns (stop: bool, ghost after: Marks)
    requires c.Valid() && i < |w.input| && SortedEntries(w.input) && Counted(w, c, i, builder, marks)
    modifies c`grandparentIndex, c`seenKey, c`overlappedBytes
    ensures c.Valid() && Counted(w, c, i + 1, if stop then [] else builder, after)
    ensures stop ==> marks.cut <= c.grandparentIndex <= |w.grandparents|
                     && SumSizes(w.grandparents[marks.cut..c.grandparentIndex]) > 10 * w.maxFileSize
                     && forall k :: 0 <= k < c.grandparentIndex ==> Less(w.grandparents[k].largest, w.input[i].key)
  {
    hide Shaped, SortedRun, PointerValid, SumSizes, GoodFile;
    ghost var n := c.grandparentIndex;
    assert i > 0 ==> Precedes(w.input[i - 1], w.input[i]);
    stop := c.ShouldStopBefore(w.input[i].key);
    CountedOn(w.grandparents, marks.cut, n, c.grandparentIndex);
    CountedOn(w.grandparents, c.grandparentIndex, c.grandparentIndex, c.grandparentIndex);
    EndsBehind(w.grandparents, c.grandparentIndex, w.input[i].key);
    after := Marks(if stop || i == 0 then c.grandparentIndex else marks.cut, marks.start);
  }

  /** Closes the output before the next entry if too many grandparents were passed. */
  method StopBefore(c: Compaction, w: Work, i: nat, firstNumber: nat, st: MergeState, ghost marks: Marks)
      returns (r: MergeState, ghost after: Marks)
    requires c.Valid() && i < |w.input| && SortedEntries(w.input)
    requires MergedUpTo(w, i, firstNumber, st) && Counted(w, c, i, st.builder, marks) && WellCut(w, st.outs, st.builder)
    modifies c`grandparentIndex, c`seenKey, c`overlappedBytes
    ensures c.Valid() && MergedUpTo(w, i, firstNumber, r) && WellCut(w, r.outs, r.builder) && Counted(w, c, i + 1, r.builder, after)
  {
    hide KeptPrefix, Framed, FewBetween, Compaction.Valid, SortedEntries, ClosedForReason, GrewTo;
    r := st;
    if st.builder != [] {
      OpenIsFew(w, c, i, st.builder, marks);
    }
    var stop;
    stop, after := Ask(c, w, i, st.builder, marks);
    if stop && st.builder != [] {
      ghost var kept := Flatten(st.outs) + st.builder;
      var outs, builder := FinishOutput(st.outs, st.builder, firstNumber, w.sizes);
      ClosedEarly(w, i, kept, outs[|outs| - 1], marks.cut, c.grandparentIndex);
      Closes(w, st, outs);
      assert Flatten(outs) + [] == kept;
      r := st.(outs := outs, builder := builder);
    }
  }

  /** One more closed output. */
  lemma Closes(w: Work, st: MergeState, outs: seq<File>)
    requires |outs| == |st.outs| + 1 && outs[..|st.outs|] == st.outs
    requires forall i :: 0 <= i < |st.outs| ==> CutInTime(w, st.outs[i]) && ClosedForReason(w, st.outs[i])
    requires var f := outs[|st.outs|];
             f.size == w.sizes.finished(f.entries) && ClosedForReason(w, f)
             && FewBetween(w.grandparents, f.smallest, f.largest, 10 * w.maxFileSize)
             && forall n :: 0 < n < |f.entries| ==> w.sizes.growing(f.entries[..n]) < w.maxFileSize
    ensures WellCut(w, outs, [])
  {
    hide ClosedForReason, FewBetween;
    forall i | 0 <= i < |outs| ensures CutInTime(w, outs[i]) && ClosedForReason(w, outs[i]) {
      assert i < |st.outs| ==> outs[i] == st.outs[i];
    }
  }

  /** Adds an entry to the open output, or opens one, and closes it if it is large enough. */
  method KeepEntry(c: Compaction, w: Work, i: nat, firstNumber: nat, st: MergeState, ghost marks: Marks)
      returns (r: MergeState, ghost after: Marks)
    requires c.Valid() && i < |w.input| && Framed(st.outs, firstNumber) && WellCut(w, st.outs, st.builder)
    requires Counted(w, c, i + 1, st.builder, marks)
    ensures WellCut(w, r.outs, r.builder) && Framed(r.outs, firstNumber) && Counted(w, c, i + 1, r.builder, after)
    ensures r == st.(outs := r.outs, builder := r.builder)
    ensures Flatten(r.outs) + r.builder == Flatten(st.outs) + (st.builder + [w.input[i]])
  {
    hide FewBetween, Compaction.Valid, ClosedForReason, GrewTo, Framed;
    after := if st.builder == [] then Marks(marks.cut, c.grandparentIndex) else marks;
    var outs, builder := st.outs, st.builder + [w.input[i]];
    OpenIsFew(w, c, i + 1, builder, after);
    forall n | 0 < n < |builder| ensures w.sizes.growing(builder[..n]) < w.maxFileSize {
      assert builder[..n] == st.builder[..n];
    }
    if w.sizes.growing(builder) >= w.maxFileSize {
      ghost var f := builder;
      outs, builder := FinishOutput(outs, builder, firstNumber, w.sizes);
      LargeEnough(w, outs[|outs| - 1]);
      Closes(w, st, outs);
      assert Flatten(outs) + [] == Flatten(outs);
    } else {
      assert builder[..|builder|] == builder;
    }
    r := st.(outs := outs, builder := builder);
  }

  lemma LargeEnough(w: Work, f: File)
    requires w.sizes.growing(f.entries) >= w.maxFileSize
    ensures ClosedForReason(w, f)
  {
  }

  /** One round of the merge loop. */
  method MergeEntry(c: Compaction, w: Work, i: nat, firstNumber: nat, st: MergeState, ghost marks: Marks)
      returns (r: MergeState, ghost after: Marks)
    requires c.Valid() && c.inputVersion == w.v && c.level == w.level
    requires i < |w.input| && SortedEntries(w.input) && w.snapshot < MAX_SEQUENCE
    requires c.lastAsked.Some? ==> i > 0 && c.lastAsked.value <= w.input[i - 1].key.ukey
    requires MergedUpTo(w, i, firstNumber, st) && Counted(w, c, i, st.builder, marks) && WellCut(w, st.outs, st.builder)
    modifies c, c.levelPtrs
    ensures c.Valid()
    ensures c.lastAsked.Some? ==> c.lastAsked.value <= w.input[i].key.ukey
    ensures MergedUpTo(w, i + 1, firstNumber, r) && Counted(w, c, i + 1, r.builder, after) && WellCut(w, r.outs, r.builder)
  {
    hide WellCut, Compaction.Valid, KeptPrefix, SortedEntries, Framed, Dropped, Shadowed, SetOf, Less, LessEq;
    var e := w.input[i];
    RoundOrder(w, i);
    r, after := StopBefore(c, w, i, firstNumber, st, marks);
    ghost var kept := Flatten(r.outs) + r.builder;
    var lastSequenceForKey := r.lastSequenceForKey;
    if r.currentUserKey.None? || e.key.ukey != r.currentUserKey.value {
      // first occurrence of this user key
      lastSequenceForKey := MAX_SEQUENCE;
    }
    LastSequenceDecides(w.input, i, w.snapshot);
    var drop := ShouldDrop(c, SetOf(w.input), e, lastSequenceForKey, w.snapshot);
    KeptStep(w.v, w.level, w.input, i, w.snapshot, kept);
    if !drop {
      r, after := KeepEntry(c, w, i, firstNumber, r, after);
      assert Flatten(r.outs) + r.builder == kept + [e];
    }
    r := r.(currentUserKey := Some(e.key.ukey), lastSequenceForKey := e.key.seqno);
  }

  lemma RoundOrder(w: Work, i: nat)
    requires SortedEntries(w.input) && i < |w.input|
    ensures i > 0 ==> Precedes(w.input[i - 1], w.input[i])
  {
  }

  /** Merges the sorted input into output files of the level below, dropping what no reader at or
      after the oldest snapshot needs, and cutting outputs by their size and their grandparents. */
  method DoCompactionWork(c: Compaction, w: Work, firstNumber: nat) returns (outs: seq<File>)
    requires c.Valid() && c.lastAsked == None && c.inputVersion == w.v && c.level == w.level
    requires c.grandparents == w.grandparents && c.maxOverlapBytes == 10 * w.maxFileSize
    requires c.grandparentIndex == 0 && !c.seenKey && c.overlappedBytes == 0
    requires SortedEntries(w.input) && forall e :: e in w.input ==> e.key.seqno <= MAX_SEQUENCE
    requires w.snapshot < MAX_SEQUENCE
    modifies c, c.levelPtrs
    ensures OutputRun(outs, firstNumber, SetOf(w.input) - DroppedEntries(w.v, w.level, SetOf(w.input), w.snapshot))
    ensures CutRight(w, outs)
  {
    hide Compaction.Valid, SortedEntries, Framed, ClosedForReason, CutInTime;
    var st := MergeState([], [], None, MAX_SEQUENCE);
    ghost var marks := Marks(0, 0);
    Begins(w, firstNumber, st);
    for i := 0 to |w.input|
      invariant c.Valid() && (c.lastAsked.Some? ==> i > 0 && c.lastAsked.value <= w.input[i - 1].key.ukey)
      invariant MergedUpTo(w, i, firstNumber, st) && Counted(w, c, i, st.builder, marks) && WellCut(w, st.outs, st.builder)
    {
      st, marks := MergeEntry(c, w, i, firstNumber, st, marks);
    }
    if st.builder != [] {
      OpenIsFew(w, c, |w.input|, st.builder, marks);
    }
    outs := FinishOutputs(w, firstNumber, st);
  }

  lemma Begins(w: Work, firstNumber: nat, st: MergeState)
    requires st == MergeState([], [], None, MAX_SEQUENCE)
    ensures MergedUpTo(w, 0, firstNumber, st) && WellCut(w, st.outs, st.builder)
  {
  }

  method FinishOutputs(w: Work, firstNumber: nat, st: MergeState) returns (outs: seq<File>)
    requires MergedUpTo(w, |w.input|, firstNumber, st) && WellCut(w, st.outs, st.builder)
    requires st.builder != [] ==>
               FewBetween(w.grandparents, st.builder[0].key, st.builder[|st.builder| - 1].key, 10 * w.maxFileSize)
    requires forall e :: e in w.input ==> e.key.seqno <= MAX_SEQUENCE
    ensures OutputRun(outs, firstNumber, SetOf(w.input) - DroppedEntries(w.v, w.level, SetOf(w.input), w.snapshot))
    ensures CutRight(w, outs)
  {
    hide KeptPrefix, FewBetween, Framed, ClosedForReason;
    KeptAll(w.v, w.level, w.input, w.snapshot, Flatten(st.outs) + st.builder);
    var rest;
    outs, rest := FinishOutput(st.outs, st.builder, firstNumber, w.sizes);
    SplitIsRun(outs, firstNumber);
    LastOutput(w, st, outs);
  }

  lemma LastOutput(w: Work, st: MergeState, outs: seq<File>)
    requires WellCut(w, st.outs, st.builder)
    requires if st.builder == [] then outs == st.outs
             else |outs| == |st.outs| + 1 && outs[..|st.outs|] == st.outs
                  && outs[|st.outs|].entries == st.builder && outs[|st.outs|].size == w.sizes.finished(st.builder)
                  && FewBetween(w.grandparents, outs[|st.outs|].smallest, outs[|st.outs|].largest, 10 * w.maxFileSize)
    ensures CutRight(w, outs)
  {
    hide FewBetween, ClosedForReason;
    forall i | 0 <= i < |outs| ensures CutInTime(w, outs[i]) && (i < |outs| - 1 ==> ClosedForReason(w, outs[i])) {
      assert i < |st.outs| ==> outs[i] == st.outs[i];
    }
  }

  lemma KeptAll(v: Levels, level: nat, input: seq<Entry>, snapshot: nat, kept: seq<Entry>)
    requires KeptPrefix(v, level, input, |input|, snapshot, kept)
    requires forall e :: e in input ==> e.key.seqno <= MAX_SEQUENCE
    ensures SortedEntries(kept) && forall e :: e in kept ==> e.key.seqno <= MAX_SEQUENCE
    ensures SetOf(kept) == SetOf(input) - DroppedEntries(v, level, SetOf(input), snapshot)
  {
    assert input[..|input|] == input;
  }

  /** Closes the current output, if one is open. */
  method FinishOutput(outs: seq<File>, builder: seq<Entry>, firstNumber: nat, sizes: Sizes)
      returns (r: seq<File>, empty: seq<Entry>)
    requires Framed(outs, firstNumber)
    ensures empty == [] && Framed(r, firstNumber) && Flatten(r) == Flatten(outs) + builder
    ensures if builder == [] then r == outs
            else |r| == |outs| + 1 && r[..|outs|] == outs
                 && r[|outs|].entries == builder && r[|outs|].size == sizes.finished(builder)
                 && r[|outs|].smallest == builder[0].key && r[|outs|].largest == builder[|builder| - 1].key
  {
    r, empty := outs, [];
    if builder != [] {
      r := outs + [File(firstNumber + |outs|, sizes.finished(builder), builder[0].key, builder[|builder| - 1].key, builder)];
      assert r[..|r| - 1] == outs;
    }
  }
}
