/** The user's iterator: one step per visible user key, in both directions, over an internal
    iterator that also shows overwritten, deleted and too-new entries (db/db_iter.cc). */
module DbIter {
  import opened Options
  import opened DbFormat
  import opened Iterators

  // ----- what is there to see in a sorted run at a snapshot -----

  predicate Visible(es: seq<Entry>, s: nat, i: nat)
    requires i < |es|
  {
    es[i].key.seqno <= s
  }

  /** Entry `i` is the newest visible one of its user key. */
  ghost predicate Newest(es: seq<Entry>, s: nat, i: nat)
    requires i < |es|
  {
    Visible(es, s, i) && forall j :: 0 <= j < i && Visible(es, s, j) ==> es[j].key.ukey != es[i].key.ukey
  }

  /** Entry `i` is what a user key shows: its newest visible entry, and a value. */
  ghost predicate Yields(es: seq<Entry>, s: nat, i: nat)
    requires i < |es|
  {
    Newest(es, s, i) && es[i].key.kind == Put
  }

  /** The snapshot's map: the value of a user key, if any. */
  ghost function Snapshot(es: seq<Entry>, s: nat, u: UserKey): Option<Value> {
    Read(SetOf(es), u, s)
  }

  lemma KeyOrder(es: seq<Entry>, i: nat, j: nat)
    requires SortedEntries(es) && i <= j < |es|
    ensures es[i].key.ukey <= es[j].key.ukey
    ensures i < j && es[i].key.ukey == es[j].key.ukey ==> es[i].key.seqno > es[j].key.seqno
  {
    assert i < j ==> Precedes(es[i], es[j]);
  }

  lemma SortedUnique(es: seq<Entry>)
    requires SortedEntries(es)
    ensures UniqueSeqnos(SetOf(es))
  {
    forall a, b | a in es && b in es && a.key.ukey == b.key.ukey && a.key.seqno == b.key.seqno ensures a == b {
      var i :| 0 <= i < |es| && es[i] == a;
      var j :| 0 <= j < |es| && es[j] == b;
      if i <= j { KeyOrder(es, i, j); }
    }
  }

  /** An entry that yields is exactly what a read of its user key returns. */
  lemma YieldsIsRead(es: seq<Entry>, s: nat, i: nat)
    requires SortedEntries(es) && i < |es| && Newest(es, s, i)
    ensures Snapshot(es, s, es[i].key.ukey) == Shown(es[i])
  {
    SortedUnique(es);
    forall x | x in SetOf(es) && VisibleTo(x, es[i].key.ukey, s) ensures x.key.seqno <= es[i].key.seqno {
      var j :| 0 <= j < |es| && es[j] == x;
      if i <= j { KeyOrder(es, i, j); }
    }
    assert NewestAt(SetOf(es), es[i].key.ukey, s, es[i]);
    ReadNewest(SetOf(es), es[i].key.ukey, s, es[i]);
  }

  /** A user key that reads as a value has an entry that yields. */
  lemma ReadHasYield(es: seq<Entry>, s: nat, u: UserKey) returns (i: nat)
    requires SortedEntries(es) && Snapshot(es, s, u).Some?
    ensures i < |es| && Yields(es, s, i) && es[i].key.ukey == u
  {
    SortedUnique(es);
    NewestExists(SetOf(es), u, s);
    if NoneVisible(SetOf(es), u, s) {
      ReadNone(SetOf(es), u, s);
    }
    var e :| NewestAt(SetOf(es), u, s, e);
    ReadNewest(SetOf(es), u, s, e);
    i :| 0 <= i < |es| && es[i] == e;
    forall j | 0 <= j < i && Visible(es, s, j) ensures es[j].key.ukey != u {
      assert es[j] in SetOf(es);
      KeyOrder(es, j, i);
    }
  }

  /** A visible entry before `from` shares its user key with a later one only if that key is skipped. */
  ghost predicate NoSharedKey(es: seq<Entry>, s: nat, from: nat, skip: Option<UserKey>) {
    forall i, j :: 0 <= j < from <= i < |es| && Visible(es, s, j) && es[i].key.ukey == es[j].key.ukey ==> !Above(es[i], skip)
  }

  /** The first entry at or after `from` that yields for a user key above `skip`, if any. */
  ghost predicate NextYield(es: seq<Entry>, s: nat, from: nat, skip: Option<UserKey>, r: Option<nat>) {
    && (r.Some? ==> from <= r.value < |es| && Yields(es, s, r.value) && Above(es[r.value], skip))
    && forall i :: from <= i < (if r.Some? then r.value else |es|) && i < |es| && Above(es[i], skip) ==> !Yields(es, s, i)
  }

  predicate Above(e: Entry, skip: Option<UserKey>) {
    skip.Some? ==> e.key.ukey > skip.value
  }

  /** The forward scan from `from` has passed every entry before `pos` and now skips keys up to `skip`:
      all it was asked to skip, and keys whose newest visible entry it has passed. */
  ghost predicate Scanned(es: seq<Entry>, s: nat, from: nat, skip0: Option<UserKey>, pos: nat, skip: Option<UserKey>) {
    && from <= pos <= |es|
    && (skip0.Some? ==> skip.Some? && skip0.value <= skip.value)
    && (forall i :: pos <= i < |es| && Visible(es, s, i) ==> skip.Some? ==> skip.value <= es[i].key.ukey)
    && NoSharedKey(es, s, pos, skip)
    && (forall i :: from <= i < pos && Above(es[i], skip0) ==> !Yields(es, s, i))
    && (forall i :: pos <= i < |es| && Newest(es, s, i) && !Above(es[i], skip) ==> !Above(es[i], skip0))
  }

  lemma ScanStarts(es: seq<Entry>, s: nat, from: nat, skip: Option<UserKey>)
    requires from <= |es| && NoSharedKey(es, s, from, skip)
    requires skip.Some? ==> forall i :: from <= i < |es| && Visible(es, s, i) ==> skip.value <= es[i].key.ukey
    ensures Scanned(es, s, from, skip, from, skip)
  {
  }

  lemma ScanFinds(es: seq<Entry>, s: nat, from: nat, skip0: Option<UserKey>, pos: nat, skip: Option<UserKey>)
    requires SortedEntries(es) && pos < |es| && Scanned(es, s, from, skip0, pos, skip)
    requires Visible(es, s, pos) && es[pos].key.kind == Put && Above(es[pos], skip)
    ensures Yields(es, s, pos) && NextYield(es, s, from, skip0, Some(pos))
  {
  }

  lemma ScanEnds(es: seq<Entry>, s: nat, from: nat, skip0: Option<UserKey>, skip: Option<UserKey>)
    requires Scanned(es, s, from, skip0, |es|, skip)
    ensures NextYield(es, s, from, skip0, None)
  {
  }

  /** What to skip after an entry that is not landed on: the rest of the key if it is a visible deletion. */
  function SkipAfter(e: Entry, s: nat, skip: Option<UserKey>): Option<UserKey> {
    if e.key.seqno <= s && e.key.kind == Deletion then Some(e.key.ukey) else skip
  }

  lemma ScanPasses(es: seq<Entry>, s: nat, from: nat, skip0: Option<UserKey>, pos: nat, skip: Option<UserKey>)
    requires SortedEntries(es) && pos < |es| && Scanned(es, s, from, skip0, pos, skip)
    requires Visible(es, s, pos) ==> es[pos].key.kind == Deletion || !Above(es[pos], skip)
    ensures Scanned(es, s, from, skip0, pos + 1, SkipAfter(es[pos], s, skip))
  {
    var skip' := SkipAfter(es[pos], s, skip);
    forall i | pos < i < |es|
      ensures es[pos].key.ukey <= es[i].key.ukey
      ensures Visible(es, s, pos) && es[i].key.ukey == es[pos].key.ukey ==> !Newest(es, s, i)
    {
      KeyOrder(es, pos, i);
    }
    assert Yields(es, s, pos) ==> !Above(es[pos], skip);
  }

  /** The last entry before `end` that yields, if any. */
  ghost predicate PrevYield(es: seq<Entry>, s: nat, end: nat, r: Option<nat>)
    requires end <= |es|
  {
    && (r.Some? ==> r.value < end && Yields(es, s, r.value))
    && forall i :: (if r.Some? then r.value + 1 else 0) <= i < end ==> !Yields(es, s, i)
  }

  /** Before every visible entry of the key of `at`, at a visible entry of a smaller key if there is one. */
  ghost predicate StoppedBefore(es: seq<Entry>, s: nat, pos: nat, at: nat)
    requires at < |es|
  {
    && (pos < |es| ==> pos < at && Visible(es, s, pos) && es[pos].key.ukey < es[at].key.ukey)
    && forall i :: (if pos < |es| then pos + 1 else 0) <= i < at ==> !Visible(es, s, i)
  }

  /** What a backward scan from `end` knows with the first `n` entries still to see: the visible entry seen last,
      its kind, and if it is a value its key and value. */
  ghost predicate SeenBack(es: seq<Entry>, s: nat, end: nat, n: nat, last: nat, kind: Kind, key: Option<UserKey>, value: Value)
    ensures SeenBack(es, s, end, n, last, kind, key, value) && kind == Put ==> key.Some?
  {
    && n <= last <= end <= |es|
    && (kind == Put ==>
          last < end && Visible(es, s, last) && es[last].key.kind == Put && key == Some(es[last].key.ukey) && value == es[last].value)
    && (forall i :: n <= i < last ==> !Visible(es, s, i))
    && forall i :: last <= i < end && Yields(es, s, i) ==> kind == Put && i == last
  }

  lemma BackStarts(es: seq<Entry>, s: nat, end: nat, key: Option<UserKey>, value: Value)
    requires end <= |es|
    ensures SeenBack(es, s, end, end, end, Deletion, key, value)
  {
  }

  lemma BackPasses(es: seq<Entry>, s: nat, end: nat, n: nat, last: nat, kind: Kind, key: Option<UserKey>, value: Value)
    requires n > 0 && SeenBack(es, s, end, n, last, kind, key, value) && !Visible(es, s, n - 1)
    ensures SeenBack(es, s, end, n - 1, last, kind, key, value)
  {
  }

  /** A visible entry of the same key, or any after a deletion, takes the place of the one seen last. */
  lemma BackTakes(es: seq<Entry>, s: nat, end: nat, n: nat, last: nat, kind: Kind, key: Option<UserKey>, value: Value)
    requires SortedEntries(es) && n > 0 && SeenBack(es, s, end, n, last, kind, key, value) && Visible(es, s, n - 1)
    requires kind == Put ==> key.value <= es[n - 1].key.ukey
    ensures var e := es[n - 1];
            SeenBack(es, s, end, n - 1, n - 1, e.key.kind, if e.key.kind == Put then Some(e.key.ukey) else None,
                     if e.key.kind == Put then e.value else "")
  {
    if kind == Put {
      KeyOrder(es, n - 1, last);
    }
  }

  /** At an entry of a smaller key, and at the start, a value seen last is the last one that yields. */
  lemma BackEnds(es: seq<Entry>, s: nat, end: nat, n: nat, last: nat, kind: Kind, key: Option<UserKey>, value: Value)
    requires SortedEntries(es) && SeenBack(es, s, end, n, last, kind, key, value)
    requires n > 0 ==> Visible(es, s, n - 1) && kind == Put && es[n - 1].key.ukey < key.value
    ensures kind == Put ==> last < |es| && key == Some(es[last].key.ukey) && value == es[last].value
    ensures kind == Put ==> Yields(es, s, last) && PrevYield(es, s, end, Some(last)) && StoppedBefore(es, s, if n > 0 then n - 1 else |es|, last)
    ensures kind == Deletion ==> PrevYield(es, s, end, None)
  {
    if n > 0 {
      forall j | 0 <= j < n ensures es[j].key.ukey < es[last].key.ukey {
        KeyOrder(es, j, n - 1);
      }
    }
  }

  class DBIter {
    const iter: MergingIterator
    const sequence: nat
    var savedKey: Option<UserKey>  // the current key when moving in reverse
    var savedValue: Value          // the current value when moving in reverse
    var direction: Direction
    var valid: bool
    ghost var at: nat              // the entry that yields the current key

    ghost predicate Valid()
      reads this, iter, iter.Repr
    {
      && iter.Valid() && this !in iter.Repr && sequence <= MAX_SEQUENCE && OnEntry()
    }

    /** Where a valid iterator is, and where the internal iterator is then. */
    ghost predicate OnEntry()
      reads this, iter
    {
      && (valid ==> at < |iter.merged| && Yields(iter.merged, sequence, at))
      && (valid && direction == Forward ==> iter.pos == at)
      && (valid && direction == Reverse ==> BeforeCurrent())
    }

    /** Moving in reverse, the internal iterator is before every visible entry of the current key,
        at a visible entry of a smaller key if there is one. */
    ghost predicate BeforeCurrent()
      requires at < |iter.merged|
      reads this, iter
    {
      var es := iter.merged;
      && savedKey == Some(es[at].key.ukey) && savedValue == es[at].value
      && StoppedBefore(es, sequence, iter.pos, at)
    }

    constructor (iter: MergingIterator, sequence: nat)
      requires iter.Valid() && sequence <= MAX_SEQUENCE
      ensures Valid() && this.iter == iter && this.sequence == sequence && !valid
    {
      this.iter, this.sequence := iter, sequence;
      savedKey, savedValue, direction, valid := None, "", Forward, false;
    }

    ghost predicate Sited()
      reads this
    {
      valid ==> at < |iter.merged|
    }

    ghost function Key(): UserKey
      requires Sited() && valid
      reads this
    {
      iter.merged[at].key.ukey
    }

    ghost function CurrentValue(): Value
      requires Sited() && valid
      reads this
    {
      iter.merged[at].value
    }

    method GetKey() returns (u: UserKey)
      requires Valid() && valid
      ensures u == Key()
    {
      if direction == Forward {
        var e := iter.Current();
        u := e.key.ukey;
      } else {
        u := savedKey.value;
      }
    }

    method GetValue() returns (v: Value)
      requires Valid() && valid
      ensures v == CurrentValue()
    {
      if direction == Forward {
        var e := iter.Current();
        v := e.value;
      } else {
        v := savedValue;
      }
    }

    ghost function Map(u: UserKey): Option<Value> {
      Snapshot(iter.merged, sequence, u)
    }

    /** The iterator is on the smallest key at or above `lo` that the snapshot has, or there is none. */
    ghost predicate OnFirstFrom(lo: Option<UserKey>)
      requires Sited()
      reads this
    {
      && (valid ==> (lo.Some? ==> lo.value <= Key()) && Map(Key()) == Some(CurrentValue()))
      && forall u :: (lo.Some? ==> lo.value <= u) && (valid ==> u < Key()) ==> Map(u) == None
    }

    /** The iterator is on the smallest key above `u0` that the snapshot has, or there is none. */
    ghost predicate OnNext(u0: UserKey)
      requires Sited()
      reads this
    {
      && (valid ==> u0 < Key() && Map(Key()) == Some(CurrentValue()))
      && forall u :: u0 < u && (valid ==> u < Key()) ==> Map(u) == None
    }

    /** The iterator is on the largest key below `hi` that the snapshot has, or there is none. */
    ghost predicate OnLastBelow(hi: Option<UserKey>)
      requires Sited()
      reads this
    {
      && (valid ==> (hi.Some? ==> Key() < hi.value) && Map(Key()) == Some(CurrentValue()))
      && forall u :: (hi.Some? ==> u < hi.value) && (valid ==> Key() < u) ==> Map(u) == None
    }

    ghost function Landed(): Option<nat>
      reads this
    {
      if valid then Some(at) else None
    }

    lemma LandedForward(from: nat, skip: Option<UserKey>, lo: Option<UserKey>)
      requires OnEntry() && SortedEntries(iter.merged) && NextYield(iter.merged, sequence, from, skip, Landed())
      requires from <= |iter.merged|
      // what lies before `from` is below the range asked for
      requires forall i :: 0 <= i < from && Visible(iter.merged, sequence, i) ==>
                 (lo.Some? && iter.merged[i].key.ukey < lo.value) || (skip.Some? && iter.merged[i].key.ukey <= skip.value)
      requires forall i :: from <= i < |iter.merged| ==> lo.Some? ==> lo.value <= iter.merged[i].key.ukey
      ensures skip.None? ==> OnFirstFrom(lo)
      ensures skip.Some? && lo.None? ==> OnNext(skip.value)
    {
      var es := iter.merged;
      if valid {
        YieldsIsRead(es, sequence, at);
      }
      forall u | Map(u).Some? && (lo.Some? ==> lo.value <= u) && (skip.Some? ==> skip.value < u) ensures valid && Key() <= u {
        var i := ReadHasYield(es, sequence, u);
        assert i >= from;
        if valid && i >= at { KeyOrder(es, at, i); }
      }
    }

    lemma LandedBackward(end: nat, hi: Option<UserKey>)
      requires OnEntry() && SortedEntries(iter.merged) && end <= |iter.merged| && PrevYield(iter.merged, sequence, end, Landed())
      requires forall i :: 0 <= i < end ==> hi.Some? ==> iter.merged[i].key.ukey < hi.value
      requires forall i :: end <= i < |iter.merged| && Visible(iter.merged, sequence, i) ==> hi.Some? && hi.value <= iter.merged[i].key.ukey
      ensures OnLastBelow(hi)
    {
      var es := iter.merged;
      if valid {
        YieldsIsRead(es, sequence, at);
      }
      forall u | Map(u).Some? && (hi.Some? ==> u < hi.value) ensures valid && u <= Key() {
        var i := ReadHasYield(es, sequence, u);
        assert i < end;
        assert valid && i <= at;
        KeyOrder(es, i, at);
      }
    }

    /** The key the forward scan skips. */
    ghost function Skipped(skipping: bool): Option<UserKey>
      reads this
    {
      if skipping then savedKey else None
    }

    /** Whether to land on the entry; a deletion hides the rest of its key. */
    method Examine(e: Entry, skipping0: bool) returns (land: bool, skipping: bool)
      requires skipping0 ==> savedKey.Some?
      modifies `savedKey
      ensures skipping ==> savedKey.Some?
      ensures land <==> e.key.seqno <= sequence && e.key.kind == Put && Above(e, old(Skipped(skipping0)))
      ensures !land ==> Skipped(skipping) == SkipAfter(e, sequence, old(Skipped(skipping0)))
    {
      skipping := skipping0;
      if e.key.seqno <= sequence {
        if e.key.kind == Deletion {
          savedKey := Some(e.key.ukey);
          skipping := true;
        } else if skipping && e.key.ukey <= savedKey.value {
          // hidden
        } else {
          return true, skipping;
        }
      }
      land := false;
    }

    /** Scans forward to the first entry that yields and is not skipped. */
    method FindNextUserEntry(skipping0: bool)
      requires iter.Valid() && this !in iter.Repr && sequence <= MAX_SEQUENCE && iter.Positioned() && direction == Forward
      requires skipping0 ==> savedKey.Some?
      // visible entries from here on are not below the key to skip, and share no key with those before unless skipped
      requires skipping0 ==> forall i :: iter.pos <= i < |iter.merged| && Visible(iter.merged, sequence, i) ==>
                 savedKey.value <= iter.merged[i].key.ukey
      requires NoSharedKey(iter.merged, sequence, iter.pos, Skipped(skipping0))
      modifies this, iter.Repr
      ensures Valid() && fresh(iter.Repr - old(iter.Repr)) && direction == Forward
      ensures NextYield(iter.merged, sequence, old(iter.pos), old(Skipped(skipping0)), Landed())
    {
      hide MergingIterator.Valid, SortedEntries, StoppedBefore,
        Scanned, NextYield, NoSharedKey, Yields, Newest, SkipAfter, Above, DBIter.Valid, DBIter.Landed;
      ghost var es := iter.merged;
      ghost var from, skip0 := iter.pos, Skipped(skipping0);
      ScanStarts(es, sequence, from, skip0);
      var skipping := skipping0;
      while true
        invariant iter.Valid() && this !in iter.Repr && fresh(iter.Repr - old(iter.Repr)) && iter.Positioned() && direction == Forward
        invariant skipping ==> savedKey.Some?
        invariant Scanned(es, sequence, from, skip0, iter.pos, Skipped(skipping))
        decreases |es| - iter.pos
      {
        ghost var p, skip := iter.pos, Skipped(skipping);
        var e := iter.Current();
        var land;
        land, skipping := Examine(e, skipping);
        if land {
          ScanFinds(es, sequence, from, skip0, p, skip);
          LandForward(true);
          return;
        }
        ScanPasses(es, sequence, from, skip0, p, skip);
        iter.Next();
        if !iter.Positioned() {
          ScanEnds(es, sequence, from, skip0, Skipped(skipping));
          LandForward(false);
          return;
        }
      }
    }

    /** Valid at the entry the internal iterator is on, or past the end. */
    method LandForward(found: bool)
      requires iter.Valid() && this !in iter.Repr && sequence <= MAX_SEQUENCE && direction == Forward
      requires found ==> iter.pos < |iter.merged| && Yields(iter.merged, sequence, iter.pos)
      modifies `valid, `at, `savedKey
      ensures Valid() && Landed() == if found then Some(iter.pos) else None
    {
      hide MergingIterator.Valid, Yields, StoppedBefore;
      valid, at := found, iter.pos;
      savedKey := None;
    }

    /** Scans backward to the newest visible entry of the last key that has a value. */
    method FindPrevUserEntry(ghost end: nat)
      requires iter.Valid() && this !in iter.Repr && sequence <= MAX_SEQUENCE && direction == Reverse && end <= |iter.merged|
      requires if iter.Positioned() then end == iter.pos + 1 else end == 0
      modifies this, iter.Repr
      ensures Valid() && fresh(iter.Repr - old(iter.Repr)) && PrevYield(iter.merged, sequence, end, Landed())
    {
      hide MergingIterator.Valid, SortedEntries, SeenBack, Yields, Newest, StoppedBefore, PrevYield, DBIter.Valid, DBIter.Landed;
      ghost var es := iter.merged;
      var valueType := Deletion;
      ghost var last, n := end, end;  // the visible entry seen most recently, and how many entries are still to see
      BackStarts(es, sequence, end, savedKey, savedValue);
      if iter.Positioned() {
        while true
          invariant iter.Valid() && this !in iter.Repr && fresh(iter.Repr - old(iter.Repr)) && iter.Positioned() && direction == Reverse
          invariant n == iter.pos + 1 && SeenBack(es, sequence, end, n, last, valueType, savedKey, savedValue)
          decreases n
        {
          var e := iter.Current();
          if e.key.seqno <= sequence {
            if valueType != Deletion && e.key.ukey < savedKey.value {
              // an entry of an earlier key: the saved one is complete
              break;
            }
            BackTakes(es, sequence, end, n, last, valueType, savedKey, savedValue);
            last := n - 1;
            valueType := e.key.kind;
            Save(e);
          } else {
            BackPasses(es, sequence, end, n, last, valueType, savedKey, savedValue);
          }
          n := n - 1;
          iter.Prev();
          if !iter.Positioned() {
            break;
          }
        }
      }
      BackEnds(es, sequence, end, n, last, valueType, savedKey, savedValue);
      LandBackward(valueType, last);
    }

    /** A value is kept, a deletion forgets what was kept. */
    method Save(e: Entry)
      modifies `savedKey, `savedValue
      ensures savedKey == if e.key.kind == Put then Some(e.key.ukey) else None
      ensures savedValue == if e.key.kind == Put then e.value else ""
    {
      if e.key.kind == Deletion {
        savedKey, savedValue := None, "";
      } else {
        savedKey, savedValue := Some(e.key.ukey), e.value;
      }
    }

    /** Valid at the value kept, or past the start. */
    method LandBackward(valueType: Kind, ghost last: nat)
      requires iter.Valid() && this !in iter.Repr && sequence <= MAX_SEQUENCE && direction == Reverse
      requires valueType == Put ==>
                 && last < |iter.merged| && Yields(iter.merged, sequence, last) && StoppedBefore(iter.merged, sequence, iter.pos, last)
                 && savedKey == Some(iter.merged[last].key.ukey) && savedValue == iter.merged[last].value
      modifies `valid, `at, `savedKey, `savedValue, `direction
      ensures Valid() && Landed() == if valueType == Put then Some(last) else None
    {
      hide MergingIterator.Valid, Yields, StoppedBefore;
      if valueType == Deletion {
        valid := false;
        savedKey, savedValue := None, "";
        direction := Forward;
      } else {
        valid, at := true, last;
      }
    }

    method Seek(target: UserKey)
      requires Valid()
      modifies this, iter.Repr
      ensures Valid() && fresh(iter.Repr - old(iter.Repr)) && OnFirstFrom(Some(target))
    {
      hide MergingIterator.Valid, Yields, Newest;
      direction := Forward;
      savedKey, savedValue := None, "";
      iter.Seek(LookupKey(target, sequence));
      ghost var from := iter.pos;
      if iter.Positioned() {
        FindNextUserEntry(false);
      } else {
        valid := false;
      }
      LandedForward(from, None, Some(target));
    }

    method SeekToFirst()
      requires Valid()
      modifies this, iter.Repr
      ensures Valid() && fresh(iter.Repr - old(iter.Repr)) && OnFirstFrom(None)
    {
      hide MergingIterator.Valid, Yields, Newest;
      direction := Forward;
      savedValue := "";
      iter.SeekToFirst();
      if iter.Positioned() {
        FindNextUserEntry(false);
      } else {
        valid := false;
      }
      LandedForward(0, None, None);
    }

    method SeekToLast()
      requires Valid()
      modifies this, iter.Repr
      ensures Valid() && fresh(iter.Repr - old(iter.Repr)) && OnLastBelow(None)
    {
      hide MergingIterator.Valid, Yields, Newest;
      direction := Reverse;
      savedValue := "";
      iter.SeekToLast();
      FindPrevUserEntry(|iter.merged|);
      LandedBackward(|iter.merged|, None);
    }

    /** From `from` on lies nothing visible below the key of `at`, and before it nothing above. */
    ghost predicate ScansFrom(from: nat, at: nat) {
      && from <= at < |iter.merged|
      && (forall i :: from <= i < |iter.merged| && Visible(iter.merged, sequence, i) ==> iter.merged[at].key.ukey <= iter.merged[i].key.ukey)
      && forall i :: 0 <= i < from ==> iter.merged[i].key.ukey <= iter.merged[at].key.ukey
    }

    lemma ForwardScansFrom(at: nat)
      requires SortedEntries(iter.merged) && at < |iter.merged|
      ensures ScansFrom(at, at)
    {
      forall i | 0 <= i < |iter.merged| ensures if i <= at then iter.merged[i].key.ukey <= iter.merged[at].key.ukey
                                                else iter.merged[at].key.ukey <= iter.merged[i].key.ukey {
        KeyOrder(iter.merged, if i <= at then i else at, if i <= at then at else i);
      }
    }

    lemma ReverseScansFrom(pos: nat, at: nat)
      requires SortedEntries(iter.merged) && at < |iter.merged| && StoppedBefore(iter.merged, sequence, pos, at)
      ensures ScansFrom(if pos < |iter.merged| then pos + 1 else 0, at)
    {
      var es, from := iter.merged, if pos < |iter.merged| then pos + 1 else 0;
      forall i | 0 <= i < |es|
        ensures i < from ==> es[i].key.ukey <= es[at].key.ukey
        ensures i >= from && Visible(es, sequence, i) ==> es[at].key.ukey <= es[i].key.ukey
      {
        if i < from { KeyOrder(es, i, at); } else if i >= at { KeyOrder(es, at, i); }
      }
    }

    /** Brings the internal iterator to where the scan for the next key begins, past every smaller key. */
    method LeaveForward()
      requires Valid() && valid
      modifies this, iter.Repr
      ensures iter.Valid() && this !in iter.Repr && fresh(iter.Repr - old(iter.Repr)) && at == old(at)
      ensures direction == Forward && savedKey == Some(old(Key())) && ScansFrom(iter.pos, at)
    {
      hide MergingIterator.Valid, Yields, Newest, SortedEntries, StoppedBefore;
      if direction == Reverse {
        ReverseScansFrom(iter.pos, at);
        direction := Forward;
        if !iter.Positioned() {
          iter.SeekToFirst();
        } else {
          iter.Next();
        }
      } else {
        ForwardScansFrom(at);
        var e := iter.Current();
        savedKey := Some(e.key.ukey);
      }
    }

    method Next()
      requires Valid() && valid
      modifies this, iter.Repr
      ensures Valid() && fresh(iter.Repr - old(iter.Repr)) && OnNext(old(Key()))
    {
      hide MergingIterator.Valid, Yields, Newest, SortedEntries, StoppedBefore;
      ghost var at0 := at;
      LeaveForward();
      ghost var from := iter.pos;
      // the source gives up here if the internal iterator has run out; it is at most at the entry that yielded
      FindNextUserEntry(true);
      LandedForward(from, Some(iter.merged[at0].key.ukey), None);
    }

    /** Steps the internal iterator back to an entry of an earlier key, if there is one. */
    method LeaveBackward() returns (found: bool)
      requires Valid() && valid && direction == Forward
      modifies this, iter.Repr
      ensures iter.Valid() && this !in iter.Repr && fresh(iter.Repr - old(iter.Repr)) && at == old(at) && valid && direction == Forward
      ensures iter.pos == |iter.merged| <==> !found
      ensures found ==> iter.pos < at && iter.merged[iter.pos].key.ukey < iter.merged[at].key.ukey
      ensures forall i :: (if found then iter.pos + 1 else 0) <= i <= at ==> iter.merged[i].key.ukey == iter.merged[at].key.ukey
    {
      hide MergingIterator.Valid, Yields, Newest, SortedEntries, StoppedBefore;
      ghost var es := iter.merged;
      var e := iter.Current();
      savedKey := Some(e.key.ukey);
      while true
        invariant iter.Valid() && this !in iter.Repr && fresh(iter.Repr - old(iter.Repr)) && iter.Positioned() && iter.pos <= at == old(at)
        invariant valid && direction == Forward && savedKey == Some(es[at].key.ukey)
        invariant forall i :: iter.pos <= i <= at ==> es[i].key.ukey == es[at].key.ukey
        decreases iter.pos
      {
        ghost var p := iter.pos;
        iter.Prev();
        if !iter.Positioned() {
          return false;
        }
        KeyOrder(es, p - 1, p);
        var x := iter.Current();
        if x.key.ukey < savedKey.value {
          return true;
        }
      }
    }

    lemma BelowKey(end: nat, at: nat)
      requires SortedEntries(iter.merged) && end <= at < |iter.merged|
      requires end > 0 ==> iter.merged[end - 1].key.ukey < iter.merged[at].key.ukey
      requires forall i :: end <= i < at && Visible(iter.merged, sequence, i) ==> iter.merged[i].key.ukey == iter.merged[at].key.ukey
      ensures forall i :: 0 <= i < end ==> iter.merged[i].key.ukey < iter.merged[at].key.ukey
      ensures forall i :: end <= i < |iter.merged| && Visible(iter.merged, sequence, i) ==> iter.merged[at].key.ukey <= iter.merged[i].key.ukey
    {
      forall i | 0 <= i < |iter.merged|
        ensures i < end ==> iter.merged[i].key.ukey < iter.merged[at].key.ukey
        ensures i >= end && Visible(iter.merged, sequence, i) ==> iter.merged[at].key.ukey <= iter.merged[i].key.ukey
      {
        if i < end { KeyOrder(iter.merged, i, end - 1); } else if i >= at { KeyOrder(iter.merged, at, i); }
      }
    }

    method Prev()
      requires Valid() && valid
      modifies this, iter.Repr
      ensures Valid() && fresh(iter.Repr - old(iter.Repr)) && OnLastBelow(Some(old(Key())))
    {
      hide MergingIterator.Valid, Yields, Newest, SortedEntries;
      ghost var at0 := at;
      if direction == Forward {
        var found := LeaveBackward();
        if !found {
          BelowKey(0, at0);
          valid := false;
          savedKey, savedValue := None, "";
          LandedBackward(0, Some(iter.merged[at0].key.ukey));
          return;
        }
        direction := Reverse;
      }
      ghost var end := if iter.Positioned() then iter.pos + 1 else 0;
      BelowKey(end, at0);
      FindPrevUserEntry(end);
      LandedBackward(end, Some(iter.merged[at0].key.ukey));
    }
  }
}
