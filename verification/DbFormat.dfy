/** Internal keys and the meaning of a read.

    The engine stores entries (user key, sequence number, kind, value). Everything
    else in this project is proved against `Read`: the value of a user key at a
    snapshot is decided by its newest entry at or below the snapshot. */
module DbFormat {
  import opened Options


  /** A user key is represented by its rank under the user comparator. The engine
      only ever compares user keys, and a run sees finitely many of them. */
  type UserKey = int

  type Value = string

  datatype Kind = Deletion | Put

  /** 2^56 - 1: eight bits are left for the kind when both are packed together. */
  const MAX_SEQUENCE: nat := 0xFF_FFFF_FFFF_FFFF

  datatype InternalKey = InternalKey(ukey: UserKey, seqno: nat, kind: Kind)

  datatype Entry = Entry(key: InternalKey, value: Value)

  /** The number packed into the last eight bytes of an encoded internal key. */
  function Tag(k: InternalKey): nat {
    k.seqno * 256 + if k.kind == Put then 1 else 0
  }

  /** Increasing user key, then decreasing sequence number and kind. */
  predicate Less(a: InternalKey, b: InternalKey) {
    a.ukey < b.ukey || (a.ukey == b.ukey && Tag(a) > Tag(b))
  }

  predicate LessEq(a: InternalKey, b: InternalKey) {
    !Less(b, a)
  }

  /** The key a lookup of `u` at snapshot `s` seeks: no entry of `u` at or below `s` precedes it. */
  function LookupKey(u: UserKey, s: nat): InternalKey {
    InternalKey(u, s, Put)
  }

  lemma LessIsStrictTotalOrder(a: InternalKey, b: InternalKey, c: InternalKey)
    ensures !Less(a, a)
    ensures Less(a, b) && Less(b, c) ==> Less(a, c)
    ensures Less(a, b) || Less(b, a) || a == b
  {
    if a.ukey == b.ukey && Tag(a) == Tag(b) {
      assert a.seqno == b.seqno;
    }
  }

  /** Seeking the lookup key finds exactly the entries visible at the snapshot. */
  lemma LookupKeySplits(u: UserKey, s: nat, k: InternalKey)
    requires k.ukey == u
    ensures LessEq(LookupKey(u, s), k) <==> k.seqno <= s
  {
  }

  // ----- reads -----

  predicate VisibleTo(e: Entry, u: UserKey, s: nat) {
    e.key.ukey == u && e.key.seqno <= s
  }

  ghost predicate NewestAt(es: set<Entry>, u: UserKey, s: nat, e: Entry) {
    && e in es && VisibleTo(e, u, s)
    && forall x :: x in es && VisibleTo(x, u, s) ==> x.key.seqno <= e.key.seqno
  }

  ghost predicate NoneVisible(es: set<Entry>, u: UserKey, s: nat) {
    forall x :: x in es ==> !VisibleTo(x, u, s)
  }

  /** A sequence number is given to one entry only. */
  ghost predicate UniqueSeqnos(es: set<Entry>) {
    forall a, b {:trigger a in es, b in es} :: a in es && b in es && a.key.ukey == b.key.ukey && a.key.seqno == b.key.seqno ==> a == b
  }

  /** What a user sees: the newest visible entry's value, nothing if that entry is a deletion. */
  function Shown(e: Entry): Option<Value> {
    if e.key.kind == Put then Some(e.value) else None
  }

  ghost function Read(es: set<Entry>, u: UserKey, s: nat): Option<Value> {
    if exists e :: NewestAt(es, u, s, e) then
      var e :| NewestAt(es, u, s, e); Shown(e)
    else
      None
  }

  lemma ReadNewest(es: set<Entry>, u: UserKey, s: nat, e: Entry)
    requires UniqueSeqnos(es) && NewestAt(es, u, s, e)
    ensures Read(es, u, s) == Shown(e)
  {
    forall x | NewestAt(es, u, s, x) ensures x == e {
      assert x.key.seqno <= e.key.seqno <= x.key.seqno;
    }
  }

  lemma ReadNone(es: set<Entry>, u: UserKey, s: nat)
    requires NoneVisible(es, u, s)
    ensures Read(es, u, s) == None
  {
  }

  /** A finite set with a visible entry has a newest one. */
  lemma {:induction false} NewestExists(es: set<Entry>, u: UserKey, s: nat)
    ensures NoneVisible(es, u, s) || exists e :: NewestAt(es, u, s, e)
    decreases |es|
  {
    if x :| x in es && VisibleTo(x, u, s) {
      var rest := es - {x};
      NewestExists(rest, u, s);
      if NoneVisible(rest, u, s) {
        assert forall y :: y in es && VisibleTo(y, u, s) ==> y in rest || y == x;
        assert NewestAt(es, u, s, x);
      } else {
        var e :| NewestAt(rest, u, s, e);
        assert forall y :: y in es && VisibleTo(y, u, s) ==> y in rest || y == x;
        assert NewestAt(es, u, s, if x.key.seqno <= e.key.seqno then e else x);
      }
    }
  }

  /** Two sources, the first holding only newer entries of each key: the first answers if it can. */
  lemma ReadLayers(newer: set<Entry>, older: set<Entry>, u: UserKey, s: nat)
    requires UniqueSeqnos(newer + older)
    requires forall a, b :: a in newer && b in older && a.key.ukey == b.key.ukey ==> a.key.seqno > b.key.seqno
    ensures forall e :: NewestAt(newer, u, s, e) ==> Read(newer + older, u, s) == Shown(e)
    ensures NoneVisible(newer, u, s) ==> Read(newer + older, u, s) == Read(older, u, s)
  {
    forall e | NewestAt(newer, u, s, e) ensures Read(newer + older, u, s) == Shown(e) {
      assert NewestAt(newer + older, u, s, e);
      ReadNewest(newer + older, u, s, e);
    }
    if NoneVisible(newer, u, s) {
      NewestExists(older, u, s);
      if NoneVisible(older, u, s) {
        ReadNone(older, u, s);
        ReadNone(newer + older, u, s);
      } else {
        var e :| NewestAt(older, u, s, e);
        ReadNewest(older, u, s, e);
        assert NewestAt(newer + older, u, s, e);
        ReadNewest(newer + older, u, s, e);
      }
    }
  }

  // ----- sorted runs of entries: a table file or a memtable -----

  /** In internal key order. A sequence number is used once, so entries of one user key
      are in strictly decreasing sequence order. */
  predicate Precedes(a: Entry, b: Entry) {
    a.key.ukey < b.key.ukey || (a.key.ukey == b.key.ukey && a.key.seqno > b.key.seqno)
  }

  ghost predicate SortedEntries(es: seq<Entry>) {
    forall i, j :: 0 <= i < j < |es| ==> Precedes(es[i], es[j])
  }

  lemma PrecedesIsLess(a: Entry, b: Entry)
    ensures Precedes(a, b) ==> Less(a.key, b.key)
    ensures Less(a.key, b.key) ==> Precedes(a, b) || (a.key.ukey == b.key.ukey && a.key.seqno == b.key.seqno)
  {
  }

  ghost function SetOf<T(!new)>(s: seq<T>): (r: set<T>)
    ensures forall x :: x in r <==> x in s
  {
    set x | x in s
  }

  /** The index of the first entry at or after `k`, as an iterator's `Seek` finds it. */
  function SeekIndex(es: seq<Entry>, k: InternalKey): (r: nat)
    ensures r <= |es|
    ensures forall i :: 0 <= i < r ==> Less(es[i].key, k)
    ensures r < |es| ==> LessEq(k, es[r].key)
  {
    if es == [] || !Less(es[0].key, k) then 0 else 1 + SeekIndex(es[1..], k)
  }

  /** One seek in a sorted run decides a lookup: the entry it lands on is the newest visible
      one if it has the user key, and otherwise nothing is visible. */
  lemma SeekFindsNewest(es: seq<Entry>, u: UserKey, s: nat)
    requires SortedEntries(es)
    ensures var i := SeekIndex(es, LookupKey(u, s));
            if i < |es| && es[i].key.ukey == u
            then NewestAt(SetOf(es), u, s, es[i]) else NoneVisible(SetOf(es), u, s)
  {
    var k := LookupKey(u, s);
    var i := SeekIndex(es, k);
    forall x | x in es && VisibleTo(x, u, s)
      ensures i < |es| && es[i].key.ukey == u && x.key.seqno <= es[i].key.seqno
    {
      var j :| 0 <= j < |es| && es[j] == x;
      assert i <= j;
      assert i < j ==> Precedes(es[i], es[j]);
    }
    if i < |es| && es[i].key.ukey == u {
      assert es[i] in SetOf(es);
    }
  }

  // ----- positions in a sorted run -----

  /** `pos` is the first entry at or after `k`. */
  ghost predicate AtSeek(es: seq<Entry>, pos: nat, k: InternalKey) {
    && pos <= |es|
    && (forall i :: 0 <= i < pos ==> Less(es[i].key, k))
    && (forall i :: pos <= i < |es| ==> LessEq(k, es[i].key))
  }

  lemma SeekIndexAt(es: seq<Entry>, k: InternalKey)
    requires SortedEntries(es)
    ensures AtSeek(es, SeekIndex(es, k), k)
  {
    var r := SeekIndex(es, k);
    forall i | r < i < |es| ensures LessEq(k, es[i].key) {
      assert Precedes(es[r], es[i]);
    }
  }

  /** The position that leads to the entry before `pos`; the first entry leads past the end. */
  function PrevPos(pos: nat, n: nat): nat {
    if pos == 0 then n else pos - 1
  }
}
