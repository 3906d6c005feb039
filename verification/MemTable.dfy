/** The memtable as bytes in a skip list (db/memtable.cc), and a batch that is inserted into it
    (WriteBatchInternal::InsertInto in db/write_batch.cc). */
module MemTable {
  import opened Options
  import opened Coding
  import opened LengthPrefix
  import opened DbFormat
  import ByteKeys
  import Db
  import SkipList
  import Version
  import WriteBatch

  type Bytes = seq<byte>

  // ----- the order of entries as the order of numbers -----

  /** Where an internal key stands in the order of all of them. */
  function Rank(k: InternalKey): int {
    k.ukey * TWO64 + (TWO64 - 1 - Tag(k))
  }

  lemma RankOrders(a: InternalKey, b: InternalKey)
    requires a.seqno <= MAX_SEQUENCE && b.seqno <= MAX_SEQUENCE
    ensures Rank(a) < Rank(b) <==> Less(a, b)
    ensures Rank(a) == Rank(b) <==> a == b
  {
    assert 0 <= Tag(a) < TWO64 && 0 <= Tag(b) < TWO64;
    if Tag(a) == Tag(b) {
      assert a.seqno == b.seqno;
    }
  }

  /** What the key comparator sees of the internal key in front of an entry. */
  function BytesRank(f: ByteKeys.Format, ikey: Bytes): int {
    f.rank(ByteKeys.UserKey(ikey)) * TWO64 + (TWO64 - 1 - ByteKeys.PackedTag(ikey))
  }

  lemma BytesRankIs(f: ByteKeys.Format, k: InternalKey)
    requires f.Good() && k.seqno <= MAX_SEQUENCE
    ensures BytesRank(f, ByteKeys.Encode(f.keyOf, k)) == Rank(k)
  {
    ByteKeys.EncodedKeyParts(f.keyOf(k.ukey), Tag(k));
  }

  // ----- entries as bytes -----

  function EntryBytes(ikey: Bytes, value: Bytes): Bytes {
    Prefixed(ikey) + Prefixed(value)
  }

  /** The value that is stored; a deletion has an empty one. */
  function Data(f: ByteKeys.Format, e: Entry): Bytes {
    if e.key.kind == Put then f.valueOf(e.value) else []
  }

  ghost predicate Fits(f: ByteKeys.Format, e: Entry) {
    e.key.seqno <= MAX_SEQUENCE && |ByteKeys.Encode(f.keyOf, e.key)| < TWO32 && |Data(f, e)| < TWO32
  }

  /** What a reader takes from an entry: its internal key and its value. */
  function Parsed(buffer: Bytes): (r: Option<(Bytes, Bytes)>) {
    var ikey := GetPrefixed(buffer);
    if ikey.None? then None
    else
      var value := GetPrefixed(ikey.value.rest);
      if value.None? then None else Some((ikey.value.value, value.value.value))
  }

  lemma EntryRead(ikey: Bytes, value: Bytes)
    requires |ikey| < TWO32 && |value| < TWO32
    ensures Parsed(EntryBytes(ikey, value)) == Some((ikey, value))
  {
    hide Prefixed, GetPrefixed;
    PrefixedRead(ikey, Prefixed(value));
    PrefixedRead(value, []);
    assert Prefixed(value) + [] == Prefixed(value);
  }

  // ----- what the list answers -----

  ghost predicate Stored(f: ByteKeys.Format, buffers: map<int, Bytes>, e: Entry) {
    && Fits(f, e) && Rank(e.key) in buffers
    && buffers[Rank(e.key)] == EntryBytes(ByteKeys.Encode(f.keyOf, e.key), Data(f, e))
  }

  /** The buffers are those of the entries. */
  ghost predicate Holds(f: ByteKeys.Format, buffers: map<int, Bytes>, entries: set<Entry>) {
    && (forall e :: e in entries ==> Stored(f, buffers, e))
    && forall r :: r in buffers ==> exists e :: e in entries && Rank(e.key) == r
  }

  /** The entry of the least rank from the lookup key's on is where a seek in the sorted entries lands. */
  lemma LeastIsSeek(f: ByteKeys.Format, buffers: map<int, Bytes>, es: seq<Entry>, k: InternalKey, found: Option<int>)
    requires SortedEntries(es) && Holds(f, buffers, SetOf(es)) && k.seqno <= MAX_SEQUENCE
    requires SkipList.LeastFrom(buffers.Keys, Rank(k), found)
    ensures var i := SeekIndex(es, k); if found.None? then i == |es| else i < |es| && found == Some(Rank(es[i].key))
  {
    hide Rank, EntryBytes, Data, SeekIndex, ByteKeys.Encode, ByteKeys.EncodedKey;
    var i := SeekIndex(es, k);
    forall j | 0 <= j < |es| ensures Rank(es[j].key) in buffers && (Rank(es[j].key) < Rank(k) <==> Less(es[j].key, k)) {
      assert es[j] in SetOf(es) && Stored(f, buffers, es[j]);
      RankOrders(es[j].key, k);
    }
    if found.Some? {
      var e :| e in SetOf(es) && Rank(e.key) == found.value;
      var j :| 0 <= j < |es| && es[j] == e;
      assert Stored(f, buffers, es[j]) && i <= j;
      assert es[i] in SetOf(es) && Stored(f, buffers, es[i]);
      if i < j {
        assert Precedes(es[i], es[j]);
        RankOrders(es[i].key, es[j].key);
      }
    }
  }

  /** What a lookup makes of the entry it finds. */
  function Answer(f: ByteKeys.Format, userKey: Bytes, buffer: Bytes): Version.SaverState {
    var p := Parsed(buffer);
    if p.None? || f.rank(ByteKeys.UserKey(p.value.0)) != f.rank(userKey) then Version.NotFound
    else if ByteKeys.PackedTag(p.value.0) % 256 == 1 then Version.Found(f.read(p.value.1))
    else if ByteKeys.PackedTag(p.value.0) % 256 == 0 then Version.Deleted
    else Version.NotFound
  }

  lemma AnswerIs(f: ByteKeys.Format, buffers: map<int, Bytes>, e: Entry, u: UserKey)
    requires f.Good() && Stored(f, buffers, e)
    ensures Answer(f, f.keyOf(u), buffers[Rank(e.key)]) ==
            if e.key.ukey != u then Version.NotFound else if e.key.kind == Put then Version.Found(e.value) else Version.Deleted
  {
    hide EntryBytes, Parsed, ByteKeys.UserKey, ByteKeys.PackedTag, ByteKeys.EncodedKey, ByteKeys.KeepsOrder;
    EntryRead(ByteKeys.Encode(f.keyOf, e.key), Data(f, e));
    ByteKeys.EncodedKeyParts(f.keyOf(e.key.ukey), Tag(e.key));
    assert Tag(e.key) % 256 == if e.key.kind == Put then 1 else 0;
  }

  // ----- the memtable -----

  class MemTable {
    const f: ByteKeys.Format
    const table: SkipList.SkipList
    var buffers: map<int, Bytes>   // the entry that a node of the list points to, by its rank
    ghost var entries: set<Entry>

    ghost predicate Valid()
      reads this, table
    {
      f.Good() && table.Valid() && table.Contents() == buffers.Keys && Holds(f, buffers, entries)
    }

    constructor (f: ByteKeys.Format)
      requires f.Good()
      ensures Valid() && fresh(table) && this.f == f && entries == {}
    {
      this.f := f;
      table := new SkipList.SkipList();
      buffers, entries := map[], {};
    }

    method Add(s: nat, kind: Kind, key: Bytes, value: Bytes, height: nat, ghost e: Entry)
      requires Valid() && 1 <= height <= SkipList.MAX_HEIGHT
      requires e.key.seqno == s && e.key.kind == kind && key == f.keyOf(e.key.ukey) && value == Data(f, e) && Fits(f, e)
      requires forall x :: x in entries ==> x.key != e.key
      modifies this, table
      ensures Valid() && entries == old(entries) + {e}
    {
      var ikey := ByteKeys.EncodedKey(key, s * 256 + if kind == Put then 1 else 0);
      var buffer := EntryBytes(ikey, value);
      BytesRankIs(f, e.key);
      var rank := BytesRank(f, ikey);
      AddHolds(f, buffers, entries, e);
      table.Insert(rank, height);
      buffers, entries := buffers[rank := buffer], entries + {e};
    }

    /** Main result: a lookup in the bytes of the list answers as one seek in the sorted entries does. */
    method Get(u: UserKey, s: nat) returns (st: Version.SaverState)
      requires Valid() && s <= MAX_SEQUENCE && |ByteKeys.Encode(f.keyOf, LookupKey(u, s))| < TWO32
      ensures forall es :: SortedEntries(es) && SetOf(es) == entries ==> st == Version.RunGet(es, u, s)
    {
      var k := LookupKey(u, s);
      var memkey := Prefixed(ByteKeys.Encode(f.keyOf, k));
      assert memkey + [] == memkey;
      PrefixedRead(ByteKeys.Encode(f.keyOf, k), []);
      BytesRankIs(f, k);
      var next := table.FindGreaterOrEqual(BytesRank(f, GetPrefixed(memkey).value.value), null);
      if next.To? {
        st := Answer(f, f.keyOf(u), buffers[table.mem.nodes[next.n].key]);
      } else {
        st := Version.NotFound;
      }
      forall es | SortedEntries(es) && SetOf(es) == entries ensures st == Version.RunGet(es, u, s) {
        LeastIsSeek(f, buffers, es, k, SkipList.LinkKey(table.mem.nodes, next));
        var i := SeekIndex(es, k);
        if i < |es| {
          assert es[i] in SetOf(es);
          AnswerIs(f, buffers, es[i], u);
        }
      }
    }
  }

  lemma AddHolds(f: ByteKeys.Format, buffers: map<int, Bytes>, entries: set<Entry>, e: Entry)
    requires Holds(f, buffers, entries) && Fits(f, e) && forall x :: x in entries ==> x.key != e.key
    ensures Rank(e.key) !in buffers
    ensures Holds(f, buffers[Rank(e.key) := EntryBytes(ByteKeys.Encode(f.keyOf, e.key), Data(f, e))], entries + {e})
  {
    forall x | x in entries ensures Rank(x.key) != Rank(e.key) {
      assert Stored(f, buffers, x);
      RankOrders(x.key, e.key);
    }
    var buffers' := buffers[Rank(e.key) := EntryBytes(ByteKeys.Encode(f.keyOf, e.key), Data(f, e))];
    forall x | x in entries + {e} ensures Stored(f, buffers', x) {
      assert x in entries ==> Stored(f, buffers, x);
    }
    forall r | r in buffers' ensures exists x :: x in entries + {e} && Rank(x.key) == r {
      if r == Rank(e.key) {
        assert e in entries + {e};
      } else {
        var x :| x in entries && Rank(x.key) == r;
        assert x in entries + {e};
      }
    }
  }

  // ----- inserting a batch -----

  /** The updates that the operations of a batch stand for. */
  ghost predicate Matches(f: ByteKeys.Format, ops: seq<WriteBatch.Op>, updates: seq<Db.Update>) {
    |ops| == |updates| && forall i :: 0 <= i < |ops| ==> OpMatches(f, ops[i], updates[i])
  }

  predicate OpMatches(f: ByteKeys.Format, op: WriteBatch.Op, u: Db.Update) {
    op.key == f.keyOf(u.ukey) &&
    match op
    case Put(_, value) => u.kind == Put && value == f.valueOf(u.value)
    case Delete(_) => u.kind == Deletion
  }

  lemma Numbered(updates: seq<Db.Update>, first: nat, i: nat)
    requires i < |updates|
    ensures var e := Db.BatchEntries(updates, first)[i];
            e == Entry(InternalKey(updates[i].ukey, first + i, updates[i].kind), updates[i].value)
    ensures SetOf(Db.BatchEntries(updates, first)[..i + 1]) ==
            SetOf(Db.BatchEntries(updates, first)[..i]) + {Db.BatchEntries(updates, first)[i]}
  {
    var es := Db.BatchEntries(updates, first);
    assert es[..i + 1] == es[..i] + [es[i]];
  }

  /** What the inserter does with one update. */
  method Handle(mem: MemTable, op: WriteBatch.Op, sequence: nat, height: nat, ghost e: Entry, ghost u: Db.Update)
    requires mem.Valid() && 1 <= height <= SkipList.MAX_HEIGHT && OpMatches(mem.f, op, u)
    requires e == Entry(InternalKey(u.ukey, sequence, u.kind), u.value) && Fits(mem.f, e)
    requires forall x :: x in mem.entries ==> x.key != e.key
    modifies mem, mem.table
    ensures mem.Valid() && mem.entries == old(mem.entries) + {e}
  {
    match op {
      case Put(key, value) => mem.Add(sequence, Put, key, value, height, e);
      case Delete(key) => mem.Add(sequence, Deletion, key, [], height, e);
    }
  }

  /** One update after the other, each with the next sequence number. */
  method HandleAll(mem: MemTable, ops: seq<WriteBatch.Op>, first: nat, height: nat -> nat, ghost updates: seq<Db.Update>)
    requires mem.Valid() && (forall i :: 1 <= height(i) <= SkipList.MAX_HEIGHT) && Matches(mem.f, ops, updates)
    requires forall e :: e in Db.BatchEntries(updates, first) ==> Fits(mem.f, e)
    requires forall x :: x in mem.entries ==> x.key.seqno < first
    modifies mem, mem.table
    ensures mem.Valid() && mem.entries == old(mem.entries) + SetOf(Db.BatchEntries(updates, first))
  {
    hide Fits, Rank, EntryBytes, Db.BatchEntries, MemTable.Valid, OpMatches, Stored, Holds;
    ghost var es := Db.BatchEntries(updates, first);
    for i := 0 to |ops|
      invariant mem.Valid() && mem.entries == old(mem.entries) + SetOf(es[..i])
    {
      Numbered(updates, first, i);
      assert es[i] in es && OpMatches(mem.f, ops[i], updates[i]);
      NewKey(old(mem.entries), updates, first, i);
      Handle(mem, ops[i], first + i, height(i), es[i], updates[i]);
    }
    assert es[..|ops|] == es;
  }

  /** Every update that the batch hands out goes in, also those before an error. */
  method InsertInto(b: WriteBatch.WriteBatch, mem: MemTable, height: nat -> nat, ghost updates: seq<Db.Update>)
      returns (error: Option<WriteBatch.Error>)
    requires mem.Valid() && forall i :: 1 <= height(i) <= SkipList.MAX_HEIGHT
    requires Matches(mem.f, WriteBatch.Iterated(b.rep).ops, updates)
    requires b.Valid() ==> forall e :: e in Db.BatchEntries(updates, WriteBatch.SequenceOf(b.rep)) ==> Fits(mem.f, e)
    requires b.Valid() ==> forall x :: x in mem.entries ==> x.key.seqno < WriteBatch.SequenceOf(b.rep)
    modifies mem, mem.table
    ensures mem.Valid() && error == WriteBatch.Iterated(b.rep).error
    ensures !b.Valid() ==> mem.entries == old(mem.entries)
    ensures b.Valid() ==> mem.entries == old(mem.entries) + SetOf(Db.BatchEntries(updates, WriteBatch.SequenceOf(b.rep)))
  {
    hide Fits, Matches, Db.BatchEntries, WriteBatch.Iterated, WriteBatch.SequenceOf, MemTable.Valid;
    var handled;
    handled, error := b.Iterate();
    if b.Valid() {
      HandleAll(mem, handled, WriteBatch.SequenceOf(b.rep), height, updates);
    }
  }

  lemma NewKey(entries: set<Entry>, updates: seq<Db.Update>, first: nat, i: nat)
    requires i < |updates| && forall x :: x in entries ==> x.key.seqno < first
    ensures var es := Db.BatchEntries(updates, first); forall x :: x in entries + SetOf(es[..i]) ==> x.key != es[i].key
  {
    var es := Db.BatchEntries(updates, first);
    forall x | x in SetOf(es[..i]) ensures x.key != es[i].key {
      var j :| 0 <= j < i && es[j] == x;
    }
  }
}
