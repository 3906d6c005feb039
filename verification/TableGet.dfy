/** A lookup in the bytes of a table answers like one seek in the sorted run it was built from
    (db/table_cache.cc, SaveValue in db/version_set.cc). */
module TableGet {
  import opened Options
  import opened Coding
  import opened BlockLayout
  import opened BlockIter
  import opened TableFormat
  import TableBuilder
  import Table
  import ByteKeys
  import DbFormat
  import Version

  /** The pairs a table is built from. */
  ghost predicate Written(f: ByteKeys.Format, es: seq<DbFormat.Entry>, ps: seq<Pair>) {
    && |ps| == |es|
    && forall i :: 0 <= i < |es| ==> WrittenAt(f, es, ps, i)
  }

  ghost predicate WrittenAt(f: ByteKeys.Format, es: seq<DbFormat.Entry>, ps: seq<Pair>, i: nat) {
    && i < |es| == |ps| && es[i].key.seqno <= DbFormat.MAX_SEQUENCE
    && ps[i] == Pair(ByteKeys.Encode(f.keyOf, es[i].key), f.valueOf(es[i].value))
  }

  /** Sorted entries are written in the order of their bytes. */
  lemma WrittenOrdered(f: ByteKeys.Format, es: seq<DbFormat.Entry>, ps: seq<Pair>)
    requires f.Good() && DbFormat.SortedEntries(es) && Written(f, es, ps)
    ensures Ordered(ByteKeys.InternalBefore, ps)
  {
    forall i, j | 0 <= i < j < |ps| ensures KeyBefore(ByteKeys.InternalBefore, ps, i, j) {
      assert WrittenAt(f, es, ps, i) && WrittenAt(f, es, ps, j);
      assert DbFormat.Precedes(es[i], es[j]);
      ByteKeys.OrderAgrees(f.keyOf, es[i].key, es[j].key);
    }
  }

  /** The bytes lead to the same place as the ranks. */
  lemma LandsAtSeek(f: ByteKeys.Format, es: seq<DbFormat.Entry>, ps: seq<Pair>, pos: nat, k: DbFormat.InternalKey)
    requires f.Good() && DbFormat.SortedEntries(es) && Written(f, es, ps) && k.seqno <= DbFormat.MAX_SEQUENCE
    requires LandsAt(ByteKeys.InternalBefore, ps, pos, ByteKeys.Encode(f.keyOf, k))
    ensures pos == DbFormat.SeekIndex(es, k)
  {
    forall i | 0 <= i < |es| ensures ByteKeys.InternalBefore(ps[i].key, ByteKeys.Encode(f.keyOf, k)) <==> DbFormat.Less(es[i].key, k) {
      assert WrittenAt(f, es, ps, i);
      ByteKeys.OrderAgrees(f.keyOf, es[i].key, k);
    }
  }

  lemma SameUser(f: ByteKeys.Format, a: DbFormat.InternalKey, b: DbFormat.InternalKey)
    requires f.Good() && a.seqno <= DbFormat.MAX_SEQUENCE && b.seqno <= DbFormat.MAX_SEQUENCE
    ensures ByteKeys.UserKey(ByteKeys.Encode(f.keyOf, a)) == f.keyOf(a.ukey)
    ensures f.keyOf(a.ukey) == f.keyOf(b.ukey) <==> a.ukey == b.ukey
    ensures ByteKeys.PackedTag(ByteKeys.Encode(f.keyOf, a)) == DbFormat.Tag(a)
  {
    ByteKeys.EncodedKeyParts(f.keyOf(a.ukey), DbFormat.Tag(a));
    if a.ukey < b.ukey {
      ByteKeys.BeforeTotal(f.keyOf(a.ukey), f.keyOf(b.ukey));
    } else if b.ukey < a.ukey {
      ByteKeys.BeforeTotal(f.keyOf(b.ukey), f.keyOf(a.ukey));
    }
  }

  /** What the saver makes of the entry that a lookup of the user key passes on. */
  function Saved(f: ByteKeys.Format, userKey: Bytes, found: Option<Pair>): Version.SaverState {
    if found.Some? && ByteKeys.UserKey(found.value.key) == userKey then
      if ByteKeys.PackedTag(found.value.key) % 256 == 1 then Version.Found(f.read(found.value.value)) else Version.Deleted
    else Version.NotFound
  }

  lemma TagKind(k: DbFormat.InternalKey)
    ensures DbFormat.Tag(k) % 256 == if k.kind == DbFormat.Put then 1 else 0
  {
  }

  lemma SavedParts(f: ByteKeys.Format, userKey: Bytes, p: Pair, user: Bytes, tag: nat)
    requires ByteKeys.UserKey(p.key) == user && ByteKeys.PackedTag(p.key) == tag
    ensures Saved(f, userKey, Some(p)) ==
            if user != userKey then Version.NotFound else if tag % 256 == 1 then Version.Found(f.read(p.value)) else Version.Deleted
  {
  }

  lemma SavedOne(f: ByteKeys.Format, e: DbFormat.Entry, u: DbFormat.UserKey, p: Pair)
    requires f.Good() && e.key.seqno <= DbFormat.MAX_SEQUENCE && p == Pair(ByteKeys.Encode(f.keyOf, e.key), f.valueOf(e.value))
    ensures ByteKeys.UserKey(p.key) == f.keyOf(u) <==> e.key.ukey == u
    ensures Saved(f, f.keyOf(u), Some(p)) ==
            if e.key.ukey != u then Version.NotFound
            else if e.key.kind == DbFormat.Put then Version.Found(e.value) else Version.Deleted
  {
    SameUser(f, e.key, DbFormat.LookupKey(u, 0));
    TagKind(e.key);
    SavedParts(f, f.keyOf(u), p, f.keyOf(e.key.ukey), DbFormat.Tag(e.key));
  }

  lemma SavedIsRunGet(f: ByteKeys.Format, es: seq<DbFormat.Entry>, ps: seq<Pair>, pos: nat, u: DbFormat.UserKey, s: nat, found: Option<Pair>)
    requires f.Good() && Written(f, es, ps) && pos == DbFormat.SeekIndex(es, DbFormat.LookupKey(u, s))
    requires found.Some? ==> pos < |ps| && found.value == ps[pos]
    requires pos < |ps| && ByteKeys.UserKey(ps[pos].key) == f.keyOf(u) ==> found == Some(ps[pos])
    ensures Saved(f, f.keyOf(u), found) == Version.RunGet(es, u, s)
  {
    if pos < |es| {
      assert WrittenAt(f, es, ps, pos);
      SavedOne(f, es[pos], u, ps[pos]);
    }
  }

  /** The bytes of a lookup key. */
  method LookupBytes(f: ByteKeys.Format, u: DbFormat.UserKey, s: nat) returns (k: Bytes)
    requires s <= DbFormat.MAX_SEQUENCE
    ensures k == ByteKeys.Encode(f.keyOf, DbFormat.LookupKey(u, s))
    ensures ByteKeys.UserKey(k) == f.keyOf(u)
  {
    k := ByteKeys.Encode(f.keyOf, DbFormat.LookupKey(u, s));
    ByteKeys.EncodedKeyParts(f.keyOf(u), DbFormat.Tag(DbFormat.LookupKey(u, s)));
  }

  method Seek(t: Table.Table, k: Bytes, ghost user: Bytes) returns (found: Option<Pair>, ghost pos: nat)
    requires t.Valid() && t.options.comparator == InternalComparator() && ByteKeys.UserKey(k) == user
    ensures var ps := TableBuilder.Concat(t.layout.b.es);
            && LandsAt(ByteKeys.InternalBefore, ps, pos, k)
            && (found.Some? ==> pos < |ps| && found.value == ps[pos])
            && (pos < |ps| && ByteKeys.UserKey(ps[pos].key) == user ==> found == Some(ps[pos]))
  {
    ghost var i;
    found, pos, i := t.InternalGet(k);
  }

  /** Main result: looking (u, s) up in the bytes of a table gives what one seek in its entries gives. */
  method Get(t: Table.Table, f: ByteKeys.Format, ghost es: seq<DbFormat.Entry>, u: DbFormat.UserKey, s: nat) returns (st: Version.SaverState)
    requires t.Valid() && t.options.comparator == InternalComparator() && f.Good() && s <= DbFormat.MAX_SEQUENCE
    requires DbFormat.SortedEntries(es) && Written(f, es, TableBuilder.Concat(t.layout.b.es))
    ensures st == Version.RunGet(es, u, s)
  {
    var k := LookupBytes(f, u, s);
    var found;
    ghost var pos;
    found, pos := Seek(t, k, f.keyOf(u));
    LandsAtSeek(f, es, TableBuilder.Concat(t.layout.b.es), pos, DbFormat.LookupKey(u, s));
    SavedIsRunGet(f, es, TableBuilder.Concat(t.layout.b.es), pos, u, s, found);
    st := Saved(f, f.keyOf(u), found);
  }

  method Write(f: ByteKeys.Format, es: seq<DbFormat.Entry>) returns (ps: seq<Pair>)
    requires forall e :: e in es ==> e.key.seqno <= DbFormat.MAX_SEQUENCE
    ensures Written(f, es, ps)
  {
    ps := [];
    for i := 0 to |es|
      invariant |ps| == i && forall j :: 0 <= j < i ==> ps[j] == Pair(ByteKeys.Encode(f.keyOf, es[j].key), f.valueOf(es[j].value))
    {
      assert es[i] in es;
      ps := ps + [Pair(ByteKeys.Encode(f.keyOf, es[i].key), f.valueOf(es[i].value))];
    }
    forall i | 0 <= i < |es| ensures WrittenAt(f, es, ps, i) {
      assert es[i] in es;
    }
  }

  /** Main result: a table built from sorted entries and opened again from its bytes answers every lookup like
      the entries themselves. */
  method BuildAndGet(o: TableBuilder.TableOptions, verify: bool, f: ByteKeys.Format, es: seq<DbFormat.Entry>, u: DbFormat.UserKey, s: nat)
    returns (file: Bytes, st: Option<Version.SaverState>)
    requires o.Good() && o.comparator == InternalComparator() && f.Good() && s <= DbFormat.MAX_SEQUENCE
    requires DbFormat.SortedEntries(es) && forall e :: e in es ==> e.key.seqno <= DbFormat.MAX_SEQUENCE
    ensures |file| < TWO32 ==> st == Some(Version.RunGet(es, u, s))
  {
    var ps := Write(f, es);
    WrittenOrdered(f, es, ps);
    file := Table.Build(o, ps);
    ghost var y :| TableBuilder.IsTable(o, file, y) && TableBuilder.Concat(y.b.es) == ps;
    if |file| >= TWO32 {
      return file, None;
    }
    Table.SmallFile(o, file, y);
    var t := Table.Open(o, file, verify, y);
    var found := Get(t, f, es, u, s);
    st := Some(found);
  }
}
