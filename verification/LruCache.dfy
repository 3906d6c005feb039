/** One shard of the block and table cache (util/cache.cc): reference counted handles, a hash table, and
    two lists, of the handles in use and of the others in the order they may be evicted. */
module LruCache {
  import opened Options
  import opened HandleTable

  /** A handle; it is named by a number, its place among all ever made. */
  datatype Handle = Handle(key: Key, hash: nat, value: nat, charge: nat, inCache: bool, refs: nat)

  /** What is inserted; a handle carries it as long as it is there. */
  datatype Item = Item(key: Key, hash: nat, value: nat, charge: nat)

  function Without(s: seq<nat>, e: nat): (r: seq<nat>)
    ensures e !in s ==> r == s
  {
    if s == [] then [] else if s[0] == e then s[1..] else [s[0]] + Without(s[1..], e)
  }

  ghost predicate Distinct(s: seq<nat>) {
    forall x :: multiset(s)[x] <= 1
  }

  lemma {:induction false} WithoutOnce(s: seq<nat>, e: nat)
    ensures multiset(Without(s, e)) == multiset(s) - multiset{e}
  {
    if s != [] {
      assert s == [s[0]] + s[1..];
      if s[0] != e {
        WithoutOnce(s[1..], e);
      }
    }
  }

  lemma WithoutMembers(s: seq<nat>, e: nat)
    requires Distinct(s)
    ensures Distinct(Without(s, e))
    ensures forall x :: x in Without(s, e) <==> x in s && x != e
  {
    WithoutOnce(s, e);
    forall x ensures x in Without(s, e) <==> x in s && x != e {
      assert x in Without(s, e) <==> multiset(Without(s, e))[x] > 0;
      assert x in s <==> multiset(s)[x] > 0;
    }
  }

  lemma DistinctAppend(s: seq<nat>, e: nat)
    requires Distinct(s) && e !in s
    ensures Distinct(s + [e])
  {
    assert multiset(s + [e]) == multiset(s) + multiset{e};
    assert multiset(s)[e] == 0;
  }

  function Charges(handles: map<nat, Handle>, s: seq<nat>): nat {
    if s == [] then 0
    else Charges(handles, s[1..]) + if s[0] in handles then handles[s[0]].charge else 0
  }

  lemma {:induction false} ChargesWithout(handles: map<nat, Handle>, s: seq<nat>, e: nat)
    requires e in s && e in handles
    ensures Charges(handles, Without(s, e)) == Charges(handles, s) - handles[e].charge
  {
    if s[0] != e {
      ChargesWithout(handles, s[1..], e);
      assert Without(s, e)[1..] == Without(s[1..], e);
    }
  }

  lemma {:induction false} ChargesAppend(handles: map<nat, Handle>, s: seq<nat>, e: nat)
    requires e in handles
    ensures Charges(handles, s + [e]) == Charges(handles, s) + handles[e].charge
  {
    if s == [] {
      assert ([] + [e])[1..] == [];
    } else {
      ChargesAppend(handles, s[1..], e);
      assert (s + [e])[1..] == s[1..] + [e];
    }
  }

  lemma {:induction false} ChargesFrame(handles: map<nat, Handle>, handles': map<nat, Handle>, s: seq<nat>)
    requires forall e :: e in s ==> e in handles && e in handles' && handles'[e].charge == handles[e].charge
    ensures Charges(handles', s) == Charges(handles, s)
  {
    if s != [] {
      ChargesFrame(handles, handles', s[1..]);
    }
  }

  // ----- what holds between calls -----

  /** Each cached handle is in exactly one list, by its references. */
  ghost predicate Listed(handles: map<nat, Handle>, lru: seq<nat>, inUse: seq<nat>) {
    && Distinct(lru) && Distinct(inUse)
    && (forall e {:trigger e in lru} :: e in lru <==> e in handles && handles[e].inCache && handles[e].refs == 1)
    && (forall e {:trigger e in inUse} :: e in inUse <==> e in handles && handles[e].inCache && handles[e].refs >= 2)
  }

  /** The table leads to the cached handles, except to one that is just being taken out. */
  ghost predicate Tabled(handles: map<nat, Handle>, view: map<Key, Slot>, leaving: Option<nat>) {
    && (forall k :: k in view ==>
          view[k].id in handles && handles[view[k].id].inCache && handles[view[k].id].key == k && Some(view[k].id) != leaving)
    && (forall e :: e in handles && handles[e].inCache && Some(e) != leaving ==>
          handles[e].key in view && view[handles[e].key] == Slot(e, handles[e].key, handles[e].hash))
  }

  /** A reference for each handle a client holds, and one for the cache. */
  ghost predicate Referenced(handles: map<nat, Handle>, client: map<nat, nat>) {
    && (forall e :: e in client <==> e in handles)
    && forall e :: e in handles ==> handles[e].refs > 0 && handles[e].refs == client[e] + if handles[e].inCache then 1 else 0
  }

  /** Every handle ever made is there still or was given to its deleter, once. */
  ghost predicate DeletedOnce(handles: map<nat, Handle>, deleted: seq<nat>, made: nat) {
    && Distinct(deleted)
    && (forall e :: e in deleted ==> e < made && e !in handles)
    && (forall e :: e in handles ==> e < made)
    && (forall e: nat :: e < made ==> e in handles || e in deleted)
  }

  /** Every handle carries what was inserted when it was made. */
  ghost predicate Carried(handles: map<nat, Handle>, content: seq<Item>) {
    forall e :: e in handles ==>
      e < |content| && content[e] == Item(handles[e].key, handles[e].hash, handles[e].value, handles[e].charge)
  }

  /** Hashes are those of the keys, and a cache without capacity caches nothing. */
  ghost predicate Suited(handles: map<nat, Handle>, hashOf: Key -> nat, capacity: nat) {
    forall e :: e in handles ==> handles[e].hash == hashOf(handles[e].key) && (handles[e].inCache ==> capacity > 0)
  }

  lemma MadeCarried(handles: map<nat, Handle>, content: seq<Item>, hashOf: Key -> nat, capacity: nat, h: Handle)
    requires Carried(handles, content) && Suited(handles, hashOf, capacity)
    requires h.hash == hashOf(h.key) && (h.inCache ==> capacity > 0)
    ensures Carried(handles[|content| := h], content + [Item(h.key, h.hash, h.value, h.charge)])
    ensures Suited(handles[|content| := h], hashOf, capacity)
  {
  }

  lemma NothingCached(handles: map<nat, Handle>, view: map<Key, Slot>, hashOf: Key -> nat)
    requires Tabled(handles, view, None) && Suited(handles, hashOf, 0)
    ensures view == map[]
  {
    assert forall k :: k !in view;
  }

  lemma ErasedCarried(handles: map<nat, Handle>, content: seq<Item>, hashOf: Key -> nat, capacity: nat, e: nat)
    requires Carried(handles, content) && Suited(handles, hashOf, capacity) && e in handles && handles[e].refs > 0
    ensures Carried(Erased(handles, e), content) && Suited(Erased(handles, e), hashOf, capacity)
  {
  }

  lemma UnrefdCarried(handles: map<nat, Handle>, content: seq<Item>, hashOf: Key -> nat, capacity: nat, e: nat)
    requires Carried(handles, content) && Suited(handles, hashOf, capacity) && e in handles && handles[e].refs > 0
    ensures Carried(Unrefd(handles, e), content) && Suited(Unrefd(handles, e), hashOf, capacity)
  {
  }

  lemma CountedCarried(handles: map<nat, Handle>, content: seq<Item>, hashOf: Key -> nat, capacity: nat, e: nat)
    requires Carried(handles, content) && Suited(handles, hashOf, capacity) && e in handles
    ensures Carried(Counted(handles, e, 1), content) && Suited(Counted(handles, e, 1), hashOf, capacity)
  {
  }

  /** A key leads to what was last inserted under it, if to anything. */
  ghost predicate Current(view: map<Key, Slot>, latest: map<Key, nat>) {
    forall k :: k in view ==> k in latest && view[k].id == latest[k]
  }

  lemma CurrentPlaced(handles: map<nat, Handle>, view: map<Key, Slot>, latest: map<Key, nat>, client: map<nat, nat>, key: Key, s: Slot)
    requires Current(view, latest) && Tabled(handles, view, None) && Referenced(handles, client)
    ensures Current(view[key := s], latest[key := s.id])
    ensures key in view ==> view[key].id in handles && handles[view[key].id].inCache && view[key].id in client
  {
  }

  lemma NothingCurrent(view: map<Key, Slot>, latest: map<Key, nat>)
    requires view == map[]
    ensures Current(view, latest)
  {
  }

  /** What an insertion deletes before anything is evicted: the handle it replaces, unless a client holds it. */
  function ReplacedUnheld(capacity: nat, view: map<Key, Slot>, client: map<nat, nat>, key: Key): seq<nat> {
    if capacity > 0 && key in view && view[key].id in client && client[view[key].id] == 0 then [view[key].id] else []
  }

  /** The handles after one leaves the cache and the cache's reference with it. */
  function Erased(handles: map<nat, Handle>, e: nat): map<nat, Handle>
    requires e in handles && handles[e].refs > 0
  {
    var h := handles[e];
    if h.refs == 1 then handles - {e} else handles[e := h.(inCache := false, refs := h.refs - 1)]
  }

  function HeldMore(client: map<nat, nat>, e: nat): map<nat, nat>
    requires e in client
  {
    client[e := client[e] + 1]
  }

  function UnrefdClient(handles: map<nat, Handle>, client: map<nat, nat>, e: nat): map<nat, nat>
    requires e in handles && e in client && client[e] > 0
  {
    if handles[e].refs == 1 then client - {e} else client[e := client[e] - 1]
  }

  /** A handle without references goes to its deleter. */
  function UnrefdDeleted(handles: map<nat, Handle>, deleted: seq<nat>, e: nat): seq<nat>
    requires e in handles
  {
    if handles[e].refs == 1 then deleted + [e] else deleted
  }

  function ErasedClient(handles: map<nat, Handle>, client: map<nat, nat>, e: nat): map<nat, nat>
    requires e in handles
  {
    if handles[e].refs == 1 then client - {e} else client
  }

  lemma ErasedLists(handles: map<nat, Handle>, lru: seq<nat>, inUse: seq<nat>, e: nat)
    requires Listed(handles, lru, inUse) && e in handles && handles[e].refs > 0 && handles[e].inCache
    ensures Listed(Erased(handles, e), Without(lru, e), Without(inUse, e))
    ensures Charges(handles, lru) + Charges(handles, inUse) ==
            Charges(Erased(handles, e), Without(lru, e)) + Charges(Erased(handles, e), Without(inUse, e)) + handles[e].charge
  {
    WithoutMembers(lru, e);
    WithoutMembers(inUse, e);
    ChargesFrame(handles, Erased(handles, e), Without(lru, e));
    ChargesFrame(handles, Erased(handles, e), Without(inUse, e));
    if e in lru {
      ChargesWithout(handles, lru, e);
    } else {
      ChargesWithout(handles, inUse, e);
    }
  }

  lemma ErasedTable(handles: map<nat, Handle>, view: map<Key, Slot>, e: nat)
    requires Tabled(handles, view, Some(e)) && e in handles && handles[e].refs > 0
    ensures Tabled(Erased(handles, e), view, None)
  {
  }

  lemma ErasedReferences(handles: map<nat, Handle>, client: map<nat, nat>, deleted: seq<nat>, made: nat, e: nat)
    requires Referenced(handles, client) && DeletedOnce(handles, deleted, made) && e in handles && handles[e].inCache
    ensures Referenced(Erased(handles, e), ErasedClient(handles, client, e))
    ensures DeletedOnce(Erased(handles, e), UnrefdDeleted(handles, deleted, e), made)
  {
    DistinctAppend(deleted, e);
  }

  /** The handles after `e` is given to one more client, or given back. */
  function Counted(handles: map<nat, Handle>, e: nat, delta: int): map<nat, Handle>
    requires e in handles && handles[e].refs + delta >= 0
  {
    handles[e := handles[e].(refs := handles[e].refs + delta)]
  }

  /** The lists after one more reference, and after one less. */
  function RefdLru(handles: map<nat, Handle>, lru: seq<nat>, e: nat): seq<nat>
    requires e in handles
  {
    if handles[e].inCache && handles[e].refs == 1 then Without(lru, e) else lru
  }

  function RefdInUse(handles: map<nat, Handle>, inUse: seq<nat>, e: nat): seq<nat>
    requires e in handles
  {
    if handles[e].inCache && handles[e].refs == 1 then Without(inUse, e) + [e] else inUse
  }

  function UnrefdLru(handles: map<nat, Handle>, lru: seq<nat>, e: nat): seq<nat>
    requires e in handles
  {
    if handles[e].inCache && handles[e].refs == 2 then Without(lru, e) + [e] else lru
  }

  function UnrefdInUse(handles: map<nat, Handle>, inUse: seq<nat>, e: nat): seq<nat>
    requires e in handles
  {
    if handles[e].inCache && handles[e].refs == 2 then Without(inUse, e) else inUse
  }

  function Unrefd(handles: map<nat, Handle>, e: nat): map<nat, Handle>
    requires e in handles && handles[e].refs > 0
  {
    if handles[e].refs == 1 then handles - {e} else Counted(handles, e, -1)
  }

  lemma RefLists(handles: map<nat, Handle>, lru: seq<nat>, inUse: seq<nat>, e: nat)
    requires Listed(handles, lru, inUse) && e in handles && handles[e].inCache && handles[e].refs > 0
    ensures RefdLru(handles, lru, e) == Without(lru, e)
    ensures Listed(Counted(handles, e, 1), RefdLru(handles, lru, e), RefdInUse(handles, inUse, e))
    ensures Charges(Counted(handles, e, 1), RefdLru(handles, lru, e)) + Charges(Counted(handles, e, 1), RefdInUse(handles, inUse, e)) ==
            Charges(handles, lru) + Charges(handles, inUse)
  {
    var handles' := Counted(handles, e, 1);
    if handles[e].refs == 1 {
      WithoutMembers(lru, e);
      assert e !in inUse;
      ChargesWithout(handles, lru, e);
      assert Without(inUse, e) == inUse;
      ChargesFrame(handles, handles', Without(lru, e));
      ChargesFrame(handles, handles', inUse);
      ChargesAppend(handles', inUse, e);
      DistinctAppend(inUse, e);
    } else {
      assert e !in lru;
      ChargesFrame(handles, handles', lru);
      ChargesFrame(handles, handles', inUse);
    }
  }

  lemma RefOthers(handles: map<nat, Handle>, view: map<Key, Slot>, client: map<nat, nat>, deleted: seq<nat>, made: nat, e: nat)
    requires Tabled(handles, view, None) && Referenced(handles, client) && DeletedOnce(handles, deleted, made) && e in handles
    ensures var handles' := Counted(handles, e, 1);
            Tabled(handles', view, None) && Referenced(handles', HeldMore(client, e)) && DeletedOnce(handles', deleted, made)
  {
  }

  lemma UnrefOthers(handles: map<nat, Handle>, view: map<Key, Slot>, client: map<nat, nat>, deleted: seq<nat>, made: nat, e: nat)
    requires Tabled(handles, view, None) && Referenced(handles, client) && DeletedOnce(handles, deleted, made)
    requires e in client && client[e] > 0
    ensures Tabled(Unrefd(handles, e), view, None)
    ensures Referenced(Unrefd(handles, e), UnrefdClient(handles, client, e))
    ensures DeletedOnce(Unrefd(handles, e), UnrefdDeleted(handles, deleted, e), made)
  {
    DistinctAppend(deleted, e);
  }

  lemma UnrefLists(handles: map<nat, Handle>, lru: seq<nat>, inUse: seq<nat>, e: nat)
    requires Listed(handles, lru, inUse) && e in handles && handles[e].refs >= (if handles[e].inCache then 2 else 1)
    ensures Without(lru, e) == lru
    ensures Listed(Unrefd(handles, e), UnrefdLru(handles, lru, e), UnrefdInUse(handles, inUse, e))
    ensures Charges(Unrefd(handles, e), UnrefdLru(handles, lru, e)) + Charges(Unrefd(handles, e), UnrefdInUse(handles, inUse, e)) ==
            Charges(handles, lru) + Charges(handles, inUse)
  {
    var handles' := Unrefd(handles, e);
    assert e !in lru;
    if handles[e].inCache && handles[e].refs == 2 {
      WithoutMembers(inUse, e);
      ChargesWithout(handles, inUse, e);
      ChargesFrame(handles, handles', Without(inUse, e));
      ChargesFrame(handles, handles', lru);
      ChargesAppend(handles', lru, e);
      DistinctAppend(lru, e);
    } else {
      ChargesFrame(handles, handles', lru);
      ChargesFrame(handles, handles', inUse);
    }
  }

  /** A new handle for one client, cached or not. */
  lemma MadeLists(handles: map<nat, Handle>, lru: seq<nat>, inUse: seq<nat>, e: nat, h: Handle)
    requires Listed(handles, lru, inUse) && e !in handles && h.refs == if h.inCache then 2 else 1
    ensures h.inCache ==>
              && Listed(handles[e := h], lru, inUse + [e])
              && Charges(handles[e := h], lru) + Charges(handles[e := h], inUse + [e]) == Charges(handles, lru) + Charges(handles, inUse) + h.charge
    ensures !h.inCache ==>
              && Listed(handles[e := h], lru, inUse)
              && Charges(handles[e := h], lru) + Charges(handles[e := h], inUse) == Charges(handles, lru) + Charges(handles, inUse)
  {
    assert e !in lru && e !in inUse;
    ChargesFrame(handles, handles[e := h], lru);
    ChargesFrame(handles, handles[e := h], inUse);
    if h.inCache {
      DistinctAppend(inUse, e);
      ChargesAppend(handles[e := h], inUse, e);
    }
  }

  /** The table's entry for a key leaves with it. */
  function Replaced(view: map<Key, Slot>, key: Key): Option<nat> {
    if key in view then Some(view[key].id) else None
  }

  lemma MadeOthers(handles: map<nat, Handle>, view: map<Key, Slot>, client: map<nat, nat>, deleted: seq<nat>, made: nat, h: Handle)
    requires Tabled(handles, view, None) && Referenced(handles, client) && DeletedOnce(handles, deleted, made)
    requires h.refs == if h.inCache then 2 else 1
    ensures h.inCache ==> Tabled(handles[made := h], view[h.key := Slot(made, h.key, h.hash)], Replaced(view, h.key))
    ensures !h.inCache ==> Tabled(handles[made := h], view, None)
    ensures Referenced(handles[made := h], client[made := 1]) && DeletedOnce(handles[made := h], deleted, made + 1)
  {
  }

  /** What the table holds after an insertion, before anything is evicted; a cache without capacity caches
      nothing. */
  function Cached(capacity: nat, view: map<Key, Slot>, key: Key, s: Slot): map<Key, Slot> {
    if capacity > 0 then view[key := s] else view
  }

  /** The eviction order without a handle whose key is inserted again. */
  function WithoutReplaced(capacity: nat, view: map<Key, Slot>, key: Key, lru: seq<nat>): seq<nat> {
    if capacity > 0 && key in view then Without(lru, view[key].id) else lru
  }

  /** Nothing has left the table but these, and no client's handle is among them. */
  ghost predicate OnlyEvicted(view: map<Key, Slot>, view': map<Key, Slot>, held: map<nat, nat>, held': map<nat, nat>, evicted: seq<nat>) {
    && (forall k :: k in view' <==> k in view && view[k].id !in evicted)
    && (forall k :: k in view' ==> view'[k] == view[k])
    && (forall e :: e in held && held[e] > 0 ==> e in held' && held'[e] == held[e] && e !in evicted)
  }

  lemma NothingEvicted(view: map<Key, Slot>, held: map<nat, nat>)
    ensures OnlyEvicted(view, view, held, held, [])
  {
  }

  /** A handle that leaves the cache is no client's when it goes. */
  lemma DroppedUnheld(view: map<Key, Slot>, held: map<nat, nat>, e: Option<nat>)
    ensures OnlyEvicted(view, view, held, held, [])
    ensures e.Some? && e.value in held && held[e.value] == 0 ==> OnlyEvicted(view, view, held, held - {e.value}, [])
  {
  }

  lemma EvictedMore(view: map<Key, Slot>, view': map<Key, Slot>, held: map<nat, nat>, held': map<nat, nat>, evicted: seq<nat>, k: Key)
    requires OnlyEvicted(view, view', held, held', evicted) && k in view'
    requires forall x :: x in view' && view'[x].id == view'[k].id ==> x == k
    requires view'[k].id in held' && held'[view'[k].id] == 0
    ensures OnlyEvicted(view, view' - {k}, held, held' - {view'[k].id}, evicted + [view'[k].id])
  {
    var e := view'[k].id;
    assert forall x :: x in evicted + [e] <==> x in evicted || x == e;
  }

  class LRUCache {
    const capacity: nat
    const table: HandleTable
    var usage: nat
    var lru: seq<nat>
    var inUse: seq<nat>
    var handles: map<nat, Handle>
    var made: nat
    var deleted: seq<nat>
    ghost var client: map<nat, nat>
    ghost var content: seq<Item>       // all that was ever inserted, by the number of its handle
    ghost var latest: map<Key, nat>    // the handle last made for a key, unless the key was erased since

    ghost predicate ValidBut(leaving: Option<nat>)
      reads this, table
    {
      && table.Valid()
      && Listed(handles, lru, inUse) && Tabled(handles, table.view, leaving) && Referenced(handles, client)
      && Suited(handles, table.hashOf, capacity)
      && usage == Charges(handles, lru) + Charges(handles, inUse)
      && DeletedOnce(handles, deleted, made)
      && |content| == made && Carried(handles, content) && Current(table.view, latest)
      && (leaving.Some? ==> leaving.value in handles && handles[leaving.value].inCache)
    }

    ghost predicate Valid()
      reads this, table
    {
      ValidBut(None)
    }

    constructor (capacity: nat, hashOf: Key -> nat)
      ensures Valid() && fresh(table) && this.capacity == capacity && table.hashOf == hashOf
      ensures table.view == map[] && client == map[] && deleted == [] && content == [] && latest == map[]
    {
      this.capacity := capacity;
      table := new HandleTable(hashOf);
      usage, lru, inUse, handles, made, deleted, client := 0, [], [], map[], 0, [], map[];
      content, latest := [], map[];
    }

    /** Drops a reference: the last one gives the handle to its deleter, the last client's moves a cached
        handle to the end of the eviction order. */
    method Unref(e: nat)
      requires e in handles && handles[e].refs > 0 && (handles[e].refs == 1 ==> !handles[e].inCache)
      modifies this`handles, this`lru, this`inUse, this`deleted
      ensures handles == Unrefd(old(handles), e)
      ensures deleted == UnrefdDeleted(old(handles), old(deleted), e)
      ensures lru == UnrefdLru(old(handles), old(lru), e) && inUse == UnrefdInUse(old(handles), old(inUse), e)
    {
      handles := handles[e := handles[e].(refs := handles[e].refs - 1)];
      if handles[e].refs == 0 {
        deleted := deleted + [e];
        handles := handles - {e};
      } else if handles[e].inCache && handles[e].refs == 1 {
        LruRemove(e);
        lru := lru + [e];
      }
    }

    method LruRemove(e: nat)
      modifies this`lru, this`inUse
      ensures lru == Without(old(lru), e) && inUse == Without(old(inUse), e)
    {
      lru := Without(lru, e);
      inUse := Without(inUse, e);
    }

    method Ref(e: nat)
      requires e in handles
      modifies this`handles, this`lru, this`inUse
      ensures handles == Counted(old(handles), e, 1)
      ensures lru == RefdLru(old(handles), old(lru), e) && inUse == RefdInUse(old(handles), old(inUse), e)
    {
      if handles[e].refs == 1 && handles[e].inCache {
        LruRemove(e);
        inUse := inUse + [e];
      }
      handles := handles[e := handles[e].(refs := handles[e].refs + 1)];
    }

    /** Takes a handle out of its list, and drops the cache's reference to it. */
    method TakeOut(e: nat)
      requires e in handles && handles[e].inCache && handles[e].refs > 0 && usage >= handles[e].charge && e in client
      modifies this`handles, this`lru, this`inUse, this`usage, this`deleted, this`client
      ensures handles == Erased(old(handles), e)
      ensures lru == Without(old(lru), e) && inUse == Without(old(inUse), e) && usage == old(usage) - old(handles)[e].charge
      ensures deleted == UnrefdDeleted(old(handles), old(deleted), e) && client == ErasedClient(old(handles), old(client), e)
    {
      var h := handles[e];
      LruRemove(e);
      handles := handles[e := h.(inCache := false)];
      usage := usage - h.charge;
      Unref(e);
      if h.refs == 1 {
        client := client - {e};
      }
    }

    /** Finishes taking a handle out of the cache that is no longer in the table. */
    method FinishErase(e: Option<nat>) returns (erased: bool)
      requires ValidBut(e)
      modifies this`handles, this`lru, this`inUse, this`usage, this`deleted, this`client
      ensures Valid() && erased == e.Some?
      ensures e.None? ==> handles == old(handles) && lru == old(lru) && inUse == old(inUse) && usage == old(usage)
                          && deleted == old(deleted) && client == old(client)
      ensures e.Some? ==>
                var gone := old(client)[e.value] == 0;
                && handles == Erased(old(handles), e.value) && lru == Without(old(lru), e.value)
                && usage == old(usage) - old(handles)[e.value].charge
                && deleted == (if gone then old(deleted) + [e.value] else old(deleted))
                && client == if gone then old(client) - {e.value} else old(client)
    {
      erased := e.Some?;
      if erased {
        ErasedLists(handles, lru, inUse, e.value);
        ErasedTable(handles, table.view, e.value);
        ErasedReferences(handles, client, deleted, made, e.value);
        ErasedCarried(handles, content, table.hashOf, capacity, e.value);
        TakeOut(e.value);
      }
    }

    /** One more client holds the handle. */
    method Hold(e: nat)
      requires e in handles && e in client
      modifies this`handles, this`lru, this`inUse, this`client
      ensures handles == Counted(old(handles), e, 1) && client == HeldMore(old(client), e)
      ensures lru == RefdLru(old(handles), old(lru), e) && inUse == RefdInUse(old(handles), old(inUse), e)
    {
      Ref(e);
      client := client[e := client[e] + 1];
    }

    method HoldCached(e: nat)
      requires Valid() && e in handles && handles[e].inCache
      modifies this`handles, this`lru, this`inUse, this`client
      ensures Valid()
      ensures handles == Counted(old(handles), e, 1) && lru == Without(old(lru), e)
      ensures e in old(client) && client == HeldMore(old(client), e)
    {
      hide Listed, Tabled, Carried, Suited, Current, Charges, DeletedOnce, RefdLru, RefdInUse;
      RefLists(handles, lru, inUse, e);
      RefOthers(handles, table.view, client, deleted, made, e);
      CountedCarried(handles, content, table.hashOf, capacity, e);
      Hold(e);
    }

    /** The handle last made for the key, which carries the value last inserted under it, if it is still
        cached; it is now held by the caller too and safe from eviction. */
    method Lookup(key: Key, hash: nat) returns (r: Option<nat>)
      requires Valid() && hash == table.hashOf(key)
      modifies this`handles, this`lru, this`inUse, this`client
      ensures Valid()
      ensures r == if key in table.view then Some(table.view[key].id) else None
      ensures r.Some? ==> key in latest && r.value == latest[key] && r.value in handles
                          && handles[r.value].key == key && handles[r.value].value == content[r.value].value
      ensures r.None? ==> handles == old(handles) && client == old(client) && lru == old(lru)
      ensures r.Some? ==> r.value in old(client) && client == HeldMore(old(client), r.value) && lru == Without(old(lru), r.value)
      ensures r.Some? ==> handles == Counted(old(handles), r.value, 1)
    {
      var slot := table.Lookup(key, hash);
      r := None;
      if slot.Some? {
        r := Some(slot.value.id);
        HoldCached(slot.value.id);
      }
    }

    /** One client less holds the handle. */
    method GiveBack(e: nat)
      requires e in handles && handles[e].refs > 0 && (handles[e].refs == 1 ==> !handles[e].inCache)
      requires e in client && client[e] > 0
      modifies this`handles, this`lru, this`inUse, this`deleted, this`client
      ensures handles == Unrefd(old(handles), e)
      ensures deleted == UnrefdDeleted(old(handles), old(deleted), e) && client == UnrefdClient(old(handles), old(client), e)
      ensures lru == UnrefdLru(old(handles), old(lru), e) && inUse == UnrefdInUse(old(handles), old(inUse), e)
    {
      Unref(e);
      client := if e in handles then client[e := client[e] - 1] else client - {e};
    }

    method GiveBackHeld(e: nat)
      requires Valid() && e in client && client[e] > 0
      modifies this`handles, this`lru, this`inUse, this`deleted, this`client
      ensures Valid() && handles == Unrefd(old(handles), e)
      ensures lru == UnrefdLru(old(handles), old(lru), e) && Without(old(lru), e) == old(lru)
      ensures deleted == UnrefdDeleted(old(handles), old(deleted), e) && client == UnrefdClient(old(handles), old(client), e)
    {
      hide Listed, Tabled, DeletedOnce, Carried, Suited, Current, Charges;
      GiveBackKeeps(e);
      UnrefdCarried(handles, content, table.hashOf, capacity, e);
      GiveBack(e);
    }

    /** Gives a handle back. A cached one that nobody else holds becomes the last to be evicted; one that
        is no longer cached is deleted with its last holder. */
    method Release(e: nat)
      requires Valid() && e in client && client[e] > 0
      modifies this`handles, this`lru, this`inUse, this`deleted, this`client
      ensures Valid() && handles == Unrefd(old(handles), e)
      ensures var h, last := old(handles)[e], old(client)[e] == 1;
              && lru == (if h.inCache && last then old(lru) + [e] else old(lru))
              && deleted == (if !h.inCache && last then old(deleted) + [e] else old(deleted))
              && client == (if !h.inCache && last then old(client) - {e} else old(client)[e := old(client)[e] - 1])
    {
      GiveBackHeld(e);
    }

    lemma GiveBackKeeps(e: nat)
      requires Valid() && e in client && client[e] > 0
      ensures Without(lru, e) == lru && handles[e].refs >= (if handles[e].inCache then 2 else 1)
      ensures Listed(Unrefd(handles, e), UnrefdLru(handles, lru, e), UnrefdInUse(handles, inUse, e))
      ensures Tabled(Unrefd(handles, e), table.view, None)
      ensures Referenced(Unrefd(handles, e), UnrefdClient(handles, client, e))
      ensures DeletedOnce(Unrefd(handles, e), UnrefdDeleted(handles, deleted, e), made)
      ensures usage == Charges(Unrefd(handles, e), UnrefdLru(handles, lru, e)) + Charges(Unrefd(handles, e), UnrefdInUse(handles, inUse, e))
    {
      UnrefLists(handles, lru, inUse, e);
      UnrefOthers(handles, table.view, client, deleted, made, e);
    }

    /** The handle leaves the table, and with its last holder the cache. */
    method Erase(key: Key, hash: nat)
      requires Valid() && hash == table.hashOf(key)
      modifies this`handles, this`lru, this`inUse, this`usage, this`deleted, this`client, this`latest, table
      ensures Valid() && table.view == old(table.view) - {key} && latest == old(latest) - {key}
      ensures key !in old(table.view) ==> handles == old(handles) && lru == old(lru) && deleted == old(deleted) && client == old(client)
      ensures key in old(table.view) ==>
                var e := old(table.view)[key].id;
                var gone := old(client)[e] == 0;
                && handles == Erased(old(handles), e) && lru == Without(old(lru), e)
                && deleted == (if gone then old(deleted) + [e] else old(deleted))
                && client == if gone then old(client) - {e} else old(client)
    {
      var slot := table.Remove(key, hash);
      latest := latest - {key};
      var e := if slot.Some? then Some(slot.value.id) else None;
      var erased := FinishErase(e);
    }

    /** Evicts the handle that was given back longest ago. */
    method EvictOldest()
      requires Valid() && lru != []
      modifies this`handles, this`lru, this`inUse, this`usage, this`deleted, this`client, table
      ensures Valid() && lru == old(lru)[1..] && deleted == old(deleted) + [old(lru)[0]]
      ensures var e := old(lru)[0];
              e in old(handles) && handles == old(handles) - {e} && client == old(client) - {e} && table.view == old(table.view) - {old(handles)[e].key}
      ensures old(lru)[0] < |content| && usage == old(usage) - content[old(lru)[0]].charge
    {
      var e := lru[0];
      assert e in lru;
      var slot := table.Remove(handles[e].key, handles[e].hash);
      var erased := FinishErase(Some(e));
    }

    /** Evicts one more handle; `view0` and `held0` are of before the first one. */
    method EvictNext(ghost view0: map<Key, Slot>, ghost held0: map<nat, nat>, ghost evicted: seq<nat>)
      requires Valid() && lru != [] && OnlyEvicted(view0, table.view, held0, client, evicted)
      modifies this`handles, this`lru, this`inUse, this`usage, this`deleted, this`client, table
      ensures Valid() && lru == old(lru)[1..] && deleted == old(deleted) + [old(lru)[0]]
      ensures OnlyEvicted(view0, table.view, held0, client, evicted + [old(lru)[0]])
      ensures old(lru)[0] < |content| && usage == old(usage) - content[old(lru)[0]].charge
    {
      assert lru[0] in lru;
      EvictedMore(view0, table.view, held0, client, evicted, handles[lru[0]].key);
      EvictOldest();
    }

    /** Evicts handles nobody holds, the one given back longest ago first, until the cache is within its
        capacity or none is left. */
    method EvictToFit(ghost view0: map<Key, Slot>, ghost held0: map<nat, nat>) returns (ghost evicted: seq<nat>)
      requires Valid() && OnlyEvicted(view0, table.view, held0, client, [])
      modifies this`handles, this`lru, this`inUse, this`usage, this`deleted, this`client, table
      ensures Valid() && (usage <= capacity || lru == [])
      ensures evicted <= old(lru) && lru == old(lru)[|evicted|..] && deleted == old(deleted) + evicted
      ensures OnlyEvicted(view0, table.view, held0, client, evicted) && LastNeeded(evicted)
    {
      hide Listed, Tabled, Referenced, DeletedOnce, Carried, Suited, Current, Charges, OnlyEvicted;
      ghost var n := 0;
      while usage > capacity && lru != []
        invariant Valid() && n <= |old(lru)|
        invariant lru == old(lru)[n..] && deleted == old(deleted) + old(lru)[..n]
        invariant OnlyEvicted(view0, table.view, held0, client, old(lru)[..n]) && LastNeeded(old(lru)[..n])
        decreases |lru|
      {
        EvictNext(view0, held0, old(lru)[..n]);
        assert old(lru)[..n] + [old(lru)[n]] == old(lru)[..n + 1];
        n := n + 1;
      }
      evicted := old(lru)[..n];
    }

    /** Without the last eviction the cache would be over its capacity. */
    ghost predicate LastNeeded(evicted: seq<nat>)
      reads this
    {
      evicted != [] ==>
        var last := evicted[|evicted| - 1];
        last < |content| && usage + content[last].charge > capacity
    }

    /** The new handle, in the in-use list if it is to be cached. */
    method Make(h: Handle) returns (e: nat)
      requires Valid() && h.hash == table.hashOf(h.key) && h.inCache == (capacity > 0) && h.refs == if h.inCache then 2 else 1
      modifies this`handles, this`inUse, this`usage, this`client, this`made, this`content, this`latest
      ensures content == old(content) + [Item(h.key, h.hash, h.value, h.charge)] && latest == old(latest)[h.key := e]
      ensures |content| == made && Carried(handles, content)
      ensures e == old(made) && handles == old(handles)[e := h] && client == old(client)[e := 1] && made == e + 1
      ensures Listed(handles, lru, inUse) && Referenced(handles, client) && DeletedOnce(handles, deleted, made)
      ensures usage == Charges(handles, lru) + Charges(handles, inUse)
      ensures if h.inCache then Tabled(handles, table.view[h.key := Slot(e, h.key, h.hash)], Replaced(table.view, h.key))
              else Tabled(handles, table.view, None)
      ensures Suited(handles, table.hashOf, capacity)
    {
      hide Listed, Tabled, Referenced, Carried, Suited, Current, Charges, Replaced;
      e := made;
      MadeCarried(handles, content, table.hashOf, capacity, h);
      MadeLists(handles, lru, inUse, e, h);
      MadeOthers(handles, table.view, client, deleted, made, h);
      handles, client, made := handles[e := h], client[e := 1], made + 1;
      content, latest := content + [Item(h.key, h.hash, h.value, h.charge)], latest[h.key := e];
      if h.inCache {
        inUse := inUse + [e];
        usage := usage + h.charge;
      }
    }

    /** Puts the handle, made already, into the table and takes the one it replaces out of the cache. */
    method Place(ghost before: map<Key, Slot>, e: nat, key: Key, hash: nat)
      requires table.Valid() && before == table.view && hash == table.hashOf(key)
      requires Listed(handles, lru, inUse) && Tabled(handles, before[key := Slot(e, key, hash)], Replaced(before, key))
      requires Referenced(handles, client) && DeletedOnce(handles, deleted, made) && usage == Charges(handles, lru) + Charges(handles, inUse)
      requires Suited(handles, table.hashOf, capacity)
      requires key in before ==> before[key].id in handles && handles[before[key].id].inCache
      requires |content| == made && Carried(handles, content) && Current(before[key := Slot(e, key, hash)], latest)
      modifies this`handles, this`lru, this`inUse, this`usage, this`deleted, this`client, table
      ensures Valid() && table.view == before[key := Slot(e, key, hash)]
      ensures lru == if key in before then Without(old(lru), before[key].id) else old(lru)
      ensures deleted == old(deleted) + if key in before && old(client)[before[key].id] == 0 then [before[key].id] else []
      ensures OnlyEvicted(before[key := Slot(e, key, hash)], table.view, old(client), client, [])
    {
      var replaced := table.Insert(Slot(e, key, hash));
      var leaving := if replaced.Some? then Some(replaced.value.id) else None;
      assert leaving == Replaced(before, key);
      DroppedUnheld(table.view, client, leaving);
      var erased := FinishErase(leaving);
    }

    /** Makes the handle, and if the cache has any capacity caches it in place of one with the same key. */
    method Add(key: Key, hash: nat, value: nat, charge: nat) returns (e: nat)
      requires Valid() && hash == table.hashOf(key)
      modifies this`handles, this`lru, this`inUse, this`usage, this`deleted, this`client, this`made, this`content, this`latest, table
      ensures content == old(content) + [Item(key, hash, value, charge)] && latest == old(latest)[key := e]
      ensures Valid() && e == old(made) && made == e + 1
      ensures OnlyEvicted(Cached(capacity, old(table.view), key, Slot(e, key, hash)), table.view, old(client)[e := 1], client, [])
      ensures lru == WithoutReplaced(capacity, old(table.view), key, old(lru))
      ensures deleted == old(deleted) + ReplacedUnheld(capacity, old(table.view), old(client), key)
    {
      hide Listed, DeletedOnce, Carried, Suited, Charges;
      CurrentPlaced(handles, table.view, latest, client, key, Slot(made, key, hash));
      e := Make(Handle(key, hash, value, charge, capacity > 0, if capacity > 0 then 2 else 1));
      if capacity > 0 {
        Place(table.view, e, key, hash);
      } else {
        NothingCached(handles, table.view, table.hashOf);
        NothingCurrent(table.view, latest);
        NothingEvicted(table.view, client);
      }
    }

    /** Caches a value and hands it to the caller; then the cache is within its capacity, or all that is
        left in it is held by clients. */
    method Insert(key: Key, hash: nat, value: nat, charge: nat) returns (e: nat, ghost evicted: seq<nat>)
      requires Valid() && hash == table.hashOf(key)
      modifies this`handles, this`lru, this`inUse, this`usage, this`deleted, this`client, this`made, this`content, this`latest, table
      ensures content == old(content) + [Item(key, hash, value, charge)] && latest == old(latest)[key := e]
      ensures Valid() && e == old(made) && made == e + 1
      ensures (usage <= capacity || lru == []) && LastNeeded(evicted)
      ensures OnlyEvicted(Cached(capacity, old(table.view), key, Slot(e, key, hash)), table.view, old(client)[e := 1], client, evicted)
      ensures var kept := WithoutReplaced(capacity, old(table.view), key, old(lru)); evicted <= kept && lru == kept[|evicted|..]
      ensures deleted == old(deleted) + ReplacedUnheld(capacity, old(table.view), old(client), key) + evicted
      ensures e in handles && handles[e].key == key && handles[e].value == value && handles[e].charge == charge
    {
      hide Listed, DeletedOnce, Suited, Current, Charges;
      e := Add(key, hash, value, charge);
      evicted := EvictToFit(Cached(capacity, old(table.view), key, Slot(e, key, hash)), old(client)[e := 1]);
    }

    /** Evicts all handles nobody holds, in order. */
    method Prune()
      requires Valid()
      modifies this`handles, this`lru, this`inUse, this`usage, this`deleted, this`client, table
      ensures Valid() && lru == [] && deleted == old(deleted) + old(lru)
      ensures OnlyEvicted(old(table.view), table.view, old(client), client, old(lru))
    {
      ghost var n := 0;
      while lru != []
        invariant Valid() && n <= |old(lru)|
        invariant lru == old(lru)[n..] && deleted == old(deleted) + old(lru)[..n]
        invariant OnlyEvicted(old(table.view), table.view, old(client), client, old(lru)[..n])
        decreases |lru|
      {
        EvictNext(old(table.view), old(client), old(lru)[..n]);
        assert old(lru)[..n] + [old(lru)[n]] == old(lru)[..n + 1];
        n := n + 1;
      }
      assert old(lru)[..n] == old(lru);
    }
  }
}
