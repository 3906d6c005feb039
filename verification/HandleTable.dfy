/** The cache's own hash table (util/cache.cc): chained buckets, doubled when there are more entries than
    buckets. The hash is any function of the key; the number of buckets is a power of two, so that
    masking the hash is taking its remainder. */
module HandleTable {
  import opened Options

  type Key = string

  /** A table entry: which handle it leads to, and the handle's key and hash. */
  datatype Slot = Slot(id: nat, key: Key, hash: nat)

  /** The bucket of a key. */
  function Bucket(list: seq<seq<Slot>>, hashOf: Key -> nat, key: Key): (b: nat)
    requires |list| > 0
    ensures b < |list|
  {
    hashOf(key) % |list|
  }

  /** The slot of each key, in a table without two slots for one key. */
  ghost predicate ViewOf(list: seq<seq<Slot>>, view: map<Key, Slot>, hashOf: Key -> nat) {
    && |list| > 0
    && (forall b, i {:trigger list[b][i]} :: 0 <= b < |list| && 0 <= i < |list[b]| ==>
          var s := list[b][i]; s.hash == hashOf(s.key) && b == s.hash % |list| && s.key in view && view[s.key] == s)
    && (forall b, i, j {:trigger list[b][i], list[b][j]} :: 0 <= b < |list| && 0 <= i < j < |list[b]| ==> list[b][i] != list[b][j])
    && (forall k :: k in view ==> view[k].key == k)
    && (forall k {:trigger Bucket(list, hashOf, k)} :: k in view ==> view[k] in list[Bucket(list, hashOf, k)])
  }

  /** How many entries there are. */
  function Total(list: seq<seq<Slot>>): nat {
    if list == [] then 0 else Total(list[..|list| - 1]) + |list[|list| - 1]|
  }

  lemma {:induction false} TotalUpdate(list: seq<seq<Slot>>, b: nat, c: seq<Slot>)
    requires b < |list|
    ensures Total(list[b := c]) == Total(list) - |list[b]| + |c|
  {
    var init := list[..|list| - 1];
    if b < |init| {
      TotalUpdate(init, b, c);
      assert list[b := c][..|list| - 1] == init[b := c];
    } else {
      assert list[b := c][..|list| - 1] == init;
    }
  }

  lemma {:induction false} TotalEmpty(list: seq<seq<Slot>>)
    requires forall b :: 0 <= b < |list| ==> list[b] == []
    ensures Total(list) == 0
  {
    if list != [] {
      TotalEmpty(list[..|list| - 1]);
    }
  }

  /** Changing what a bucket holds at its end, or in one place. */
  lemma ViewInsert(list: seq<seq<Slot>>, view: map<Key, Slot>, hashOf: Key -> nat, b: nat, i: nat, s: Slot)
    requires ViewOf(list, view, hashOf) && s.hash == hashOf(s.key) && b == s.hash % |list|
    requires i <= |list[b]|
    requires if i < |list[b]| then list[b][i].key == s.key else s.key !in view
    ensures var chain := list[b][..i] + [s] + (if i < |list[b]| then list[b][i + 1..] else []);
            ViewOf(list[b := chain], view[s.key := s], hashOf)
  {
    var chain := list[b][..i] + [s] + (if i < |list[b]| then list[b][i + 1..] else []);
    var list', view' := list[b := chain], view[s.key := s];
    forall k | k in view' ensures view'[k].key == k && view'[k] in list'[Bucket(list', hashOf, k)] {
      assert Bucket(list, hashOf, k) == Bucket(list', hashOf, k);
      if k == s.key {
        assert chain[i] == s;
      } else if Bucket(list, hashOf, k) == b {
        var j :| 0 <= j < |list[b]| && list[b][j] == view[k];
        assert chain[j] == view[k];
      }
    }
  }

  /** Entry `j` of a chain without its entry `i`. */
  lemma WithoutAt(chain: seq<Slot>, i: nat, j: nat)
    requires i < |chain| && j + 1 < |chain|
    ensures (chain[..i] + chain[i + 1..])[j] == chain[if j < i then j else j + 1]
  {
  }

  lemma RemovedSlots(list: seq<seq<Slot>>, view: map<Key, Slot>, hashOf: Key -> nat, b: nat, i: nat, j: nat)
    requires ViewOf(list, view, hashOf) && b < |list| && i < |list[b]| && j + 1 < |list[b]|
    ensures var x := (list[b][..i] + list[b][i + 1..])[j];
            x.hash == hashOf(x.key) && b == x.hash % |list| && x.key != list[b][i].key && x.key in view && view[x.key] == x
  {
    WithoutAt(list[b], i, j);
    var j' := if j < i then j else j + 1;
    var x := list[b][j'];
    if j' < i {
      assert list[b][j'] != list[b][i];
    } else {
      assert list[b][i] != list[b][j'];
    }
  }

  lemma RemovedDistinct(chain: seq<Slot>, i: nat, j: nat, l: nat)
    requires forall j, l {:trigger chain[j], chain[l]} :: 0 <= j < l < |chain| ==> chain[j] != chain[l]
    requires i < |chain| && j < l && l + 1 < |chain|
    ensures (chain[..i] + chain[i + 1..])[j] != (chain[..i] + chain[i + 1..])[l]
  {
    WithoutAt(chain, i, j);
    WithoutAt(chain, i, l);
  }

  lemma RemovedKeys(list: seq<seq<Slot>>, view: map<Key, Slot>, hashOf: Key -> nat, b: nat, i: nat, k: Key)
    requires ViewOf(list, view, hashOf) && b < |list| && i < |list[b]| && k in view && k != list[b][i].key
    requires Bucket(list, hashOf, k) == b
    ensures view[k] in list[b][..i] + list[b][i + 1..]
  {
    var j :| 0 <= j < |list[b]| && list[b][j] == view[k];
    if j < i {
      WithoutAt(list[b], i, j);
    } else {
      WithoutAt(list[b], i, j - 1);
    }
  }

  lemma ViewRemove(list: seq<seq<Slot>>, view: map<Key, Slot>, hashOf: Key -> nat, b: nat, i: nat)
    requires ViewOf(list, view, hashOf) && b < |list| && i < |list[b]|
    ensures ViewOf(list[b := list[b][..i] + list[b][i + 1..]], view - {list[b][i].key}, hashOf)
  {
    var chain := list[b][..i] + list[b][i + 1..];
    var list': seq<seq<Slot>>, view': map<Key, Slot> := list[b := chain], view - {list[b][i].key};
    forall b': nat, j: nat {:trigger list'[b'][j]} | 0 <= b' < |list'| && 0 <= j < |list'[b']|
      ensures var x := list'[b'][j]; x.hash == hashOf(x.key) && b' == x.hash % |list'| && x.key in view' && view'[x.key] == x
    {
      if b' == b {
        RemovedSlots(list, view, hashOf, b, i, j);
      } else {
        assert list'[b'][j] == list[b'][j];
        var x := list[b'][j];
        assert list[b][i].hash % |list| == b;
      }
    }
    forall b': nat, j: nat, l: nat {:trigger list'[b'][j], list'[b'][l]} | 0 <= b' < |list'| && 0 <= j < l < |list'[b']|
      ensures list'[b'][j] != list'[b'][l]
    {
      if b' == b {
        RemovedDistinct(list[b], i, j, l);
      } else {
        assert list[b'][j] != list[b'][l];
      }
    }
    forall k | k in view' ensures view'[k].key == k && view'[k] in list'[Bucket(list', hashOf, k)] {
      assert Bucket(list, hashOf, k) == Bucket(list', hashOf, k);
      if Bucket(list, hashOf, k) == b {
        RemovedKeys(list, view, hashOf, b, i, k);
      }
    }
  }

  predicate PowerOfTwo(n: nat) {
    n == 1 || (n > 1 && n % 2 == 0 && PowerOfTwo(n / 2))
  }

  /** As many buckets as entries at least, and a power of two of them, so that masking the hash is taking it modulo
      their number. */
  predicate WellSized(length: nat, elems: nat) {
    length >= 4 && PowerOfTwo(length) && elems <= length
  }

  class HandleTable {
    const hashOf: Key -> nat
    var length: nat
    var elems: nat
    var list: seq<seq<Slot>>
    ghost var view: map<Key, Slot>

    ghost predicate Valid()
      reads this
    {
      length == |list| && elems == Total(list) && ViewOf(list, view, hashOf) && WellSized(length, elems)
    }

    constructor (hashOf: Key -> nat)
      ensures Valid() && this.hashOf == hashOf && view == map[]
    {
      this.hashOf := hashOf;
      length, elems, list, view := 0, 0, [], map[];
      new;
      Resize();
    }

    /** The place of the key's slot, or the end of the chain it would be in. */
    method FindPointer(key: Key, hash: nat) returns (b: nat, i: nat)
      requires Valid() && hash == hashOf(key)
      ensures b == hash % |list| && i <= |list[b]|
      ensures key in view ==> i < |list[b]| && list[b][i] == view[key]
      ensures key !in view ==> i == |list[b]|
    {
      b := hash % length;
      assert b == Bucket(list, hashOf, key);
      i := 0;
      while i < |list[b]| && (list[b][i].hash != hash || list[b][i].key != key)
        invariant i <= |list[b]|
        invariant forall j :: 0 <= j < i ==> list[b][j].key != key
      {
        i := i + 1;
      }
    }

    method Lookup(key: Key, hash: nat) returns (r: Option<Slot>)
      requires Valid() && hash == hashOf(key)
      ensures r == if key in view then Some(view[key]) else None
    {
      var b, i := FindPointer(key, hash);
      r := if i < |list[b]| then Some(list[b][i]) else None;
    }

    method Insert(s: Slot) returns (r: Option<Slot>)
      requires Valid() && s.hash == hashOf(s.key)
      modifies this
      ensures Valid() && view == old(view)[s.key := s]
      ensures r == if s.key in old(view) then Some(old(view)[s.key]) else None
    {
      var b, i := FindPointer(s.key, s.hash);
      ViewInsert(list, view, hashOf, b, i, s);
      var chain;
      if i < |list[b]| {
        r := Some(list[b][i]);
        chain := list[b][..i] + [s] + list[b][i + 1..];
      } else {
        r := None;
        chain := list[b][..i] + [s];
        assert chain == list[b][..i] + [s] + [];
      }
      TotalUpdate(list, b, chain);
      list, view := list[b := chain], view[s.key := s];
      if r.None? {
        elems := elems + 1;
        if elems > length {
          Resize();
        }
      }
    }

    method Remove(key: Key, hash: nat) returns (r: Option<Slot>)
      requires Valid() && hash == hashOf(key)
      modifies this
      ensures Valid() && view == old(view) - {key}
      ensures r == if key in old(view) then Some(old(view)[key]) else None
    {
      var b, i := FindPointer(key, hash);
      r := None;
      if i < |list[b]| {
        r := Some(list[b][i]);
        ViewRemove(list, view, hashOf, b, i);
        var chain := list[b][..i] + list[b][i + 1..];
        TotalUpdate(list, b, chain);
        list, view := list[b := chain], view - {key};
        elems := elems - 1;
      } else {
        assert view - {key} == view;
      }
    }

    /** Moves all entries into a table of at least as many buckets. */
    method Resize()
      requires length == |list| && elems == Total(list)
      requires if length == 0 then view == map[] else ViewOf(list, view, hashOf)
      modifies this
      ensures Valid() && view == old(view)
    {
      var newLength := 4;
      while newLength < elems
        decreases elems - newLength
        invariant newLength >= 4 && PowerOfTwo(newLength)
      {
        newLength := newLength * 2;
      }
      var newList := seq(newLength, i => []);
      var moved: nat := 0;
      TotalEmpty(newList);
      ghost var done: map<Key, Slot> := map[];
      assert list[..0] == [];
      for b := 0 to length
        invariant list == old(list) && length == old(length) && elems == old(elems) && view == old(view)
        invariant |newList| == newLength && ViewOf(newList, done, hashOf) && Total(newList) == moved == Total(list[..b])
        invariant forall k :: k in done <==> k in view && |list| > 0 && Bucket(list, hashOf, k) < b
        invariant forall k :: k in done ==> done[k] == view[k]
      {
        newList, moved, done := MoveChain(b, newList, moved, done);
        assert list[..b + 1][..b] == list[..b];
      }
      assert list[..length] == list;
      assert done == view;
      list, length := newList, newLength;
    }

    /** Moves one chain, entry by entry, to the front of the new chains. */
    method MoveChain(b: nat, newList0: seq<seq<Slot>>, moved0: nat, ghost done0: map<Key, Slot>)
        returns (newList: seq<seq<Slot>>, moved: nat, ghost done: map<Key, Slot>)
      requires b < |list| && ViewOf(list, view, hashOf)
      requires ViewOf(newList0, done0, hashOf) && Total(newList0) == moved0
      requires forall k :: k in done0 <==> k in view && Bucket(list, hashOf, k) < b
      requires forall k :: k in done0 ==> done0[k] == view[k]
      ensures |newList| == |newList0| && ViewOf(newList, done, hashOf) && Total(newList) == moved == moved0 + |list[b]|
      ensures forall k :: k in done <==> k in view && Bucket(list, hashOf, k) < b + 1
      ensures forall k :: k in done ==> done[k] == view[k]
    {
      newList, moved, done := newList0, moved0, done0;
      for i := 0 to |list[b]|
        invariant |newList| == |newList0| && ViewOf(newList, done, hashOf) && Total(newList) == moved == moved0 + i
        invariant forall k :: k in done <==> k in done0 || exists j :: 0 <= j < i && list[b][j].key == k
        invariant forall k :: k in done ==> k in view && done[k] == view[k]
      {
        var h := list[b][i];
        var to := h.hash % |newList|;
        forall j | 0 <= j < i ensures list[b][j].key != h.key {
          assert list[b][j] != list[b][i];
        }
        ViewPush(newList, done, hashOf, h);
        TotalUpdate(newList, to, [h] + newList[to]);
        newList, moved, done := newList[to := [h] + newList[to]], moved + 1, done[h.key := h];
      }
    }
  }

  lemma ViewPush(list: seq<seq<Slot>>, view: map<Key, Slot>, hashOf: Key -> nat, s: Slot)
    requires ViewOf(list, view, hashOf) && s.hash == hashOf(s.key) && s.key !in view
    ensures var b := s.hash % |list|; ViewOf(list[b := [s] + list[b]], view[s.key := s], hashOf)
  {
    var b := s.hash % |list|;
    var chain := [s] + list[b];
    var list', view' := list[b := chain], view[s.key := s];
    forall k | k in view' ensures view'[k].key == k && view'[k] in list'[Bucket(list', hashOf, k)] {
      assert Bucket(list, hashOf, k) == Bucket(list', hashOf, k);
      if k == s.key {
        assert chain[0] == s;
      } else if Bucket(list, hashOf, k) == b {
        var j :| 0 <= j < |list[b]| && list[b][j] == view[k];
        assert chain[j + 1] == view[k];
      }
    }
  }
}
