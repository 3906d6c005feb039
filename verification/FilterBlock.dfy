/** The filter block of a table: one filter for the keys of the blocks that start in each two kilobytes
    (table/filter_block.cc). */
module FilterBlock {
  import opened Coding
  import opened BlockLayout
  import Block
  import BlockBuilder

  const FILTER_BASE_LG := 11

  const FILTER_BASE := 2048

  /** A filter policy; `user` tells which keys it does not tell apart. */
  datatype FilterPolicy = FilterPolicy(create: seq<Bytes> -> Bytes, mayMatch: (Bytes, Bytes) -> bool)
  {
    /** No false negatives: a key matches the filter of keys one of which has the same user key. */
    ghost predicate Good(user: Bytes -> Bytes) {
      forall keys, e, k {:trigger e in keys, mayMatch(k, create(keys))} ::
        e in keys && user(e) == user(k) ==> mayMatch(k, create(keys))
    }
  }

  /** An empty group of keys has an empty filter. */
  function FilterOf(policy: FilterPolicy, keys: seq<Bytes>): Bytes {
    if keys == [] then [] else policy.create(keys)
  }

  function Filters(policy: FilterPolicy, groups: seq<seq<Bytes>>): (r: seq<Bytes>)
    ensures |r| == |groups|
  {
    seq(|groups|, i requires 0 <= i < |groups| => FilterOf(policy, groups[i]))
  }

  /** Where the cells start. */
  function StartsOf(cells: seq<Bytes>): (r: seq<nat>)
    ensures |r| == |cells|
  {
    seq(|cells|, i requires i >= 0 => Offset(cells, i))
  }

  /** The filters, where they start, where that list starts, and the logarithm of the base. */
  function Contents(cells: seq<Bytes>): Bytes {
    Flat(cells) + Words(StartsOf(cells) + [|Flat(cells)|]) + [FILTER_BASE_LG]
  }

  /** The key is, or will be, in the filter of this index. */
  ghost predicate InFilter(groups: seq<seq<Bytes>>, pending: seq<Bytes>, index: nat, key: Bytes) {
    (index < |groups| && key in groups[index]) || (index == |groups| && key in pending)
  }

  ghost predicate Extends(groups: seq<seq<Bytes>>, pending: seq<Bytes>, groups': seq<seq<Bytes>>, pending': seq<Bytes>) {
    forall index, key :: InFilter(groups, pending, index, key) ==> InFilter(groups', pending', index, key)
  }

  lemma ExtendsChain(g: seq<seq<Bytes>>, p: seq<Bytes>, g': seq<seq<Bytes>>, p': seq<Bytes>, g'': seq<seq<Bytes>>, p'': seq<Bytes>)
    requires Extends(g, p, g', p') && Extends(g', p', g'', p'')
    ensures Extends(g, p, g'', p'')
  {
  }

  lemma StartsGrow(cells: seq<Bytes>, c: Bytes)
    ensures StartsOf(cells + [c]) == StartsOf(cells) + [|Flat(cells)|]
    ensures Flat(cells + [c]) == Flat(cells) + c
  {
    FlatAdded(cells, c);
    forall i | 0 <= i <= |cells| ensures Offset(cells + [c], i) == Offset(cells, i) {
      assert (cells + [c])[..i] == cells[..i];
    }
    assert cells[..|cells|] == cells;
  }

  lemma FiltersGrow(policy: FilterPolicy, groups: seq<seq<Bytes>>, g: seq<Bytes>)
    ensures Filters(policy, groups + [g]) == Filters(policy, groups) + [FilterOf(policy, g)]
  {
  }

  lemma CellSlice(cells: seq<Bytes>, i: nat)
    requires i < |cells|
    ensures Offset(cells, i) <= Offset(cells, i + 1) <= |Flat(cells)|
    ensures Flat(cells)[Offset(cells, i)..Offset(cells, i + 1)] == cells[i]
  {
    CellLies(cells, i);
    assert Flat(cells)[Offset(cells, i)..Offset(cells, i + 1)] == Flat(cells)[Offset(cells, i)..][..|cells[i]|];
  }

  lemma WordsPlusOne(ws: seq<nat>, w: nat)
    ensures Words(ws + [w]) == Words(ws) + EncodeFixed32(w % TWO32)
  {
    assert (ws + [w])[..|ws|] == ws;
  }

  method PutOffsets(d: Bytes, offsets: seq<nat>, arrayOffset: nat) returns (r: Bytes)
    ensures r == d + Words(offsets + [arrayOffset])
  {
    WordsPlusOne(offsets, arrayOffset);
    r := BlockBuilder.PutWords(d, offsets);
    r := r + EncodeFixed32(arrayOffset % TWO32);
  }

  /** A builder at one moment. */
  datatype Progress = Progress(keys: Bytes, start: seq<nat>, result: Bytes, filterOffsets: seq<nat>, pending: seq<Bytes>,
                               groups: seq<seq<Bytes>>)

  datatype ProgressPart = PendingKeys | Finished

  ghost predicate PartKept(policy: FilterPolicy, s: Progress, part: ProgressPart) {
    match part
    case PendingKeys => s.keys == Flat(s.pending) && s.start == StartsOf(s.pending)
    case Finished => s.result == Flat(Filters(policy, s.groups)) && s.filterOffsets == StartsOf(Filters(policy, s.groups))
  }

  /** The pending keys one after the other, and the filters of the groups made. */
  ghost predicate Kept(policy: FilterPolicy, s: Progress) {
    forall part {:trigger PartKept(policy, s, part)} :: PartKept(policy, s, part)
  }

  lemma KeptParts(policy: FilterPolicy, s: Progress)
    requires Kept(policy, s)
    ensures s.keys == Flat(s.pending) && s.start == StartsOf(s.pending)
    ensures s.result == Flat(Filters(policy, s.groups)) && s.filterOffsets == StartsOf(Filters(policy, s.groups))
  {
    assert PartKept(policy, s, PendingKeys) && PartKept(policy, s, Finished);
  }

  lemma KeptFrom(policy: FilterPolicy, s: Progress)
    requires s.keys == Flat(s.pending) && s.start == StartsOf(s.pending)
    requires s.result == Flat(Filters(policy, s.groups)) && s.filterOffsets == StartsOf(Filters(policy, s.groups))
    ensures Kept(policy, s)
  {
    forall part ensures PartKept(policy, s, part) {
      match part
      case _ =>
    }
  }

  class Builder {
    const policy: FilterPolicy
    var keys: Bytes            // the keys of the current filter, one after the other
    var start: seq<nat>        // where each of them starts
    var result: Bytes          // the filters so far
    var filterOffsets: seq<nat>
    ghost var pending: seq<Bytes>
    ghost var groups: seq<seq<Bytes>>

    ghost predicate Valid()
      reads this
    {
      Kept(policy, Now())
    }

    ghost function Now(): Progress
      reads this
    {
      Progress(keys, start, result, filterOffsets, pending, groups)
    }

    constructor (policy: FilterPolicy)
      ensures Valid() && groups == [] && pending == [] && this.policy == policy
    {
      KeptFrom(policy, Progress([], [], [], [], [], []));
      this.policy := policy;
      keys, start, result, filterOffsets, pending, groups := [], [], [], [], [], [];
    }

    /** Starts a block: filters are made up to the one the block's offset falls to. */
    method StartBlock(blockOffset: nat)
      requires Valid() && blockOffset / FILTER_BASE >= |groups|
      modifies this
      ensures Valid() && |groups| == blockOffset / FILTER_BASE
      ensures Extends(old(groups), old(pending), groups, pending)
      ensures |old(groups)| == blockOffset / FILTER_BASE ==> groups == old(groups) && pending == old(pending)
    {
      var filterIndex := blockOffset / FILTER_BASE;
      KeptParts(policy, Now());
      while filterIndex > |filterOffsets|
        invariant Valid() && |filterOffsets| == |groups| <= filterIndex
        invariant |old(groups)| == filterIndex ==> groups == old(groups) && pending == old(pending)
        invariant Extends(old(groups), old(pending), groups, pending)
        decreases filterIndex - |filterOffsets|
      {
        ghost var g, p := groups, pending;
        GenerateFilter();
        KeptParts(policy, Now());
        ExtendsChain(old(groups), old(pending), g, p, groups, pending);
      }
    }

    method AddKey(key: Bytes)
      requires Valid()
      modifies this
      ensures Valid() && groups == old(groups) && pending == old(pending) + [key]
      ensures Extends(old(groups), old(pending), groups, pending) && InFilter(groups, pending, |groups|, key)
    {
      KeptParts(policy, Now());
      StartsGrow(pending, key);
      start := start + [|keys|];
      keys := keys + key;
      pending := pending + [key];
      KeptFrom(policy, Now());
    }

    /** The keys apart again. */
    method PendingKeys() returns (list: seq<Bytes>)
      requires Valid()
      ensures list == pending
    {
      KeptParts(policy, Now());
      var ends := start + [|keys|];
      list := [];
      for i := 0 to |start|
        invariant list == pending[..i]
      {
        CellSlice(pending, i);
        assert i + 1 < |start| ==> ends[i + 1] == Offset(pending, i + 1);
        assert pending[..|pending|] == pending;
        list := list + [keys[ends[i]..ends[i + 1]]];
      }
    }

    /** One more filter, of the pending keys. */
    method GenerateFilter()
      requires Valid()
      modifies this
      ensures Valid() && groups == old(groups) + [old(pending)] && pending == []
      ensures Extends(old(groups), old(pending), groups, pending)
    {
      KeptParts(policy, Now());
      FiltersGrow(policy, groups, pending);
      StartsGrow(Filters(policy, groups), FilterOf(policy, pending));
      var list := PendingKeys();
      groups, pending := groups + [pending], [];
      filterOffsets := filterOffsets + [|result|];
      if |list| == 0 {
        assert result + [] == result;  // no keys for this filter
        KeptFrom(policy, Now());
        return;
      }
      result := result + policy.create(list);
      keys, start := [], [];
      KeptFrom(policy, Now());
    }

    method Finish() returns (contents: Bytes)
      requires Valid()
      modifies this
      ensures contents == Contents(Filters(policy, groups)) && pending == []
      ensures Extends(old(groups), old(pending), groups, pending)
    {
      KeptParts(policy, Now());
      if |start| != 0 {
        GenerateFilter();
        KeptParts(policy, Now());
      }
      ghost var cells := Filters(policy, groups);
      var arrayOffset := |result|;
      result := PutOffsets(result, filterOffsets, arrayOffset);
      result := result + [FILTER_BASE_LG];
      contents := result;
      assert contents == Contents(cells);
    }
  }

  // ----- reading -----

  /** What the reader relies on: the list of offsets, with the end of the last filter, behind the filters. */
  ghost predicate Readable(contents: Bytes, cells: seq<Bytes>) {
    var at, n := |Flat(cells)|, |cells|;
    && |contents| == at + 4 * (n + 1) + 1 && contents[|contents| - 1] == FILTER_BASE_LG
    && contents[..at] == Flat(cells)
    && forall i :: 0 <= i <= n ==> OffsetStored(contents, cells, i)
  }

  ghost predicate OffsetStored(contents: Bytes, cells: seq<Bytes>, i: nat) {
    var at := |Flat(cells)| + 4 * i;
    at + 4 <= |contents| && DecodeFixed32(contents[at..at + 4]) == Offset(cells, i)
  }

  lemma StartIs(cells: seq<Bytes>, i: nat)
    requires i <= |cells|
    ensures (StartsOf(cells) + [|Flat(cells)|])[i] == Offset(cells, i) <= |Flat(cells)|
  {
    assert cells[..|cells|] == cells;
    FlatGrows(cells, i, |cells|);
  }

  lemma StartStored(cells: seq<Bytes>, i: nat, words: Bytes)
    requires i <= |cells| && |Flat(cells)| < TWO32 && words == Words(StartsOf(cells) + [|Flat(cells)|])
    ensures 4 * i + 4 <= |words| && DecodeFixed32(words[4 * i..4 * i + 4]) == Offset(cells, i)
  {
    StartIs(cells, i);
    Block.WordRead(StartsOf(cells) + [|Flat(cells)|], i);
  }

  lemma OffsetRead(cells: seq<Bytes>, i: nat, words: Bytes, contents: Bytes)
    requires 4 * i + 4 <= |words| && DecodeFixed32(words[4 * i..4 * i + 4]) == Offset(cells, i)
    requires contents == Flat(cells) + words + [FILTER_BASE_LG]
    ensures OffsetStored(contents, cells, i)
  {
    Block.WordMoved(Flat(cells), words, [FILTER_BASE_LG], i);
  }

  lemma ContentsReadable(cells: seq<Bytes>)
    requires |Contents(cells)| < TWO32
    ensures Readable(Contents(cells), cells)
  {
    var contents := Contents(cells);
    assert |Words(StartsOf(cells) + [|Flat(cells)|])| == 4 * (|cells| + 1);
    forall i | 0 <= i <= |cells| ensures OffsetStored(contents, cells, i) {
      StartStored(cells, i, Words(StartsOf(cells) + [|Flat(cells)|]));
      OffsetRead(cells, i, Words(StartsOf(cells) + [|Flat(cells)|]), contents);
    }
    assert contents[..|Flat(cells)|] == Flat(cells);
  }

  class Reader {
    const policy: FilterPolicy
    const data: Bytes
    var usable: bool   // false if the contents are too short or do not fit together
    var offset: nat    // where the list of offsets starts
    var num: nat       // how many filters there are
    var baseLg: nat

    constructor (policy: FilterPolicy, contents: Bytes)
      ensures this.policy == policy && data == contents && Valid()
      ensures forall cells :: Readable(contents, cells) ==> Holds(cells)
    {
      this.policy, data := policy, contents;
      usable, offset, num, baseLg := false, 0, 0, 0;
      new;
      var n := |contents|;
      if n >= 5 {
        baseLg := contents[n - 1];
        var lastWord := DecodeFixed32(contents[n - 5..n - 1]);
        if lastWord <= n - 5 {
          usable, offset, num := true, lastWord, (n - 5 - lastWord) / 4;
        }
      }
      forall cells | Readable(contents, cells)
        ensures Holds(cells)
      {
        assert OffsetStored(contents, cells, |cells|);
        assert cells[..|cells|] == cells;
      }
    }

    predicate Valid()
      reads this
    {
      usable ==> offset + 4 * num + 5 <= |data|
    }

    /** The reader is on these filters. */
    ghost predicate Holds(cells: seq<Bytes>)
      reads this
    {
      Readable(data, cells) && usable && offset == |Flat(cells)| && num == |cells| && baseLg == FILTER_BASE_LG
    }

    /** The filter of this index, or none if the offsets do not fit together. */
    method FilterAt(index: nat, ghost cells: seq<Bytes>) returns (ok: bool, filter: Bytes, empty: bool)
      requires Valid() && usable && index < num
      ensures Holds(cells) ==> ok && filter == cells[index]
    {
      var at := offset + index * 4;
      var start, limit := DecodeFixed32(data[at..at + 4]), DecodeFixed32(data[at + 4..at + 8]);
      ok, filter, empty := start <= limit && limit <= offset, [], start == limit;
      if ok {
        filter := data[start..limit];
      }
      if Holds(cells) {
        FilterRead(data, cells, index);
      }
    }

    /** Whether the filter of the block's two kilobytes may have the key. Errors count as matches. */
    method KeyMayMatch(blockOffset: nat, key: Bytes, ghost cells: seq<Bytes>) returns (r: bool)
      requires Valid()
      ensures Holds(cells) ==>
                (r <==> blockOffset / FILTER_BASE >= |cells| || policy.mayMatch(key, cells[blockOffset / FILTER_BASE]))
    {
      BaseIsPower();
      var index := blockOffset / Pow2(baseLg);
      if !usable || index >= num {
        return true;
      }
      var ok, filter, empty := FilterAt(index, cells);
      if ok {
        return policy.mayMatch(key, filter);
      }
      r := !empty;  // empty filters do not match any keys
    }
  }

  lemma BaseIsPower()
    ensures Pow2(FILTER_BASE_LG) == FILTER_BASE
  {
    Pow2Seven(4);
    assert Pow2(4) == 16;
  }

  lemma FilterRead(data: Bytes, cells: seq<Bytes>, index: nat)
    requires Readable(data, cells) && index < |cells|
    ensures var at := |Flat(cells)| + index * 4;
            var start, limit := DecodeFixed32(data[at..at + 4]), DecodeFixed32(data[at + 4..at + 8]);
            start <= limit <= |Flat(cells)| && data[start..limit] == cells[index]
  {
    assert OffsetStored(data, cells, index) && OffsetStored(data, cells, index + 1);
    CellSlice(cells, index);
    var start, limit := Offset(cells, index), Offset(cells, index + 1);
    assert data[start..limit] == data[..|Flat(cells)|][start..limit];
  }

  /** Main result: a key in the filter of a block's offset always matches there, and so does every key with
      the same user key. */
  lemma NoFalseNegatives(policy: FilterPolicy, user: Bytes -> Bytes, groups: seq<seq<Bytes>>, index: nat, e: Bytes, k: Bytes)
    requires policy.Good(user) && InFilter(groups, [], index, e) && user(e) == user(k)
    ensures index < |groups| && policy.mayMatch(k, Filters(policy, groups)[index])
  {
    assert e in groups[index];
  }
}
