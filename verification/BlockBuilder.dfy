/** Building a block (table/block_builder.cc). */
module BlockBuilder {
  import opened Coding
  import opened BlockLayout

  lemma Appended(buffer: Bytes, header: Bytes, delta: Bytes, value: Bytes)
    ensures buffer + header + delta + value == buffer + (header + (delta + value))
  {
  }

  lemma KeyRestored(lastKey: Bytes, key: Bytes, shared: nat)
    requires shared <= |lastKey| && shared <= |key| && lastKey[..shared] == key[..shared]
    ensures lastKey[..shared] + key[shared..] == key
  {
  }

  /** The cells so far, with their restart points. */
  ghost predicate Built(cells: seq<Bytes>, interval: nat, buffer: Bytes, restarts: seq<nat>)
    requires interval > 0
  {
    buffer == Flat(cells) && restarts == Restarts(cells, interval)
  }

  /** The last key, and the number of entries since the last restart point. */
  ghost predicate Last(es: seq<Pair>, interval: nat, counter: nat, lastKey: Bytes)
    requires interval > 0
  {
    if es == [] then counter == 0 && lastKey == []
    else counter == Phase(|es| - 1, interval) + 1 && lastKey == es[|es| - 1].key
  }

  lemma BuiltGrows(cells: seq<Bytes>, interval: nat, buffer: Bytes, restarts: seq<nat>, c: Bytes, restarts': seq<nat>)
    requires interval > 0 && Built(cells, interval, buffer, restarts)
    requires restarts' == if cells != [] && Phase(|cells|, interval) == 0 then restarts + [|buffer|] else restarts
    ensures Built(cells + [c], interval, buffer + c, restarts')
  {
    FlatAdded(cells, c);
    RestartAdded(cells, c, interval);
  }

  /** A builder at one moment. */
  datatype Progress = Progress(es: seq<Pair>, cells: seq<Bytes>, buffer: Bytes, restarts: seq<nat>, counter: nat, lastKey: Bytes)

  datatype ProgressPart = Encoded | Laid | Remembered

  ghost predicate PartKept(s: Progress, interval: nat, part: ProgressPart)
    requires interval > 0
  {
    match part
    case Encoded => s.cells == Cells(s.es, interval)
    case Laid => Built(s.cells, interval, s.buffer, s.restarts)
    case Remembered => Last(s.es, interval, s.counter, s.lastKey)
  }

  /** All that a builder keeps. */
  ghost predicate Kept(s: Progress, interval: nat)
    requires interval > 0
  {
    forall part {:trigger PartKept(s, interval, part)} :: PartKept(s, interval, part)
  }

  lemma KeptParts(s: Progress, interval: nat)
    requires interval > 0 && Kept(s, interval)
    ensures s.cells == Cells(s.es, interval) && Built(s.cells, interval, s.buffer, s.restarts) && Last(s.es, interval, s.counter, s.lastKey)
  {
    assert PartKept(s, interval, Encoded) && PartKept(s, interval, Laid) && PartKept(s, interval, Remembered);
  }

  lemma KeptFrom(s: Progress, interval: nat)
    requires interval > 0 && s.cells == Cells(s.es, interval)
    requires Built(s.cells, interval, s.buffer, s.restarts) && Last(s.es, interval, s.counter, s.lastKey)
    ensures Kept(s, interval)
  {
    forall part ensures PartKept(s, interval, part) {
      match part
      case _ =>
    }
  }

  /** When the count reaches the interval the next entry is a restart point. */
  lemma RestartDue(es: seq<Pair>, interval: nat, counter: nat, lastKey: Bytes, e: Pair)
    requires interval > 0 && Last(es, interval, counter, lastKey)
    ensures counter < interval ==>
              && (es == [] || Phase(|es|, interval) > 0)
              && Common(lastKey, e.key) == (if Phase(|es|, interval) == 0 then 0 else Common(es[|es| - 1].key, e.key))
              && Last(es + [e], interval, counter + 1, e.key)
    ensures counter >= interval ==> es != [] && Phase(|es|, interval) == 0 && Last(es + [e], interval, 1, e.key)
  {
  }

  lemma AddKeeps(es: seq<Pair>, cells: seq<Bytes>, interval: nat, b: Bytes, was: seq<nat>, e: Pair, shared: nat,
                 buffer: Bytes, restarts: seq<nat>, counter: nat) returns (c: Bytes)
    requires interval > 0 && shared <= |e.key| && cells == Cells(es, interval) && Built(cells, interval, b, was)
    requires shared == if Phase(|es|, interval) == 0 then 0 else Common(es[|es| - 1].key, e.key)
    requires restarts == if cells != [] && Phase(|cells|, interval) == 0 then was + [|b|] else was
    requires Last(es + [e], interval, counter, e.key)
    requires buffer == b + EntryBytes(shared, e)
    ensures Kept(Progress(es + [e], cells + [c], buffer, restarts, counter, e.key), interval)
  {
    c := EntryBytes(shared, e);
    CellAdded(es, e, interval, shared);
    BuiltGrows(cells, interval, b, was, c, restarts);
    KeptFrom(Progress(es + [e], cells + [c], buffer, restarts, counter, e.key), interval);
  }

  lemma StartKept(interval: nat)
    requires interval > 0
    ensures Kept(Progress([], [], [], [0], 0, []), interval)
  {
    KeptFrom(Progress([], [], [], [0], 0, []), interval);
  }

  lemma LastCellNonempty(es: seq<Pair>, interval: nat)
    requires interval > 0 && es != []
    ensures Flat(Cells(es, interval)) != []
  {
    var n := |es| - 1;
    CellAt(es, interval, n);
    SharedGood(es, interval, n);
    CellLies(Cells(es, interval), n);
  }

  class Builder {
    const interval: nat  // the restart interval
    var buffer: Bytes
    var restarts: seq<nat>
    var counter: nat  // entries since the last restart point
    var finished: bool
    var lastKey: Bytes
    ghost var entries: seq<Pair>
    ghost var cells: seq<Bytes>  // the entries as they are encoded

    ghost predicate Valid()
      reads this
    {
      interval > 0 && Kept(Now(), interval)
    }

    ghost function Now(): Progress
      reads this
    {
      Progress(entries, cells, buffer, restarts, counter, lastKey)
    }

    constructor (interval: nat)
      requires interval >= 1
      ensures Valid() && !finished && entries == [] && this.interval == interval
    {
      StartKept(interval);
      this.interval := interval;
      buffer, restarts, counter, finished, lastKey, entries, cells := [], [0], 0, false, [], [], [];
    }

    method Reset()
      requires interval > 0
      modifies this
      ensures Valid() && !finished && entries == []
    {
      StartKept(interval);
      buffer, restarts, counter, finished, lastKey, entries, cells := [], [0], 0, false, [], [], [];
    }

    function CurrentSizeEstimate(): nat
      reads this
    {
      |buffer| + |restarts| * 4 + 4
    }

    predicate Empty()
      reads this
    {
      |buffer| == 0
    }

    /** The estimate is exactly the size of the block that finishing now would give. */
    lemma EstimateExact()
      requires Valid()
      ensures CurrentSizeEstimate() == |BlockBytes(Cells(entries, interval), interval)|
    {
      KeptParts(Now(), interval);
    }

    lemma EmptyIs()
      requires Valid()
      ensures Empty() <==> entries == []
    {
      KeptParts(Now(), interval);
      if entries != [] {
        LastCellNonempty(entries, interval);
      }
    }

    /** The length of what the key shares with the last one. */
    method SharedWithLast(key: Bytes) returns (shared: nat)
      ensures shared == Common(lastKey, key)
    {
      var minLength := if |key| < |lastKey| then |key| else |lastKey|;
      shared := 0;
      while shared < minLength && lastKey[shared] == key[shared]
        invariant shared <= minLength && CommonFrom(lastKey, key, shared) == Common(lastKey, key)
      {
        shared := shared + 1;
      }
    }

    method PutBytes(shared: nat, key: Bytes, value: Bytes)
      requires shared <= |key|
      modifies `buffer
      ensures buffer == old(buffer) + EntryBytes(shared, Pair(key, value))
    {
      var header := Header(shared, |key| - shared, |value|);
      Appended(buffer, header, key[shared..], value);
      buffer := buffer + header;
      buffer := buffer + key[shared..];
      buffer := buffer + value;
    }

    method PutEntry(shared: nat, key: Bytes, value: Bytes, ghost was: seq<nat>)
      requires interval > 0 && shared <= |key| && cells == Cells(entries, interval) && Built(cells, interval, buffer, was)
      requires shared == if Phase(|entries|, interval) == 0 then 0 else Common(entries[|entries| - 1].key, key)
      requires restarts == if cells != [] && Phase(|cells|, interval) == 0 then was + [|buffer|] else was
      requires shared <= |lastKey| && lastKey[..shared] == key[..shared]
      requires Last(entries + [Pair(key, value)], interval, counter + 1, key)
      modifies `buffer, `entries, `cells, `lastKey, `counter
      ensures Valid() && entries == old(entries) + [Pair(key, value)]
    {
      hide Cells, Built, Last, Kept, BlockBytes;
      ghost var b := buffer;
      PutBytes(shared, key, value);
      KeyRestored(lastKey, key, shared);
      lastKey := lastKey[..shared] + key[shared..];
      counter := counter + 1;
      ghost var c := AddKeeps(entries, cells, interval, b, was, Pair(key, value), shared, buffer, restarts, counter);
      entries, cells := entries + [Pair(key, value)], cells + [c];
    }

    /** How much the next entry shares with the last one; a restart point shares nothing. */
    method StartEntry(key: Bytes, ghost value: Bytes) returns (shared: nat)
      requires Valid()
      modifies `restarts, `counter
      ensures shared == if Phase(|entries|, interval) == 0 then 0 else Common(entries[|entries| - 1].key, key)
      ensures restarts == if cells != [] && Phase(|cells|, interval) == 0 then old(restarts) + [|buffer|] else old(restarts)
      ensures Last(entries + [Pair(key, value)], interval, counter + 1, key)
      ensures shared <= |lastKey| && shared <= |key| && lastKey[..shared] == key[..shared]
    {
      KeptParts(Now(), interval);
      RestartDue(entries, interval, counter, lastKey, Pair(key, value));
      shared := 0;
      CommonGood(lastKey, key, 0);
      if counter < interval {
        shared := SharedWithLast(key);
      } else {
        restarts := restarts + [|buffer|];
        counter := 0;
      }
    }

    method Add(key: Bytes, value: Bytes)
      requires Valid() && !finished
      modifies this
      ensures Valid() && !finished && entries == old(entries) + [Pair(key, value)]
    {
      KeptParts(Now(), interval);
      var shared := StartEntry(key, value);
      PutEntry(shared, key, value, old(restarts));
    }

    /** The finished block. */
    method Finish() returns (block: Bytes)
      requires Valid() && !finished
      modifies this
      ensures block == BlockBytes(Cells(entries, interval), interval) && finished && entries == old(entries)
    {
      KeptParts(Now(), interval);
      buffer := PutWords(buffer, restarts);
      buffer := buffer + EncodeFixed32(|restarts| % TWO32);
      finished := true;
      block := buffer;
    }
  }

  lemma WordAdded(d: Bytes, ws: seq<nat>, i: nat)
    requires i < |ws|
    ensures d + Words(ws[..i]) + EncodeFixed32(ws[i] % TWO32) == d + Words(ws[..i + 1])
  {
    assert ws[..i + 1][..i] == ws[..i];
  }

  method PutWords(d: Bytes, ws: seq<nat>) returns (r: Bytes)
    ensures r == d + Words(ws)
  {
    r := d;
    for i := 0 to |ws|
      invariant r == d + Words(ws[..i])
    {
      WordAdded(d, ws, i);
      r := r + EncodeFixed32(ws[i] % TWO32);
    }
    assert ws[..|ws|] == ws;
  }
}
