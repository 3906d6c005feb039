/** A batch of updates as one string of bytes (db/write_batch.cc). */
module WriteBatch {
  import opened Options
  import opened Coding
  import opened LengthPrefix

  type Bytes = seq<byte>

  const HEADER := 12

  datatype Op = Put(key: Bytes, value: Bytes) | Delete(key: Bytes)

  datatype Error = TooSmall | BadPut | BadDelete | UnknownTag | WrongCount

  function OpBytes(op: Op): Bytes {
    match op
    case Put(key, value) => [1] + (Prefixed(key) + Prefixed(value))
    case Delete(key) => [0] + Prefixed(key)
  }

  function OpsBytes(ops: seq<Op>): Bytes {
    if ops == [] then [] else OpBytes(ops[0]) + OpsBytes(ops[1..])
  }

  /** The batch of these updates. */
  function Contents(sequence: word64, ops: seq<Op>): Bytes {
    EncodeFixed64(sequence) + EncodeFixed32(Low32(|ops|)) + OpsBytes(ops)
  }

  // ----- the header -----

  function SequenceOf(rep: Bytes): word64
    requires |rep| >= HEADER
  {
    DecodeFixed64(rep[..8])
  }

  function CountOf(rep: Bytes): word32
    requires |rep| >= HEADER
  {
    DecodeFixed32(rep[8..HEADER])
  }

  function WithSequence(rep: Bytes, sequence: word64): (r: Bytes)
    requires |rep| >= HEADER
    ensures |r| == |rep|
  {
    EncodeFixed64(sequence) + rep[8..]
  }

  function WithCount(rep: Bytes, n: nat): (r: Bytes)
    requires |rep| >= HEADER
    ensures |r| == |rep|
  {
    rep[..8] + EncodeFixed32(Low32(n)) + rep[HEADER..]
  }

  lemma Parts(a: Bytes, b: Bytes, c: Bytes)
    requires |a| == 8 && |b| == 4
    ensures var s := a + b + c; s[..8] == a && s[8..HEADER] == b && s[HEADER..] == c && s[8..] == b + c
  {
  }

  lemma ContentsParts(sequence: word64, ops: seq<Op>)
    ensures var rep := Contents(sequence, ops);
            && |rep| >= HEADER && rep[HEADER..] == OpsBytes(ops) && rep[..8] == EncodeFixed64(sequence)
            && SequenceOf(rep) == sequence && CountOf(rep) == Low32(|ops|)
  {
    hide OpsBytes, EncodeFixed64, EncodeFixed32, DecodeFixed64, DecodeFixed32;
    Parts(EncodeFixed64(sequence), EncodeFixed32(Low32(|ops|)), OpsBytes(ops));
    DecodeEncodeFixed64(sequence);
    DecodeEncodeFixed32(Low32(|ops|));
  }

  // ----- what the operations make of the bytes -----

  /** One more update at the end. */
  function Added(rep: Bytes, op: Op): (r: Bytes)
    requires |rep| >= HEADER
    ensures |r| >= HEADER
  {
    WithCount(rep, CountOf(rep) + 1) + OpBytes(op)
  }

  function Appended(rep: Bytes, source: Bytes): (r: Bytes)
    requires |rep| >= HEADER && |source| >= HEADER
    ensures |r| >= HEADER
  {
    WithCount(rep, CountOf(rep) + CountOf(source)) + source[HEADER..]
  }

  lemma {:induction false} OpsTogether(a: seq<Op>, b: seq<Op>)
    ensures OpsBytes(a + b) == OpsBytes(a) + OpsBytes(b)
  {
    if a == [] {
      assert a + b == b;
    } else {
      assert (a + b)[1..] == a[1..] + b;
      OpsTogether(a[1..], b);
      Regroup(OpBytes(a[0]), OpsBytes(a[1..]), OpsBytes(b));
    }
  }

  lemma LowAdds(a: nat, b: nat)
    ensures Low32(Low32(a) + b) == Low32(a + b) && Low32(Low32(a) + Low32(b)) == Low32(a + b)
  {
  }

  lemma Recounted(sequence: word64, n: nat, m: nat, ops: Bytes, more: Bytes)
    ensures WithCount(EncodeFixed64(sequence) + EncodeFixed32(Low32(n)) + ops, m) + more ==
            EncodeFixed64(sequence) + EncodeFixed32(Low32(m)) + (ops + more)
  {
    hide EncodeFixed64, EncodeFixed32;
    Parts(EncodeFixed64(sequence), EncodeFixed32(Low32(n)), ops);
    Regroup(EncodeFixed64(sequence) + EncodeFixed32(Low32(m)), ops, more);
  }

  /** Adding an update to the batch of some updates gives the batch of them and it. */
  lemma AddedIsBatch(sequence: word64, ops: seq<Op>, op: Op)
    ensures Added(Contents(sequence, ops), op) == Contents(sequence, ops + [op])
  {
    hide OpsBytes, EncodeFixed64, EncodeFixed32, WithCount, OpBytes, CountOf, Low32;
    ContentsParts(sequence, ops);
    LowAdds(|ops|, 1);
    Recounted(sequence, |ops|, Low32(|ops|) + 1, OpsBytes(ops), OpBytes(op));
    OpsTogether(ops, [op]);
    OneOp(op);
  }

  lemma OneOp(op: Op)
    ensures OpsBytes([op]) == OpBytes(op)
  {
    assert [op][1..] == [] && OpBytes(op) + [] == OpBytes(op);
  }

  /** Appending one batch to another gives the batch of both, with the first one's sequence number. */
  lemma AppendedIsBatch(sequence: word64, ops: seq<Op>, sequence': word64, ops': seq<Op>)
    ensures Appended(Contents(sequence, ops), Contents(sequence', ops')) == Contents(sequence, ops + ops')
  {
    hide OpsBytes, EncodeFixed64, EncodeFixed32, WithCount, CountOf, Low32;
    ContentsParts(sequence, ops);
    ContentsParts(sequence', ops');
    LowAdds(|ops|, |ops'|);
    Recounted(sequence, |ops|, Low32(|ops|) + Low32(|ops'|), OpsBytes(ops), OpsBytes(ops'));
    OpsTogether(ops, ops');
  }

  lemma SequencedIsBatch(sequence: word64, ops: seq<Op>, sequence': word64)
    ensures WithSequence(Contents(sequence, ops), sequence') == Contents(sequence', ops)
  {
    hide OpsBytes, EncodeFixed64, EncodeFixed32;
    Parts(EncodeFixed64(sequence), EncodeFixed32(Low32(|ops|)), OpsBytes(ops));
    Regroup(EncodeFixed64(sequence'), EncodeFixed32(Low32(|ops|)), OpsBytes(ops));
  }

  // ----- iterating -----

  datatype Record = Got(op: Op, rest: Bytes) | Bad(error: Error)

  function GetPut(s: Bytes): (r: Record)
    ensures r.Got? ==> |r.rest| < |s|
  {
    var key := GetPrefixed(s);
    if key.None? then Bad(BadPut)
    else
      var value := GetPrefixed(key.value.rest);
      if value.None? then Bad(BadPut) else Got(Put(key.value.value, value.value.value), value.value.rest)
  }

  function GetDelete(s: Bytes): (r: Record)
    ensures r.Got? ==> |r.rest| < |s|
  {
    var key := GetPrefixed(s);
    if key.None? then Bad(BadDelete) else Got(Delete(key.value.value), key.value.rest)
  }

  function GetRecord(s: Bytes): (r: Record)
    requires s != []
    ensures r.Got? ==> |r.rest| < |s|
  {
    if s[0] == 1 then GetPut(s[1..]) else if s[0] == 0 then GetDelete(s[1..]) else Bad(UnknownTag)
  }

  /** The updates that the handler is given, and the error that ends it, if one does. */
  datatype Handled = Handled(ops: seq<Op>, error: Option<Error>)

  function Records(s: Bytes): Handled
    decreases |s|
  {
    if s == [] then Handled([], None)
    else
      var r := GetRecord(s);
      if r.Bad? then Handled([], Some(r.error))
      else
        var after := Records(r.rest);
        Handled([r.op] + after.ops, after.error)
  }

  function Iterated(rep: Bytes): Handled {
    if |rep| < HEADER then Handled([], Some(TooSmall))
    else
      var h := Records(rep[HEADER..]);
      if h.error.None? && |h.ops| != CountOf(rep) then Handled(h.ops, Some(WrongCount)) else h
  }

  predicate Fits(op: Op) {
    |op.key| < TWO32 && (op.Put? ==> |op.value| < TWO32)
  }

  lemma RecordRead(op: Op, rest: Bytes)
    requires Fits(op)
    ensures OpBytes(op) + rest != [] && GetRecord(OpBytes(op) + rest) == Got(op, rest)
  {
    hide Prefixed, GetPrefixed;
    match op
    case Put(key, value) =>
      TagFirst(1, Prefixed(key) + Prefixed(value), rest);
      Regroup(Prefixed(key), Prefixed(value), rest);
      PrefixedRead(key, Prefixed(value) + rest);
      PrefixedRead(value, rest);
    case Delete(key) =>
      TagFirst(0, Prefixed(key), rest);
      PrefixedRead(key, rest);
  }

  lemma TagFirst(tag: byte, body: Bytes, rest: Bytes)
    ensures var s := [tag] + body + rest; s != [] && s[0] == tag && s[1..] == body + rest
  {
  }

  lemma {:induction false} RecordsRead(ops: seq<Op>, tail: Bytes)
    requires forall op :: op in ops ==> Fits(op)
    ensures Records(OpsBytes(ops) + tail) == Handled(ops + Records(tail).ops, Records(tail).error)
    decreases |ops|
  {
    hide OpBytes, GetRecord;
    if ops == [] {
      assert [] + tail == tail;
    } else {
      var rest := OpsBytes(ops[1..]) + tail;
      Regroup(OpBytes(ops[0]), OpsBytes(ops[1..]), tail);
      RecordRead(ops[0], rest);
      RecordsRead(ops[1..], tail);
      assert [ops[0]] + (ops[1..] + Records(tail).ops) == ops + Records(tail).ops;
    }
  }

  /** Any twelve bytes whose last four are the count, and updates behind them. */
  lemma HeaderThere(sequence: word64, count: word32, body: Bytes)
    ensures var rep := EncodeFixed64(sequence) + EncodeFixed32(count) + body;
            |rep| >= 12 && rep[12..] == body && SequenceOf(rep) == sequence && CountOf(rep) == count
  {
    hide EncodeFixed64, EncodeFixed32, DecodeFixed64, DecodeFixed32;
    Parts(EncodeFixed64(sequence), EncodeFixed32(count), body);
    DecodeEncodeFixed64(sequence);
    DecodeEncodeFixed32(count);
  }

  /** Main result: whatever its header counts, a batch hands out its updates in order, and there is no error if
      and only if the count is their number. */
  lemma CountDecides(sequence: word64, count: word32, ops: seq<Op>)
    requires forall op :: op in ops ==> Fits(op)
    ensures Iterated(EncodeFixed64(sequence) + EncodeFixed32(count) + OpsBytes(ops)) ==
            Handled(ops, if |ops| == count then None else Some(WrongCount))
  {
    hide OpsBytes, EncodeFixed64, EncodeFixed32, SequenceOf, CountOf;
    HeaderThere(sequence, count, OpsBytes(ops));
    RecordsRead(ops, []);
    assert OpsBytes(ops) + [] == OpsBytes(ops) && ops + [] == ops;
  }

  /** Iterating over the batch of some updates gives the handler exactly these, and there is no error if and only
      if their number fits the count. */
  lemma BatchIterates(sequence: word64, ops: seq<Op>)
    requires forall op :: op in ops ==> Fits(op)
    ensures Iterated(Contents(sequence, ops)) == Handled(ops, if |ops| < TWO32 then None else Some(WrongCount))
  {
    hide OpsBytes, EncodeFixed64, EncodeFixed32, Iterated;
    CountDecides(sequence, Low32(|ops|), ops);
    assert Low32(|ops|) == |ops| <==> |ops| < TWO32;
  }

  /** The bytes of an update without at least the last of them. */
  ghost predicate CutShort(op: Op, part: Bytes) {
    Fits(op) && part != [] && part < OpBytes(op)
  }

  lemma CutRead(op: Op, part: Bytes)
    requires CutShort(op, part)
    ensures GetRecord(part) == Bad(if op.Put? then BadPut else BadDelete)
  {
    hide Prefixed, GetPrefixed;
    var body := part[1..];
    match op
    case Delete(key) =>
      assert OpBytes(op)[1..] == Prefixed(key);
      PrefixedCut(key, body);
    case Put(key, value) =>
      assert OpBytes(op)[1..] == Prefixed(key) + Prefixed(value);
      if |body| < |Prefixed(key)| {
        assert body < Prefixed(key);
        PrefixedCut(key, body);
      } else {
        var rest := body[|Prefixed(key)|..];
        assert body == Prefixed(key) + rest && rest < Prefixed(value);
        PrefixedRead(key, rest);
        PrefixedCut(value, rest);
      }
  }

  /** Main result: a batch damaged behind some updates hands these out and ends in an error: an update cut short, or
      a tag that is none, whatever follows it. */
  lemma DamageDetected(header: Bytes, ops: seq<Op>, tail: Bytes, op: Op)
    requires |header| == 12 && (forall x :: x in ops ==> Fits(x)) && tail != []
    requires tail[0] > 1 || CutShort(op, tail)
    ensures Iterated(header + OpsBytes(ops) + tail) ==
            Handled(ops, Some(if tail[0] > 1 then UnknownTag else if tail[0] == 1 then BadPut else BadDelete))
  {
    hide OpsBytes, GetPrefixed, Prefixed;
    RecordsRead(ops, tail);
    Regroup(header, OpsBytes(ops), tail);
    assert (header + (OpsBytes(ops) + tail))[12..] == OpsBytes(ops) + tail;
    if tail[0] <= 1 {
      CutRead(op, tail);
    }
    assert ops + [] == ops;
  }

  /** Fewer bytes than a header are no batch. */
  lemma TooShort(rep: Bytes)
    requires |rep| < 12
    ensures Iterated(rep) == Handled([], Some(TooSmall))
  {
  }

  class WriteBatch {
    var rep: Bytes

    predicate Valid()
      reads this
    {
      |rep| >= HEADER
    }

    constructor ()
      ensures Valid() && rep == Contents(0, [])
    {
      rep := [];
      new;
      Clear();
    }

    method Clear()
      modifies this
      ensures Valid() && rep == Contents(0, [])
    {
      rep := Zeros(HEADER);
      assert rep == Contents(0, []);
    }

    method SetCount(n: nat)
      requires Valid()
      modifies this
      ensures Valid() && rep == WithCount(old(rep), n)
    {
      rep := rep[..8] + EncodeFixed32(Low32(n)) + rep[HEADER..];
    }

    method SetSequence(sequence: word64)
      requires Valid()
      modifies this
      ensures Valid() && rep == WithSequence(old(rep), sequence)
    {
      rep := EncodeFixed64(sequence) + rep[8..];
    }

    method PutUpdate(key: Bytes, value: Bytes)
      requires Valid()
      modifies this
      ensures Valid() && rep == Added(old(rep), Put(key, value))
    {
      SetCount(CountOf(rep) + 1);
      ghost var header := rep;
      rep := rep + [1];
      rep := rep + Prefixed(key);
      rep := rep + Prefixed(value);
      Regroup(header + [1], Prefixed(key), Prefixed(value));
      Regroup(header, [1], Prefixed(key) + Prefixed(value));
    }

    method DeleteUpdate(key: Bytes)
      requires Valid()
      modifies this
      ensures Valid() && rep == Added(old(rep), Delete(key))
    {
      SetCount(CountOf(rep) + 1);
      ghost var header := rep;
      rep := rep + [0];
      rep := rep + Prefixed(key);
      Regroup(header, [0], Prefixed(key));
    }

    method Append(source: WriteBatch)
      requires Valid() && source.Valid()
      modifies this
      ensures Valid() && rep == Appended(old(rep), old(source.rep))
    {
      SetCount(CountOf(rep) + CountOf(source.rep));
      rep := rep + source.rep[HEADER..];
    }

    /** Hands the updates out one by one. */
    method Iterate() returns (handled: seq<Op>, error: Option<Error>)
      ensures Handled(handled, error) == Iterated(rep)
    {
      handled := [];
      if |rep| < HEADER {
        return [], Some(TooSmall);
      }
      var input := rep[HEADER..];
      while input != []
        invariant Records(rep[HEADER..]) == Handled(handled + Records(input).ops, Records(input).error)
        decreases |input|
      {
        var r := GetRecord(input);
        if r.Bad? {
          assert handled + [] == handled;
          return handled, Some(r.error);
        }
        Grouped(handled, r.op, Records(r.rest).ops);
        handled, input := handled + [r.op], r.rest;
      }
      assert handled + [] == handled;
      error := if |handled| != CountOf(rep) then Some(WrongCount) else None;
    }
  }

  lemma Grouped(a: seq<Op>, op: Op, b: seq<Op>)
    ensures a + ([op] + b) == a + [op] + b
  {
  }
}
