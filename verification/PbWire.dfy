/** The wire format of Protocol Buffers, read by its published rules and without a schema: what the encoder
    writes is a list of whole records, and each says the number or the bytes of its field. */
module PbWire {
  import opened Options
  import opened Coding
  import opened PbTypes

  // ----- the format -----

  /** One record by its wire type: a number of any length, eight bytes, a length and so many bytes, four bytes. */
  datatype Record =
    | Number(tag: nat, n: nat)
    | Eight(tag: nat, n: nat)
    | Chunk(tag: nat, b: seq<byte>)
    | Four(tag: nat, n: nat)

  function ScanRecord(s: seq<byte>): (r: Option<Read<Record>>)
    ensures r.Some? ==> |r.value.rest| < |s|
  {
    var key := ScanNumber(s);
    if key.None? then None
    else
      var tag, rest := key.value.value / 8, key.value.rest;
      match key.value.value % 8
      case 0 =>
        var n := ScanNumber(rest);
        if n.None? then None else Some(Read(Number(tag, n.value.value), n.value.rest))
      case 1 => if |rest| < 8 then None else Some(Read(Eight(tag, LittleEndian(rest[..8])), rest[8..]))
      case 2 =>
        var n := ScanNumber(rest);
        if n.None? || n.value.value > |n.value.rest| then None
        else Some(Read(Chunk(tag, n.value.rest[..n.value.value]), n.value.rest[n.value.value..]))
      case 5 => if |rest| < 4 then None else Some(Read(Four(tag, LittleEndian(rest[..4])), rest[4..]))
      case _ => None
  }

  /** The records of a whole message. */
  function Scan(s: seq<byte>): Option<seq<Record>>
    decreases |s|
  {
    if s == [] then Some([])
    else
      var r := ScanRecord(s);
      if r.None? then None
      else
        var more := Scan(r.value.rest);
        if more.None? then None else Some([r.value.value] + more.value)
  }

  /** The numbers of a packed array: of four or eight bytes each, or of any length. */
  function ScanNumbers(width: nat, s: seq<byte>): Option<seq<nat>>
    decreases |s|
  {
    if s == [] then Some([])
    else
      var r := if width == 0 then ScanNumber(s)
               else if |s| < width then None else Some(Read(LittleEndian(s[..width]), s[width..]));
      if r.None? then None
      else
        var more := ScanNumbers(width, r.value.rest);
        if more.None? then None else Some([r.value.value] + more.value)
  }

  // ----- what the records of a message say -----

  /** The number that stands for the value: two's complement, or zigzag for the signed varints. */
  predicate SaysNumber(t: LType, v: Value, n: nat) {
    v.Num? &&
    match t
    case Varint(_) => n == if v.n < 0 then v.n + 0x1_0000_0000_0000_0000 else v.n
    case SVarint(_) => n == if v.n < 0 then -2 * v.n - 1 else 2 * v.n
    case _ => n == v.n
  }

  ghost predicate Says(t: LType, tag: nat, v: Value, r: Record)
    decreases t, 0
  {
    match t
    case Fixed32 => r.Four? && r.tag == tag && SaysNumber(t, v, r.n)
    case Fixed64 => r.Eight? && r.tag == tag && SaysNumber(t, v, r.n)
    case Bytes(_) => v.Data? && r == Chunk(tag, v.bytes)
    case String(_) => v.Data? && r == Chunk(tag, v.bytes)
    case FixedBytes(_) => v.Data? && r == Chunk(tag, v.bytes)
    case Submessage(fields) =>
      && r.Chunk? && r.tag == tag && v.Message? && |v.slots| == |fields|
      && Scan(r.b).Some? && SaysFrom(fields, v.slots, 0, Scan(r.b).value)
    case _ => r.Number? && r.tag == tag && SaysNumber(t, v, r.n)
  }

  predicate SaysPacked(t: LType, items: seq<Value>, b: seq<byte>) {
    var ns := ScanNumbers(if t.Fixed32? then 4 else if t.Fixed64? then 8 else 0, b);
    ns.Some? && SaysNumbers(t, items, 0, ns.value)
  }

  predicate SaysNumbers(t: LType, items: seq<Value>, i: nat, ns: seq<nat>)
    requires i <= |items|
  {
    |ns| == |items| - i && forall j :: i <= j < |items| ==> SaysNumber(t, items[j], ns[j - i])
  }

  /** Scalars that are numbers go packed. */
  predicate IsNumber(t: LType) {
    !t.Bytes? && !t.String? && !t.FixedBytes? && !t.Submessage?
  }

  /** The values of a field that are sent: a zero value is not, nor an absent one. */
  ghost function SentValues(f: Field, slot: Slot): seq<Value> {
    match slot
    case One(v) => if f.rule.Singular? && IsDefault(f.ltype, v) then [] else [v]
    case Maybe(o) => if o.Some? then [o.value] else []
    case Many(items) => items
  }

  /** One record for each value sent, or one for all of a packed array. */
  ghost function RecordCount(f: Field, slot: Slot): nat {
    var n := |SentValues(f, slot)|;
    if slot.Many? && IsNumber(f.ltype) && n > 0 then 1 else n
  }

  ghost predicate SaysField(f: Field, slot: Slot, rs: seq<Record>)
    decreases f
  {
    var vs := SentValues(f, slot);
    |rs| == RecordCount(f, slot) &&
    if slot.Many? && IsNumber(f.ltype) && vs != [] then rs[0].Chunk? && rs[0].tag == f.tag && SaysPacked(f.ltype, vs, rs[0].b)
    else forall j :: 0 <= j < |vs| ==> Says(f.ltype, f.tag, vs[j], rs[j])
  }

  /** The records are those of the fields from the `i`-th on, in the order of the schema. */
  ghost predicate SaysFrom(fields: seq<Field>, slots: seq<Slot>, i: nat, rs: seq<Record>)
    requires |slots| == |fields| && i <= |fields|
    decreases fields, |fields| - i
  {
    if i == |fields| then rs == []
    else
      var k := RecordCount(fields[i], slots[i]);
      k <= |rs| && SaysField(fields[i], slots[i], rs[..k]) && SaysFrom(fields, slots, i + 1, rs[k..])
  }

  // ----- numbers -----

  lemma KeyScans(tag: nat, wireType: nat, body: seq<byte>)
    requires wireType < 8
    ensures ScanNumber(TagBytes(tag, wireType) + body) == Some(Read(tag * 8 + wireType, body))
    ensures (tag * 8 + wireType) / 8 == tag && (tag * 8 + wireType) % 8 == wireType
  {
    NumberScans(tag * 8 + wireType, body);
  }

  // ----- records -----

  lemma NumberRecord(tag: nat, n: nat, rest: seq<byte>)
    ensures ScanRecord(TagBytes(tag, 0) + (VarintBytes(n) + rest)) == Some(Read(Number(tag, n), rest))
  {
    KeyScans(tag, 0, VarintBytes(n) + rest);
    NumberScans(n, rest);
  }

  lemma ChunkSplits(s: seq<byte>, key: nat, body: seq<byte>, b: seq<byte>, rest: seq<byte>)
    requires ScanNumber(s) == Some(Read(key, body)) && key % 8 == 2 && ScanNumber(body) == Some(Read(|b|, b + rest))
    ensures ScanRecord(s) == Some(Read(Chunk(key / 8, b), rest))
  {
    hide ScanNumber;
    assert (b + rest)[..|b|] == b && (b + rest)[|b|..] == rest;
  }

  lemma ChunkRecord(tag: nat, b: seq<byte>, rest: seq<byte>)
    ensures ScanRecord(TagBytes(tag, 2) + (VarintBytes(|b|) + b + rest)) == Some(Read(Chunk(tag, b), rest))
  {
    hide *;
    KeyScans(tag, 2, VarintBytes(|b|) + b + rest);
    NumberScans(|b|, b + rest);
    Regroup(VarintBytes(|b|), b, rest);
    ChunkSplits(TagBytes(tag, 2) + (VarintBytes(|b|) + b + rest), tag * 8 + 2, VarintBytes(|b|) + b + rest, b, rest);
  }

  lemma FourRecord(tag: nat, w: word32, rest: seq<byte>)
    ensures ScanRecord(TagBytes(tag, 5) + (EncodeFixed32(w) + rest)) == Some(Read(Four(tag, w), rest))
  {
    hide EncodeFixed32;
    KeyScans(tag, 5, EncodeFixed32(w) + rest);
    FourScans(w);
    assert (EncodeFixed32(w) + rest)[..4] == EncodeFixed32(w) && (EncodeFixed32(w) + rest)[4..] == rest;
  }

  lemma EightRecord(tag: nat, w: word64, rest: seq<byte>)
    ensures ScanRecord(TagBytes(tag, 1) + (EncodeFixed64(w) + rest)) == Some(Read(Eight(tag, w), rest))
  {
    hide EncodeFixed64;
    KeyScans(tag, 1, EncodeFixed64(w) + rest);
    EightScans(w);
    assert (EncodeFixed64(w) + rest)[..8] == EncodeFixed64(w) && (EncodeFixed64(w) + rest)[8..] == rest;
  }

  /** A number or data under its tag is one record that says it. */
  lemma PlainRecord(f: Field, v: Value, rest: seq<byte>) returns (r: Record)
    requires Fits(f.ltype, v) && !f.ltype.Submessage?
    ensures ScanRecord(EncodeOne(f, v) + rest) == Some(Read(r, rest)) && Says(f.ltype, f.tag, v, r)
  {
    hide ScanRecord, TagBytes, VarintBytes, EncodeFixed32, EncodeFixed64;
    Regroup(TagBytes(f.tag, WireType(f.ltype)), EncodeValue(f.ltype, v), rest);
    match f.ltype
    case Fixed32 => FourRecord(f.tag, v.n, rest); r := Four(f.tag, v.n);
    case Fixed64 => EightRecord(f.tag, v.n, rest); r := Eight(f.tag, v.n);
    case Bytes(_) => ChunkRecord(f.tag, v.bytes, rest); r := Chunk(f.tag, v.bytes);
    case String(_) => ChunkRecord(f.tag, v.bytes, rest); r := Chunk(f.tag, v.bytes);
    case FixedBytes(_) => ChunkRecord(f.tag, v.bytes, rest); r := Chunk(f.tag, v.bytes);
    case Bool => NumberRecord(f.tag, v.n, rest); r := Number(f.tag, v.n);
    case Varint(_) => NumberRecord(f.tag, v.n % TWO64, rest); r := Number(f.tag, v.n % TWO64);
    case UVarint(_) => NumberRecord(f.tag, v.n, rest); r := Number(f.tag, v.n);
    case SVarint(_) => NumberRecord(f.tag, ZigZag(v.n), rest); r := Number(f.tag, ZigZag(v.n));
    case Submessage(_) =>
  }

  lemma {:induction false} OneRecord(f: Field, v: Value, rest: seq<byte>) returns (r: Record)
    requires Fits(f.ltype, v)
    ensures ScanRecord(EncodeOne(f, v) + rest) == Some(Read(r, rest)) && Says(f.ltype, f.tag, v, r)
    decreases f, 0
  {
    if f.ltype.Submessage? {
      hide ScanRecord, TagBytes, VarintBytes, EncodeFrom, SaysFrom;
      var fields := f.ltype.fields;
      var e := EncodeFrom(fields, v.slots, 0);
      FieldsScan(fields, v.slots, 0);
      Regroup(TagBytes(f.tag, 2), EncodeValue(f.ltype, v), rest);
      ChunkRecord(f.tag, e, rest);
      r := Chunk(f.tag, e);
    } else {
      r := PlainRecord(f, v, rest);
    }
  }

  lemma ScanStep(s: seq<byte>, r: Record, rest: seq<byte>)
    requires ScanRecord(s) == Some(Read(r, rest)) && Scan(rest).Some?
    ensures Scan(s) == Some([r] + Scan(rest).value)
  {
  }

  // ----- arrays -----

  lemma ItemScans(t: LType, v: Value, rest: seq<byte>) returns (n: nat)
    requires Fits(t, v) && Packable(t)
    ensures SaysNumber(t, v, n) && EncodeValue(t, v) != []
    ensures if t.Fixed32? then |EncodeValue(t, v)| == 4 && LittleEndian(EncodeValue(t, v)) == n
            else if t.Fixed64? then |EncodeValue(t, v)| == 8 && LittleEndian(EncodeValue(t, v)) == n
            else ScanNumber(EncodeValue(t, v) + rest) == Some(Read(n, rest))
  {
    hide ScanNumber, LittleEndian, VarintBytes, EncodeFixed32, EncodeFixed64;
    match t
    case Fixed32 => FourScans(v.n); n := v.n;
    case Fixed64 => EightScans(v.n); n := v.n;
    case Bool => NumberScans(v.n, rest); n := v.n;
    case Varint(_) => NumberScans(v.n % TWO64, rest); n := v.n % TWO64;
    case UVarint(_) => NumberScans(v.n, rest); n := v.n;
    case SVarint(_) => NumberScans(ZigZag(v.n), rest); n := ZigZag(v.n);
  }

  function Width(t: LType): nat {
    if t.Fixed32? then 4 else if t.Fixed64? then 8 else 0
  }

  lemma NumbersStep(t: LType, b: seq<byte>, n: nat, rest: seq<byte>)
    requires b != [] && ScanNumbers(Width(t), rest).Some?
    requires if Width(t) == 0 then ScanNumber(b + rest) == Some(Read(n, rest)) else |b| == Width(t) && LittleEndian(b) == n
    ensures ScanNumbers(Width(t), b + rest) == Some([n] + ScanNumbers(Width(t), rest).value)
  {
    assert b + rest != [];
    if Width(t) > 0 {
      assert (b + rest)[..Width(t)] == b && (b + rest)[Width(t)..] == rest;
    }
  }

  lemma SaysMore(t: LType, items: seq<Value>, i: nat, n: nat, more: seq<nat>)
    requires i < |items| && SaysNumber(t, items[i], n) && SaysNumbers(t, items, i + 1, more)
    ensures SaysNumbers(t, items, i, [n] + more)
  {
    hide SaysNumber;
    forall j | i <= j < |items| ensures SaysNumber(t, items[j], ([n] + more)[j - i]) {
      assert j > i ==> ([n] + more)[j - i] == more[j - (i + 1)];
    }
  }

  lemma {:induction false} PackedScans(t: LType, items: seq<Value>, i: nat)
    requires i <= |items| && Packable(t) && forall v :: v in items ==> Fits(t, v)
    ensures ScanNumbers(Width(t), EncodeItemsFrom(t, items, i)).Some?
    ensures SaysNumbers(t, items, i, ScanNumbers(Width(t), EncodeItemsFrom(t, items, i)).value)
    decreases |items| - i
  {
    hide ScanNumber, LittleEndian, SaysNumber, Fits, EncodeValue, Width;
    if i < |items| {
      hide SaysNumbers, ScanNumbers;
      var rest := EncodeItemsFrom(t, items, i + 1);
      PackedScans(t, items, i + 1);
      var n := NextNumber(t, items[i], rest);
      SaysMore(t, items, i, n, ScanNumbers(Width(t), rest).value);
    }
  }

  lemma NextNumber(t: LType, v: Value, rest: seq<byte>) returns (n: nat)
    requires Fits(t, v) && Packable(t) && ScanNumbers(Width(t), rest).Some?
    ensures SaysNumber(t, v, n)
    ensures ScanNumbers(Width(t), EncodeValue(t, v) + rest) == Some([n] + ScanNumbers(Width(t), rest).value)
  {
    hide ScanNumber, LittleEndian, SaysNumber, Fits, EncodeValue, ScanNumbers;
    n := ItemScans(t, v, rest);
    NumbersStep(t, EncodeValue(t, v), n, rest);
  }

  /** A record for each item from the `i`-th on. */
  ghost predicate SaysEach(f: Field, items: seq<Value>, i: nat, rs: seq<Record>)
    requires i <= |items|
  {
    |rs| == |items| - i && forall j :: i <= j < |items| ==> Says(f.ltype, f.tag, items[j], rs[j - i])
  }

  lemma EachMore(f: Field, items: seq<Value>, i: nat, r: Record, more: seq<Record>)
    requires i < |items| && Says(f.ltype, f.tag, items[i], r) && SaysEach(f, items, i + 1, more)
    ensures SaysEach(f, items, i, [r] + more)
  {
    hide Says;
    forall j | i <= j < |items| ensures Says(f.ltype, f.tag, items[j], ([r] + more)[j - i]) {
      assert j > i ==> ([r] + more)[j - i] == more[j - (i + 1)];
    }
  }

  lemma JoinScans(s: seq<byte>, r: Record, later: seq<byte>, more: seq<Record>, tail: seq<Record>)
    requires ScanRecord(s) == Some(Read(r, later)) && Scan(later) == Some(more + tail)
    ensures Scan(s) == Some([r] + more + tail)
  {
    hide ScanRecord;
    ScanStep(s, r, later);
    assert [r] + more + tail == [r] + (more + tail);
  }

  /** An array whose items carry tags is a record for each. */
  lemma {:induction false} TaggedScans(f: Field, items: seq<Value>, i: nat, tail: seq<byte>) returns (rs: seq<Record>)
    requires i <= |items| && (forall v :: v in items ==> Fits(f.ltype, v)) && Scan(tail).Some?
    ensures SaysEach(f, items, i, rs) && Scan(EncodeTaggedFrom(f, items, i) + tail) == Some(rs + Scan(tail).value)
    decreases f, 1, |items| - i
  {
    hide Scan, ScanRecord, EncodeOne, Says, Fits;
    if i == |items| {
      rs := [];
      assert [] + tail == tail && [] + Scan(tail).value == Scan(tail).value;
    } else {
      hide SaysEach;
      var later := EncodeTaggedFrom(f, items, i + 1) + tail;
      var more := TaggedScans(f, items, i + 1, tail);
      var r := OneRecord(f, items[i], later);
      Regroup(EncodeOne(f, items[i]), EncodeTaggedFrom(f, items, i + 1), tail);
      JoinScans(EncodeOne(f, items[i]) + later, r, later, more, Scan(tail).value);
      rs := [r] + more;
      EachMore(f, items, i, r, more);
    }
  }

  // ----- messages -----

  lemma PackedArrayScans(f: Field, items: seq<Value>, tail: seq<byte>) returns (r: Record)
    requires Packable(f.ltype) && items != [] && (forall v :: v in items ==> Fits(f.ltype, v)) && Scan(tail).Some?
    ensures r.Chunk? && r.tag == f.tag && SaysPacked(f.ltype, items, r.b)
    ensures Scan(EncodeArray(f, items) + tail) == Some([r] + Scan(tail).value)
  {
    hide ScanRecord, Scan, TagBytes, VarintBytes, EncodeItemsFrom, ScanNumbers;
    var e := EncodeItemsFrom(f.ltype, items, 0);
    PackedScans(f.ltype, items, 0);
    ChunkRecord(f.tag, e, tail);
    assert EncodeArray(f, items) + tail == TagBytes(f.tag, 2) + (VarintBytes(|e|) + e + tail);
    r := Chunk(f.tag, e);
    ScanStep(EncodeArray(f, items) + tail, r, tail);
  }

  lemma FieldIs(f: Field, slot: Slot)
    requires SlotFits(f, slot)
    ensures var vs := SentValues(f, slot);
            && (forall v :: v in vs ==> Fits(f.ltype, v))
            && (if slot.Many? then slot.items == vs && EncodeField(f, slot) == EncodeArray(f, vs)
                else if vs == [] then EncodeField(f, slot) == [] else |vs| == 1 && EncodeField(f, slot) == EncodeOne(f, vs[0]))
  {
    hide Fits, IsDefault, EncodeOne, EncodeArray;
  }

  lemma EachSaysField(f: Field, slot: Slot, rs: seq<Record>)
    requires !slot.Many? || !IsNumber(f.ltype) || SentValues(f, slot) == []
    requires SaysEach(f, SentValues(f, slot), 0, rs)
    ensures SaysField(f, slot, rs)
  {
    hide Says;
  }

  lemma FieldScans(f: Field, slot: Slot, tail: seq<byte>) returns (rs: seq<Record>)
    requires SlotFits(f, slot) && Scan(tail).Some?
    ensures SaysField(f, slot, rs) && Scan(EncodeField(f, slot) + tail) == Some(rs + Scan(tail).value)
    decreases f, 2
  {
    hide Scan, ScanRecord, EncodeOne, Says, SaysPacked, IsDefault, Fits, EncodeTaggedFrom, EncodeField, SlotFits, SentValues;
    var vs := SentValues(f, slot);
    FieldIs(f, slot);
    if vs == [] {
      rs := [];
      assert [] + tail == tail && [] + Scan(tail).value == Scan(tail).value;
      EachSaysField(f, slot, rs);
    } else if slot.Many? && IsNumber(f.ltype) {
      var r := PackedArrayScans(f, vs, tail);
      rs := [r];
    } else if slot.Many? {
      rs := TaggedScans(f, vs, 0, tail);
      EachSaysField(f, slot, rs);
    } else {
      var r := OneRecord(f, vs[0], tail);
      ScanStep(EncodeOne(f, vs[0]) + tail, r, tail);
      rs := [r];
      EachSaysField(f, slot, rs);
    }
  }

  lemma {:induction false} FieldsScan(fields: seq<Field>, slots: seq<Slot>, i: nat)
    requires StructOf(fields, slots) && i <= |fields|
    ensures Scan(EncodeFrom(fields, slots, i)).Some? && SaysFrom(fields, slots, i, Scan(EncodeFrom(fields, slots, i)).value)
    decreases fields, |fields| - i
  {
    if i < |fields| {
      var tail := EncodeFrom(fields, slots, i + 1);
      FieldsScan(fields, slots, i + 1);
      assert SlotFits(fields[i], slots[i]);
      var rs := FieldScans(fields[i], slots[i], tail);
      var more := Scan(tail).value;
      assert (rs + more)[..|rs|] == rs && (rs + more)[|rs|..] == more;
    }
  }

  /** Main result: the encoding of any struct of any schema splits into whole records, and these are those of the
      fields sent, in the order of the schema, each of the wire type of its field's type and saying its value. */
  lemma EncodingScans(fields: seq<Field>, slots: seq<Slot>)
    requires StructOf(fields, slots)
    ensures Scan(Encoding(fields, slots)).Some? && SaysFrom(fields, slots, 0, Scan(Encoding(fields, slots)).value)
  {
    FieldsScan(fields, slots, 0);
  }
}
