/** The encoder (nanopb's pb_encode.c): each message is written to a stream, a nested one after a
    sizing pass that writes nowhere and only counts. */
module PbEncode {
  import opened Coding
  import opened PbTypes

  /** A stream into a buffer of `maxSize` bytes, or one without a callback that only counts. */
  class OStream {
    const writes: bool
    const maxSize: nat
    var state: seq<byte>
    var bytesWritten: nat

    constructor (writes: bool, maxSize: nat, state: seq<byte>)
      ensures this.writes == writes && this.maxSize == maxSize && this.state == state && bytesWritten == 0
    {
      this.writes, this.maxSize, this.state, bytesWritten := writes, maxSize, state, 0;
    }

    ghost predicate Valid()
      reads this
    {
      writes ==> bytesWritten <= maxSize
    }

    /** The outcome of writing `bytes`: it succeeds exactly if the data is fit for it and there is room,
        and then it has counted them all and, unless only sizing, written them all. */
    ghost predicate Wrote(ok: bool, can: bool, before: nat, was: seq<byte>, bytes: seq<byte>)
      reads this
    {
      && Valid()
      && (ok <==> can && (writes ==> before + |bytes| <= maxSize))
      && (ok ==> bytesWritten == before + |bytes| && state == if writes then was + bytes else was)
    }

    /** `rest` is still to come of the `total` to be written. */
    ghost predicate Left(rest: seq<byte>, before: nat, was: seq<byte>, total: seq<byte>)
      reads this
    {
      && Valid()
      && bytesWritten + |rest| == before + |total|
      && if writes then state + rest == was + total else state == was
    }

    /** After writing the next `chunk` of what is left. */
    lemma Proceed(chunk: seq<byte>, rest: seq<byte>, written: nat, had: seq<byte>, before: nat, was: seq<byte>, total: seq<byte>)
      requires Valid() && bytesWritten == written + |chunk| && state == if writes then had + chunk else had
      requires written + |chunk + rest| == before + |total|
      requires if writes then had + (chunk + rest) == was + total else had == was
      ensures Left(rest, before, was, total)
    {
      assert had + chunk + rest == had + (chunk + rest);
    }

    method Write(buf: seq<byte>) returns (ok: bool)
      requires Valid()
      modifies this
      ensures Wrote(ok, true, old(bytesWritten), old(state), buf)
    {
      if |buf| > 0 && writes {
        if bytesWritten + |buf| > maxSize {
          return false;
        }
        state := state + buf;
      }
      bytesWritten := bytesWritten + |buf|;
      return true;
    }

    /** Counts bytes without having them. */
    method Count(size: nat)
      requires !writes
      modifies this
      ensures bytesWritten == old(bytesWritten) + size && state == old(state)
    {
      bytesWritten := bytesWritten + size;
    }
  }

  lemma TenBytes(value: nat)
    requires value < TWO64
    ensures |VarintBytes(value)| <= 10
  {
    TwoTo64();
    VarintLength(value, 10);
  }

  lemma VarintStep(done: seq<byte>, v: nat)
    requires v > 0
    ensures v >= 128 ==> done + VarintBytes(v) == done + [v % 128 + 128] + VarintBytes(v / 128)
    ensures v < 128 ==> done + VarintBytes(v) == done + [v % 128 + 128 - 128] && v / 128 == 0
  {
  }

  /** The shortest form of the number fits the ten bytes of the buffer. */
  method FillVarint(buffer: array<byte>, value: nat) returns (n: nat)
    requires buffer.Length == 10 && 0x7F < value < TWO64
    modifies buffer
    ensures n <= 10 && buffer[..n] == VarintBytes(value)
  {
    n := 0;
    var v: nat := value;
    TenBytes(value);
    ghost var done: seq<byte> := [];
    while v != 0
      invariant n <= 10
      invariant n == 0 ==> v == value
      invariant v != 0 ==> done == buffer[..n] && VarintBytes(value) == done + VarintBytes(v)
      invariant v == 0 ==> n > 0 && buffer[n - 1] >= 128 && done == buffer[..n - 1] && VarintBytes(value) == done + [buffer[n - 1] - 128]
    {
      VarintStep(done, v);
      buffer[n] := v % 128 + 128;
      if v >= 128 {
        done := done + [buffer[n]];
      }
      v := v / 128;
      n := n + 1;
    }
    buffer[n - 1] := buffer[n - 1] % 128;
    assert buffer[..n] == done + [buffer[n - 1]];
  }

  method EncodeVarint(stream: OStream, value: nat) returns (ok: bool)
    requires stream.Valid() && value < TWO64
    modifies stream
    ensures stream.Wrote(ok, true, old(stream.bytesWritten), old(stream.state), VarintBytes(value))
  {
    if value <= 0x7F {
      ok := stream.Write([value]);
      return;
    }
    var buffer := new byte[10];
    var n := FillVarint(buffer, value);
    ok := stream.Write(buffer[..n]);
  }

  /** Signed numbers alternate: 0, -1, 1, -2, ... */
  lemma ZigZagIsComplement(value: int)
    requires -(TWO64 / 2) <= value < TWO64 / 2
    ensures ZigZag(value) == if value < 0 then TWO64 - 1 - 2 * (value % TWO64) % TWO64 else 2 * (value % TWO64) % TWO64
    ensures ZigZag(value) < TWO64
  {
    if value < 0 {
      assert value % TWO64 == value + TWO64;
      assert 2 * (value + TWO64) == (2 * value + TWO64) + TWO64;
    }
  }

  method EncodeSVarint(stream: OStream, value: int) returns (ok: bool)
    requires stream.Valid() && -(TWO64 / 2) <= value < TWO64 / 2
    modifies stream
    ensures stream.Wrote(ok, true, old(stream.bytesWritten), old(stream.state), VarintBytes(ZigZag(value)))
  {
    ZigZagIsComplement(value);
    var zigzagged;
    if value < 0 {
      zigzagged := TWO64 - 1 - 2 * (value % TWO64) % TWO64;
    } else {
      zigzagged := 2 * (value % TWO64) % TWO64;
    }
    ok := EncodeVarint(stream, zigzagged);
  }

  method EncodeTag(stream: OStream, wireType: nat, fieldNumber: nat) returns (ok: bool)
    requires stream.Valid() && wireType < 8 && fieldNumber < TWO32
    modifies stream
    ensures stream.Wrote(ok, true, old(stream.bytesWritten), old(stream.state), TagBytes(fieldNumber, wireType))
  {
    ok := EncodeVarint(stream, fieldNumber * 8 + wireType);
  }

  method EncodeString(stream: OStream, buffer: seq<byte>) returns (ok: bool)
    requires stream.Valid() && |buffer| < TWO32
    modifies stream
    ensures stream.Wrote(ok, true, old(stream.bytesWritten), old(stream.state), VarintBytes(|buffer|) + buffer)
  {
    ok := EncodeVarint(stream, |buffer|);
    if ok {
      ok := stream.Write(buffer);
    }
  }

  /** proto3's test for a value that need not be sent. */
  method CheckProto3DefaultValue(f: Field, slot: Slot) returns (b: bool)
    requires SlotFits(f, slot)
    ensures b <==> IsDefaultSlot(f, slot)
    decreases f
  {
    match f.rule
    case Required => return false;
    case Repeated(_) => return |slot.items| == 0;
    case FixedCount(_) => return false;
    case Oneof(_) => return slot.o.None?;
    case Optional => return slot.o.None?;
    case Singular =>
      match f.ltype
      case Bytes(_) => return |slot.v.bytes| == 0;
      case String(_) => return |slot.v.bytes| == 0;
      case FixedBytes(size) => return size == 0;
      case Submessage(fields) =>
        var slots := slot.v.slots;
        assert StructOf(fields, slots);
        for i := 0 to |fields|
          invariant forall j :: 0 <= j < i ==> IsDefaultSlot(fields[j], slots[j])
        {
          var zero := CheckProto3DefaultValue(fields[i], slots[i]);
          if !zero {
            return false;
          }
        }
        return true;
      case _ => return slot.v.n == 0;
  }

  method EncodeDatum(stream: OStream, t: LType, v: Value) returns (ok: bool)
    requires stream.Valid() && Fits(t, v) && |EncodeValue(t, v)| < TWO64
    modifies stream
    ensures stream.Wrote(ok, CanEncodeValue(t, v), old(stream.bytesWritten), old(stream.state), EncodeValue(t, v))
    decreases t, 0
  {
    match t
    case Bool => ok := EncodeVarint(stream, if v.n != 0 then 1 else 0);
    case Varint(size) =>
      if !IntSize(size) {
        return false;
      }
      ok := EncodeVarint(stream, v.n % TWO64);
    case UVarint(size) =>
      if !IntSize(size) {
        return false;
      }
      ok := EncodeVarint(stream, v.n);
    case SVarint(size) =>
      if !IntSize(size) {
        return false;
      }
      ok := EncodeSVarint(stream, v.n);
    case Fixed32 => ok := stream.Write(EncodeFixed32(v.n));
    case Fixed64 => ok := stream.Write(EncodeFixed64(v.n));
    case Bytes(max) =>
      if |v.bytes| > max {
        return false;
      }
      ok := EncodeString(stream, v.bytes);
    case String(_) => ok := EncodeString(stream, v.bytes);
    case FixedBytes(_) => ok := EncodeString(stream, v.bytes);
    case Submessage(fields) => ok := EncodeSubmessage(stream, fields, v.slots);
  }

  /** Sizes the message first, then writes it to a substream with exactly that much room. */
  method EncodeSubmessage(stream: OStream, fields: seq<Field>, slots: seq<Slot>) returns (ok: bool)
    requires stream.Valid() && StructOf(fields, slots) && |Encoding(fields, slots)| < TWO64
    modifies stream
    ensures var e := Encoding(fields, slots);
            stream.Wrote(ok, CanEncode(fields, slots), old(stream.bytesWritten), old(stream.state), VarintBytes(|e|) + e)
    decreases fields, 1
  {
    var substream := new OStream(false, 0, []);
    ok := Encode(substream, fields, slots);
    if !ok {
      return;
    }
    var size := substream.bytesWritten;
    ok := EncodeVarint(stream, size);
    if !ok {
      return;
    }
    if !stream.writes {
      stream.Count(size);
      return;
    }
    if stream.bytesWritten + size > stream.maxSize {
      return false;
    }
    substream := new OStream(true, size, stream.state);
    ok := Encode(substream, fields, slots);
    stream.bytesWritten := stream.bytesWritten + substream.bytesWritten;
    stream.state := substream.state;
    if substream.bytesWritten != size {
      assert false;  // the size of a submessage never changes between the passes
    }
  }

  /** Each of the items, one after the other. */
  method EncodeItems(stream: OStream, t: LType, items: seq<Value>) returns (ok: bool)
    requires stream.Valid() && (forall v :: v in items ==> Fits(t, v)) && |EncodeItemsFrom(t, items, 0)| < TWO64
    modifies stream
    ensures stream.Wrote(ok, forall v :: v in items ==> CanEncodeValue(t, v), old(stream.bytesWritten), old(stream.state),
                         EncodeItemsFrom(t, items, 0))
    decreases t, 1
  {
    hide EncodeValue, Fits, CanEncodeValue;
    ghost var total, before, was := EncodeItemsFrom(t, items, 0), stream.bytesWritten, stream.state;
    ghost var rest := total;
    for i := 0 to |items|
      invariant stream.Valid()
      invariant forall j :: 0 <= j < i ==> CanEncodeValue(t, items[j])
      invariant rest == EncodeItemsFrom(t, items, i) && |rest| < TWO64
      invariant stream.Left(rest, before, was, total)
    {
      ghost var n, had, chunk := stream.bytesWritten, stream.state, EncodeValue(t, items[i]);
      rest := EncodeItemsFrom(t, items, i + 1);
      ok := EncodeDatum(stream, t, items[i]);
      if !ok {
        return;
      }
      stream.Proceed(chunk, rest, n, had, before, was, total);
    }
    ok := true;
  }

  /** Each of the items with a tag of its own. */
  method EncodeTaggedItems(stream: OStream, f: Field, items: seq<Value>) returns (ok: bool)
    requires stream.Valid() && f.tag < TWO32
    requires (forall v :: v in items ==> Fits(f.ltype, v)) && |EncodeTaggedFrom(f, items, 0)| < TWO64
    modifies stream
    ensures stream.Wrote(ok, forall v :: v in items ==> CanEncodeValue(f.ltype, v), old(stream.bytesWritten), old(stream.state),
                         EncodeTaggedFrom(f, items, 0))
    decreases f, 1
  {
    for i := 0 to |items|
      invariant stream.Valid()
      invariant forall j :: 0 <= j < i ==> CanEncodeValue(f.ltype, items[j])
      invariant |EncodeTaggedFrom(f, items, i)| < TWO64
      invariant stream.Left(EncodeTaggedFrom(f, items, i), old(stream.bytesWritten), old(stream.state), EncodeTaggedFrom(f, items, 0))
    {
      ghost var n, had := stream.bytesWritten, stream.state;
      ok := EncodeTagged(stream, f, items[i]);
      if !ok {
        return;
      }
      stream.Proceed(EncodeOne(f, items[i]), EncodeTaggedFrom(f, items, i + 1), n, had,
                     old(stream.bytesWritten), old(stream.state), EncodeTaggedFrom(f, items, 0));
    }
    ok := true;
  }

  lemma {:induction false} FixedSizes(t: LType, items: seq<Value>, i: nat)
    requires (t.Fixed32? || t.Fixed64?) && i <= |items| && forall v :: v in items ==> Fits(t, v)
    ensures |EncodeItemsFrom(t, items, i)| == (|items| - i) * if t.Fixed32? then 4 else 8
    decreases |items| - i
  {
    if i < |items| {
      FixedSizes(t, items, i + 1);
    }
  }

  /** The size of a packed array, without writing it. */
  method PackedSize(t: LType, items: seq<Value>) returns (ok: bool, size: nat)
    requires (forall v :: v in items ==> Fits(t, v)) && |EncodeItemsFrom(t, items, 0)| < TWO64 && Packable(t)
    ensures ok <==> forall v :: v in items ==> CanEncodeValue(t, v)
    ensures ok ==> size == |EncodeItemsFrom(t, items, 0)|
    decreases t, 2
  {
    if t.Fixed32? || t.Fixed64? {
      FixedSizes(t, items, 0);
      return true, (if t.Fixed32? then 4 else 8) * |items|;
    }
    var sizestream := new OStream(false, 0, []);
    ok := EncodeItems(sizestream, t, items);
    size := sizestream.bytesWritten;
  }

  method EncodeRepeated(stream: OStream, f: Field, items: seq<Value>) returns (ok: bool)
    requires stream.Valid() && (f.rule.Repeated? || f.rule.FixedCount?) && SlotFits(f, Many(items))
    requires |EncodeArray(f, items)| < TWO64
    modifies stream
    ensures stream.Wrote(ok, CanEncodeSlot(f, Many(items)), old(stream.bytesWritten), old(stream.state), EncodeArray(f, items))
    decreases f, 2
  {
    if |items| == 0 {
      return true;
    }
    if f.rule.Repeated? && |items| > f.rule.max {
      return false;
    }
    if !Packable(f.ltype) {
      ok := EncodeTaggedItems(stream, f, items);
      return;
    }
    ok := EncodeTag(stream, 2, f.tag);
    if !ok {
      return;
    }
    var size;
    ok, size := PackedSize(f.ltype, items);
    if !ok {
      return;
    }
    ok := EncodeVarint(stream, size);
    if !ok {
      return;
    }
    if !stream.writes {
      stream.Count(size);
      return;
    }
    ok := EncodeItems(stream, f.ltype, items);
  }

  method EncodeBasicField(stream: OStream, f: Field, slot: Slot) returns (ok: bool)
    requires stream.Valid() && SlotFits(f, slot) && |EncodeField(f, slot)| < TWO64
    modifies stream
    ensures stream.Wrote(ok, CanEncodeSlot(f, slot), old(stream.bytesWritten), old(stream.state), EncodeField(f, slot))
    decreases f, 3
  {
    match f.rule
    case Required => ok := EncodeTagged(stream, f, slot.v);
    case Singular =>
      var zero := CheckProto3DefaultValue(f, slot);
      if zero {
        return true;
      }
      ok := EncodeTagged(stream, f, slot.v);
    case Optional =>
      if slot.o.None? {
        return true;
      }
      ok := EncodeTagged(stream, f, slot.o.value);
    case Oneof(_) =>
      if slot.o.None? {
        return true;
      }
      ok := EncodeTagged(stream, f, slot.o.value);
    case Repeated(_) => ok := EncodeRepeated(stream, f, slot.items);
    case FixedCount(_) => ok := EncodeRepeated(stream, f, slot.items);
  }

  method EncodeTagged(stream: OStream, f: Field, v: Value) returns (ok: bool)
    requires stream.Valid() && f.tag < TWO32 && Fits(f.ltype, v) && |EncodeOne(f, v)| < TWO64
    modifies stream
    ensures stream.Wrote(ok, CanEncodeValue(f.ltype, v), old(stream.bytesWritten), old(stream.state), EncodeOne(f, v))
    decreases f, 0
  {
    ok := EncodeTag(stream, WireType(f.ltype), f.tag);
    if ok {
      ok := EncodeDatum(stream, f.ltype, v);
    }
  }

  /** Main result of the encoder, for sizing and writing streams alike: it succeeds exactly when every
      count and size kept in the struct is within its array and the whole encoding fits the stream. */
  method Encode(stream: OStream, fields: seq<Field>, slots: seq<Slot>) returns (ok: bool)
    requires stream.Valid() && StructOf(fields, slots) && |Encoding(fields, slots)| < TWO64
    modifies stream
    ensures stream.Wrote(ok, CanEncode(fields, slots), old(stream.bytesWritten), old(stream.state), Encoding(fields, slots))
    decreases fields, 0
  {
    for i := 0 to |fields|
      invariant stream.Valid()
      invariant forall j :: 0 <= j < i ==> CanEncodeSlot(fields[j], slots[j])
      invariant |EncodeFrom(fields, slots, i)| < TWO64
      invariant stream.Left(EncodeFrom(fields, slots, i), old(stream.bytesWritten), old(stream.state), EncodeFrom(fields, slots, 0))
    {
      ghost var n, had := stream.bytesWritten, stream.state;
      ok := EncodeBasicField(stream, fields[i], slots[i]);
      if !ok {
        return;
      }
      stream.Proceed(EncodeField(fields[i], slots[i]), EncodeFrom(fields, slots, i + 1), n, had,
                     old(stream.bytesWritten), old(stream.state), Encoding(fields, slots));
    }
    ok := true;
  }

  /** The size is that of what writing gives. */
  method GetEncodedSize(fields: seq<Field>, slots: seq<Slot>) returns (ok: bool, size: nat)
    requires StructOf(fields, slots) && |Encoding(fields, slots)| < TWO64
    ensures ok <==> CanEncode(fields, slots)
    ensures ok ==> size == |Encoding(fields, slots)|
  {
    var stream := new OStream(false, 0, []);
    ok := Encode(stream, fields, slots);
    size := stream.bytesWritten;
  }
}
