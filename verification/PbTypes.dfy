/** Field descriptions and message structs of the protobuf codec (nanopb's pb.h and pb_common.c),
    for statically allocated fields: a struct is a list of slots, one for each field. */
module PbTypes {
  import opened Options
  import opened Coding

  /** What a field holds. The sizes are those of the C type: 1, 2, 4 or 8 bytes for integers, the room in
      a byte array, the char array with its terminator. */
  datatype LType =
    | Bool
    | Varint(size: nat)
    | UVarint(size: nat)
    | SVarint(size: nat)
    | Fixed32
    | Fixed64
    | Bytes(max: nat)
    | String(size: nat)
    | FixedBytes(size: nat)
    | Submessage(fields: seq<Field>)

  /** How often it occurs: Optional has a has_ flag, Singular is proto3's field without one, Repeated
      has a count, FixedCount fills its array, and the fields of one union share a which_ tag. */
  datatype Rule = Required | Optional | Singular | Repeated(max: nat) | FixedCount(count: nat) | Oneof(union_: nat)

  datatype Field = Field(tag: nat, rule: Rule, ltype: LType)

  datatype Value = Num(n: int) | Data(bytes: seq<byte>) | Message(slots: seq<Slot>)

  /** `Maybe` is a has_ flag or a which_ tag with its datum, `Many` the counted part of an array. */
  datatype Slot = One(v: Value) | Maybe(o: Option<Value>) | Many(items: seq<Value>)

  /** The number of values of an integer of `size` bytes. */
  function Span(size: nat): nat {
    if size == 1 then 0x100
    else if size == 2 then 0x1_0000
    else if size == 4 then TWO32
    else TWO64
  }

  predicate IntSize(size: nat) {
    size == 1 || size == 2 || size == 4 || size == 8
  }

  /** Two's complement: the signed reading of the low bits of `w`. */
  function Signed(w: nat, size: nat): int {
    var low := w % Span(size);
    if low < Span(size) / 2 then low else low - Span(size)
  }

  predicate Packable(t: LType) {
    t.Bool? || t.Varint? || t.UVarint? || t.SVarint? || t.Fixed32? || t.Fixed64?
  }

  // ----- schemas -----

  /** Each field has a tag of its own that leaves room for the wire type in 32 bits. */
  ghost predicate GoodType(t: LType)
    decreases t
  {
    t.Submessage? ==> GoodSchema(t.fields)
  }

  ghost predicate GoodField(f: Field)
    decreases f
  {
    0 < f.tag < TWO32 / 8 && GoodType(f.ltype)
  }

  predicate TagsDiffer(f: Field, g: Field) {
    f.tag != g.tag
  }

  ghost predicate GoodSchema(fields: seq<Field>)
    decreases fields
  {
    && (forall i :: 0 <= i < |fields| ==> GoodField(fields[i]))
    && forall i, j {:trigger TagsDiffer(fields[i], fields[j])} :: 0 <= i < j < |fields| ==> TagsDiffer(fields[i], fields[j])
  }

  // ----- the structs the C compiler accepts -----

  /** The value is one the C type can hold. A string is what its char array holds up to the first zero
      or the end of the array. */
  ghost predicate Fits(t: LType, v: Value)
    decreases t
  {
    match t
    case Bool => v == Num(0) || v == Num(1)
    case Varint(size) => v.Num? && -(Span(size) / 2) <= v.n < Span(size) / 2
    case UVarint(size) => v.Num? && 0 <= v.n < Span(size)
    case SVarint(size) => v.Num? && -(Span(size) / 2) <= v.n < Span(size) / 2
    case Fixed32 => v.Num? && 0 <= v.n < TWO32
    case Fixed64 => v.Num? && 0 <= v.n < TWO64
    case Bytes(max) => v.Data? && |v.bytes| < TWO32
    case String(size) => v.Data? && |v.bytes| <= size < TWO32 && 0 !in v.bytes
    case FixedBytes(size) => v.Data? && |v.bytes| == size < TWO32
    case Submessage(fields) => v.Message? && StructOf(fields, v.slots)
  }

  ghost predicate SlotFits(f: Field, slot: Slot)
    decreases f
  {
    f.tag < TWO32 &&
    match f.rule
    case Required => slot.One? && Fits(f.ltype, slot.v)
    case Singular => slot.One? && Fits(f.ltype, slot.v)
    case Optional => slot.Maybe? && (slot.o.Some? ==> Fits(f.ltype, slot.o.value))
    case Oneof(_) => slot.Maybe? && (slot.o.Some? ==> Fits(f.ltype, slot.o.value))
    case Repeated(_) => slot.Many? && forall v :: v in slot.items ==> Fits(f.ltype, v)
    case FixedCount(n) => slot.Many? && |slot.items| == n && forall v :: v in slot.items ==> Fits(f.ltype, v)
  }

  ghost predicate StructOf(fields: seq<Field>, slots: seq<Slot>)
    decreases fields
  {
    |slots| == |fields| && forall i :: 0 <= i < |fields| ==> SlotFits(fields[i], slots[i])
  }

  // ----- proto3's zero values -----

  ghost predicate IsDefault(t: LType, v: Value)
    decreases t
  {
    match t
    case Bytes(_) => v == Data([])
    case String(_) => v == Data([])
    case FixedBytes(size) => size == 0
    case Submessage(fields) =>
      v.Message? && |v.slots| == |fields| && forall i :: 0 <= i < |fields| ==> IsDefaultSlot(fields[i], v.slots[i])
    case _ => v == Num(0)
  }

  /** Nothing of the slot would be encoded, were it in a proto3 message. */
  ghost predicate IsDefaultSlot(f: Field, slot: Slot)
    decreases f
  {
    match f.rule
    case Required => false
    case Singular => slot.One? && IsDefault(f.ltype, slot.v)
    case Optional => slot == Maybe(None)
    case Oneof(_) => slot == Maybe(None)
    case Repeated(_) => slot == Many([])
    case FixedCount(_) => false
  }

  // ----- what the encoder accepts -----

  /** The counts and sizes kept in the struct do not exceed their arrays, as far as they are encoded. */
  ghost predicate CanEncodeValue(t: LType, v: Value)
    decreases t
  {
    match t
    case Varint(size) => IntSize(size)
    case UVarint(size) => IntSize(size)
    case SVarint(size) => IntSize(size)
    case Bytes(max) => v.Data? && |v.bytes| <= max
    case Submessage(fields) => v.Message? && CanEncode(fields, v.slots)
    case _ => true
  }

  ghost predicate CanEncodeSlot(f: Field, slot: Slot)
    decreases f
  {
    match f.rule
    case Required => slot.One? && CanEncodeValue(f.ltype, slot.v)
    case Singular => slot.One? && (IsDefault(f.ltype, slot.v) || CanEncodeValue(f.ltype, slot.v))
    case Optional => slot.Maybe? && (slot.o.Some? ==> CanEncodeValue(f.ltype, slot.o.value))
    case Oneof(_) => slot.Maybe? && (slot.o.Some? ==> CanEncodeValue(f.ltype, slot.o.value))
    case Repeated(max) => slot.Many? && |slot.items| <= max && forall v :: v in slot.items ==> CanEncodeValue(f.ltype, v)
    case FixedCount(_) => slot.Many? && forall v :: v in slot.items ==> CanEncodeValue(f.ltype, v)
  }

  ghost predicate CanEncode(fields: seq<Field>, slots: seq<Slot>)
    decreases fields
  {
    |slots| == |fields| && forall i :: 0 <= i < |fields| ==> CanEncodeSlot(fields[i], slots[i])
  }

  // ----- the encoding -----

  function ZigZag(n: int): nat {
    if n < 0 then -2 * n - 1 else 2 * n
  }

  function WireType(t: LType): nat {
    match t
    case Fixed32 => 5
    case Fixed64 => 1
    case Bytes(_) => 2
    case String(_) => 2
    case FixedBytes(_) => 2
    case Submessage(_) => 2
    case _ => 0
  }

  function TagBytes(tag: nat, wireType: nat): seq<byte> {
    VarintBytes(tag * 8 + wireType)
  }

  ghost function EncodeValue(t: LType, v: Value): (r: seq<byte>)
    requires Fits(t, v)
    ensures r != []
    decreases t, 0
  {
    match t
    case Bool => VarintBytes(v.n)
    case Varint(_) => VarintBytes(v.n % TWO64)
    case UVarint(_) => VarintBytes(v.n)
    case SVarint(_) => VarintBytes(ZigZag(v.n))
    case Fixed32 => EncodeFixed32(v.n)
    case Fixed64 => EncodeFixed64(v.n)
    case Bytes(_) => VarintBytes(|v.bytes|) + v.bytes
    case String(_) => VarintBytes(|v.bytes|) + v.bytes
    case FixedBytes(_) => VarintBytes(|v.bytes|) + v.bytes
    case Submessage(fields) =>
      var e := EncodeFrom(fields, v.slots, 0);
      VarintBytes(|e|) + e
  }

  ghost function EncodeItemsFrom(t: LType, items: seq<Value>, i: nat): seq<byte>
    requires i <= |items| && forall v :: v in items ==> Fits(t, v)
    decreases t, |items| - i
  {
    if i == |items| then [] else EncodeValue(t, items[i]) + EncodeItemsFrom(t, items, i + 1)
  }

  ghost function EncodeTaggedFrom(f: Field, items: seq<Value>, i: nat): seq<byte>
    requires i <= |items| && forall v :: v in items ==> Fits(f.ltype, v)
    decreases f, |items| - i
  {
    if i == |items| then []
    else EncodeOne(f, items[i]) + EncodeTaggedFrom(f, items, i + 1)
  }

  ghost function EncodeArray(f: Field, items: seq<Value>): seq<byte>
    requires forall v :: v in items ==> Fits(f.ltype, v)
    decreases f, |items| + 1
  {
    if items == [] then []
    else if Packable(f.ltype) then
      var e := EncodeItemsFrom(f.ltype, items, 0);
      TagBytes(f.tag, 2) + VarintBytes(|e|) + e
    else EncodeTaggedFrom(f, items, 0)
  }

  ghost function EncodeOne(f: Field, v: Value): seq<byte>
    requires Fits(f.ltype, v)
    decreases f, 0
  {
    TagBytes(f.tag, WireType(f.ltype)) + EncodeValue(f.ltype, v)
  }

  ghost function EncodeField(f: Field, slot: Slot): seq<byte>
    requires SlotFits(f, slot)
    decreases f, (if slot.Many? then |slot.items| else 0) + 2
  {
    match f.rule
    case Required => EncodeOne(f, slot.v)
    case Singular => if IsDefault(f.ltype, slot.v) then [] else EncodeOne(f, slot.v)
    case Optional => if slot.o.Some? then EncodeOne(f, slot.o.value) else []
    case Oneof(_) => if slot.o.Some? then EncodeOne(f, slot.o.value) else []
    case Repeated(_) => EncodeArray(f, slot.items)
    case FixedCount(_) => EncodeArray(f, slot.items)
  }

  /** What is written for the fields from the `i`-th on. */
  ghost function EncodeFrom(fields: seq<Field>, slots: seq<Slot>, i: nat): seq<byte>
    requires StructOf(fields, slots) && i <= |fields|
    decreases fields, |fields| - i
  {
    if i == |fields| then [] else EncodeField(fields[i], slots[i]) + EncodeFrom(fields, slots, i + 1)
  }

  ghost function Encoding(fields: seq<Field>, slots: seq<Slot>): seq<byte>
    requires StructOf(fields, slots)
  {
    EncodeFrom(fields, slots, 0)
  }
}
