/** What has been decoded can be encoded again, and then decodes to the same message: whatever bytes a
    message came from, the struct the decoder leaves holds no more than its arrays have room for. */
module PbReencode {
  import opened Options
  import opened Coding
  import opened PbTypes
  import opened PbDecode
  import opened PbRoundTrip

  // ----- structs that C can declare -----

  /** Integers of one, two, four or eight bytes, and arrays of less than four gigabytes, that of a string
      with room for its terminator. */
  ghost predicate Declared(t: LType)
    decreases t
  {
    match t
    case Varint(size) => size in {1, 2, 4, 8}
    case UVarint(size) => size in {1, 2, 4, 8}
    case SVarint(size) => size in {1, 2, 4, 8}
    case String(size) => 0 < size < 0x1_0000_0000
    case FixedBytes(size) => size < 0x1_0000_0000
    case Submessage(fields) => AllDeclared(fields)
    case _ => true
  }

  ghost predicate AllDeclared(fields: seq<Field>)
    decreases fields
  {
    forall i :: 0 <= i < |fields| ==> DeclaredField(fields[i])
  }

  ghost predicate DeclaredField(f: Field)
    decreases f
  {
    Declared(f.ltype)
  }

  // ----- what the decoder may leave in them -----

  ghost predicate Stored(t: LType, v: Value)
    decreases t, 0
  {
    match t
    case Bool => v == Num(0) || v == Num(1)
    case Varint(size) => v.Num? && -(Span(size) / 2) <= v.n < Span(size) / 2
    case UVarint(size) => v.Num? && 0 <= v.n < Span(size)
    case SVarint(size) => v.Num? && -(Span(size) / 2) <= v.n < Span(size) / 2
    case Fixed32 => v.Num? && 0 <= v.n < TWO32
    case Fixed64 => v.Num? && 0 <= v.n < TWO64
    case Bytes(max) => v.Data? && |v.bytes| <= max && |v.bytes| < TWO32
    case String(size) => v.Data? && |v.bytes| < size
    case FixedBytes(size) => v.Data? && |v.bytes| == size
    case Submessage(fields) => v.Message? && StoredSlots(fields, v.slots)
  }

  ghost predicate StoredSlot(f: Field, slot: Slot)
    decreases f, 0
  {
    match f.rule
    case Required => slot.One? && Stored(f.ltype, slot.v)
    case Singular => slot.One? && Stored(f.ltype, slot.v)
    case Optional => slot.Maybe? && (slot.o.Some? ==> Stored(f.ltype, slot.o.value))
    case Oneof(_) => slot.Maybe? && (slot.o.Some? ==> Stored(f.ltype, slot.o.value))
    case Repeated(max) => slot.Many? && |slot.items| <= max && forall v :: v in slot.items ==> Stored(f.ltype, v)
    case FixedCount(n) => slot.Many? && |slot.items| <= n && forall v :: v in slot.items ==> Stored(f.ltype, v)
  }

  /** Apart from the fixed array that is being filled. */
  ghost predicate LooseSlots(fields: seq<Field>, slots: seq<Slot>)
    decreases fields, 0
  {
    && |slots| == |fields|
    && (forall i :: 0 <= i < |fields| ==> StoredSlot(fields[i], slots[i]))
    && forall i, j {:trigger SameUnion(fields[i], fields[j])} :: 0 <= i < j < |fields| && SameUnion(fields[i], fields[j]) ==>
         slots[i] == Maybe(None) || slots[j] == Maybe(None)
  }

  /** A fixed array has come in whole or not at all. */
  predicate Whole(f: Field, slot: Slot) {
    f.rule.FixedCount? && slot.Many? ==> slot.items == [] || |slot.items| == f.rule.count
  }

  ghost predicate StoredSlots(fields: seq<Field>, slots: seq<Slot>)
    decreases fields, 1
  {
    LooseSlots(fields, slots) && forall i :: 0 <= i < |fields| ==> Whole(fields[i], slots[i])
  }

  lemma {:induction false} DefaultStored(t: LType)
    requires Declared(t)
    ensures Stored(t, DefaultValue(t))
    decreases t
  {
    match t
    case Submessage(fields) =>
      assert AllDeclared(fields);
      forall i | 0 <= i < |fields| ensures StoredSlot(fields[i], DefaultSlot(fields[i])) {
        DefaultStored(fields[i].ltype);
      }
    case FixedBytes(size) => assert |Zeros(size)| == size;
    case _ =>
  }

  // ----- decoding keeps to the struct -----

  lemma SignedInRange(w: nat, size: nat)
    ensures -(Span(size) / 2) <= Signed(w, size) < Span(size) / 2
  {
  }

  lemma {:induction false} ValueStored(t: LType, base: Value, s: seq<byte>)
    requires Declared(t) && Stored(t, base) && DecodeValue(t, base, s).Some?
    ensures Stored(t, DecodeValue(t, base, s).value.value)
    decreases |s|, 0
  {
    match t
    case Submessage(fields) =>
      hide Stored, StoredSlots;
      MessageStored(fields, base.slots, Delimited(s).value.value);
    case _ => PlainStored(t, base, s);
  }

  lemma PlainStored(t: LType, base: Value, s: seq<byte>)
    requires Declared(t) && !t.Submessage? && DecodeValue(t, base, s).Some?
    ensures Stored(t, DecodeValue(t, base, s).value.value)
  {
    hide Varint32, Varint64, UnZigZag, Signed, DecodeFixed32, DecodeFixed64;
    match t
    case Varint(size) =>
      var w := Varint64(s).value.value;
      var n := if size == 8 then Signed(w, 8) else Signed(w, 4);
      SignedInRange(n % TWO64, size);
      SignedInRange(w, 8);
    case SVarint(size) => SignedInRange(UnZigZag(Varint64(s).value.value) % TWO64, size);
    case FixedBytes(size) => assert |Zeros(size)| == size;
    case _ =>
  }

  lemma {:induction false} PackedStored(t: LType, max: nat, items: seq<Value>, s: seq<byte>)
    requires Declared(t) && |items| <= max && (forall v :: v in items ==> Stored(t, v)) && DecodePacked(t, max, items, s).Some?
    ensures |DecodePacked(t, max, items, s).value| <= max
    ensures forall v :: v in DecodePacked(t, max, items, s).value ==> Stored(t, v)
    decreases |s|, 1
  {
    hide Stored;
    if s != [] {
      DefaultStored(t);
      ValueStored(t, DefaultValue(t), s);
      var v := DecodeValue(t, DefaultValue(t), s).value;
      PackedStored(t, max, items + [v.value], v.rest);
    }
  }

  lemma {:induction false} ItemsStored(f: Field, max: nat, items: seq<Value>, k: nat, wireType: nat, s: seq<byte>)
    requires Declared(f.ltype) && k <= |items| <= max && (forall v :: v in items ==> Stored(f.ltype, v))
    requires DecodeItems(f, max, items, k, wireType, s).Some?
    ensures var got := DecodeItems(f, max, items, k, wireType, s).value.value;
            |got| <= max && forall v :: v in got ==> Stored(f.ltype, v)
    decreases |s|, 2
  {
    hide Stored;
    if wireType == 2 && Packable(f.ltype) {
      PackedStored(f.ltype, max, items[..k], Delimited(s).value.value);
    } else {
      DefaultStored(f.ltype);
      ValueStored(f.ltype, DefaultValue(f.ltype), s);
    }
  }

  /** Each fixed array but the one being filled is whole or empty. */
  ghost predicate Others(fields: seq<Field>, p: Progress) {
    LooseSlots(fields, p.slots) && forall j :: 0 <= j < |fields| && p.fixedField != Some(j) ==> Whole(fields[j], p.slots[j])
  }

  /** Of the one being filled there is as much as is counted. */
  ghost predicate Filling(fields: seq<Field>, p: Progress) {
    && Others(fields, p)
    && (p.fixedField.Some? ==>
          && p.fixedField.value < |fields| && p.slots[p.fixedField.value].Many?
          && |p.slots[p.fixedField.value].items| == p.fixedSize)
  }

  lemma PlainSet(fields: seq<Field>, p: Progress, i: nat, slot: Slot)
    requires Filling(fields, p) && i < |fields| && StoredSlot(fields[i], slot)
    requires !fields[i].rule.Oneof? && !fields[i].rule.FixedCount? && p.fixedField != Some(i)
    ensures Filling(fields, p.(slots := p.slots[i := slot]))
  {
    hide StoredSlot;
    assert LooseSlots(fields, p.slots[i := slot]);
  }

  lemma UnionSet(fields: seq<Field>, p: Progress, i: nat, v: Value)
    requires Filling(fields, p) && i < |fields| && fields[i].rule.Oneof? && Stored(fields[i].ltype, v)
    requires p.fixedField.Some? ==> p.fixedField.value < |fields| && fields[p.fixedField.value].rule.FixedCount?
    ensures Filling(fields, p.(slots := Choose(fields, p.slots, i, v)))
  {
    hide Stored;
    assert LooseSlots(fields, Choose(fields, p.slots, i, v));
  }

  lemma FixedSet(fields: seq<Field>, p: Progress, i: nat, items: seq<Value>)
    requires Others(fields, p) && i < |fields| && p.fixedField == Some(i) && fields[i].rule.FixedCount?
    requires |items| <= fields[i].rule.count && forall v :: v in items ==> Stored(fields[i].ltype, v)
    ensures Filling(fields, p.(slots := p.slots[i := Many(items)], fixedSize := |items|))
  {
    hide Stored;
    assert LooseSlots(fields, p.slots[i := Many(items)]);
  }

  lemma FieldMet(fields: seq<Field>, p: Progress, i: nat)
    requires Filling(fields, p) && i < |fields| && Meet(fields, p, i).Some?
    ensures var met := Meet(fields, p, i).value; Others(fields, met) && (met.fixedField != Some(i) ==> Filling(fields, met))
  {
    hide LooseSlots, RequiredBefore;
  }

  lemma {:induction false} FieldStored(fields: seq<Field>, p: Progress, i: nat, wireType: nat, s: seq<byte>)
    requires AllDeclared(fields) && i < |fields| && Others(fields, p) && (p.fixedField != Some(i) ==> Filling(fields, p))
    requires DecodeField(fields, p, i, wireType, s).Some?
    ensures Filling(fields, DecodeField(fields, p, i, wireType, s).value.value)
    decreases |s|, 3
  {
    hide Stored, Others, Filling, DecodeValue, DecodeItems, Choose, Declared, AllDeclared;
    var f, slot := fields[i], p.slots[i];
    SlotThere(fields, p, i);
    match f.rule
    case Repeated(max) =>
      ItemsStored(f, max, slot.items, |slot.items|, wireType, s);
      PlainSet(fields, p, i, Many(DecodeItems(f, max, slot.items, |slot.items|, wireType, s).value.value));
    case FixedCount(n) =>
      ItemsStored(f, n, slot.items, p.fixedSize, wireType, s);
      FixedSet(fields, p, i, DecodeItems(f, n, slot.items, p.fixedSize, wireType, s).value.value);
    case _ =>
      DefaultStored(f.ltype);
      var base := Base(f, slot);
      ValueStored(f.ltype, base, s);
      var v := DecodeValue(f.ltype, base, s).value.value;
      if f.rule.Oneof? {
        UnionSet(fields, p, i, v);
      } else {
        PlainSet(fields, p, i, if slot.One? then One(v) else Maybe(Some(v)));
      }
  }

  lemma SlotThere(fields: seq<Field>, p: Progress, i: nat)
    requires AllDeclared(fields) && Others(fields, p) && i < |fields|
    ensures |p.slots| == |fields| && Declared(fields[i].ltype) && StoredSlot(fields[i], p.slots[i])
  {
    assert DeclaredField(fields[i]);
  }

  lemma {:induction false} FieldsStored(fields: seq<Field>, p: Progress, s: seq<byte>)
    requires AllDeclared(fields) && Filling(fields, p) && DecodeFields(fields, p, s).Some?
    ensures Filling(fields, DecodeFields(fields, p, s).value)
    decreases |s|, 4
  {
    hide Others, Filling, AllDeclared, Varint32, SkipField, FindField, DecodeField, Meet, GoodProgress;
    if s != [] && Varint32(s).value.value != 0 {
      var t := Varint32(s).value;
      var tag, wireType, rest := t.value / 8, t.value % 8, t.rest;
      if fields == [] && tag == 0 {
        FieldsStored(fields, p, Varint32(rest).value.rest);
      } else if FindField(fields, tag).None? {
        FieldsStored(fields, p, SkipField(rest, wireType).value);
      } else {
        var i := FindField(fields, tag).value;
        var met := Meet(fields, p, i).value;
        FieldMet(fields, p, i);
        FieldStored(fields, met, i, wireType, rest);
        var d := DecodeField(fields, met, i, wireType, rest).value;
        FieldsStored(fields, d.value, d.rest);
      }
    }
  }

  lemma {:induction false} MessageStored(fields: seq<Field>, slots: seq<Slot>, s: seq<byte>)
    requires AllDeclared(fields) && StoredSlots(fields, slots) && DecodeNoInit(fields, slots, s).Some?
    ensures StoredSlots(fields, DecodeNoInit(fields, slots, s).value)
    decreases |s|, 5
  {
    hide LooseSlots, AllDeclared, DecodeFields;
    FieldsStored(fields, Progress(slots, {}, None, 0), s);
  }

  // ----- encoding it again -----

  /** No string has a zero inside, and each fixed array has come. */
  ghost predicate Clean(t: LType, v: Value)
    decreases t
  {
    match t
    case String(_) => v.Data? && 0 !in v.bytes
    case Submessage(fields) => v.Message? && AllClean(fields, v.slots)
    case _ => true
  }

  ghost predicate CleanSlot(f: Field, slot: Slot)
    decreases f
  {
    match slot
    case One(v) => Clean(f.ltype, v)
    case Maybe(o) => o.Some? ==> Clean(f.ltype, o.value)
    case Many(items) => (f.rule.FixedCount? ==> f.rule.count == 0 || items != []) && forall v :: v in items ==> Clean(f.ltype, v)
  }

  ghost predicate AllClean(fields: seq<Field>, slots: seq<Slot>)
    decreases fields
  {
    |slots| == |fields| && forall i :: 0 <= i < |fields| ==> CleanSlot(fields[i], slots[i])
  }

  lemma {:induction false} StoredValueFits(t: LType, v: Value)
    requires GoodType(t) && Declared(t) && Stored(t, v)
    ensures CanEncodeValue(t, v) && Sound(t, v) && (Fits(t, v) <==> Clean(t, v))
    decreases t, 0
  {
    match t
    case Submessage(fields) => StoredFits(fields, v.slots);
    case _ =>
  }

  lemma {:induction false} StoredSlotFits(f: Field, slot: Slot)
    requires GoodField(f) && DeclaredField(f) && StoredSlot(f, slot) && Whole(f, slot)
    ensures CanEncodeSlot(f, slot) && SoundSlot(f, slot) && (SlotFits(f, slot) <==> CleanSlot(f, slot))
    decreases f, 1
  {
    hide Stored, Declared, Fits, Clean, Sound, CanEncodeValue;
    match slot
    case One(v) => StoredValueFits(f.ltype, v);
    case Maybe(o) =>
      if o.Some? {
        StoredValueFits(f.ltype, o.value);
      }
    case Many(items) =>
      forall v | v in items ensures CanEncodeValue(f.ltype, v) && Sound(f.ltype, v) && (Fits(f.ltype, v) <==> Clean(f.ltype, v)) {
        StoredValueFits(f.ltype, v);
      }
  }

  lemma {:induction false} StoredFits(fields: seq<Field>, slots: seq<Slot>)
    requires GoodSchema(fields) && AllDeclared(fields) && StoredSlots(fields, slots)
    ensures CanEncode(fields, slots) && SoundMessage(fields, slots) && (StructOf(fields, slots) <==> AllClean(fields, slots))
    decreases fields, 2
  {
    hide Stored, StoredSlot, SlotFits, CleanSlot, SoundSlot, CanEncodeSlot, GoodField, Whole;
    forall i | 0 <= i < |fields|
      ensures CanEncodeSlot(fields[i], slots[i]) && SoundSlot(fields[i], slots[i])
      ensures SlotFits(fields[i], slots[i]) <==> CleanSlot(fields[i], slots[i])
    {
      StoredSlotFits(fields[i], slots[i]);
    }
  }

  lemma DecodedStored(fields: seq<Field>, s: seq<byte>)
    requires AllDeclared(fields) && Decode(fields, s).Some?
    ensures StoredSlots(fields, Decode(fields, s).value)
  {
    hide Stored, AllDeclared, DecodeFields, Complete;
    DefaultStored(Submessage(fields));
    MessageStored(fields, DefaultSlots(fields), s);
  }

  /** Main result: the encoder takes every message that the decoder made, from whatever bytes; and it is a
      message that comes back as it was, exactly if no string has a zero inside and no fixed array is
      missing. */
  lemma Reencoded(fields: seq<Field>, s: seq<byte>, tail: seq<byte>)
    requires GoodSchema(fields) && AllDeclared(fields) && Decode(fields, s).Some?
    requires tail == [] || tail[0] == 0
    ensures var slots := Decode(fields, s).value;
            && CanEncode(fields, slots)
            && (StructOf(fields, slots) <==> AllClean(fields, slots))
            && (AllClean(fields, slots) && |Encoding(fields, slots)| < TWO32 ==>
                  Decode(fields, Encoding(fields, slots) + tail) == Some(slots))
  {
    hide Decode, StoredSlots, AllDeclared, AllClean, StructOf, CanEncode, SoundMessage, GoodSchema, Encoding;
    var slots := Decode(fields, s).value;
    DecodedStored(fields, s);
    StoredFits(fields, slots);
    if AllClean(fields, slots) && |Encoding(fields, slots)| < TWO32 {
      MessageRoundTrip(fields, slots, tail);
    }
  }
}
