/** Decoding undoes encoding, for every well-formed schema and every valid message. */
module PbRoundTrip {
  import opened Options
  import opened Coding
  import opened PbTypes
  import opened PbDecode
  import PbDecoder
  import PbEncode

  // ----- numbers -----

  lemma Digit32(s: seq<byte>, bitpos: nat, result: nat, next: nat)
    requires s != [] && bitpos < 32 && result < TWO32 && next == AddDigit(result, s[0] % 128, bitpos, TWO32)
    requires bitpos == 28 ==> s[0] < 16
    ensures Varint32From(s, bitpos, result) ==
            if s[0] >= 128 then Varint32From(s[1..], bitpos + 7, next) else Some(Read(next, s[1..]))
  {
    hide AddDigit;
  }

  lemma LastDigit(m: nat)
    requires m * Pow2(28) < Pow2(32)
    ensures m < 16
  {
    TwoTo64();
    Pow2Seven(0);
    Pow2Seven(7);
    Pow2Seven(14);
    Pow2Seven(21);
  }

  lemma {:induction false} Varint32Digits(m: nat, bitpos: nat, result: nat, rest: seq<byte>)
    requires result < Pow2(bitpos) && result + m * Pow2(bitpos) < Pow2(32) == TWO32
    requires m > 0 && bitpos % 7 == 0
    ensures Varint32From(VarintBytes(m) + rest, bitpos, result) == Some(Read(result + m * Pow2(bitpos), rest))
    decreases m
  {
    hide VarintBytes, Varint32From, Pow2, AddDigit;
    ShiftDigit(m, bitpos, result);
    PowerBelow(bitpos, 32);
    if bitpos == 28 {
      LastDigit(m);
    }
    var next := result + m % 128 * Pow2(bitpos);
    FirstDigit(m, rest);
    DigitAdded(result, m % 128, bitpos, TWO32);
    Digit32(VarintBytes(m) + rest, bitpos, result, next);
    if m >= 128 {
      Varint32Digits(m / 128, bitpos + 7, next, rest);
    }
  }

  lemma Varint32RoundTrip(n: nat, rest: seq<byte>)
    requires n < TWO32
    ensures Varint32(VarintBytes(n) + rest) == Some(Read(n, rest))
  {
    FirstDigit(n, rest);
    if n >= 128 {
      TwoTo64();
      Pow2Seven(0);
      SplitDigit(n, 1);
      Varint32Digits(n / 128, 7, n % 128, rest);
    }
  }

  lemma Parts(b: seq<byte>, rest: seq<byte>)
    ensures (b + rest)[..|b|] == b && (b + rest)[|b|..] == rest
  {
  }

  lemma LengthRoundTrip(b: seq<byte>, rest: seq<byte>)
    requires |b| < TWO32
    ensures Varint32(VarintBytes(|b|) + b + rest) == Some(Read(|b|, b + rest))
  {
    Varint32RoundTrip(|b|, b + rest);
    Regroup(VarintBytes(|b|), b, rest);
  }

  lemma DelimitedRoundTrip(b: seq<byte>, rest: seq<byte>)
    requires |b| < TWO32
    ensures Delimited(VarintBytes(|b|) + b + rest) == Some(Read(b, rest))
  {
    LengthRoundTrip(b, rest);
    Parts(b, rest);
  }

  /** Reading an integer back from the low bits of the 64 sent for it. */
  lemma SignedBack(n: int, size: nat, width: nat)
    requires IntSize(size) && IntSize(width) && size <= width && -(Span(size) / 2) <= n < Span(size) / 2
    ensures Signed(n % TWO64, width) == n
  {
    var span := Span(width);
    var q := if width == 1 then 0x100_0000_0000_0000 else if width == 2 then 0x1_0000_0000_0000 else if width == 4 then TWO32 else 1;
    assert TWO64 == span * q;
    if n < 0 {
      assert n % TWO64 == n + TWO64 == (n + span) + span * (q - 1);
      ModMultiple(n + span, span, q - 1);
    } else {
      assert n % TWO64 == n;
      ModMultiple(n, span, 0);
    }
  }

  lemma UnZigZagUndoes(n: int)
    ensures UnZigZag(ZigZag(n)) == n
  {
  }

  // ----- messages -----

  predicate SameUnion(f: Field, g: Field) {
    f.rule.Oneof? && f.rule == g.rule
  }

  /** Strings end within their arrays and a union holds one field at most. */
  ghost predicate Sound(t: LType, v: Value)
    decreases t
  {
    match t
    case String(size) => v.Data? && |v.bytes| < size
    case Submessage(fields) => v.Message? && SoundMessage(fields, v.slots)
    case _ => true
  }

  ghost predicate SoundSlot(f: Field, slot: Slot)
    decreases f
  {
    match slot
    case One(v) => Sound(f.ltype, v)
    case Maybe(o) => o.Some? ==> Sound(f.ltype, o.value)
    case Many(items) => forall v :: v in items ==> Sound(f.ltype, v)
  }

  ghost predicate SoundMessage(fields: seq<Field>, slots: seq<Slot>)
    decreases fields
  {
    && |slots| == |fields|
    && (forall i :: 0 <= i < |fields| ==> SoundSlot(fields[i], slots[i]))
    && forall i, j {:trigger SameUnion(fields[i], fields[j])} :: 0 <= i < j < |fields| && SameUnion(fields[i], fields[j]) ==>
         slots[i] == Maybe(None) || slots[j] == Maybe(None)
  }

  /** A type whose zero value says nothing: no fixed bytes, and no field that always goes on the wire. */
  ghost predicate Silent(t: LType)
    decreases t
  {
    match t
    case FixedBytes(size) => size == 0
    case Submessage(fields) =>
      forall i :: 0 <= i < |fields| ==>
        !fields[i].rule.Required? && !fields[i].rule.FixedCount? && (fields[i].rule.Singular? ==> Silent(fields[i].ltype))
    case _ => true
  }

  /** proto3 leaves out exactly the zero values of types whose zero value says nothing. */
  lemma {:induction false} DefaultIsZero(t: LType, v: Value)
    requires Fits(t, v)
    ensures IsDefault(t, v) <==> v == DefaultValue(t) && Silent(t)
    decreases t
  {
    match t
    case Submessage(fields) =>
      assert StructOf(fields, v.slots);
      forall i | 0 <= i < |fields| && fields[i].rule.Singular?
        ensures IsDefault(fields[i].ltype, v.slots[i].v) <==> v.slots[i].v == DefaultValue(fields[i].ltype) && Silent(fields[i].ltype)
      {
        DefaultIsZero(fields[i].ltype, v.slots[i].v);
      }
      if IsDefault(t, v) {
        assert forall i :: 0 <= i < |fields| ==> IsDefaultSlot(fields[i], v.slots[i]);
        assert v.slots == DefaultSlots(fields);
      }
      if v == DefaultValue(t) && Silent(t) {
        assert forall i :: 0 <= i < |fields| ==> v.slots[i] == DefaultSlot(fields[i]);
      }
    case FixedBytes(size) =>
      if size == 0 {
        assert v.bytes == [] && Zeros(0) == [];
      }
    case _ =>
  }

  // ----- data -----

  lemma VarintRoundTrip(t: LType, v: Value, rest: seq<byte>)
    requires t.Varint? && Fits(t, v) && CanEncodeValue(t, v)
    ensures DecodeValue(t, DefaultValue(t), EncodeValue(t, v) + rest) == Some(Read(v, rest))
  {
    ReadVarint64(v.n % TWO64, rest);
    SignedBack(v.n, t.size, t.size);
    if t.size != 8 {
      SignedBack(v.n, t.size, 4);
    }
  }

  lemma SVarintRoundTrip(t: LType, v: Value, rest: seq<byte>)
    requires t.SVarint? && Fits(t, v) && CanEncodeValue(t, v)
    ensures DecodeValue(t, DefaultValue(t), EncodeValue(t, v) + rest) == Some(Read(v, rest))
  {
    ReadVarint64(ZigZag(v.n), rest);
    UnZigZagUndoes(v.n);
    SignedBack(v.n, t.size, t.size);
  }

  lemma UVarintRoundTrip(t: LType, v: Value, rest: seq<byte>)
    requires t.UVarint? && Fits(t, v) && CanEncodeValue(t, v)
    ensures DecodeValue(t, DefaultValue(t), EncodeValue(t, v) + rest) == Some(Read(v, rest))
  {
    ReadVarint64(v.n, rest);
    ModMultiple(v.n, Span(t.size), 0);
  }

  lemma BoolRoundTrip(t: LType, v: Value, rest: seq<byte>)
    requires t.Bool? && Fits(t, v)
    ensures DecodeValue(t, DefaultValue(t), EncodeValue(t, v) + rest) == Some(Read(v, rest))
  {
    Varint32RoundTrip(v.n, rest);
  }

  lemma FixedRoundTrip(t: LType, v: Value, rest: seq<byte>)
    requires (t.Fixed32? || t.Fixed64?) && Fits(t, v)
    ensures DecodeValue(t, DefaultValue(t), EncodeValue(t, v) + rest) == Some(Read(v, rest))
  {
    var s := EncodeValue(t, v) + rest;
    if t.Fixed32? {
      DecodeEncodeFixed32(v.n);
      assert s[..4] == EncodeFixed32(v.n) && s[4..] == rest;
    } else {
      DecodeEncodeFixed64(v.n);
      assert s[..8] == EncodeFixed64(v.n) && s[8..] == rest;
    }
  }

  lemma DataRoundTrip(t: LType, v: Value, rest: seq<byte>)
    requires (t.Bytes? || t.String? || t.FixedBytes?) && Fits(t, v) && CanEncodeValue(t, v) && Sound(t, v)
    ensures DecodeValue(t, DefaultValue(t), EncodeValue(t, v) + rest) == Some(Read(v, rest))
  {
    LengthRoundTrip(v.bytes, rest);
    Parts(v.bytes, rest);
    if v.bytes == [] {
      assert v.bytes == Zeros(0);
    }
  }

  /** A string that fills its char array is sent, but does not come back. */
  lemma StringNeedsTerminator(size: nat, v: Value, rest: seq<byte>)
    requires Fits(String(size), v)
    ensures DecodeValue(String(size), Data([]), EncodeValue(String(size), v) + rest) == Some(Read(v, rest)) <==> |v.bytes| < size
  {
    LengthRoundTrip(v.bytes, rest);
    Parts(v.bytes, rest);
  }

  lemma {:induction false} ValueRoundTrip(t: LType, v: Value, rest: seq<byte>)
    requires Fits(t, v) && CanEncodeValue(t, v) && GoodType(t) && Sound(t, v) && |EncodeValue(t, v)| < TWO32
    ensures DecodeValue(t, DefaultValue(t), EncodeValue(t, v) + rest) == Some(Read(v, rest))
    decreases t, 0
  {
    match t
    case Fixed32 => FixedRoundTrip(t, v, rest);
    case Fixed64 => FixedRoundTrip(t, v, rest);
    case Bytes(_) => DataRoundTrip(t, v, rest);
    case String(_) => DataRoundTrip(t, v, rest);
    case FixedBytes(_) => DataRoundTrip(t, v, rest);
    case Submessage(fields) =>
      var e := EncodeFrom(fields, v.slots, 0);
      DelimitedRoundTrip(e, rest);
      MessageRoundTrip(fields, v.slots, []);
      assert e + [] == e;
    case Varint(_) => VarintRoundTrip(t, v, rest);
    case SVarint(_) => SVarintRoundTrip(t, v, rest);
    case UVarint(_) => UVarintRoundTrip(t, v, rest);
    case Bool => BoolRoundTrip(t, v, rest);
  }

  lemma PackedStep(t: LType, max: nat, items: seq<Value>, i: nat, s: seq<byte>, rest: seq<byte>)
    requires i < |items| <= max && s != []
    requires DecodeValue(t, DefaultValue(t), s) == Some(Read(items[i], rest))
    ensures DecodePacked(t, max, items[..i], s) == DecodePacked(t, max, items[..i + 1], rest)
  {
    assert items[..i] + [items[i]] == items[..i + 1];
  }

  lemma {:induction false} PackedRoundTrip(t: LType, max: nat, items: seq<Value>, i: nat)
    requires i <= |items| <= max && GoodType(t)
    requires forall v :: v in items ==> Fits(t, v) && CanEncodeValue(t, v) && Sound(t, v)
    requires |EncodeItemsFrom(t, items, i)| < TWO32
    ensures DecodePacked(t, max, items[..i], EncodeItemsFrom(t, items, i)) == Some(items)
    decreases t, 1, |items| - i
  {
    if i == |items| {
      assert items[..i] == items;
    } else {
      var v := items[i];
      var rest := EncodeItemsFrom(t, items, i + 1);
      ValueRoundTrip(t, v, rest);
      PackedStep(t, max, items, i, EncodeValue(t, v) + rest, rest);
      PackedRoundTrip(t, max, items, i + 1);
    }
  }

  // ----- fields -----

  /** The last fixed array with elements among the first `i` fields. */
  ghost function LastFixed(fields: seq<Field>, i: nat): (r: Option<nat>)
    requires i <= |fields|
    ensures r.Some? ==> r.value < i && fields[r.value].rule.FixedCount?
  {
    if i == 0 then None
    else if fields[i - 1].rule.FixedCount? && fields[i - 1].rule.count > 0 then Some(i - 1)
    else LastFixed(fields, i - 1)
  }

  ghost function FixedSize(fields: seq<Field>, i: nat): nat
    requires i <= |fields|
  {
    match LastFixed(fields, i)
    case None => 0
    case Some(j) => fields[j].rule.count
  }

  function Below(n: nat): (r: set<nat>)
    ensures forall k: nat :: k in r <==> k < n
  {
    if n == 0 then {} else Below(n - 1) + {n - 1}
  }

  ghost function SeenUpTo(fields: seq<Field>, i: nat): set<nat>
    requires i <= |fields|
  {
    Below(Min(RequiredBefore(fields, i), MAX_REQUIRED_FIELDS))
  }

  /** The decoder's progress after the first `i` fields of the message have come in. */
  ghost function At(fields: seq<Field>, slots: seq<Slot>, i: nat): Progress
    requires |slots| == |fields| && i <= |fields|
  {
    Progress(slots[..i] + DefaultSlots(fields)[i..], SeenUpTo(fields, i), LastFixed(fields, i), FixedSize(fields, i))
  }

  /** A message that the round trip is promised for. */
  ghost predicate Sendable(fields: seq<Field>, slots: seq<Slot>) {
    && GoodSchema(fields) && StructOf(fields, slots) && CanEncode(fields, slots) && SoundMessage(fields, slots)
  }

  lemma AtIsGood(fields: seq<Field>, slots: seq<Slot>, i: nat)
    requires StructOf(fields, slots) && i <= |fields|
    ensures GoodProgress(fields, At(fields, slots, i))
  {
    var p := At(fields, slots, i);
    forall j | 0 <= j < |fields| ensures Shape(fields[j], p.slots[j]) {
      assert SlotFits(fields[j], slots[j]);
      assert Shape(fields[j], DefaultSlot(fields[j]));
    }
  }

  lemma TagRead(tag: nat, wireType: nat, body: seq<byte>)
    requires 0 < tag < TWO32 / 8 && wireType < 8
    ensures var n := tag * 8 + wireType;
            Varint32(TagBytes(tag, wireType) + body) == Some(Read(n, body)) && n != 0 && n / 8 == tag && n % 8 == wireType
    ensures TagBytes(tag, wireType) + body != []
  {
    Varint32RoundTrip(tag * 8 + wireType, body);
    FirstDigit(tag * 8 + wireType, body);
  }

  lemma Round(fields: seq<Field>, p: Progress, i: nat, s: seq<byte>, n: nat, body: seq<byte>, met: Progress, p': Progress, rest: seq<byte>)
    requires i < |fields| && GoodProgress(fields, p) && s != []
    requires Varint32(s) == Some(Read(n, body)) && n != 0 && FindField(fields, n / 8) == Some(i)
    requires Meet(fields, p, i) == Some(met)
    requires DecodeField(fields, met, i, n % 8, body) == Some(Read(p', rest))
    ensures DecodeFields(fields, p, s) == DecodeFields(fields, p', rest)
  {
  }

  /** What a datum of the field is decoded over: what is there, but a union's and an array's from the start. */
  ghost function Base(f: Field, slot: Slot): Value {
    match slot
    case One(v) => v
    case Maybe(o) => if f.rule.Optional? && o.Some? then o.value else DefaultValue(f.ltype)
    case Many(_) => DefaultValue(f.ltype)
  }

  /** One round of the decoding loop: a tag of field `i` and what follows it. */
  lemma OneRound(fields: seq<Field>, p: Progress, i: nat, wireType: nat, body: seq<byte>, met: Progress, p': Progress, rest: seq<byte>)
    requires GoodSchema(fields) && i < |fields| && wireType < 8 && GoodProgress(fields, p)
    requires Meet(fields, p, i) == Some(met)
    requires DecodeField(fields, met, i, wireType, body) == Some(Read(p', rest))
    ensures DecodeFields(fields, p, TagBytes(fields[i].tag, wireType) + body) == DecodeFields(fields, p', rest)
  {
    assert GoodField(fields[i]);
    TagRead(fields[i].tag, wireType, body);
    PbDecoder.FirstWithTag(fields, i);
    var s := TagBytes(fields[i].tag, wireType) + body;
    Round(fields, p, i, s, fields[i].tag * 8 + wireType, body, met, p', rest);
  }

  // ----- one field -----

  lemma NextSlots(fields: seq<Field>, slots: seq<Slot>, i: nat)
    requires |slots| == |fields| && i < |fields|
    ensures At(fields, slots, i).slots[i] == DefaultSlot(fields[i])
    ensures At(fields, slots, i + 1).slots == At(fields, slots, i).slots[i := slots[i]]
  {
  }

  lemma ArraySentEmpty(f: Field, items: seq<Value>)
    requires forall v :: v in items ==> Fits(f.ltype, v)
    ensures EncodeArray(f, items) == [] <==> items == []
  {
    if items != [] && !Packable(f.ltype) {
      assert EncodeTaggedFrom(f, items, 0) == EncodeOne(f, items[0]) + EncodeTaggedFrom(f, items, 1);
    }
  }

  lemma UnsentIsDefault(f: Field, slot: Slot)
    requires SlotFits(f, slot) && EncodeField(f, slot) == []
    ensures slot == DefaultSlot(f) && !f.rule.Required? && (f.rule.FixedCount? ==> f.rule.count == 0)
  {
    match f.rule
    case Singular => DefaultIsZero(f.ltype, slot.v);
    case Repeated(_) => ArraySentEmpty(f, slot.items);
    case FixedCount(_) => ArraySentEmpty(f, slot.items);
    case _ =>
  }

  lemma NothingSent(fields: seq<Field>, slots: seq<Slot>, i: nat)
    requires StructOf(fields, slots) && i < |fields| && EncodeField(fields[i], slots[i]) == []
    ensures At(fields, slots, i + 1) == At(fields, slots, i)
  {
    assert SlotFits(fields[i], slots[i]);
    UnsentIsDefault(fields[i], slots[i]);
    NextSlots(fields, slots, i);
  }

  /** Meeting a field that is no fixed array. */
  lemma MeetsPlain(fields: seq<Field>, slots: seq<Slot>, i: nat)
    requires |slots| == |fields| && i < |fields| && !fields[i].rule.FixedCount?
    ensures Meet(fields, At(fields, slots, i), i) == Some(At(fields, slots, i).(seen := SeenUpTo(fields, i + 1)))
    ensures LastFixed(fields, i + 1) == LastFixed(fields, i) && FixedSize(fields, i + 1) == FixedSize(fields, i)
  {
    assert SeenUpTo(fields, i + 1) ==
           if fields[i].rule.Required? && RequiredBefore(fields, i) < MAX_REQUIRED_FIELDS
           then SeenUpTo(fields, i) + {RequiredBefore(fields, i)} else SeenUpTo(fields, i);
  }

  lemma ChoosesAt(fields: seq<Field>, slots: seq<Slot>, i: nat, v: Value, j: nat)
    requires |slots| == |fields| && i < |fields| && j < |fields|
    requires fields[i].rule.Oneof? && slots[i] == Maybe(Some(v))
    requires j != i && fields[j].rule == fields[i].rule ==> slots[j] == Maybe(None)
    ensures Choose(fields, At(fields, slots, i).slots, i, v)[j] == At(fields, slots, i + 1).slots[j]
  {
    if j > i && fields[j].rule == fields[i].rule {
      assert At(fields, slots, i).slots[j] == DefaultSlot(fields[j]);
    }
  }

  lemma ChoosesOnly(fields: seq<Field>, slots: seq<Slot>, i: nat, v: Value)
    requires |slots| == |fields| && i < |fields|
    requires fields[i].rule.Oneof? && slots[i] == Maybe(Some(v))
    requires forall j :: 0 <= j < |fields| && j != i && fields[j].rule == fields[i].rule ==> slots[j] == Maybe(None)
    ensures Choose(fields, At(fields, slots, i).slots, i, v) == At(fields, slots, i + 1).slots
  {
    forall j | 0 <= j < |fields|
      ensures Choose(fields, At(fields, slots, i).slots, i, v)[j] == At(fields, slots, i + 1).slots[j]
    {
      ChoosesAt(fields, slots, i, v, j);
    }
  }

  /** The slot holds the datum `v`, alone. */
  predicate Holds(slot: Slot, v: Value) {
    slot == One(v) || slot == Maybe(Some(v))
  }

  lemma PlainDecoded(fields: seq<Field>, slots: seq<Slot>, i: nat, v: Value, wireType: nat, s: seq<byte>, rest: seq<byte>)
    requires StructOf(fields, slots) && SoundMessage(fields, slots) && i < |fields|
    requires SlotFits(fields[i], slots[i]) && Holds(slots[i], v)
    requires DecodeValue(fields[i].ltype, DefaultValue(fields[i].ltype), s) == Some(Read(v, rest))
    ensures DecodeField(fields, At(fields, slots, i).(seen := SeenUpTo(fields, i + 1)), i, wireType, s) ==
            Some(Read(At(fields, slots, i + 1), rest))
  {
    NextSlots(fields, slots, i);
    AtIsGood(fields, slots, i);
    MeetsPlain(fields, slots, i);
    if fields[i].rule.Oneof? {
      forall j | 0 <= j < |fields| && j != i && fields[j].rule == fields[i].rule ensures slots[j] == Maybe(None) {
        assert SameUnion(fields[if i < j then i else j], fields[if i < j then j else i]);
      }
      ChoosesOnly(fields, slots, i, v);
    }
  }

  lemma OneSent(fields: seq<Field>, slots: seq<Slot>, i: nat, v: Value, rest: seq<byte>)
    requires GoodSchema(fields) && StructOf(fields, slots) && SoundMessage(fields, slots)
    requires i < |fields| && SlotFits(fields[i], slots[i]) && Holds(slots[i], v)
    requires Fits(fields[i].ltype, v)
    requires DecodeValue(fields[i].ltype, DefaultValue(fields[i].ltype), EncodeValue(fields[i].ltype, v) + rest) == Some(Read(v, rest))
    ensures DecodeFields(fields, At(fields, slots, i), EncodeOne(fields[i], v) + rest) == DecodeFields(fields, At(fields, slots, i + 1), rest)
  {
    var f := fields[i];
    var body := EncodeValue(f.ltype, v) + rest;
    MeetsPlain(fields, slots, i);
    PlainDecoded(fields, slots, i, v, WireType(f.ltype), body, rest);
    AtIsGood(fields, slots, i);
    OneRound(fields, At(fields, slots, i), i, WireType(f.ltype), body,
             At(fields, slots, i).(seen := SeenUpTo(fields, i + 1)), At(fields, slots, i + 1), rest);
    Regroup(TagBytes(f.tag, WireType(f.ltype)), EncodeValue(f.ltype, v), rest);
  }

  // ----- arrays -----

  predicate ArrayRule(r: Rule) {
    r.Repeated? || r.FixedCount?
  }

  function Room(r: Rule): nat
    requires ArrayRule(r)
  {
    if r.Repeated? then r.max else r.count
  }

  /** The decoder's progress after `k` items of array field `i`. */
  ghost function Within(fields: seq<Field>, slots: seq<Slot>, i: nat, k: nat): Progress
    requires |slots| == |fields| && i < |fields| && slots[i].Many? && k <= |slots[i].items|
  {
    var p := At(fields, slots, i);
    var q := p.(slots := p.slots[i := Many(slots[i].items[..k])]);
    if fields[i].rule.FixedCount? then q.(fixedField := Some(i), fixedSize := k) else q
  }

  lemma ArrayComplete(fields: seq<Field>, slots: seq<Slot>, i: nat)
    requires StructOf(fields, slots) && i < |fields| && SlotFits(fields[i], slots[i]) && ArrayRule(fields[i].rule)
    requires slots[i].items != []
    ensures Within(fields, slots, i, |slots[i].items|) == At(fields, slots, i + 1)
  {
    NextSlots(fields, slots, i);
    assert slots[i].items[..|slots[i].items|] == slots[i].items;
  }

  /** Meeting an array, for the first time or again, goes on where it was. */
  lemma MeetsArray(fields: seq<Field>, slots: seq<Slot>, i: nat, k: nat)
    requires StructOf(fields, slots) && i < |fields| && SlotFits(fields[i], slots[i]) && ArrayRule(fields[i].rule)
    requires k <= |slots[i].items|
    ensures Meet(fields, Within(fields, slots, i, k), i) == Some(Within(fields, slots, i, k))
    ensures Meet(fields, At(fields, slots, i), i) == Some(Within(fields, slots, i, 0))
  {
    NextSlots(fields, slots, i);
    var p := At(fields, slots, i);
    assert p.slots[i := Many([])] == p.slots;
  }

  lemma WithinIsGood(fields: seq<Field>, slots: seq<Slot>, i: nat, k: nat)
    requires StructOf(fields, slots) && i < |fields| && SlotFits(fields[i], slots[i]) && ArrayRule(fields[i].rule)
    requires k <= |slots[i].items|
    ensures GoodProgress(fields, Within(fields, slots, i, k))
  {
    AtIsGood(fields, slots, i);
  }

  lemma ItemsDecoded(fields: seq<Field>, slots: seq<Slot>, i: nat, k: nat, k': nat, wireType: nat, s: seq<byte>, rest: seq<byte>)
    requires StructOf(fields, slots) && i < |fields| && SlotFits(fields[i], slots[i]) && ArrayRule(fields[i].rule)
    requires k <= k' <= |slots[i].items|
    requires DecodeItems(fields[i], Room(fields[i].rule), slots[i].items[..k], k, wireType, s) == Some(Read(slots[i].items[..k'], rest))
    ensures DecodeField(fields, Within(fields, slots, i, k), i, wireType, s) == Some(Read(Within(fields, slots, i, k'), rest))
  {
    WithinIsGood(fields, slots, i, k);
    var before, items := At(fields, slots, i).slots, slots[i].items;
    assert before[i := Many(items[..k])][i := Many(items[..k'])] == before[i := Many(items[..k'])];
  }

  lemma PackedDecoded(f: Field, items: seq<Value>, e: seq<byte>, rest: seq<byte>)
    requires ArrayRule(f.rule) && Packable(f.ltype) && |e| < TWO32
    requires DecodePacked(f.ltype, Room(f.rule), [], e) == Some(items)
    ensures DecodeItems(f, Room(f.rule), items[..0], 0, 2, VarintBytes(|e|) + e + rest) == Some(Read(items[..|items|], rest))
  {
    DelimitedRoundTrip(e, rest);
    assert items[..0][..0] == [] && items[..|items|] == items;
  }

  lemma PackedSent(fields: seq<Field>, slots: seq<Slot>, i: nat, e: seq<byte>, rest: seq<byte>)
    requires GoodSchema(fields) && StructOf(fields, slots) && i < |fields| && SlotFits(fields[i], slots[i])
    requires ArrayRule(fields[i].rule) && Packable(fields[i].ltype) && slots[i].items != [] && |e| < TWO32
    requires DecodePacked(fields[i].ltype, Room(fields[i].rule), [], e) == Some(slots[i].items)
    ensures DecodeFields(fields, At(fields, slots, i), TagBytes(fields[i].tag, 2) + (VarintBytes(|e|) + e + rest)) ==
            DecodeFields(fields, At(fields, slots, i + 1), rest)
  {
    var items := slots[i].items;
    var body := VarintBytes(|e|) + e + rest;
    PackedDecoded(fields[i], items, e, rest);
    AtIsGood(fields, slots, i);
    ItemsDecoded(fields, slots, i, 0, |items|, 2, body, rest);
    MeetsArray(fields, slots, i, 0);
    ArrayComplete(fields, slots, i);
    OneRound(fields, At(fields, slots, i), i, 2, body, Within(fields, slots, i, 0), At(fields, slots, i + 1), rest);
  }

  lemma ItemDecoded(f: Field, items: seq<Value>, k: nat, s: seq<byte>, rest: seq<byte>)
    requires ArrayRule(f.rule) && !Packable(f.ltype) && k < |items| <= Room(f.rule)
    requires DecodeValue(f.ltype, DefaultValue(f.ltype), s) == Some(Read(items[k], rest))
    ensures DecodeItems(f, Room(f.rule), items[..k], k, WireType(f.ltype), s) == Some(Read(items[..k + 1], rest))
  {
    assert items[..k][..k] + [items[k]] == items[..k + 1];
  }

  /** One more item of an array whose items carry tags; `p` is the progress at the first or a later one. */
  lemma ItemSent(fields: seq<Field>, slots: seq<Slot>, i: nat, k: nat, p: Progress, s: seq<byte>, rest: seq<byte>)
    requires GoodSchema(fields) && StructOf(fields, slots) && i < |fields| && SlotFits(fields[i], slots[i])
    requires ArrayRule(fields[i].rule) && !Packable(fields[i].ltype) && k < |slots[i].items| <= Room(fields[i].rule)
    requires p == Within(fields, slots, i, k) || (k == 0 && p == At(fields, slots, i))
    requires DecodeValue(fields[i].ltype, DefaultValue(fields[i].ltype), s) == Some(Read(slots[i].items[k], rest))
    ensures DecodeFields(fields, p, TagBytes(fields[i].tag, WireType(fields[i].ltype)) + s) ==
            DecodeFields(fields, Within(fields, slots, i, k + 1), rest)
  {
    ItemDecoded(fields[i], slots[i].items, k, s, rest);
    WithinIsGood(fields, slots, i, k);
    AtIsGood(fields, slots, i);
    ItemsDecoded(fields, slots, i, k, k + 1, WireType(fields[i].ltype), s, rest);
    MeetsArray(fields, slots, i, k);
    OneRound(fields, p, i, WireType(fields[i].ltype), s, Within(fields, slots, i, k), Within(fields, slots, i, k + 1), rest);
  }

  lemma TaggedForm(f: Field, items: seq<Value>, k: nat, rest: seq<byte>)
    requires k < |items| && forall v :: v in items ==> Fits(f.ltype, v)
    ensures EncodeTaggedFrom(f, items, k) + rest ==
            TagBytes(f.tag, WireType(f.ltype)) + (EncodeValue(f.ltype, items[k]) + (EncodeTaggedFrom(f, items, k + 1) + rest))
  {
  }

  lemma PackedForm(f: Field, items: seq<Value>, rest: seq<byte>)
    requires Packable(f.ltype) && items != [] && forall v :: v in items ==> Fits(f.ltype, v)
    ensures var e := EncodeItemsFrom(f.ltype, items, 0);
            EncodeArray(f, items) + rest == TagBytes(f.tag, 2) + (VarintBytes(|e|) + e + rest)
  {
  }

  lemma FieldsForm(fields: seq<Field>, slots: seq<Slot>, i: nat, tail: seq<byte>)
    requires StructOf(fields, slots) && i < |fields|
    ensures EncodeFrom(fields, slots, i) + tail == EncodeField(fields[i], slots[i]) + (EncodeFrom(fields, slots, i + 1) + tail)
  {
  }

  lemma FieldValueRoundTrip(f: Field, v: Value, rest: seq<byte>)
    requires Fits(f.ltype, v) && CanEncodeValue(f.ltype, v) && GoodType(f.ltype) && Sound(f.ltype, v) && |EncodeValue(f.ltype, v)| < TWO32
    ensures DecodeValue(f.ltype, DefaultValue(f.ltype), EncodeValue(f.ltype, v) + rest) == Some(Read(v, rest))
    decreases f, 0
  {
    ValueRoundTrip(f.ltype, v, rest);
  }

  /** The progress before item `k`: before the first, the array has not been met. */
  ghost function UpTo(fields: seq<Field>, slots: seq<Slot>, i: nat, k: nat): Progress
    requires |slots| == |fields| && i < |fields| && slots[i].Many? && k <= |slots[i].items|
  {
    if k == 0 then At(fields, slots, i) else Within(fields, slots, i, k)
  }

  lemma {:induction false} TaggedRestIsShorter(f: Field, items: seq<Value>, k: nat)
    requires k <= |items| && forall v :: v in items ==> Fits(f.ltype, v)
    ensures |EncodeTaggedFrom(f, items, k)| <= |EncodeTaggedFrom(f, items, 0)|
  {
    if k > 0 {
      TaggedRestIsShorter(f, items, k - 1);
    }
  }

  /** An array whose items each carry a tag, all of them ready to be sent. */
  ghost predicate TaggedArray(fields: seq<Field>, slots: seq<Slot>, i: nat) {
    && GoodSchema(fields) && StructOf(fields, slots) && i < |fields| && SlotFits(fields[i], slots[i])
    && ArrayRule(fields[i].rule) && !Packable(fields[i].ltype) && |slots[i].items| <= Room(fields[i].rule)
    && GoodType(fields[i].ltype)
    && (forall v :: v in slots[i].items ==>
          Fits(fields[i].ltype, v) && CanEncodeValue(fields[i].ltype, v) && Sound(fields[i].ltype, v))
    && |EncodeTaggedFrom(fields[i], slots[i].items, 0)| < TWO32
  }

  /** What decoding makes of item `k` and everything after it. */
  ghost function FromItem(fields: seq<Field>, slots: seq<Slot>, i: nat, k: nat, rest: seq<byte>): Option<Progress>
    requires TaggedArray(fields, slots, i) && k <= |slots[i].items|
  {
    DecodeFields(fields, UpTo(fields, slots, i, k), EncodeTaggedFrom(fields[i], slots[i].items, k) + rest)
  }

  lemma TaggedStep(fields: seq<Field>, slots: seq<Slot>, i: nat, k: nat, rest: seq<byte>)
    requires TaggedArray(fields, slots, i) && k < |slots[i].items|
    ensures FromItem(fields, slots, i, k, rest) == FromItem(fields, slots, i, k + 1, rest)
    decreases fields, 0
  {
    var f, v := fields[i], slots[i].items[k];
    var later := EncodeTaggedFrom(f, slots[i].items, k + 1) + rest;
    TaggedRestIsShorter(f, slots[i].items, k);
    FieldValueRoundTrip(f, v, later);
    ItemSent(fields, slots, i, k, UpTo(fields, slots, i, k), EncodeValue(f.ltype, v) + later, later);
    TaggedForm(f, slots[i].items, k, rest);
  }

  lemma TaggedSent(fields: seq<Field>, slots: seq<Slot>, i: nat, rest: seq<byte>)
    requires TaggedArray(fields, slots, i) && slots[i].items != []
    ensures DecodeFields(fields, At(fields, slots, i), EncodeTaggedFrom(fields[i], slots[i].items, 0) + rest) ==
            DecodeFields(fields, Within(fields, slots, i, |slots[i].items|), rest)
    decreases fields, 1
  {
    var items := slots[i].items;
    var k: nat := |items|;
    assert [] + rest == rest;
    while k > 0
      invariant k <= |items|
      invariant FromItem(fields, slots, i, k, rest) == FromItem(fields, slots, i, |items|, rest)
    {
      k := k - 1;
      TaggedStep(fields, slots, i, k, rest);
    }
  }

  lemma FieldPackedRoundTrip(f: Field, items: seq<Value>)
    requires ArrayRule(f.rule) && |items| <= Room(f.rule) && GoodType(f.ltype)
    requires forall v :: v in items ==> Fits(f.ltype, v) && CanEncodeValue(f.ltype, v) && Sound(f.ltype, v)
    requires |EncodeItemsFrom(f.ltype, items, 0)| < TWO32
    ensures DecodePacked(f.ltype, Room(f.rule), [], EncodeItemsFrom(f.ltype, items, 0)) == Some(items)
    decreases f, 0
  {
    PackedRoundTrip(f.ltype, Room(f.rule), items, 0);
    assert items[..0] == [];
  }

  lemma ArraySent(fields: seq<Field>, slots: seq<Slot>, i: nat, rest: seq<byte>)
    requires GoodSchema(fields) && StructOf(fields, slots) && i < |fields| && SlotFits(fields[i], slots[i])
    requires ArrayRule(fields[i].rule) && slots[i].items != [] && |slots[i].items| <= Room(fields[i].rule)
    requires GoodType(fields[i].ltype)
    requires forall v :: v in slots[i].items ==>
               Fits(fields[i].ltype, v) && CanEncodeValue(fields[i].ltype, v) && Sound(fields[i].ltype, v)
    requires |EncodeArray(fields[i], slots[i].items)| < TWO32
    ensures DecodeFields(fields, At(fields, slots, i), EncodeArray(fields[i], slots[i].items) + rest) ==
            DecodeFields(fields, At(fields, slots, i + 1), rest)
    decreases fields, 2
  {
    var f, items := fields[i], slots[i].items;
    if Packable(f.ltype) {
      var e := EncodeItemsFrom(f.ltype, items, 0);
      FieldPackedRoundTrip(f, items);
      PackedSent(fields, slots, i, e, rest);
      PackedForm(f, items, rest);
    } else {
      ArrayComplete(fields, slots, i);
      TaggedSent(fields, slots, i, rest);
    }
  }

  lemma SingleSent(fields: seq<Field>, slots: seq<Slot>, i: nat, v: Value, rest: seq<byte>)
    requires Sendable(fields, slots) && i < |fields| && SlotFits(fields[i], slots[i]) && Holds(slots[i], v)
    requires Fits(fields[i].ltype, v) && CanEncodeValue(fields[i].ltype, v) && Sound(fields[i].ltype, v) && GoodType(fields[i].ltype)
    requires |EncodeOne(fields[i], v)| < TWO32
    ensures DecodeFields(fields, At(fields, slots, i), EncodeOne(fields[i], v) + rest) == DecodeFields(fields, At(fields, slots, i + 1), rest)
    decreases fields, 0
  {
    FieldValueRoundTrip(fields[i], v, rest);
    OneSent(fields, slots, i, v, rest);
  }

  lemma FieldSent(fields: seq<Field>, slots: seq<Slot>, i: nat, rest: seq<byte>)
    requires Sendable(fields, slots) && i < |fields| && |EncodeField(fields[i], slots[i])| < TWO32
    ensures DecodeFields(fields, At(fields, slots, i), EncodeField(fields[i], slots[i]) + rest) ==
            DecodeFields(fields, At(fields, slots, i + 1), rest)
    decreases fields, 3
  {
    var f, slot := fields[i], slots[i];
    if EncodeField(f, slot) == [] {
      NothingSent(fields, slots, i);
      assert [] + rest == rest;
    } else {
      assert SlotFits(f, slot) && CanEncodeSlot(f, slot) && SoundSlot(f, slot) && GoodField(f);
      match f.rule
      case Required => SingleSent(fields, slots, i, slot.v, rest);
      case Singular => SingleSent(fields, slots, i, slot.v, rest);
      case Optional => SingleSent(fields, slots, i, slot.o.value, rest);
      case Oneof(_) => SingleSent(fields, slots, i, slot.o.value, rest);
      case Repeated(_) => ArraySent(fields, slots, i, rest);
      case FixedCount(_) => ArraySent(fields, slots, i, rest);
    }
  }

  lemma Stops(fields: seq<Field>, p: Progress, tail: seq<byte>)
    requires GoodProgress(fields, p) && (tail == [] || tail[0] == 0)
    ensures DecodeFields(fields, p, tail) == Some(p)
  {
  }

  lemma StopsAt(fields: seq<Field>, slots: seq<Slot>, tail: seq<byte>)
    requires StructOf(fields, slots) && (tail == [] || tail[0] == 0)
    ensures DecodeFields(fields, At(fields, slots, |fields|), EncodeFrom(fields, slots, |fields|) + tail) == Some(At(fields, slots, |fields|))
  {
    AtIsGood(fields, slots, |fields|);
    Stops(fields, At(fields, slots, |fields|), tail);
    assert [] + tail == tail;
  }

  lemma {:induction false} RestIsShorter(fields: seq<Field>, slots: seq<Slot>, i: nat)
    requires StructOf(fields, slots) && i <= |fields|
    ensures |EncodeFrom(fields, slots, i)| <= |Encoding(fields, slots)|
  {
    if i > 0 {
      RestIsShorter(fields, slots, i - 1);
    }
  }

  lemma Starts(fields: seq<Field>, slots: seq<Slot>)
    requires |slots| == |fields|
    ensures At(fields, slots, 0) == Progress(DefaultSlots(fields), {}, None, 0)
  {
    assert slots[..0] + DefaultSlots(fields)[0..] == DefaultSlots(fields);
  }

  lemma Ends(fields: seq<Field>, slots: seq<Slot>)
    requires |slots| == |fields|
    ensures At(fields, slots, |fields|).slots == slots
    ensures Complete(fields, At(fields, slots, |fields|))
  {
    assert slots[..|fields|] + DefaultSlots(fields)[|fields|..] == slots;
  }

  /** What decoding makes of field `i` and everything after it. */
  ghost function FromField(fields: seq<Field>, slots: seq<Slot>, i: nat, tail: seq<byte>): Option<Progress>
    requires StructOf(fields, slots) && i <= |fields|
  {
    DecodeFields(fields, At(fields, slots, i), EncodeFrom(fields, slots, i) + tail)
  }

  lemma FieldsStep(fields: seq<Field>, slots: seq<Slot>, i: nat, tail: seq<byte>)
    requires Sendable(fields, slots) && i < |fields| && |Encoding(fields, slots)| < TWO32
    ensures FromField(fields, slots, i, tail) == FromField(fields, slots, i + 1, tail)
    decreases fields, 4
  {
    RestIsShorter(fields, slots, i);
    FieldSent(fields, slots, i, EncodeFrom(fields, slots, i + 1) + tail);
    FieldsForm(fields, slots, i, tail);
  }

  lemma FieldsSent(fields: seq<Field>, slots: seq<Slot>, tail: seq<byte>)
    requires Sendable(fields, slots) && |Encoding(fields, slots)| < TWO32
    ensures FromField(fields, slots, 0, tail) == FromField(fields, slots, |fields|, tail)
    decreases fields, 5
  {
    var i: nat := |fields|;
    while i > 0
      invariant i <= |fields|
      invariant FromField(fields, slots, i, tail) == FromField(fields, slots, |fields|, tail)
    {
      i := i - 1;
      FieldsStep(fields, slots, i, tail);
    }
  }

  /** Main result: for every well-formed schema and every valid message whose encoding is below four
      gigabytes, decoding the encoding, or the encoding and a zero byte with anything after it, gives
      the same message. */
  lemma {:induction false} MessageRoundTrip(fields: seq<Field>, slots: seq<Slot>, tail: seq<byte>)
    requires Sendable(fields, slots) && |Encoding(fields, slots)| < TWO32
    requires tail == [] || tail[0] == 0
    ensures Decode(fields, Encoding(fields, slots) + tail) == Some(slots)
    decreases fields, 6
  {
    StopsAt(fields, slots, tail);
    FieldsSent(fields, slots, tail);
    Starts(fields, slots);
    Ends(fields, slots);
  }

  /** Encoding into a buffer and decoding what was written: it fails only for lack of room. */
  method RoundTrip(fields: seq<Field>, slots: seq<Slot>, bufsize: nat) returns (ok: bool, received: seq<Slot>)
    requires Sendable(fields, slots) && |Encoding(fields, slots)| < TWO32
    ensures ok <==> |Encoding(fields, slots)| <= bufsize
    ensures ok ==> received == slots
  {
    var out := new PbEncode.OStream(true, bufsize, []);
    ok := PbEncode.Encode(out, fields, slots);
    received := [];
    if ok {
      MessageRoundTrip(fields, slots, []);
      assert Encoding(fields, slots) + [] == Encoding(fields, slots) && [] + Encoding(fields, slots) == Encoding(fields, slots);
      var input := new PbDecoder.IStream(out.state, 0, |out.state|);
      ok, received := PbDecoder.Decode(input, fields);
    }
  }
}
