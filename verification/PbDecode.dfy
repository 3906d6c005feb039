/** The decoder (nanopb's pb_decode.c) as a function of the bytes: what each routine reads, what it
    makes of it, and what it leaves. */
module PbDecode {
  import opened Options
  import opened Coding
  import opened PbTypes

  // ----- varints -----

  function Varint64(s: seq<byte>): (r: Option<Read<nat>>)
    ensures r.Some? ==> |r.value.rest| < |s| && r.value.value < TWO64
  {
    VarintFrom(s, 0, 0, 63, TWO64)
  }

  /** The bytes of a 32-bit varint after the first: past 32 bits only sign extension or zeros may
      come. The bit position is kept in eight bits. */
  function Varint32From(s: seq<byte>, bitpos: nat, result: nat): (r: Option<Read<nat>>)
    requires result < TWO32
    ensures r.Some? ==> |r.value.rest| < |s| && r.value.value < TWO32
    decreases |s|
  {
    if s == [] then None
    else if bitpos >= 32 && s[0] % 128 != 0 && (result < TWO32 / 2 || s[0] != if bitpos < 63 then 0xFF else 0x01) then None
    else
      var next := if bitpos >= 32 then result else AddDigit(result, s[0] % 128, bitpos, TWO32);
      var bitpos' := (bitpos + 7) % 256;
      if s[0] >= 128 then Varint32From(s[1..], bitpos', next)
      else if bitpos' == 35 && s[0] / 16 % 8 != 0 then None
      else Some(Read(next, s[1..]))
  }

  function Varint32(s: seq<byte>): (r: Option<Read<nat>>)
    ensures r.Some? ==> |r.value.rest| < |s| && r.value.value < TWO32
  {
    if s == [] then None
    else if s[0] < 128 then Some(Read(s[0], s[1..]))
    else Varint32From(s[1..], 7, s[0] % 128)
  }

  function UnZigZag(w: nat): int {
    if w % 2 == 1 then -(w / 2) - 1 else w / 2
  }

  // ----- skipping -----

  function Take(s: seq<byte>, n: nat): (r: Option<Read<seq<byte>>>)
    ensures r.Some? <==> n <= |s|
    ensures r.Some? ==> r.value == Read(s[..n], s[n..])
  {
    if n <= |s| then Some(Read(s[..n], s[n..])) else None
  }

  /** A length, and so many bytes. */
  function Delimited(s: seq<byte>): (r: Option<Read<seq<byte>>>)
    ensures r.Some? ==> |r.value.rest| + |r.value.value| < |s|
  {
    var n := Varint32(s);
    if n.None? then None else Take(n.value.rest, n.value.value)
  }

  function SkipVarint(s: seq<byte>): (r: Option<seq<byte>>)
    ensures r.Some? ==> |r.value| < |s|
    decreases |s|
  {
    if s == [] then None else if s[0] >= 128 then SkipVarint(s[1..]) else Some(s[1..])
  }

  function SkipField(s: seq<byte>, wireType: nat): (r: Option<seq<byte>>)
    ensures r.Some? ==> |r.value| <= |s|
  {
    if wireType == 0 then SkipVarint(s)
    else if wireType == 1 then if |s| >= 8 then Some(s[8..]) else None
    else if wireType == 2 then
      var d := Delimited(s);
      if d.Some? then Some(d.value.rest) else None
    else if wireType == 5 then if |s| >= 4 then Some(s[4..]) else None
    else None
  }

  /** A struct as the decoder may have it: each slot of the kind its field needs. */
  predicate Shape(f: Field, slot: Slot) {
    match f.rule
    case Required => slot.One?
    case Singular => slot.One?
    case Optional => slot.Maybe?
    case Oneof(_) => slot.Maybe?
    case Repeated(_) => slot.Many?
    case FixedCount(_) => slot.Many?
  }

  predicate Shapes(fields: seq<Field>, slots: seq<Slot>) {
    |slots| == |fields| && forall i :: 0 <= i < |fields| ==> Shape(fields[i], slots[i])
  }

  // ----- default values -----

  ghost function DefaultValue(t: LType): Value
    decreases t
  {
    match t
    case Bytes(_) => Data([])
    case String(_) => Data([])
    case FixedBytes(size) => Data(Zeros(size))
    case Submessage(fields) => Message(DefaultSlots(fields))
    case _ => Num(0)
  }

  /** A fixed array is not initialised; nothing of it is known until it is decoded. */
  ghost function DefaultSlot(f: Field): (r: Slot)
    ensures Shape(f, r)
    decreases f
  {
    match f.rule
    case Required => One(DefaultValue(f.ltype))
    case Singular => One(DefaultValue(f.ltype))
    case Optional => Maybe(None)
    case Oneof(_) => Maybe(None)
    case Repeated(_) => Many([])
    case FixedCount(_) => Many([])
  }

  ghost function DefaultSlots(fields: seq<Field>): (r: seq<Slot>)
    ensures Shapes(fields, r)
    decreases fields
  {
    seq(|fields|, i requires 0 <= i < |fields| => DefaultSlot(fields[i]))
  }

  // ----- fields -----

  /** The first field with the tag. */
  function FindField(fields: seq<Field>, tag: nat): (r: Option<nat>)
    ensures r.Some? ==> r.value < |fields| && fields[r.value].tag == tag
    ensures r.None? ==> forall i :: 0 <= i < |fields| ==> fields[i].tag != tag
  {
    if fields == [] then None
    else if fields[0].tag == tag then Some(0)
    else
      var r := FindField(fields[1..], tag);
      if r.Some? then Some(r.value + 1) else None
  }

  function RequiredBefore(fields: seq<Field>, i: nat): nat
    requires i <= |fields|
  {
    if i == 0 then 0 else RequiredBefore(fields, i - 1) + if fields[i - 1].rule.Required? then 1 else 0
  }

  const MAX_REQUIRED_FIELDS := 64

  function Min(a: nat, b: nat): nat {
    if a < b then a else b
  }

  /** The struct, the required fields seen, and the fixed array being filled with its position. */
  datatype Progress = Progress(slots: seq<Slot>, seen: set<nat>, fixedField: Option<nat>, fixedSize: nat)

  predicate GoodProgress(fields: seq<Field>, p: Progress) {
    && Shapes(fields, p.slots)
    && (p.fixedField.Some? ==> p.fixedField.value < |fields| && fields[p.fixedField.value].rule.FixedCount?
                               && p.fixedSize <= |p.slots[p.fixedField.value].items|)
  }

  predicate FixedDone(fields: seq<Field>, p: Progress) {
    match p.fixedField
    case None => true
    case Some(i) => i < |fields| && fields[i].rule.FixedCount? && p.fixedSize == fields[i].rule.count
  }

  /** Finding field `i` in the input, before decoding it. */
  function Meet(fields: seq<Field>, p: Progress, i: nat): (r: Option<Progress>)
    requires i < |fields|
    ensures r.Some? ==> r.value.slots == p.slots
  {
    if fields[i].rule.FixedCount? && p.fixedField != Some(i) then
      if FixedDone(fields, p) then Some(p.(fixedField := Some(i), fixedSize := 0)) else None
    else if fields[i].rule.Required? && RequiredBefore(fields, i) < MAX_REQUIRED_FIELDS then
      Some(p.(seen := p.seen + {RequiredBefore(fields, i)}))
    else Some(p)
  }

  /** Choosing field `i` of a union makes the union hold no other. */
  function Choose(fields: seq<Field>, slots: seq<Slot>, i: nat, v: Value): (r: seq<Slot>)
    requires |slots| == |fields| && i < |fields| && fields[i].rule.Oneof?
    ensures |r| == |fields|
  {
    seq(|fields|, j requires 0 <= j < |fields| =>
      if j == i then Maybe(Some(v))
      else if fields[j].rule == fields[i].rule then Maybe(None)
      else slots[j])
  }

  // ----- decoding -----

  /** Decodes a datum over the old content `base`, which only a submessage keeps parts of. */
  ghost function DecodeValue(t: LType, base: Value, s: seq<byte>): (r: Option<Read<Value>>)
    ensures r.Some? ==> |r.value.rest| < |s|
    decreases |s|, 0
  {
    match t
    case Bool =>
      var v := Varint32(s);
      if v.None? then None else Some(Read(Num(if v.value.value != 0 then 1 else 0), v.value.rest))
    case Varint(size) =>
      var v := Varint64(s);
      if v.None? || !IntSize(size) then None
      else
        var n := if size == 8 then Signed(v.value.value, 8) else Signed(v.value.value, 4);
        if Signed(n % TWO64, size) != n then None else Some(Read(Num(n), v.value.rest))
    case UVarint(size) =>
      var v := Varint64(s);
      if v.None? || !IntSize(size) || v.value.value % Span(size) != v.value.value then None
      else Some(Read(Num(v.value.value), v.value.rest))
    case SVarint(size) =>
      var v := Varint64(s);
      if v.None? || !IntSize(size) then None
      else
        var n := UnZigZag(v.value.value);
        if Signed(n % TWO64, size) != n then None else Some(Read(Num(n), v.value.rest))
    case Fixed32 => if |s| < 4 then None else Some(Read(Num(DecodeFixed32(s[..4])), s[4..]))
    case Fixed64 => if |s| < 8 then None else Some(Read(Num(DecodeFixed64(s[..8])), s[8..]))
    case Bytes(max) =>
      var n := Varint32(s);
      if n.None? || n.value.value > max || n.value.value > |n.value.rest| then None
      else Some(Read(Data(n.value.rest[..n.value.value]), n.value.rest[n.value.value..]))
    case String(size) =>
      var n := Varint32(s);
      if n.None? || n.value.value + 1 == TWO32 || n.value.value + 1 > size || n.value.value > |n.value.rest| then None
      else Some(Read(Data(n.value.rest[..n.value.value]), n.value.rest[n.value.value..]))
    case FixedBytes(size) =>
      var n := Varint32(s);
      if n.None? then None
      else if n.value.value == 0 then Some(Read(Data(Zeros(size)), n.value.rest))
      else if n.value.value != size || size > |n.value.rest| then None
      else Some(Read(Data(n.value.rest[..size]), n.value.rest[size..]))
    case Submessage(fields) =>
      var d := Delimited(s);
      if d.None? || !base.Message? then None
      else
        var m := DecodeNoInit(fields, base.slots, d.value.value);
        if m.None? then None else Some(Read(Message(m.value), d.value.rest))
  }

  /** A packed array takes items as long as there are bytes and there is room; leftovers are an error. */
  ghost function DecodePacked(t: LType, max: nat, items: seq<Value>, s: seq<byte>): (r: Option<seq<Value>>)
    ensures r.Some? ==> |items| <= |r.value|
    decreases |s|, 1
  {
    if s == [] then Some(items)
    else if |items| >= max then None
    else
      var v := DecodeValue(t, DefaultValue(t), s);
      if v.None? then None else DecodePacked(t, max, items + [v.value.value], v.value.rest)
  }

  /** The array after more of it is read, from position `k` on. */
  ghost function DecodeItems(f: Field, max: nat, items: seq<Value>, k: nat, wireType: nat, s: seq<byte>): (r: Option<Read<seq<Value>>>)
    requires k <= |items|
    ensures r.Some? ==> |r.value.rest| < |s|
    decreases |s|, 2
  {
    if wireType == 2 && Packable(f.ltype) then
      var d := Delimited(s);
      if d.None? then None
      else
        var more := DecodePacked(f.ltype, max, items[..k], d.value.value);
        if more.None? then None else Some(Read(more.value, d.value.rest))
    else if k >= max then None
    else
      var v := DecodeValue(f.ltype, DefaultValue(f.ltype), s);
      if v.None? then None else Some(Read(items[..k] + [v.value.value], v.value.rest))
  }

  ghost function DecodeField(fields: seq<Field>, p: Progress, i: nat, wireType: nat, s: seq<byte>): (r: Option<Read<Progress>>)
    requires i < |fields|
    ensures r.Some? ==> |r.value.rest| < |s| && GoodProgress(fields, r.value.value)
    decreases |s|, 3
  {
    if !GoodProgress(fields, p) || (fields[i].rule.FixedCount? && p.fixedField != Some(i)) then None
    else
    var f, slot := fields[i], p.slots[i];
    match f.rule
    case Required =>
      var v := DecodeValue(f.ltype, slot.v, s);
      if v.None? then None else Some(Read(p.(slots := p.slots[i := One(v.value.value)]), v.value.rest))
    case Singular =>
      var v := DecodeValue(f.ltype, slot.v, s);
      if v.None? then None else Some(Read(p.(slots := p.slots[i := One(v.value.value)]), v.value.rest))
    case Optional =>
      var v := DecodeValue(f.ltype, if slot.o.Some? then slot.o.value else DefaultValue(f.ltype), s);
      if v.None? then None else Some(Read(p.(slots := p.slots[i := Maybe(Some(v.value.value))]), v.value.rest))
    case Oneof(_) =>
      var v := DecodeValue(f.ltype, DefaultValue(f.ltype), s);
      if v.None? then None else Some(Read(p.(slots := Choose(fields, p.slots, i, v.value.value)), v.value.rest))
    case Repeated(max) =>
      var items := DecodeItems(f, max, slot.items, |slot.items|, wireType, s);
      if items.None? then None else Some(Read(p.(slots := p.slots[i := Many(items.value.value)]), items.value.rest))
    case FixedCount(n) =>
      var items := DecodeItems(f, n, slot.items, p.fixedSize, wireType, s);
      if items.None? then None
      else
        var got := items.value.value;
        Some(Read(p.(slots := p.slots[i := Many(got)], fixedSize := |got|), items.value.rest))
  }

  /** One round after another, until the bytes end or a zero tag ends them. */
  ghost function DecodeFields(fields: seq<Field>, p: Progress, s: seq<byte>): (r: Option<Progress>)
    ensures r.Some? ==> GoodProgress(fields, r.value)
    decreases |s|, 4
  {
    if !GoodProgress(fields, p) then None
    else if s == [] then Some(p)
    else
      var t := Varint32(s);
      if t.None? then None
      else if t.value.value == 0 then Some(p)
      else
        var tag, wireType, rest := t.value.value / 8, t.value.value % 8, t.value.rest;
        if fields == [] && tag == 0 then  // an empty list of fields starts with its terminator, whose tag is 0
          var b := Varint32(rest);
          if b.None? then None else DecodeFields(fields, p, b.value.rest)
        else
          match FindField(fields, tag)
          case None =>
            var skipped := SkipField(rest, wireType);
            if skipped.None? then None else DecodeFields(fields, p, skipped.value)
          case Some(i) =>
            var met := Meet(fields, p, i);
            if met.None? then None
            else
              var d := DecodeField(fields, met.value, i, wireType, rest);
              if d.None? then None else DecodeFields(fields, d.value.value, d.value.rest)
  }

  /** All of the last fixed array and all required fields, as far as they are counted, were there. */
  ghost predicate Complete(fields: seq<Field>, p: Progress) {
    && FixedDone(fields, p)
    && forall k: nat :: k < Min(RequiredBefore(fields, |fields|), MAX_REQUIRED_FIELDS) ==> k in p.seen
  }

  ghost function DecodeNoInit(fields: seq<Field>, slots: seq<Slot>, s: seq<byte>): (r: Option<seq<Slot>>)
    ensures r.Some? ==> Shapes(fields, r.value)
    decreases |s|, 5
  {
    var p := DecodeFields(fields, Progress(slots, {}, None, 0), s);
    if p.None? || !Complete(fields, p.value) then None else Some(p.value.slots)
  }

  ghost function Decode(fields: seq<Field>, s: seq<byte>): (r: Option<seq<Slot>>)
    ensures r.Some? ==> Shapes(fields, r.value)
  {
    DecodeNoInit(fields, DefaultSlots(fields), s)
  }
}
