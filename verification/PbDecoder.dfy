/** The decoder's routines as they run, on streams with a position and a count of bytes left (nanopb's
    pb_decode.c and the field iterator of pb_common.c); PbDecode says what they compute. */
module PbDecoder {
  import opened Options
  import opened Coding
  import opened PbTypes
  import opened PbDecode

  class IStream {
    const data: seq<byte>
    var state: nat
    var bytesLeft: nat
    ghost const end: nat

    constructor (data: seq<byte>, state: nat, bytesLeft: nat)
      requires state + bytesLeft <= |data|
      ensures this.data == data && this.state == state && this.bytesLeft == bytesLeft && end == state + bytesLeft
      ensures Valid()
    {
      this.data, this.state, this.bytesLeft, end := data, state, bytesLeft, state + bytesLeft;
    }

    ghost predicate Valid()
      reads this
    {
      state + bytesLeft == end <= |data|
    }

    ghost function Remaining(): (r: seq<byte>)
      requires Valid()
      reads this
      ensures |r| == bytesLeft
    {
      data[state..end]
    }

    /** The outcome of a routine that was to read `r`. */
    ghost predicate Got<T>(ok: bool, v: T, r: Option<Read<T>>)
      reads this
    {
      Valid() && (ok <==> r.Some?) && (ok ==> r == Some(Read(v, Remaining())))
    }

    method ReadBytes(count: nat) returns (ok: bool, buf: seq<byte>)
      requires Valid()
      modifies this
      ensures Got(ok, buf, Take(old(Remaining()), count))
    {
      if count == 0 {
        assert Remaining()[..0] == [] && Remaining()[0..] == Remaining();
        return true, [];
      }
      if bytesLeft < count {
        return false, [];
      }
      buf := data[state..state + count];
      assert buf == Remaining()[..count];
      state := state + count;
      bytesLeft := bytesLeft - count;
      ok := true;
      assert Remaining() == old(Remaining())[count..];
    }

    method ReadByte() returns (ok: bool, b: byte)
      requires Valid()
      modifies this
      ensures Valid() && (ok <==> old(bytesLeft) > 0)
      ensures ok ==> b == old(Remaining())[0] && Remaining() == old(Remaining())[1..] && bytesLeft == old(bytesLeft) - 1
    {
      if bytesLeft == 0 {
        return false, 0;
      }
      b := data[state];
      state := state + 1;
      bytesLeft := bytesLeft - 1;
      ok := true;
    }

    method DecodeVarint32() returns (ok: bool, value: nat)
      requires Valid()
      modifies this
      ensures Got(ok, value, Varint32(old(Remaining())))
    {
      var b;
      ok, b := ReadByte();
      value := 0;
      if !ok {
        return;
      }
      if b < 0x80 {
        return true, b;
      }
      var bitpos: nat := 7;
      value := b % 0x80;
      while b >= 0x80
        invariant Valid() && value < TWO32 && bitpos < 256
        invariant b >= 0x80 ==> Varint32(old(Remaining())) == Varint32From(Remaining(), bitpos, value)
        invariant b < 0x80 ==> Varint32(old(Remaining())) ==
                               if bitpos == 35 && b / 16 % 8 != 0 then None else Some(Read(value, Remaining()))
        decreases b >= 0x80, bytesLeft
      {
        ok, b := ReadByte();
        if !ok {
          return;
        }
        if bitpos >= 32 {
          var signExtension := if bitpos < 63 then 0xFF else 0x01;
          if b % 128 != 0 && (value < TWO32 / 2 || b != signExtension) {
            return false, value;
          }
        } else {
          value := AddDigit(value, b % 128, bitpos, TWO32);
        }
        bitpos := (bitpos + 7) % 256;
      }
      ok := !(bitpos == 35 && b / 16 % 8 != 0);
    }

    method DecodeVarint() returns (ok: bool, value: nat)
      requires Valid()
      modifies this
      ensures Got(ok, value, Varint64(old(Remaining())))
    {
      var bitpos: nat := 0;
      var b := 0x80;
      value := 0;
      while b >= 0x80
        invariant Valid()
        invariant Varint64(old(Remaining())) ==
                  if b >= 0x80 then VarintFrom(Remaining(), bitpos, value, 63, TWO64) else Some(Read(value, Remaining()))
        decreases b >= 0x80, bytesLeft
      {
        if bitpos >= 64 {
          return false, value;
        }
        ok, b := ReadByte();
        if !ok {
          return;
        }
        value := AddDigit(value, b % 128, bitpos, TWO64);
        bitpos := bitpos + 7;
      }
      ok := true;
    }

    method DecodeSVarint() returns (ok: bool, value: int)
      requires Valid()
      modifies this
      ensures var r := Varint64(old(Remaining()));
              Valid() && (ok <==> r.Some?) && (ok ==> value == UnZigZag(r.value.value) && Remaining() == r.value.rest)
    {
      var w;
      ok, w := DecodeVarint();
      var half: int := w / 2;
      value := if w % 2 == 1 then -half - 1 else half;
    }

    method SkipVarint() returns (ok: bool)
      requires Valid()
      modifies this
      ensures var r := PbDecode.SkipVarint(old(Remaining()));
              Valid() && (ok <==> r.Some?) && (ok ==> r == Some(Remaining()))
    {
      var b := 0x80;
      while b >= 0x80
        invariant Valid()
        invariant PbDecode.SkipVarint(old(Remaining())) ==
                  if b >= 0x80 then PbDecode.SkipVarint(Remaining()) else Some(Remaining())
        decreases b >= 0x80, bytesLeft
      {
        ok, b := ReadByte();
        if !ok {
          return;
        }
      }
      ok := true;
    }

    /** Reads a length and sets up a stream of just so many bytes; they no longer count here, but the
        position stays before them until the other stream is closed. */
    method MakeStringSubstream() returns (ok: bool, substream: IStream)
      requires Valid()
      modifies this
      ensures ok <==> Delimited(old(Remaining())).Some?
      ensures !ok ==> Valid()
      ensures ok ==> fresh(substream) && substream.Valid() && substream.data == data
                     && substream.Remaining() == Delimited(old(Remaining())).value.value
      ensures ok ==> end == substream.end + bytesLeft && data[substream.end..end] == Delimited(old(Remaining())).value.rest && end <= |data|
    {
      var size;
      ok, size := DecodeVarint32();
      substream := this;
      if !ok {
        return;
      }
      if bytesLeft < size {
        return false, this;
      }
      substream := new IStream(data, state, size);
      bytesLeft := bytesLeft - size;
    }

    method CloseStringSubstream(substream: IStream)
      requires substream != this && substream.Valid() && substream.data == data && end == substream.end + bytesLeft && end <= |data|
      modifies this, substream
      ensures Valid() && bytesLeft == old(bytesLeft) && Remaining() == data[substream.end..end]
    {
      if substream.bytesLeft > 0 {
        var ok, skipped := substream.ReadBytes(substream.bytesLeft);
      }
      state := substream.state;
    }

    method SkipField(wireType: nat) returns (ok: bool)
      requires Valid()
      modifies this
      ensures var r := PbDecode.SkipField(old(Remaining()), wireType);
              Valid() && (ok <==> r.Some?) && (ok ==> r == Some(Remaining()))
    {
      var skipped;
      if wireType == 0 {
        ok := SkipVarint();
      } else if wireType == 1 {
        ok, skipped := ReadBytes(8);
      } else if wireType == 2 {
        var length;
        ok, length := DecodeVarint32();
        if ok {
          ok, skipped := ReadBytes(length);
        }
      } else if wireType == 5 {
        ok, skipped := ReadBytes(4);
      } else {
        ok := false;
      }
    }
  }

  lemma FirstWithTag(fields: seq<Field>, i: nat)
    requires GoodSchema(fields) && i < |fields|
    ensures FindField(fields, fields[i].tag) == Some(i)
  {
    forall j | 0 <= j < |fields| && j != i ensures fields[j].tag != fields[i].tag {
      if j < i {
        assert TagsDiffer(fields[j], fields[i]);
      } else {
        assert TagsDiffer(fields[i], fields[j]);
      }
    }
  }

  /** Walks around the fields; the number of required fields before the position goes along. */
  class FieldIter {
    const fields: seq<Field>
    var pos: nat
    var requiredFieldIndex: nat

    ghost predicate Valid()
      reads this
    {
      && (if fields == [] then pos == 0 else pos < |fields|)
      && requiredFieldIndex == RequiredBefore(fields, pos)
    }

    constructor (fields: seq<Field>)
      ensures Valid() && this.fields == fields && pos == 0
    {
      this.fields, pos, requiredFieldIndex := fields, 0, 0;
    }

    method Next() returns (more: bool)
      requires Valid()
      modifies this
      ensures Valid() && (more <==> old(pos) + 1 < |fields|) && pos == if more then old(pos) + 1 else 0
    {
      if |fields| == 0 {
        return false;
      }
      var prev := fields[pos];
      if pos + 1 == |fields| {
        pos, requiredFieldIndex := 0, 0;
        return false;
      }
      pos := pos + 1;
      if prev.rule.Required? {
        requiredFieldIndex := requiredFieldIndex + 1;
      }
      return true;
    }

    /** From wherever it is, going around once finds the field with the tag, if there is one. */
    method Find(tag: nat) returns (found: bool)
      requires Valid() && fields != []
      requires GoodSchema(fields)
      modifies this
      ensures Valid() && FindField(fields, tag) == if found then Some(pos) else None
    {
      var start := pos;
      ghost var wrapped := false;
      while true
        invariant Valid()
        invariant if wrapped then pos < start else start <= pos
        invariant forall i :: start <= i < (if wrapped then |fields| else pos) ==> fields[i].tag != tag
        invariant wrapped ==> forall i :: 0 <= i < pos ==> fields[i].tag != tag
        decreases !wrapped, |fields| - pos
      {
        if fields[pos].tag == tag {
          FirstWithTag(fields, pos);
          return true;
        }
        var more := Next();
        wrapped := wrapped || !more;
        if pos == start {
          return false;
        }
      }
    }
  }

  method DecodeInteger(stream: IStream, t: LType) returns (ok: bool, n: int)
    requires stream.Valid() && (t.Varint? || t.UVarint? || t.SVarint?)
    modifies stream
    ensures var r := DecodeValue(t, Num(0), old(stream.Remaining()));
            stream.Valid() && (ok <==> r.Some?) && (ok ==> r == Some(Read(Num(n), stream.Remaining())))
  {
    var value;
    if t.SVarint? {
      ok, n := stream.DecodeSVarint();
      if !ok {
        return;
      }
    } else {
      ok, value := stream.DecodeVarint();
      n := value;
      if !ok {
        return;
      }
      if t.Varint? {
        n := if t.size == 8 then Signed(value, 8) else Signed(value, 4);
      }
    }
    if !IntSize(t.size) {
      return false, n;
    }
    // the cast to the field's own type must not change the value
    ok := n == if t.UVarint? then value % Span(t.size) else Signed(n % TWO64, t.size);
  }

  /** Whether the field has room for so many bytes; a string needs one more, counted in 32 bits. */
  predicate HasRoom(t: LType, size: nat)
    requires size < TWO32
    ensures t.String? ==> (HasRoom(t, size) <==> size + 1 < TWO32 && size + 1 <= t.size)
  {
    match t
    case Bytes(max) => size <= max
    case String(room) =>
      var alloc := (size + 1) % TWO32;
      alloc >= size && alloc <= room
    case FixedBytes(length) => size == length
    case _ => true
  }

  method DecodeData(stream: IStream, t: LType) returns (ok: bool, bytes: seq<byte>)
    requires stream.Valid() && (t.Bytes? || t.String? || t.FixedBytes?)
    modifies stream
    ensures var r := DecodeValue(t, Data([]), old(stream.Remaining()));
            stream.Valid() && (ok <==> r.Some?) && (ok ==> r == Some(Read(Data(bytes), stream.Remaining())))
  {
    var size;
    ok, size := stream.DecodeVarint32();
    bytes := [];
    if !ok {
      return;
    }
    if t.FixedBytes? && size == 0 {
      return true, Zeros(t.size);
    }
    if !HasRoom(t, size) {
      return false, [];
    }
    ok, bytes := stream.ReadBytes(size);
  }

  method DecodeFixed(stream: IStream, t: LType) returns (ok: bool, n: nat)
    requires stream.Valid() && (t.Fixed32? || t.Fixed64?)
    modifies stream
    ensures var r := DecodeValue(t, Num(0), old(stream.Remaining()));
            stream.Valid() && (ok <==> r.Some?) && (ok ==> r == Some(Read(Num(n), stream.Remaining())))
  {
    var bytes;
    ok, bytes := stream.ReadBytes(if t.Fixed32? then 4 else 8);
    n := 0;
    if ok {
      n := if t.Fixed32? then DecodeFixed32(bytes) else DecodeFixed64(bytes);
    }
  }

  method SetToDefault(t: LType) returns (v: Value)
    ensures v == DefaultValue(t)
    decreases t
  {
    match t
    case Bytes(_) => v := Data([]);
    case String(_) => v := Data([]);
    case FixedBytes(size) => v := Data(Zeros(size));
    case Submessage(fields) =>
      var slots := SetToDefaults(fields);
      v := Message(slots);
    case _ => v := Num(0);
  }

  method SetFieldToDefault(f: Field) returns (slot: Slot)
    ensures slot == DefaultSlot(f)
    decreases f
  {
    match f.rule
    case Optional => slot := Maybe(None);
    case Oneof(_) => slot := Maybe(None);
    case Repeated(_) => slot := Many([]);
    case FixedCount(_) => slot := Many([]);
    case _ =>
      var v := SetToDefault(f.ltype);
      slot := One(v);
  }

  method SetToDefaults(fields: seq<Field>) returns (slots: seq<Slot>)
    ensures slots == DefaultSlots(fields)
    decreases fields
  {
    slots := [];
    for i := 0 to |fields|
      invariant slots == DefaultSlots(fields)[..i]
    {
      var slot := SetFieldToDefault(fields[i]);
      slots := slots + [slot];
    }
  }

  method DecodeDatum(stream: IStream, t: LType, base: Value) returns (ok: bool, v: Value)
    requires stream.Valid() && GoodType(t)
    modifies stream
    ensures stream.Got(ok, v, DecodeValue(t, base, old(stream.Remaining())))
    decreases stream.bytesLeft, 1
  {
    v := base;
    match t {
      case Bool =>
        var w;
        ok, w := stream.DecodeVarint32();
        v := Num(if w != 0 then 1 else 0);
      case Fixed32 =>
        var n;
        ok, n := DecodeFixed(stream, t);
        v := Num(n);
      case Fixed64 =>
        var n;
        ok, n := DecodeFixed(stream, t);
        v := Num(n);
      case Submessage(fields) => ok, v := DecodeSubmessage(stream, fields, base);
      case Varint(_) =>
        var n;
        ok, n := DecodeInteger(stream, t);
        v := Num(n);
      case UVarint(_) =>
        var n;
        ok, n := DecodeInteger(stream, t);
        v := Num(n);
      case SVarint(_) =>
        var n;
        ok, n := DecodeInteger(stream, t);
        v := Num(n);
      case _ =>
        var bytes;
        ok, bytes := DecodeData(stream, t);
        v := Data(bytes);
    }
  }

  /** The old content of a submessage stays where the input says nothing, unless it was set to its defaults. */
  method DecodeSubmessage(stream: IStream, fields: seq<Field>, base: Value) returns (ok: bool, v: Value)
    requires stream.Valid() && GoodSchema(fields)
    modifies stream
    ensures stream.Got(ok, v, DecodeValue(Submessage(fields), base, old(stream.Remaining())))
    decreases stream.bytesLeft, 0
  {
    var substream;
    v := base;
    if !base.Message? {
      return false, v;
    }
    ok, substream := stream.MakeStringSubstream();
    if !ok {
      return;
    }
    var slots;
    ok, slots := DecodeNoInit(substream, fields, base.slots);
    v := Message(slots);
    stream.CloseStringSubstream(substream);
  }

  method DecodePackedItems(substream: IStream, t: LType, max: nat, items0: seq<Value>) returns (ok: bool, items: seq<Value>)
    requires substream.Valid() && GoodType(t)
    modifies substream
    ensures var r := DecodePacked(t, max, items0, old(substream.Remaining()));
            substream.Valid() && (ok <==> r.Some?) && (ok ==> items == r.value)
    decreases substream.bytesLeft, 2
  {
    items := items0;
    var base := SetToDefault(t);
    while substream.bytesLeft > 0 && |items| < max
      invariant substream.Valid() && substream.bytesLeft <= old(substream.bytesLeft)
      invariant DecodePacked(t, max, items0, old(substream.Remaining())) == DecodePacked(t, max, items, substream.Remaining())
      decreases substream.bytesLeft
    {
      var v;
      ok, v := DecodeDatum(substream, t, base);
      if !ok {
        return;
      }
      items := items + [v];
    }
    ok := substream.bytesLeft == 0;
  }

  method DecodeArray(stream: IStream, f: Field, max: nat, items0: seq<Value>, k: nat, wireType: nat) returns (ok: bool, items: seq<Value>)
    requires stream.Valid() && GoodType(f.ltype) && k <= |items0|
    modifies stream
    ensures stream.Got(ok, items, DecodeItems(f, max, items0, k, wireType, old(stream.Remaining())))
    decreases stream.bytesLeft, 3
  {
    items := items0[..k];
    if wireType == 2 && Packable(f.ltype) {
      var substream;
      ok, substream := stream.MakeStringSubstream();
      if !ok {
        return;
      }
      ok, items := DecodePackedItems(substream, f.ltype, max, items);
      stream.CloseStringSubstream(substream);
    } else {
      if k >= max {
        return false, items;
      }
      var base := SetToDefault(f.ltype);
      var v;
      ok, v := DecodeDatum(stream, f.ltype, base);
      items := items + [v];
    }
  }

  method DecodeStaticField(stream: IStream, fields: seq<Field>, p: Progress, i: nat, wireType: nat) returns (ok: bool, q: Progress)
    requires stream.Valid() && GoodSchema(fields) && i < |fields| && GoodProgress(fields, p)
    requires fields[i].rule.FixedCount? ==> p.fixedField == Some(i)
    modifies stream
    ensures stream.Got(ok, q, DecodeField(fields, p, i, wireType, old(stream.Remaining())))
    decreases stream.bytesLeft, 4
  {
    var f, slot := fields[i], p.slots[i];
    assert GoodField(f);
    q := p;
    var v, items;
    match f.rule {
      case Optional =>
        var base;
        if slot.o.Some? {
          base := slot.o.value;
        } else {
          base := SetToDefault(f.ltype);
        }
        ok, v := DecodeDatum(stream, f.ltype, base);
        q := p.(slots := p.slots[i := Maybe(Some(v))]);
      case Oneof(_) =>
        var base := SetToDefault(f.ltype);
        ok, v := DecodeDatum(stream, f.ltype, base);
        q := p.(slots := Choose(fields, p.slots, i, v));
      case Repeated(max) =>
        ok, items := DecodeArray(stream, f, max, slot.items, |slot.items|, wireType);
        q := p.(slots := p.slots[i := Many(items)]);
      case FixedCount(n) =>
        ok, items := DecodeArray(stream, f, n, slot.items, p.fixedSize, wireType);
        q := p.(slots := p.slots[i := Many(items)], fixedSize := |items|);
      case _ =>
        ok, v := DecodeDatum(stream, f.ltype, slot.v);
        q := p.(slots := p.slots[i := One(v)]);
    }
  }

  /** One round of the loop over the input, after its tag is read. */
  method DecodeNext(stream: IStream, iter: FieldIter, p: Progress, tag: nat, wireType: nat) returns (ok: bool, q: Progress)
    requires stream.Valid() && iter.Valid() && GoodSchema(iter.fields) && GoodProgress(iter.fields, p)
    requires tag > 0 || iter.fields != []
    modifies stream, iter
    ensures iter.Valid() && stream.Valid()
    ensures ok ==> stream.bytesLeft <= old(stream.bytesLeft)
    ensures ok ==> GoodProgress(iter.fields, q)
    ensures var s := old(stream.Remaining());
            match FindField(iter.fields, tag)
            case None =>
              var r := SkipField(s, wireType);
              (ok <==> r.Some?) && (ok ==> q == p && r == Some(stream.Remaining()))
            case Some(i) =>
              var met := Meet(iter.fields, p, i);
              if met.None? then !ok
              else stream.Got(ok, q, DecodeField(iter.fields, met.value, i, wireType, s))
    decreases stream.bytesLeft, 5
  {
    q := p;
    var fields := iter.fields;
    var found := false;
    if |fields| > 0 {
      found := iter.Find(tag);
    }
    if !found {
      ok := stream.SkipField(wireType);
      return;
    }
    var i := iter.pos;
    var met := p;
    if fields[i].rule.FixedCount? && p.fixedField != Some(i) {
      if !FixedDone(fields, p) {
        return false, q;
      }
      met := p.(fixedField := Some(i), fixedSize := 0);
    }
    if fields[i].rule.Required? && iter.requiredFieldIndex < MAX_REQUIRED_FIELDS {
      met := met.(seen := met.seen + {iter.requiredFieldIndex});
    }
    ok, q := DecodeStaticField(stream, fields, met, i, wireType);
  }

  method DecodeNoInit(stream: IStream, fields: seq<Field>, slots: seq<Slot>) returns (ok: bool, out: seq<Slot>)
    requires stream.Valid() && GoodSchema(fields)
    modifies stream
    ensures var r := PbDecode.DecodeNoInit(fields, slots, old(stream.Remaining()));
            stream.Valid() && (ok <==> r.Some?) && (ok ==> out == r.value)
    decreases stream.bytesLeft, 6
  {
    out := slots;
    if !Shapes(fields, slots) {
      return false, out;
    }
    var iter := new FieldIter(fields);
    var p := Progress(slots, {}, None, 0);
    while stream.bytesLeft > 0
      invariant stream.Valid() && iter.Valid() && iter.fields == fields && fresh(iter) && stream.bytesLeft <= old(stream.bytesLeft)
      invariant GoodProgress(fields, p)
      invariant DecodeFields(fields, Progress(slots, {}, None, 0), old(stream.Remaining())) == DecodeFields(fields, p, stream.Remaining())
      decreases stream.bytesLeft
    {
      var temp;
      ok, temp := stream.DecodeVarint32();
      if !ok {
        return;
      }
      if temp == 0 {
        break;  // a zero byte ends the message
      }
      if |fields| == 0 && temp / 8 == 0 {
        // the terminator itself is found, and looks like a required bool
        var b;
        ok, b := stream.DecodeVarint32();
      } else {
        ok, p := DecodeNext(stream, iter, p, temp / 8, temp % 8);
      }
      if !ok {
        return;
      }
    }
    ok := CheckComplete(fields, iter, p);
    out := p.slots;
  }

  /** Walks to the last field to count the required ones. */
  method CheckComplete(fields: seq<Field>, iter: FieldIter, p: Progress) returns (ok: bool)
    requires iter.Valid() && iter.fields == fields
    modifies iter
    ensures ok <==> Complete(fields, p)
  {
    if !FixedDone(fields, p) {
      return false;
    }
    var reqFieldCount := iter.requiredFieldIndex;
    var lastRequired := |fields| == 0 || fields[iter.pos].rule.Required?;
    var more := iter.Next();
    while more
      invariant iter.Valid() && (more ==> 0 < iter.pos)
      invariant if more then iter.pos < |fields| && reqFieldCount == RequiredBefore(fields, iter.pos - 1)
                              && lastRequired == fields[iter.pos - 1].rule.Required?
                else |fields| > 0 ==> reqFieldCount == RequiredBefore(fields, |fields| - 1) && lastRequired == fields[|fields| - 1].rule.Required?
      invariant |fields| == 0 ==> reqFieldCount == 0 && !more
      decreases more, |fields| - iter.pos
    {
      reqFieldCount := iter.requiredFieldIndex;
      lastRequired := fields[iter.pos].rule.Required?;
      more := iter.Next();
    }
    if lastRequired && |fields| > 0 {
      reqFieldCount := reqFieldCount + 1;
    }
    if reqFieldCount > MAX_REQUIRED_FIELDS {
      reqFieldCount := MAX_REQUIRED_FIELDS;
    }
    for k := 0 to reqFieldCount
      invariant forall j: nat :: j < k ==> j in p.seen
    {
      if k !in p.seen {
        return false;
      }
    }
    ok := true;
  }

  /** The whole decoder: sets the struct to its defaults and reads the message into it. */
  method Decode(stream: IStream, fields: seq<Field>) returns (ok: bool, slots: seq<Slot>)
    requires stream.Valid() && GoodSchema(fields)
    modifies stream
    ensures var r := PbDecode.Decode(fields, old(stream.Remaining()));
            stream.Valid() && (ok <==> r.Some?) && (ok ==> slots == r.value)
  {
    slots := SetToDefaults(fields);
    ok, slots := DecodeNoInit(stream, fields, slots);
  }
}
