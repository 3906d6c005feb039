/** Bytes of one message behind those of another: decoding them merges the second message into the first, and a
    nested message that comes in two parts is decoded as if it had come in one. */
module PbMerge {
  import opened Options
  import opened Coding
  import opened PbTypes
  import opened PbDecode
  import opened PbRoundTrip
  import opened PbEvolve

  // ----- what has been read is read the same with more bytes behind it -----

  lemma FirstOfMore(s: seq<byte>, more: seq<byte>)
    requires s != []
    ensures s + more != [] && (s + more)[0] == s[0] && (s + more)[1..] == s[1..] + more
  {
  }

  lemma TakeOfMore(s: seq<byte>, more: seq<byte>, n: nat)
    requires n <= |s|
    ensures n <= |s + more| && (s + more)[..n] == s[..n] && (s + more)[n..] == s[n..] + more
  {
  }

  lemma {:induction false} MoreVarint32From(s: seq<byte>, bitpos: nat, result: nat, more: seq<byte>)
    requires result < TWO32 && Varint32From(s, bitpos, result).Some?
    ensures var r := Varint32From(s, bitpos, result).value; Varint32From(s + more, bitpos, result) == Some(Read(r.value, r.rest + more))
    decreases |s|
  {
    hide AddDigit;
    FirstOfMore(s, more);
    if s[0] >= 128 {
      var next := if bitpos >= 32 then result else AddDigit(result, s[0] % 128, bitpos, TWO32);
      MoreVarint32From(s[1..], (bitpos + 7) % 256, next, more);
    }
  }

  lemma MoreVarint32(s: seq<byte>, more: seq<byte>)
    requires Varint32(s).Some?
    ensures var r := Varint32(s).value; Varint32(s + more) == Some(Read(r.value, r.rest + more))
  {
    hide Varint32From;
    FirstOfMore(s, more);
    if s[0] >= 128 {
      MoreVarint32From(s[1..], 7, s[0] % 128, more);
    }
  }

  lemma {:induction false} MoreVarintFrom(s: seq<byte>, shift: nat, result: nat, more: seq<byte>)
    requires VarintFrom(s, shift, result, 63, TWO64).Some?
    ensures var r := VarintFrom(s, shift, result, 63, TWO64).value;
            VarintFrom(s + more, shift, result, 63, TWO64) == Some(Read(r.value, r.rest + more))
    decreases |s|
  {
    hide AddDigit;
    FirstOfMore(s, more);
    if s[0] >= 128 {
      MoreVarintFrom(s[1..], shift + 7, AddDigit(result, s[0] % 128, shift, TWO64), more);
    }
  }

  lemma {:induction false} MoreSkipVarint(s: seq<byte>, more: seq<byte>)
    requires SkipVarint(s).Some?
    ensures SkipVarint(s + more) == Some(SkipVarint(s).value + more)
    decreases |s|
  {
    FirstOfMore(s, more);
    if s[0] >= 128 {
      MoreSkipVarint(s[1..], more);
    }
  }

  lemma MoreDelimited(s: seq<byte>, more: seq<byte>)
    requires Delimited(s).Some?
    ensures var d := Delimited(s).value; Delimited(s + more) == Some(Read(d.value, d.rest + more))
  {
    hide Varint32;
    MoreVarint32(s, more);
    var n := Varint32(s).value;
    TakeOfMore(n.rest, more, n.value);
  }

  lemma MoreSkipField(s: seq<byte>, wireType: nat, more: seq<byte>)
    requires SkipField(s, wireType).Some?
    ensures SkipField(s + more, wireType) == Some(SkipField(s, wireType).value + more)
  {
    hide SkipVarint, Delimited;
    if wireType == 0 {
      MoreSkipVarint(s, more);
    } else if wireType == 1 {
      TakeOfMore(s, more, 8);
    } else if wireType == 2 {
      MoreDelimited(s, more);
    } else {
      TakeOfMore(s, more, 4);
    }
  }

  lemma MoreData(t: LType, base: Value, s: seq<byte>, more: seq<byte>)
    requires (t.Bytes? || t.String? || t.FixedBytes?) && DecodeValue(t, base, s).Some?
    ensures var r := DecodeValue(t, base, s).value; DecodeValue(t, base, s + more) == Some(Read(r.value, r.rest + more))
  {
    hide Varint32;
    MoreVarint32(s, more);
    var n := Varint32(s).value;
    if !t.FixedBytes? || n.value > 0 {
      TakeOfMore(n.rest, more, n.value);
    }
  }

  lemma MoreValue(t: LType, base: Value, s: seq<byte>, more: seq<byte>)
    requires DecodeValue(t, base, s).Some?
    ensures var r := DecodeValue(t, base, s).value; DecodeValue(t, base, s + more) == Some(Read(r.value, r.rest + more))
  {
    hide Varint32, VarintFrom, Delimited, DecodeNoInit, Signed, UnZigZag, DecodeFixed32, DecodeFixed64;
    match t
    case Bool => MoreVarint32(s, more);
    case Varint(_) => MoreVarintFrom(s, 0, 0, more);
    case UVarint(_) => MoreVarintFrom(s, 0, 0, more);
    case SVarint(_) => MoreVarintFrom(s, 0, 0, more);
    case Fixed32 => TakeOfMore(s, more, 4);
    case Fixed64 => TakeOfMore(s, more, 8);
    case Submessage(_) => MoreDelimited(s, more);
    case _ => MoreData(t, base, s, more);
  }

  lemma MoreItems(f: Field, max: nat, items: seq<Value>, k: nat, wireType: nat, s: seq<byte>, more: seq<byte>)
    requires k <= |items| && DecodeItems(f, max, items, k, wireType, s).Some?
    ensures var r := DecodeItems(f, max, items, k, wireType, s).value;
            DecodeItems(f, max, items, k, wireType, s + more) == Some(Read(r.value, r.rest + more))
  {
    hide DecodeValue, DecodePacked, Delimited;
    if wireType == 2 && Packable(f.ltype) {
      MoreDelimited(s, more);
    } else {
      MoreValue(f.ltype, DefaultValue(f.ltype), s, more);
    }
  }

  lemma MoreField(fields: seq<Field>, p: Progress, i: nat, wireType: nat, s: seq<byte>, more: seq<byte>)
    requires i < |fields| && DecodeField(fields, p, i, wireType, s).Some?
    ensures var r := DecodeField(fields, p, i, wireType, s).value;
            DecodeField(fields, p, i, wireType, s + more) == Some(Read(r.value, r.rest + more))
  {
    hide DecodeValue, DecodeItems, Choose;
    var f, slot := fields[i], p.slots[i];
    match f.rule
    case Required => MoreValue(f.ltype, slot.v, s, more);
    case Singular => MoreValue(f.ltype, slot.v, s, more);
    case Optional => MoreValue(f.ltype, if slot.o.Some? then slot.o.value else DefaultValue(f.ltype), s, more);
    case Oneof(_) => MoreValue(f.ltype, DefaultValue(f.ltype), s, more);
    case Repeated(max) => MoreItems(f, max, slot.items, |slot.items|, wireType, s, more);
    case FixedCount(n) => MoreItems(f, n, slot.items, p.fixedSize, wireType, s, more);
  }

  // ----- one message behind another -----

  /** A zero tag ended the message. */
  ghost predicate Ended(fields: seq<Field>, p: Progress, s: seq<byte>)
    decreases |s|
  {
    var t := Varint32(s);
    GoodProgress(fields, p) && t.Some? &&
    if t.value.value == 0 then true
    else
      var tag, wireType, rest := t.value.value / 8, t.value.value % 8, t.value.rest;
      if fields == [] && tag == 0 then
        var b := Varint32(rest);
        b.Some? && Ended(fields, p, b.value.rest)
      else
        match FindField(fields, tag)
        case None =>
          var skipped := SkipField(rest, wireType);
          skipped.Some? && Ended(fields, p, skipped.value)
        case Some(i) =>
          var met := Meet(fields, p, i);
          met.Some? &&
          var d := DecodeField(fields, met.value, i, wireType, rest);
          d.Some? && Ended(fields, d.value.value, d.value.rest)
  }

  /** Main result: a message behind another is decoded over what the first has left, unless a zero tag ended that. */
  lemma {:induction false} Concatenated(fields: seq<Field>, p: Progress, a: seq<byte>, b: seq<byte>)
    requires DecodeFields(fields, p, a).Some?
    ensures DecodeFields(fields, p, a + b) ==
            if Ended(fields, p, a) then DecodeFields(fields, p, a) else DecodeFields(fields, DecodeFields(fields, p, a).value, b)
    decreases |a|
  {
    hide Varint32, SkipField, FindField, DecodeField, Meet, GoodProgress;
    if a == [] {
      assert [] + b == b;
      EmptyNotEnded(fields, p);
    } else {
      MoreVarint32(a, b);
      var t := Varint32(a).value;
      if t.value != 0 {
        var tag, wireType, rest := t.value / 8, t.value % 8, t.rest;
        if fields == [] && tag == 0 {
          MoreVarint32(rest, b);
          Concatenated(fields, p, Varint32(rest).value.rest, b);
        } else if FindField(fields, tag).None? {
          MoreSkipField(rest, wireType, b);
          Concatenated(fields, p, SkipField(rest, wireType).value, b);
        } else {
          var i := FindField(fields, tag).value;
          var met := Meet(fields, p, i).value;
          MoreField(fields, met, i, wireType, rest, b);
          var d := DecodeField(fields, met, i, wireType, rest).value;
          Concatenated(fields, d.value, d.rest, b);
        }
      }
    }
  }

  lemma EmptyNotEnded(fields: seq<Field>, p: Progress)
    ensures !Ended(fields, p, [])
  {
  }

  // ----- the required fields seen do not matter to what is decoded -----

  function More(p: Progress, e: set<nat>): Progress {
    p.(seen := p.seen + e)
  }

  lemma MeetMore(fields: seq<Field>, p: Progress, e: set<nat>, i: nat)
    requires i < |fields|
    ensures Meet(fields, More(p, e), i) == match Meet(fields, p, i) case None => None case Some(met) => Some(More(met, e))
  {
    hide RequiredBefore;
    assert p.seen + {RequiredBefore(fields, i)} + e == p.seen + e + {RequiredBefore(fields, i)};
  }

  lemma FieldMore(fields: seq<Field>, p: Progress, e: set<nat>, i: nat, wireType: nat, s: seq<byte>)
    requires i < |fields|
    ensures DecodeField(fields, More(p, e), i, wireType, s) ==
            match DecodeField(fields, p, i, wireType, s) case None => None case Some(r) => Some(Read(More(r.value, e), r.rest))
  {
    hide DecodeValue, DecodeItems, Choose, Shapes;
  }

  lemma {:induction false} FieldsMore(fields: seq<Field>, p: Progress, e: set<nat>, s: seq<byte>)
    ensures DecodeFields(fields, More(p, e), s) == match DecodeFields(fields, p, s) case None => None case Some(q) => Some(More(q, e))
    decreases |s|
  {
    hide Varint32, SkipField, FindField, DecodeField, Meet, Shapes;
    if GoodProgress(fields, p) && s != [] && Varint32(s).Some? && Varint32(s).value.value != 0 {
      var t := Varint32(s).value;
      var tag, wireType, rest := t.value / 8, t.value % 8, t.rest;
      if fields == [] && tag == 0 {
        if Varint32(rest).Some? {
          FieldsMore(fields, p, e, Varint32(rest).value.rest);
        }
      } else if FindField(fields, tag).None? {
        if SkipField(rest, wireType).Some? {
          FieldsMore(fields, p, e, SkipField(rest, wireType).value);
        }
      } else {
        var i := FindField(fields, tag).value;
        MeetMore(fields, p, e, i);
        if Meet(fields, p, i).Some? {
          var met := Meet(fields, p, i).value;
          FieldMore(fields, met, e, i, wireType, rest);
          if DecodeField(fields, met, i, wireType, rest).Some? {
            var d := DecodeField(fields, met, i, wireType, rest).value;
            FieldsMore(fields, d.value, e, d.rest);
          }
        }
      }
    }
  }

  predicate NoFixedArrays(fields: seq<Field>) {
    forall i :: 0 <= i < |fields| ==> !fields[i].rule.FixedCount?
  }

  lemma {:induction false} NoneFilling(fields: seq<Field>, p: Progress, s: seq<byte>)
    requires NoFixedArrays(fields) && p.fixedField == None && DecodeFields(fields, p, s).Some?
    ensures var q := DecodeFields(fields, p, s).value; q.fixedField == None && q.fixedSize == p.fixedSize && p.seen <= q.seen
    decreases |s|
  {
    hide Varint32, SkipField, FindField, DecodeValue, DecodeItems, Choose, Shapes, RequiredBefore;
    if s != [] && Varint32(s).value.value != 0 {
      var t := Varint32(s).value;
      var tag, wireType, rest := t.value / 8, t.value % 8, t.rest;
      if fields == [] && tag == 0 {
        NoneFilling(fields, p, Varint32(rest).value.rest);
      } else if FindField(fields, tag).None? {
        NoneFilling(fields, p, SkipField(rest, wireType).value);
      } else {
        var i := FindField(fields, tag).value;
        var met := Meet(fields, p, i).value;
        var d := DecodeField(fields, met, i, wireType, rest).value;
        NoneFilling(fields, d.value, d.rest);
      }
    }
  }

  /** Main result: a whole message and anything behind it are decoded like the latter over the former, which has
      what is required already. */
  lemma MessagesMerge(fields: seq<Field>, slots: seq<Slot>, a: seq<byte>, b: seq<byte>)
    requires NoFixedArrays(fields) && DecodeNoInit(fields, slots, a).Some? && !Ended(fields, Progress(slots, {}, None, 0), a)
    ensures var q := DecodeFields(fields, Progress(DecodeNoInit(fields, slots, a).value, {}, None, 0), b);
            DecodeNoInit(fields, slots, a + b) == if q.None? then None else Some(q.value.slots)
  {
    hide DecodeFields, Ended, RequiredBefore, NoFixedArrays;
    var start := Progress(slots, {}, None, 0);
    var pa := DecodeFields(fields, start, a).value;
    var between := Progress(pa.slots, {}, None, 0);
    Concatenated(fields, start, a, b);
    NoneFilling(fields, start, a);
    assert More(between, pa.seen) == pa;
    FieldsMore(fields, between, pa.seen, b);
    if DecodeFields(fields, between, b).Some? {
      NoneFilling(fields, between, b);
    }
  }

  // ----- a nested message in two parts -----

  /** The bytes as the nested message of the field. */
  function Part(f: Field, x: seq<byte>): seq<byte> {
    TagBytes(f.tag, 2) + (VarintBytes(|x|) + x)
  }

  lemma PartTaken(fields: seq<Field>, p: Progress, i: nat, x: seq<byte>, rest: seq<byte>)
    requires GoodSchema(fields) && GoodProgress(fields, p) && i < |fields| && fields[i].ltype.Submessage? && |x| < TWO32
    requires !fields[i].rule.Repeated? && !fields[i].rule.FixedCount? && Base(fields[i], p.slots[i]).Message?
    requires DecodeNoInit(fields[i].ltype.fields, Base(fields[i], p.slots[i]).slots, x).Some?
    ensures var v := Message(DecodeNoInit(fields[i].ltype.fields, Base(fields[i], p.slots[i]).slots, x).value);
            && GoodProgress(fields, After(fields, p, i, v))
            && DecodeFields(fields, p, Part(fields[i], x) + rest) == DecodeFields(fields, After(fields, p, i, v), rest)
  {
    hide DecodeFields, DecodeNoInit, Delimited;
    var f := fields[i];
    var v := Message(DecodeNoInit(f.ltype.fields, Base(f, p.slots[i]).slots, x).value);
    var body := VarintBytes(|x|) + x + rest;
    assert Shape(f, p.slots[i]);
    DelimitedRoundTrip(x, rest);
    Regroup(TagBytes(f.tag, 2), VarintBytes(|x|) + x, rest);
    var met := After(fields, p, i, v).(slots := p.slots);
    assert Meet(fields, p, i) == Some(met);
    assert DecodeField(fields, met, i, 2, body) == Some(Read(After(fields, p, i, v), rest));
    OneRound(fields, p, i, 2, body, met, After(fields, p, i, v), rest);
  }

  lemma TakenTwice(fields: seq<Field>, p: Progress, i: nat, v: Value, w: Value)
    requires GoodProgress(fields, p) && i < |fields| && GoodProgress(fields, After(fields, p, i, v))
    ensures After(fields, After(fields, p, i, v), i, w) == After(fields, p, i, w)
    ensures !fields[i].rule.Repeated? && !fields[i].rule.FixedCount? ==>
              After(fields, p, i, v).slots[i] == if fields[i].rule.Oneof? || fields[i].rule.Optional? then Maybe(Some(v)) else One(v)
  {
    assert Shape(fields[i], p.slots[i]);
    assert After(fields, After(fields, p, i, v), i, w).slots == After(fields, p, i, w).slots;
  }

  /** Main result: a nested message that comes in two parts, each with all that is required, is what it is in one;
      of a union's, the second part counts alone. */
  lemma PartsMerge(fields: seq<Field>, p: Progress, i: nat, a: seq<byte>, b: seq<byte>, rest: seq<byte>)
    requires GoodSchema(fields) && GoodProgress(fields, p) && i < |fields| && fields[i].ltype.Submessage? && |a| + |b| < TWO32
    requires !fields[i].rule.Repeated? && !fields[i].rule.FixedCount? && Base(fields[i], p.slots[i]).Message?
    requires NoFixedArrays(fields[i].ltype.fields)
    requires var sub, base := fields[i].ltype.fields, Base(fields[i], p.slots[i]).slots;
             && DecodeNoInit(sub, base, a).Some? && !Ended(sub, Progress(base, {}, None, 0), a)
             && DecodeNoInit(sub, if fields[i].rule.Oneof? then DefaultSlots(sub) else DecodeNoInit(sub, base, a).value, b).Some?
    ensures DecodeFields(fields, p, Part(fields[i], a) + (Part(fields[i], b) + rest)) ==
            DecodeFields(fields, p, Part(fields[i], if fields[i].rule.Oneof? then b else a + b) + rest)
  {
    hide DecodeFields, Complete, Ended, Part, NoFixedArrays, DefaultSlots, After, RequiredBefore;
    var f := fields[i];
    var sub, base := f.ltype.fields, Base(f, p.slots[i]).slots;
    var m := DecodeNoInit(sub, base, a).value;
    PartTaken(fields, p, i, a, Part(f, b) + rest);
    var q := After(fields, p, i, Message(m));
    TakenTwice(fields, p, i, Message(m), Message(DecodeNoInit(sub, if f.rule.Oneof? then DefaultSlots(sub) else m, b).value));
    PartTaken(fields, q, i, b, rest);
    if f.rule.Oneof? {
      assert Shape(f, p.slots[i]);
      PartTaken(fields, p, i, b, rest);
    } else {
      MessagesMerge(sub, base, a, b);
      PartTaken(fields, p, i, a + b, rest);
    }
  }

  // ----- fixed arrays -----

  function OneFixed(): seq<Field> {
    [Field(1, FixedCount(1), Bool)]
  }

  lemma ItemDecodes(items: seq<Value>, k: nat, rest: seq<byte>)
    requires k <= |items|
    ensures DecodeItems(OneFixed()[0], 1, items, k, 0, [1] + rest) == if k == 0 then Some(Read([Num(1)], rest)) else None
  {
    assert ([1] + rest)[1..] == rest;
    assert Varint32([1] + rest) == Some(Read(1, rest));
    assert items[..0] + [Num(1)] == [Num(1)];
  }

  /** One round that reads the field's only item from the bytes 8 and 1. */
  lemma OneItem(p: Progress, rest: seq<byte>)
    requires GoodProgress(OneFixed(), p) && (p.fixedField == None || (p.fixedField == Some(0) && p.fixedSize == 1))
    ensures DecodeFields(OneFixed(), p, [8, 1] + rest) ==
            if p.fixedField == Some(0) then None
            else DecodeFields(OneFixed(), Progress([Many([Num(1)])], p.seen, Some(0), 1), rest)
  {
    hide DecodeItems;
    var fields := OneFixed();
    var s := [8, 1] + rest;
    assert s[1..] == [1] + rest;
    assert Varint32(s) == Some(Read(8, [1] + rest));
    assert FindField(fields, 1) == Some(0) && Shape(fields[0], p.slots[0]);
    var met := p.(fixedField := Some(0), fixedSize := if p.fixedField == None then 0 else 1);
    ItemDecodes(p.slots[0].items, met.fixedSize, rest);
    assert Meet(fields, p, 0) == Some(met);
    if p.fixedField == None {
      assert p.slots[0 := Many([Num(1)])] == [Many([Num(1)])];
      Round(fields, p, 0, s, 8, [1] + rest, met, Progress([Many([Num(1)])], p.seen, Some(0), 1), rest);
    } else {
      RoundRefused(fields, p, 0, s, 8, [1] + rest);
    }
  }

  /** The law needs its condition: a fixed array that comes in both parts is filled twice, but in one part it
      would overflow. */
  lemma FixedArraysDoNotMerge()
    ensures var fields, one := OneFixed(), [Many([Num(1)])];
            && DecodeNoInit(fields, DefaultSlots(fields), [8, 1]) == Some(one) && DecodeNoInit(fields, one, [8, 1]) == Some(one)
            && DecodeNoInit(fields, DefaultSlots(fields), [8, 1] + [8, 1]) == None
  {
    var fields, one := OneFixed(), [Many([Num(1)])];
    assert [8, 1] + [] == [8, 1] && RequiredBefore(fields, 1) == 0;
    OneItem(Progress(DefaultSlots(fields), {}, None, 0), []);
    OneItem(Progress(one, {}, None, 0), []);
    OneItem(Progress(DefaultSlots(fields), {}, None, 0), [8, 1]);
    OneItem(Progress(one, {}, Some(0), 1), []);
  }
}
