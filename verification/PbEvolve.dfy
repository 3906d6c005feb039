/** What a decoder makes of bytes that its own schema did not produce: fields it does not have, fields that are
    missing or come twice, and numbers, lengths and arrays beyond what its struct can hold. */
module PbEvolve {
  import opened Options
  import opened Coding
  import opened PbTypes
  import opened PbDecode
  import opened PbRoundTrip
  import PbDecoder

  // ----- fields that the schema does not have -----

  ghost predicate Unknown(fields: seq<Field>, tag: nat) {
    0 < tag < 0x2000_0000 && forall i :: 0 <= i < |fields| ==> fields[i].tag != tag
  }

  lemma NotFound(fields: seq<Field>, tag: nat)
    requires Unknown(fields, tag)
    ensures FindField(fields, tag).None?
  {
  }

  lemma SkipRound(fields: seq<Field>, p: Progress, tag: nat, wireType: nat, s: seq<byte>, body: seq<byte>)
    requires GoodProgress(fields, p) && s != [] && tag > 0 && FindField(fields, tag).None?
    requires wireType < 8 && Varint32(s) == Some(Read(tag * 8 + wireType, body))
    ensures var skipped := SkipField(body, wireType);
            DecodeFields(fields, p, s) == if skipped.None? then None else DecodeFields(fields, p, skipped.value)
  {
    hide SkipField, FindField, Varint32, GoodProgress, DecodeField, Meet;
  }

  lemma UnknownTag(fields: seq<Field>, p: Progress, tag: nat, wireType: nat, body: seq<byte>)
    requires Unknown(fields, tag) && wireType < 8 && GoodProgress(fields, p)
    ensures var skipped := SkipField(body, wireType);
            DecodeFields(fields, p, VarintBytes(tag * 8 + wireType) + body) ==
            if skipped.None? then None else DecodeFields(fields, p, skipped.value)
  {
    hide SkipField, DecodeFields, FindField, GoodProgress;
    TagRead(tag, wireType, body);
    var s := VarintBytes(tag * 8 + wireType) + body;
    NotFound(fields, tag);
    SkipRound(fields, p, tag, wireType, s, body);
  }

  lemma {:induction false} VarintSkipped(n: nat, rest: seq<byte>)
    ensures SkipVarint(VarintBytes(n) + rest) == Some(rest)
    decreases n
  {
    FirstDigit(n, rest);
    if n >= 128 {
      VarintSkipped(n / 128, rest);
    }
  }

  /** A body as its wire type announces it. */
  ghost predicate Body(wireType: nat, body: seq<byte>) {
    match wireType
    case 0 => exists n :: body == VarintBytes(n)
    case 1 => |body| == 8
    case 2 => exists b: seq<byte> :: |b| < 0x1_0000_0000 && body == VarintBytes(|b|) + b
    case 5 => |body| == 4
    case _ => false
  }

  lemma BodySkipped(wireType: nat, body: seq<byte>, rest: seq<byte>)
    requires Body(wireType, body)
    ensures SkipField(body + rest, wireType) == Some(rest)
  {
    hide VarintBytes;
    match wireType
    case 0 =>
      var n :| body == VarintBytes(n);
      VarintSkipped(n, rest);
    case 1 => assert (body + rest)[8..] == rest;
    case 2 =>
      var b: seq<byte> :| |b| < 0x1_0000_0000 && body == VarintBytes(|b|) + b;
      DelimitedRoundTrip(b, rest);
    case 5 => assert (body + rest)[4..] == rest;
    case _ =>
  }

  /** Main result: a field that the schema does not have is skipped as its wire type says, whatever it holds. */
  lemma UnknownSkipped(fields: seq<Field>, p: Progress, tag: nat, wireType: nat, body: seq<byte>, rest: seq<byte>)
    requires Unknown(fields, tag) && wireType < 8 && Body(wireType, body) && GoodProgress(fields, p)
    ensures DecodeFields(fields, p, VarintBytes(tag * 8 + wireType) + body + rest) == DecodeFields(fields, p, rest)
  {
    hide DecodeFields, VarintBytes, SkipField;
    Regroup(VarintBytes(tag * 8 + wireType), body, rest);
    UnknownTag(fields, p, tag, wireType, body + rest);
    BodySkipped(wireType, body, rest);
  }

  /** Groups and unknown wire types are refused, and so are bodies cut short. */
  lemma UnknownRefused(fields: seq<Field>, p: Progress, tag: nat, wireType: nat, body: seq<byte>)
    requires Unknown(fields, tag) && wireType < 8 && GoodProgress(fields, p)
    requires || wireType == 3 || wireType == 4 || wireType == 6 || wireType == 7
             || (wireType == 1 && |body| < 8) || (wireType == 5 && |body| < 4)
             || (wireType == 0 && forall i :: 0 <= i < |body| ==> body[i] >= 128)
             || (wireType == 2 && exists n, b :: |b| < n < 0x1_0000_0000 && body == VarintBytes(n) + b)
    ensures DecodeFields(fields, p, VarintBytes(tag * 8 + wireType) + body) == None
  {
    hide DecodeFields, VarintBytes;
    UnknownTag(fields, p, tag, wireType, body);
    if wireType == 0 {
      NeverEnds(body);
    } else if wireType == 2 {
      var n, b :| |b| < n < 0x1_0000_0000 && body == VarintBytes(n) + b;
      Varint32RoundTrip(n, b);
    }
  }

  lemma {:induction false} NeverEnds(s: seq<byte>)
    requires forall i :: 0 <= i < |s| ==> s[i] >= 128
    ensures SkipVarint(s) == None
    decreases |s|
  {
    if s != [] {
      NeverEnds(s[1..]);
    }
  }

  lemma ZeroTagRound(fields: seq<Field>, p: Progress, s: seq<byte>, wireType: nat, body: seq<byte>)
    requires 0 < wireType < 8 && GoodProgress(fields, p) && FindField(fields, 0).None?
    requires s != [] && Varint32(s) == Some(Read(wireType, body))
    ensures DecodeFields(fields, p, s) ==
            var next := if fields != [] then SkipField(body, wireType)
                        else if Varint32(body).None? then None else Some(Varint32(body).value.rest);
            if next.None? then None else DecodeFields(fields, p, next.value)
  {
    hide SkipField, FindField, GoodProgress, Varint32, DecodeField, Meet;
  }

  lemma OneByteRead(n: byte, body: seq<byte>)
    requires n < 128
    ensures [n] + body != [] && Varint32([n] + body) == Some(Read(n, body))
  {
    hide Varint32From;
    assert ([n] + body)[1..] == body;
  }

  /** Tag zero with any wire type but zero is one more unknown field; but a schema without fields takes what is
      behind it for a truth value, whatever the wire type. */
  lemma ZeroTag(fields: seq<Field>, p: Progress, wireType: nat, body: seq<byte>, rest: seq<byte>)
    requires 0 < wireType < 8 && GoodProgress(fields, p) && GoodSchema(fields)
    requires if fields != [] then Body(wireType, body) else exists n: nat :: n < TWO32 && body == VarintBytes(n)
    ensures DecodeFields(fields, p, [wireType] + (body + rest)) == DecodeFields(fields, p, rest)
  {
    hide DecodeFields, VarintBytes, GoodProgress, SkipField, Varint32, Body;
    forall i | 0 <= i < |fields| ensures fields[i].tag != 0 {
      assert GoodField(fields[i]);
    }
    OneByteRead(wireType, body + rest);
    ZeroTagRound(fields, p, [wireType] + (body + rest), wireType, body + rest);
    if fields == [] {
      var n: nat :| n < TWO32 && body == VarintBytes(n);
      Varint32RoundTrip(n, rest);
    } else {
      BodySkipped(wireType, body, rest);
    }
  }

  // ----- a message of a larger schema -----

  /** A value under its tag, or an item of an array, is skipped. */
  lemma OneSkipped(fields: seq<Field>, p: Progress, f: Field, v: Value, rest: seq<byte>)
    requires Unknown(fields, f.tag) && GoodProgress(fields, p) && Fits(f.ltype, v) && |EncodeOne(f, v)| < TWO32
    ensures DecodeFields(fields, p, EncodeOne(f, v) + rest) == DecodeFields(fields, p, rest)
  {
    hide *;
    OneIs(f, v);
    ValueIsBody(f.ltype, v);
    UnknownSkipped(fields, p, f.tag, WireType(f.ltype), EncodeValue(f.ltype, v), rest);
  }

  lemma OneIs(f: Field, v: Value)
    requires Fits(f.ltype, v)
    ensures EncodeOne(f, v) == VarintBytes(f.tag * 8 + WireType(f.ltype)) + EncodeValue(f.ltype, v)
    ensures |EncodeValue(f.ltype, v)| <= |EncodeOne(f, v)|
  {
    hide VarintBytes, EncodeValue, Fits;
  }

  lemma ValueIsBody(t: LType, v: Value)
    requires Fits(t, v) && |EncodeValue(t, v)| < TWO32
    ensures Body(WireType(t), EncodeValue(t, v)) && WireType(t) < 8
  {
    hide VarintBytes, EncodeFrom, EncodeFixed32, EncodeFixed64;
    if t.Submessage? {
      var e := EncodeFrom(t.fields, v.slots, 0);
      assert EncodeValue(t, v) == VarintBytes(|e|) + e;
    }
  }

  lemma {:induction false} TaggedSkipped(fields: seq<Field>, p: Progress, f: Field, items: seq<Value>, i: nat, rest: seq<byte>)
    requires Unknown(fields, f.tag) && GoodProgress(fields, p) && i <= |items| && forall v :: v in items ==> Fits(f.ltype, v)
    requires |EncodeTaggedFrom(f, items, i)| < TWO32
    ensures DecodeFields(fields, p, EncodeTaggedFrom(f, items, i) + rest) == DecodeFields(fields, p, rest)
    decreases |items| - i
  {
    hide DecodeFields, EncodeOne, Fits;
    if i == |items| {
      assert [] + rest == rest;
    } else {
      var later := EncodeTaggedFrom(f, items, i + 1);
      Regroup(EncodeOne(f, items[i]), later, rest);
      OneSkipped(fields, p, f, items[i], later + rest);
      TaggedSkipped(fields, p, f, items, i + 1, rest);
    }
  }

  lemma ArraySkipped(fields: seq<Field>, p: Progress, f: Field, items: seq<Value>, rest: seq<byte>)
    requires Unknown(fields, f.tag) && GoodProgress(fields, p) && forall v :: v in items ==> Fits(f.ltype, v)
    requires |EncodeArray(f, items)| < TWO32
    ensures DecodeFields(fields, p, EncodeArray(f, items) + rest) == DecodeFields(fields, p, rest)
  {
    hide DecodeFields, VarintBytes, EncodeItemsFrom, EncodeTaggedFrom, Fits;
    if items == [] {
      assert [] + rest == rest;
    } else if Packable(f.ltype) {
      var e := EncodeItemsFrom(f.ltype, items, 0);
      Regroup(TagBytes(f.tag, 2), VarintBytes(|e|), e);
      assert Body(2, VarintBytes(|e|) + e);
      UnknownSkipped(fields, p, f.tag, 2, VarintBytes(|e|) + e, rest);
    } else {
      TaggedSkipped(fields, p, f, items, 0, rest);
    }
  }

  lemma FieldSkipped(fields: seq<Field>, p: Progress, f: Field, slot: Slot, rest: seq<byte>)
    requires Unknown(fields, f.tag) && GoodProgress(fields, p) && SlotFits(f, slot) && |EncodeField(f, slot)| < TWO32
    ensures DecodeFields(fields, p, EncodeField(f, slot) + rest) == DecodeFields(fields, p, rest)
  {
    hide DecodeFields, EncodeOne, EncodeArray, Fits, IsDefault;
    if EncodeField(f, slot) == [] {
      assert [] + rest == rest;
    } else {
      match f.rule
      case Required => OneSkipped(fields, p, f, slot.v, rest);
      case Singular => OneSkipped(fields, p, f, slot.v, rest);
      case Optional => OneSkipped(fields, p, f, slot.o.value, rest);
      case Oneof(_) => OneSkipped(fields, p, f, slot.o.value, rest);
      case Repeated(_) => ArraySkipped(fields, p, f, slot.items, rest);
      case FixedCount(_) => ArraySkipped(fields, p, f, slot.items, rest);
    }
  }

  /** The elements that are kept of the first `i`. */
  function Kept<T>(xs: seq<T>, keep: seq<bool>, i: nat): seq<T>
    requires i <= |xs| <= |keep|
  {
    if i == 0 then [] else Kept(xs, keep, i - 1) + if keep[i - 1] then [xs[i - 1]] else []
  }

  lemma {:induction false} KeptPlace<T>(xs: seq<T>, keep: seq<bool>, i: nat, n: nat)
    requires i <= n <= |xs| <= |keep|
    ensures Kept(xs, keep, i) <= Kept(xs, keep, n)
    ensures i < n && keep[i] ==> |Kept(xs, keep, i)| < |Kept(xs, keep, n)| && Kept(xs, keep, n)[|Kept(xs, keep, i)|] == xs[i]
    decreases n
  {
    if i < n {
      KeptPlace(xs, keep, i, n - 1);
    }
  }

  /** Where the `j`-th element kept comes from. */
  lemma {:induction false} KeptSource<T>(xs: seq<T>, keep: seq<bool>, n: nat, j: nat) returns (i: nat)
    requires n <= |xs| <= |keep| && j < |Kept(xs, keep, n)|
    ensures i < n && keep[i] && j == |Kept(xs, keep, i)| && Kept(xs, keep, n)[j] == xs[i]
    decreases n
  {
    if j < |Kept(xs, keep, n - 1)| {
      i := KeptSource(xs, keep, n - 1, j);
    } else {
      i := n - 1;
    }
  }

  lemma {:induction false} KeptTogether<S, T>(xs: seq<S>, ys: seq<T>, keep: seq<bool>, i: nat)
    requires i <= |xs| == |ys| <= |keep|
    ensures |Kept(xs, keep, i)| == |Kept(ys, keep, i)|
    decreases i
  {
    if i > 0 {
      KeptTogether(xs, ys, keep, i - 1);
    }
  }

  lemma KeptOrder<T>(xs: seq<T>, keep: seq<bool>, i: nat, j: nat)
    requires i <= |xs| <= |keep| && j <= |xs| && |Kept(xs, keep, i)| < |Kept(xs, keep, j)|
    ensures i < j
  {
    if j <= i {
      KeptPlace(xs, keep, j, i);
    }
  }

  /** The field and slot at place `j` of the smaller schema. */
  lemma KeptField(fields: seq<Field>, slots: seq<Slot>, keep: seq<bool>, j: nat) returns (i: nat)
    requires |fields| == |slots| == |keep| && j < |Kept(fields, keep, |fields|)|
    ensures i < |fields| && keep[i] && j == |Kept(fields, keep, i)| == |Kept(slots, keep, i)|
    ensures |Kept(slots, keep, |slots|)| == |Kept(fields, keep, |fields|)|
    ensures Kept(fields, keep, |fields|)[j] == fields[i] && Kept(slots, keep, |slots|)[j] == slots[i]
  {
    i := KeptSource(fields, keep, |fields|, j);
    KeptTogether(fields, slots, keep, i);
    KeptTogether(fields, slots, keep, |fields|);
    KeptPlace(slots, keep, i, |slots|);
  }

  lemma KeptFieldGood(fields: seq<Field>, slots: seq<Slot>, keep: seq<bool>, j: nat)
    requires Sendable(fields, slots) && |keep| == |fields| && j < |Kept(fields, keep, |fields|)| == |Kept(slots, keep, |slots|)|
    ensures var f, slot := Kept(fields, keep, |fields|)[j], Kept(slots, keep, |slots|)[j];
            GoodField(f) && SlotFits(f, slot) && CanEncodeSlot(f, slot) && SoundSlot(f, slot)
  {
    hide GoodField, SlotFits, CanEncodeSlot, SoundSlot, Kept;
    var i := KeptField(fields, slots, keep, j);
  }

  lemma KeptPair(fields: seq<Field>, slots: seq<Slot>, keep: seq<bool>, j: nat, k: nat)
    requires Sendable(fields, slots) && |keep| == |fields| && j < k < |Kept(fields, keep, |fields|)| == |Kept(slots, keep, |slots|)|
    ensures var fs, ss := Kept(fields, keep, |fields|), Kept(slots, keep, |slots|);
            TagsDiffer(fs[j], fs[k]) && (SameUnion(fs[j], fs[k]) ==> ss[j] == Maybe(None) || ss[k] == Maybe(None))
  {
    hide GoodField, SlotFits, CanEncodeSlot, SoundSlot, Kept, TagsDiffer, SameUnion;
    var i := KeptField(fields, slots, keep, j);
    var m := KeptField(fields, slots, keep, k);
    KeptOrder(fields, keep, i, m);
    assert TagsDiffer(fields[i], fields[m]);
    assert SameUnion(fields[i], fields[m]) ==> slots[i] == Maybe(None) || slots[m] == Maybe(None);
  }

  /** Of a valid message, any fields make a valid message of their schema. */
  lemma KeptSendable(fields: seq<Field>, slots: seq<Slot>, keep: seq<bool>)
    requires Sendable(fields, slots) && |keep| == |fields|
    ensures Sendable(Kept(fields, keep, |fields|), Kept(slots, keep, |slots|))
  {
    var fs, ss := Kept(fields, keep, |fields|), Kept(slots, keep, |slots|);
    KeptTogether(fields, slots, keep, |fields|);
    AllSendable(fields, slots, keep, fs, ss);
  }

  lemma AllSendable(fields: seq<Field>, slots: seq<Slot>, keep: seq<bool>, fs: seq<Field>, ss: seq<Slot>)
    requires Sendable(fields, slots) && |keep| == |fields| && |fs| == |ss|
    requires fs == Kept(fields, keep, |fields|) && ss == Kept(slots, keep, |slots|)
    ensures Sendable(fs, ss)
  {
    hide GoodField, SlotFits, CanEncodeSlot, SoundSlot, TagsDiffer, SameUnion, Kept, Sendable;
    forall j | 0 <= j < |fs| ensures GoodField(fs[j]) && SlotFits(fs[j], ss[j]) && CanEncodeSlot(fs[j], ss[j]) && SoundSlot(fs[j], ss[j]) {
      KeptFieldGood(fields, slots, keep, j);
    }
    forall j, k {:trigger TagsDiffer(fs[j], fs[k])} {:trigger SameUnion(fs[j], fs[k])} | 0 <= j < k < |fs|
      ensures TagsDiffer(fs[j], fs[k])
      ensures SameUnion(fs[j], fs[k]) ==> ss[j] == Maybe(None) || ss[k] == Maybe(None)
    {
      KeptPair(fields, slots, keep, j, k);
    }
    MakesSendable(fs, ss);
  }

  lemma MakesSendable(fs: seq<Field>, ss: seq<Slot>)
    requires GoodSchema(fs) && StructOf(fs, ss) && CanEncode(fs, ss) && SoundMessage(fs, ss)
    ensures Sendable(fs, ss)
  {
  }

  /** What the smaller schema makes of field `i` of the larger one and everything after it. */
  ghost function FromKept(fields: seq<Field>, slots: seq<Slot>, keep: seq<bool>, i: nat, tail: seq<byte>): Option<Progress>
    requires StructOf(fields, slots) && |keep| == |fields| && i <= |fields|
    requires |Kept(fields, keep, |fields|)| == |Kept(slots, keep, |slots|)| && |Kept(fields, keep, i)| <= |Kept(fields, keep, |fields|)|
  {
    DecodeFields(Kept(fields, keep, |fields|), At(Kept(fields, keep, |fields|), Kept(slots, keep, |slots|), |Kept(fields, keep, i)|),
                 EncodeFrom(fields, slots, i) + tail)
  }

  lemma KeptBounds(fields: seq<Field>, slots: seq<Slot>, keep: seq<bool>, i: nat)
    requires |fields| == |slots| == |keep| && i <= |fields|
    ensures |Kept(fields, keep, |fields|)| == |Kept(slots, keep, |slots|)| && |Kept(fields, keep, i)| <= |Kept(fields, keep, |fields|)|
  {
    KeptTogether(fields, slots, keep, |fields|);
    KeptPlace(fields, keep, i, |fields|);
  }

  lemma NotKept(fields: seq<Field>, keep: seq<bool>, i: nat)
    requires GoodSchema(fields) && |keep| == |fields| && i < |fields| && !keep[i]
    ensures Unknown(Kept(fields, keep, |fields|), fields[i].tag) && |Kept(fields, keep, i + 1)| == |Kept(fields, keep, i)|
  {
    var fs := Kept(fields, keep, |fields|);
    assert GoodField(fields[i]);
    forall j | 0 <= j < |fs| ensures fs[j].tag != fields[i].tag {
      var k := KeptSource(fields, keep, |fields|, j);
      assert TagsDiffer(fields[if i < k then i else k], fields[if i < k then k else i]);
    }
  }

  lemma KeptStep(fields: seq<Field>, slots: seq<Slot>, keep: seq<bool>, i: nat, tail: seq<byte>)
    requires Sendable(fields, slots) && |keep| == |fields| && i < |fields| && |Encoding(fields, slots)| < TWO32
    requires |Kept(fields, keep, |fields|)| == |Kept(slots, keep, |slots|)|
    requires |Kept(fields, keep, i)| <= |Kept(fields, keep, i + 1)| <= |Kept(fields, keep, |fields|)|
    ensures FromKept(fields, slots, keep, i, tail) == FromKept(fields, slots, keep, i + 1, tail)
  {
    hide DecodeFields, At, EncodeField, GoodSchema, CanEncode, SoundMessage, Kept, EncodeFrom;
    var fs, ss, j := Kept(fields, keep, |fields|), Kept(slots, keep, |slots|), |Kept(fields, keep, i)|;
    var later := EncodeFrom(fields, slots, i + 1) + tail;
    RestIsShorter(fields, slots, i);
    FieldsForm(fields, slots, i, tail);
    KeptSendable(fields, slots, keep);
    if keep[i] {
      KeptThere(fields, slots, keep, i);
      FieldSent(fs, ss, j, later);
    } else {
      NotKept(fields, keep, i);
      Skipped(fs, ss, j, fields, slots, i, later);
    }
  }

  lemma KeptThere(fields: seq<Field>, slots: seq<Slot>, keep: seq<bool>, i: nat)
    requires |slots| == |keep| == |fields| && i < |fields| && keep[i]
    ensures var j := |Kept(fields, keep, i)|;
            && j == |Kept(slots, keep, i)| < |Kept(fields, keep, |fields|)| && j < |Kept(slots, keep, |slots|)|
            && Kept(fields, keep, |fields|)[j] == fields[i] && Kept(slots, keep, |slots|)[j] == slots[i]
            && |Kept(fields, keep, i + 1)| == j + 1
  {
    KeptPlace(fields, keep, i, |fields|);
    KeptPlace(slots, keep, i, |slots|);
    KeptTogether(fields, slots, keep, i);
  }

  lemma Skipped(fs: seq<Field>, ss: seq<Slot>, j: nat, fields: seq<Field>, slots: seq<Slot>, i: nat, rest: seq<byte>)
    requires Sendable(fs, ss) && j <= |fs| && StructOf(fields, slots) && i < |fields|
    requires Unknown(fs, fields[i].tag) && |EncodeField(fields[i], slots[i])| < TWO32
    ensures DecodeFields(fs, At(fs, ss, j), EncodeField(fields[i], slots[i]) + rest) == DecodeFields(fs, At(fs, ss, j), rest)
  {
    hide DecodeFields, EncodeField, At;
    AtIsGood(fs, ss, j);
    assert SlotFits(fields[i], slots[i]);
    FieldSkipped(fs, At(fs, ss, j), fields[i], slots[i], rest);
  }

  /** Main result: a message of a schema, decoded under any part of it, gives exactly the fields of that part. */
  lemma PartDecoded(fields: seq<Field>, slots: seq<Slot>, keep: seq<bool>, tail: seq<byte>)
    requires Sendable(fields, slots) && |keep| == |fields| && |Encoding(fields, slots)| < TWO32
    requires tail == [] || tail[0] == 0
    ensures Decode(Kept(fields, keep, |fields|), Encoding(fields, slots) + tail) == Some(Kept(slots, keep, |slots|))
  {
    hide DecodeFields, At, EncodeField;
    var fs, ss, n := Kept(fields, keep, |fields|), Kept(slots, keep, |slots|), |fields|;
    KeptSendable(fields, slots, keep);
    KeptBounds(fields, slots, keep, n);
    AtIsGood(fs, ss, |fs|);
    Stops(fs, At(fs, ss, |fs|), tail);
    assert [] + tail == tail && EncodeFrom(fields, slots, n) == [];
    assert FromKept(fields, slots, keep, n, tail) == Some(At(fs, ss, |fs|));
    var i: nat := n;
    while i > 0
      invariant i <= n && |Kept(fields, keep, i)| <= |fs|
      invariant FromKept(fields, slots, keep, i, tail) == FromKept(fields, slots, keep, n, tail)
    {
      i := i - 1;
      KeptBounds(fields, slots, keep, i);
      KeptPlace(fields, keep, i, i + 1);
      KeptStep(fields, slots, keep, i, tail);
    }
    assert FromKept(fields, slots, keep, 0, tail) == DecodeFields(fs, At(fs, ss, 0), Encoding(fields, slots) + tail);
    Starts(fs, ss);
    Ends(fs, ss);
  }

  // ----- a message that ends early -----

  lemma {:induction false} RequiredGrows(fields: seq<Field>, i: nat, n: nat)
    requires i <= n <= |fields|
    ensures RequiredBefore(fields, i) <= RequiredBefore(fields, n)
    decreases n
  {
    if i < n {
      RequiredGrows(fields, i, n - 1);
    }
  }

  lemma {:induction false} NextRequired(fields: seq<Field>, n: nat, m: nat) returns (i: nat)
    requires n <= m <= |fields| && RequiredBefore(fields, n) < RequiredBefore(fields, m)
    ensures n <= i < m && fields[i].rule.Required? && RequiredBefore(fields, i) == RequiredBefore(fields, n)
    decreases m
  {
    if RequiredBefore(fields, n) < RequiredBefore(fields, m - 1) {
      i := NextRequired(fields, n, m - 1);
    } else {
      RequiredGrows(fields, n, m - 1);
      i := m - 1;
    }
  }

  /** The struct is complete without the fields from the `n`-th on exactly if none of them is a required one
      among the first 64. */
  ghost predicate NoneRequired(fields: seq<Field>, n: nat)
    requires n <= |fields|
  {
    forall i :: n <= i < |fields| && fields[i].rule.Required? ==> RequiredBefore(fields, i) >= 64
  }

  lemma CompleteAt(fields: seq<Field>, slots: seq<Slot>, n: nat)
    requires |slots| == |fields| && n <= |fields|
    ensures Complete(fields, At(fields, slots, n)) <==> NoneRequired(fields, n)
  {
    var have, need := Min(RequiredBefore(fields, n), 64), Min(RequiredBefore(fields, |fields|), 64);
    RequiredGrows(fields, n, |fields|);
    assert FixedDone(fields, At(fields, slots, n));
    assert forall k: nat :: k in SeenUpTo(fields, n) <==> k < have;
    if have < need {
      var i := NextRequired(fields, n, |fields|);
      assert have !in SeenUpTo(fields, n);
    }
    if have == need {
      forall i | n <= i < |fields| && fields[i].rule.Required? ensures RequiredBefore(fields, i) >= 64 {
        RequiredGrows(fields, n, i);
        RequiredGrows(fields, i + 1, |fields|);
      }
    }
  }

  lemma PrefixFits(fields: seq<Field>, slots: seq<Slot>, n: nat)
    requires StructOf(fields, slots) && n <= |fields|
    ensures StructOf(fields[..n], slots[..n])
  {
    hide SlotFits;
  }

  lemma {:induction false} CutFrom(fields: seq<Field>, slots: seq<Slot>, n: nat, i: nat, tail: seq<byte>)
    requires Sendable(fields, slots) && i <= n <= |fields| && StructOf(fields[..n], slots[..n])
    requires |EncodeFrom(fields[..n], slots[..n], i)| < TWO32
    ensures DecodeFields(fields, At(fields, slots, i), EncodeFrom(fields[..n], slots[..n], i) + tail) ==
            DecodeFields(fields, At(fields, slots, n), tail)
    decreases n - i
  {
    hide DecodeFields, At, EncodeField;
    if i == n {
      assert [] + tail == tail;
    } else {
      var later := EncodeFrom(fields[..n], slots[..n], i + 1);
      FieldsForm(fields[..n], slots[..n], i, tail);
      FieldSent(fields, slots, i, later + tail);
      CutFrom(fields, slots, n, i + 1, tail);
    }
  }

  /** Main result: a message without its last fields is refused if and only if one of them is a required one among
      the first 64; else they have their default values. */
  lemma CutDecoded(fields: seq<Field>, slots: seq<Slot>, n: nat, tail: seq<byte>)
    requires Sendable(fields, slots) && n <= |fields| && StructOf(fields[..n], slots[..n])
    requires |Encoding(fields[..n], slots[..n])| < TWO32 && (tail == [] || tail[0] == 0)
    ensures Decode(fields, Encoding(fields[..n], slots[..n]) + tail) ==
            if NoneRequired(fields, n) then Some(slots[..n] + DefaultSlots(fields)[n..]) else None
  {
    hide DecodeFields, EncodeFrom, NoneRequired;
    CutFrom(fields, slots, n, 0, tail);
    AtIsGood(fields, slots, n);
    Stops(fields, At(fields, slots, n), tail);
    CompleteAt(fields, slots, n);
    Starts(fields, slots);
  }

  // ----- a field that comes twice -----

  predicate Single(f: Field) {
    !f.rule.Repeated? && !f.rule.FixedCount? && !f.ltype.Submessage?
  }

  /** What one value does to the progress. */
  ghost function After(fields: seq<Field>, p: Progress, i: nat, v: Value): Progress
    requires GoodProgress(fields, p) && i < |fields|
  {
    var seen := if fields[i].rule.Required? && RequiredBefore(fields, i) < 64 then p.seen + {RequiredBefore(fields, i)} else p.seen;
    match fields[i].rule
    case Oneof(_) => p.(slots := Choose(fields, p.slots, i, v))
    case Optional => p.(slots := p.slots[i := Maybe(Some(v))])
    case _ => p.(slots := p.slots[i := One(v)], seen := seen)
  }

  lemma ValueTaken(fields: seq<Field>, p: Progress, i: nat, v: Value, rest: seq<byte>)
    requires GoodSchema(fields) && GoodProgress(fields, p) && i < |fields| && Single(fields[i])
    requires Fits(fields[i].ltype, v) && CanEncodeValue(fields[i].ltype, v) && Sound(fields[i].ltype, v)
    requires |EncodeValue(fields[i].ltype, v)| < TWO32
    ensures GoodProgress(fields, After(fields, p, i, v))
    ensures DecodeFields(fields, p, EncodeOne(fields[i], v) + rest) == DecodeFields(fields, After(fields, p, i, v), rest)
  {
    hide DecodeFields, EncodeValue, Fits, Sound, CanEncodeValue;
    var f := fields[i];
    var body := EncodeValue(f.ltype, v) + rest;
    assert GoodField(f) && Shape(f, p.slots[i]);
    FieldValueRoundTrip(f, v, rest);
    BaseIgnored(f.ltype, Base(f, p.slots[i]), body);
    Regroup(TagBytes(f.tag, WireType(f.ltype)), EncodeValue(f.ltype, v), rest);
    var met := After(fields, p, i, v).(slots := p.slots);
    assert Meet(fields, p, i) == Some(met);
    assert DecodeField(fields, met, i, WireType(f.ltype), body) == Some(Read(After(fields, p, i, v), rest));
    OneRound(fields, p, i, WireType(f.ltype), body, met, After(fields, p, i, v), rest);
  }

  /** What a slot held before does not matter to a number or data. */
  lemma BaseIgnored(t: LType, base: Value, s: seq<byte>)
    requires !t.Submessage?
    ensures DecodeValue(t, base, s) == DecodeValue(t, DefaultValue(t), s)
  {
  }

  /** Main result: of two values of a field, or of two fields of one union, the later counts alone. */
  lemma LastCounts(fields: seq<Field>, p: Progress, i: nat, v: Value, j: nat, w: Value, rest: seq<byte>)
    requires GoodSchema(fields) && GoodProgress(fields, p) && i < |fields| && j < |fields|
    requires Single(fields[i]) && Single(fields[j]) && (i == j || SameUnion(fields[i], fields[j]))
    requires Fits(fields[i].ltype, v) && CanEncodeValue(fields[i].ltype, v) && Sound(fields[i].ltype, v)
    requires Fits(fields[j].ltype, w) && CanEncodeValue(fields[j].ltype, w) && Sound(fields[j].ltype, w)
    requires |EncodeValue(fields[i].ltype, v)| < TWO32 && |EncodeValue(fields[j].ltype, w)| < TWO32
    ensures DecodeFields(fields, p, EncodeOne(fields[i], v) + (EncodeOne(fields[j], w) + rest)) ==
            DecodeFields(fields, p, EncodeOne(fields[j], w) + rest)
  {
    hide DecodeFields, EncodeOne, EncodeValue, Fits, Sound, CanEncodeValue;
    ValueTaken(fields, p, i, v, EncodeOne(fields[j], w) + rest);
    ValueTaken(fields, After(fields, p, i, v), j, w, rest);
    ValueTaken(fields, p, j, w, rest);
    var twice, once := After(fields, After(fields, p, i, v), j, w), After(fields, p, j, w);
    forall k | 0 <= k < |fields| ensures twice.slots[k] == once.slots[k] {
    }
    assert twice.slots == once.slots;
  }

  // ----- what does not fit -----

  predicate InRange(n: int, size: nat, signed: bool) {
    match size
    case 1 => if signed then -0x80 <= n < 0x80 else 0 <= n < 0x100
    case 2 => if signed then -0x8000 <= n < 0x8000 else 0 <= n < 0x1_0000
    case 4 => if signed then -0x8000_0000 <= n < 0x8000_0000 else 0 <= n < 0x1_0000_0000
    case 8 => if signed then -0x8000_0000_0000_0000 <= n < 0x8000_0000_0000_0000 else 0 <= n < 0x1_0000_0000_0000_0000
    case _ => false
  }

  /** The signed reading of the low `bits` bits, for 32 and 64 of them. */
  function TwosComplement(w: nat, bits: nat): int {
    if bits == 64 then (if w < 0x8000_0000_0000_0000 then w else w - 0x1_0000_0000_0000_0000)
    else var low := w % 0x1_0000_0000; if low < 0x8000_0000 then low else low - 0x1_0000_0000
  }

  /** The integer that a 64-bit varint stands for. Signed ones of less than eight bytes are first cut to 32 bits. */
  function Meant(t: LType, w: nat): int {
    match t
    case Varint(size) => TwosComplement(w, if size == 8 then 64 else 32)
    case SVarint(_) => if w % 2 == 1 then -(w / 2) - 1 else w / 2
    case _ => w
  }

  lemma SignedFits(n: int, size: nat)
    requires IntSize(size) && -0x8000_0000_0000_0000 <= n < 0x8000_0000_0000_0000
    ensures Signed(n % TWO64, size) == n <==> InRange(n, size, true)
  {
    if InRange(n, size, true) {
      SignedBack(n, size, size);
    }
  }

  lemma MeantSigned(t: LType, w: nat)
    requires (t.Varint? || t.SVarint?) && IntSize(t.size) && w < TWO64
    ensures Meant(t, w) == if t.SVarint? then UnZigZag(w) else if t.size == 8 then Signed(w, 8) else Signed(w, 4)
    ensures -0x8000_0000_0000_0000 <= Meant(t, w) < 0x8000_0000_0000_0000
  {
  }

  lemma VarintRule(t: LType, base: Value, s: seq<byte>, w: nat, rest: seq<byte>)
    requires (t.Varint? || t.SVarint? || t.UVarint?) && IntSize(t.size) && Varint64(s) == Some(Read(w, rest))
    ensures t.UVarint? ==> DecodeValue(t, base, s) == if w % Span(t.size) == w then Some(Read(Num(w), rest)) else None
    ensures !t.UVarint? ==>
              var n := if t.SVarint? then UnZigZag(w) else if t.size == 8 then Signed(w, 8) else Signed(w, 4);
              DecodeValue(t, base, s) == if Signed(n % TWO64, t.size) == n then Some(Read(Num(n), rest)) else None
  {
    hide Signed, UnZigZag, Varint64, Span;
  }

  /** Main result: an integer is taken if and only if its C type can hold it, and then as what it stands for. */
  lemma IntegerDecoded(t: LType, base: Value, w: nat, rest: seq<byte>)
    requires (t.Varint? || t.SVarint? || t.UVarint?) && IntSize(t.size) && w < TWO64
    ensures DecodeValue(t, base, VarintBytes(w) + rest) ==
            if InRange(Meant(t, w), t.size, !t.UVarint?) then Some(Read(Num(Meant(t, w)), rest)) else None
  {
    hide VarintBytes, DecodeValue, Signed, UnZigZag;
    ReadVarint64(w, rest);
    VarintRule(t, base, VarintBytes(w) + rest, w, rest);
    if !t.UVarint? {
      hide Meant, InRange;
      MeantSigned(t, w);
      SignedFits(Meant(t, w), t.size);
    }
  }

  /** Main result: data is taken if and only if it fits: a string with its terminator, fixed bytes whole or not at all. */
  lemma DataDecoded(t: LType, base: Value, b: seq<byte>, rest: seq<byte>)
    requires (t.Bytes? || t.String? || t.FixedBytes?) && |b| < 0xFFFF_FFFF
    ensures DecodeValue(t, base, VarintBytes(|b|) + b + rest) ==
            match t
            case Bytes(max) => if |b| <= max then Some(Read(Data(b), rest)) else None
            case String(size) => if |b| < size then Some(Read(Data(b), rest)) else None
            case FixedBytes(size) =>
              if b == [] then Some(Read(Data(seq(size, i => 0)), rest)) else if |b| == size then Some(Read(Data(b), rest)) else None
            case _ => None
  {
    hide VarintBytes;
    LengthRoundTrip(b, rest);
    Parts(b, rest);
    assert t.FixedBytes? ==> Zeros(t.size) == seq(t.size, i => 0);
  }

  lemma BoolDecoded(base: Value, w: nat, rest: seq<byte>)
    requires w < TWO32
    ensures DecodeValue(Bool, base, VarintBytes(w) + rest) == Some(Read(Num(if w == 0 then 0 else 1), rest))
  {
    hide VarintBytes;
    Varint32RoundTrip(w, rest);
  }

  /** Main result: a full array takes no further item. */
  lemma FullArrayRefuses(fields: seq<Field>, p: Progress, i: nat, v: Value, rest: seq<byte>)
    requires GoodSchema(fields) && GoodProgress(fields, p) && i < |fields| && fields[i].rule.Repeated? && !Packable(fields[i].ltype)
    requires |p.slots[i].items| >= fields[i].rule.max && Fits(fields[i].ltype, v)
    ensures DecodeFields(fields, p, EncodeOne(fields[i], v) + rest) == None
  {
    hide EncodeValue, Fits, TagBytes;
    var f := fields[i];
    var body := EncodeValue(f.ltype, v) + rest;
    assert GoodField(f) && Shape(f, p.slots[i]);
    Regroup(TagBytes(f.tag, WireType(f.ltype)), EncodeValue(f.ltype, v), rest);
    TagRead(f.tag, WireType(f.ltype), body);
    PbDecoder.FirstWithTag(fields, i);
    assert Meet(fields, p, i) == Some(p);
    assert DecodeField(fields, p, i, WireType(f.ltype), body) == None;
  }

  lemma PackedItemsRefused(f: Field, max: nat, items: seq<Value>, e: seq<byte>, body: seq<byte>, rest: seq<byte>)
    requires Packable(f.ltype) && |items| >= max && e != [] && Delimited(body) == Some(Read(e, rest))
    ensures DecodeItems(f, max, items, |items|, 2, body) == None
  {
    hide Delimited, DecodeValue;
    assert items[..|items|] == items;
  }

  lemma RoundRefused(fields: seq<Field>, p: Progress, i: nat, s: seq<byte>, n: nat, body: seq<byte>)
    requires i < |fields| && GoodProgress(fields, p) && s != []
    requires Varint32(s) == Some(Read(n, body)) && n != 0 && FindField(fields, n / 8) == Some(i)
    requires Meet(fields, p, i) == Some(p) && DecodeField(fields, p, i, n % 8, body) == None
    ensures DecodeFields(fields, p, s) == None
  {
    hide FindField, Varint32, GoodProgress, DecodeField, Meet;
  }

  lemma ArrayRefused(fields: seq<Field>, p: Progress, i: nat, wireType: nat, body: seq<byte>)
    requires GoodProgress(fields, p) && i < |fields| && fields[i].rule.Repeated? && p.slots[i].Many?
    requires DecodeItems(fields[i], fields[i].rule.max, p.slots[i].items, |p.slots[i].items|, wireType, body) == None
    ensures Meet(fields, p, i) == Some(p) && DecodeField(fields, p, i, wireType, body) == None
  {
    hide DecodeItems;
  }

  /** Nor a packed one any byte more. */
  lemma FullPackedRefuses(fields: seq<Field>, p: Progress, i: nat, e: seq<byte>, rest: seq<byte>)
    requires GoodSchema(fields) && GoodProgress(fields, p) && i < |fields| && fields[i].rule.Repeated? && Packable(fields[i].ltype)
    requires |p.slots[i].items| >= fields[i].rule.max && e != [] && |e| < TWO32
    ensures DecodeFields(fields, p, VarintBytes(fields[i].tag * 8 + 2) + (VarintBytes(|e|) + e + rest)) == None
  {
    hide VarintBytes, DecodeFields, DecodeItems, DecodeField, Meet, FindField, Delimited, Varint32;
    var f, body := fields[i], VarintBytes(|e|) + e + rest;
    assert GoodField(f) && Shape(f, p.slots[i]);
    TagRead(f.tag, 2, body);
    PbDecoder.FirstWithTag(fields, i);
    DelimitedRoundTrip(e, rest);
    PackedItemsRefused(f, f.rule.max, p.slots[i].items, e, body, rest);
    ArrayRefused(fields, p, i, 2, body);
    RoundRefused(fields, p, i, VarintBytes(f.tag * 8 + 2) + body, f.tag * 8 + 2, body);
  }

  // ----- numbers beyond 32 bits -----

  /** One of the bit positions within 32 bits that a digit after the first can have. */
  predicate Early(bitpos: nat) {
    bitpos == 7 || bitpos == 14 || bitpos == 21 || bitpos == 28
  }

  function Low32(n: nat): (r: nat)
    ensures r < TWO32
  {
    n % TWO32
  }

  lemma EarlyPowers()
    ensures Pow2(7) == 0x80 && Pow2(14) == 0x4000 && Pow2(21) == 0x20_0000 && Pow2(28) == 0x1000_0000 && Pow2(35) == 0x8_0000_0000
  {
    Pow2Seven(0);
    Pow2Seven(7);
    Pow2Seven(14);
    Pow2Seven(21);
    Pow2Seven(28);
  }

  lemma EarlyStep(s: seq<byte>, bitpos: nat, result: nat, next: nat)
    requires s != [] && Early(bitpos) && result < TWO32 && next == AddDigit(result, s[0] % 128, bitpos, TWO32)
    ensures Varint32From(s, bitpos, result) ==
            if s[0] >= 128 then Varint32From(s[1..], bitpos + 7, next)
            else if bitpos == 28 && s[0] >= 16 then None else Some(Read(next, s[1..]))
  {
    hide AddDigit;
  }

  lemma DigitOred(result: nat, digit: nat, bitpos: nat)
    requires result < Pow2(bitpos)
    ensures AddDigit(result, digit, bitpos, TWO32) == Low32(result + digit * Pow2(bitpos))
  {
    hide Pow2;
    OrDisjoint(result, digit, bitpos);
  }

  lemma EarlyDigit(m: nat, bitpos: nat, result: nat, rest: seq<byte>)
    requires Early(bitpos) && result < Pow2(bitpos) < TWO32
    ensures var next := Low32(result + m % 128 * Pow2(bitpos));
            Varint32From(VarintBytes(m) + rest, bitpos, result) ==
            if m >= 128 then Varint32From(VarintBytes(m / 128) + rest, bitpos + 7, next)
            else if bitpos == 28 && m >= 16 then None else Some(Read(next, rest))
  {
    hide VarintBytes, Pow2, AddDigit, Low32, Varint32From;
    FirstDigit(m, rest);
    var s := VarintBytes(m) + rest;
    DigitOred(result, m % 128, bitpos);
    EarlyStep(s, bitpos, result, AddDigit(result, s[0] % 128, bitpos, TWO32));
  }

  lemma FifthParts(n: nat, m: nat, result: nat)
    requires result < 0x1000_0000 && n == result + m * 0x1000_0000 >= 0x1_0000_0000
    ensures m >= 16 && (n < 0x8_0000_0000 <==> m < 128) && n / 0x8_0000_0000 == m / 128
    ensures Low32(result + m % 128 * 0x1000_0000) == Low32(n)
  {
  }

  lemma NextParts(n: nat, m: nat, bitpos: nat, result: nat)
    requires Early(bitpos) && bitpos < 28 && result < Pow2(bitpos) && n == result + m * Pow2(bitpos) >= 0x1_0000_0000
    ensures var next := result + m % 128 * Pow2(bitpos);
            m >= 128 && next < Pow2(bitpos + 7) && n == next + m / 128 * Pow2(bitpos + 7) && Low32(next) == next
  {
    hide Pow2;
    EarlyPowers();
    ShiftDigit(m, bitpos, result);
    ModMultiple(result + m % 128 * Pow2(bitpos), TWO32, 0);
  }

  /** Five digits make a 32-bit number; what is above them goes on at position 35. */
  lemma {:induction false} EarlyDigits(n: nat, m: nat, bitpos: nat, result: nat, rest: seq<byte>)
    requires Early(bitpos) && result < Pow2(bitpos) < TWO32 && n == result + m * Pow2(bitpos) >= 0x1_0000_0000
    ensures Varint32From(VarintBytes(m) + rest, bitpos, result) ==
            if n < 0x8_0000_0000 then None else Varint32From(VarintBytes(n / 0x8_0000_0000) + rest, 35, Low32(n))
    decreases m
  {
    hide VarintBytes, Varint32From, Pow2, Low32;
    EarlyPowers();
    EarlyDigit(m, bitpos, result, rest);
    if bitpos < 28 {
      NextParts(n, m, bitpos, result);
      EarlyDigits(n, m / 128, bitpos + 7, result + m % 128 * Pow2(bitpos), rest);
    } else {
      FifthParts(n, m, result);
    }
  }

  /** The digits from bit `bitpos` on are all zeros or all ones, and the last is the one bit at position 63. */
  predicate SignDigits(m: nat, bitpos: nat)
    decreases m
  {
    if bitpos >= 63 then m == 1
    else m >= 128 && (m % 128 == 0 || m % 128 == 127) && SignDigits(m / 128, bitpos + 7)
  }

  lemma {:induction false} LateDigits(m: nat, bitpos: nat, result: nat, rest: seq<byte>)
    requires bitpos == 35 || bitpos == 42 || bitpos == 49 || bitpos == 56 || bitpos == 63
    requires result < TWO32 && m > 0 && (bitpos == 63 ==> m < 2) && (bitpos == 56 ==> m < 0x100) && (bitpos == 49 ==> m < 0x8000)
    requires (bitpos == 42 ==> m < 0x40_0000) && (bitpos == 35 ==> m < 0x2000_0000)
    ensures Varint32From(VarintBytes(m) + rest, bitpos, result) ==
            if result >= 0x8000_0000 && SignDigits(m, bitpos) then Some(Read(result, rest)) else None
    decreases m
  {
    hide VarintBytes;
    FirstDigit(m, rest);
    if m >= 128 {
      LateDigits(m / 128, bitpos + 7, result, rest);
    }
  }

  /** A 64-bit number that passes for a negative one of 32 bits: bit 31 and bit 63 are set, and each seven bits
      between bit 35 and bit 63 are all ones or all zeros. */
  predicate PassesForNegative(n: nat) {
    && n % 0x1_0000_0000 >= 0x8000_0000 && n / 0x8000_0000_0000_0000 == 1
    && n / 0x8_0000_0000 % 128 in {0, 127} && n / 0x400_0000_0000 % 128 in {0, 127}
    && n / 0x2_0000_0000_0000 % 128 in {0, 127} && n / 0x100_0000_0000_0000 % 128 in {0, 127}
  }

  lemma PassesIsSignDigits(n: nat)
    requires 0x8_0000_0000 <= n < 0x1_0000_0000_0000_0000
    ensures PassesForNegative(n) <==> n % 0x1_0000_0000 >= 0x8000_0000 && SignDigits(n / 0x8_0000_0000, 35)
  {
    var a, b, c, d, e := n / 0x8_0000_0000, n / 0x400_0000_0000, n / 0x2_0000_0000_0000, n / 0x100_0000_0000_0000, n / 0x8000_0000_0000_0000;
    assert a / 128 == b && b / 128 == c && c / 128 == d && d / 128 == e;
    assert SignDigits(e, 63) <==> e == 1;
    assert SignDigits(d, 56) <==> d % 128 in {0, 127} && e == 1;
    assert SignDigits(c, 49) <==> c % 128 in {0, 127} && SignDigits(d, 56);
    assert SignDigits(b, 42) <==> b % 128 in {0, 127} && SignDigits(c, 49);
    assert SignDigits(a, 35) <==> a % 128 in {0, 127} && SignDigits(b, 42);
  }

  /** Main result: what becomes of a 64-bit number where one of 32 bits is wanted, as for a tag, a length or a
      truth value: it is refused, unless it passes for a negative number and loses its upper half. */
  lemma WideDecoded(n: nat, rest: seq<byte>)
    requires n < 0x1_0000_0000_0000_0000
    ensures Varint32(VarintBytes(n) + rest) ==
            if n < 0x1_0000_0000 then Some(Read(n, rest))
            else if PassesForNegative(n) then Some(Read(n % 0x1_0000_0000, rest)) else None
  {
    hide VarintBytes, Varint32From, Pow2, SignDigits;
    if n < 0x1_0000_0000 {
      Varint32RoundTrip(n, rest);
    } else {
      FirstDigit(n, rest);
      EarlyPowers();
      EarlyDigits(n, n / 128, 7, n % 128, rest);
      if n >= 0x8_0000_0000 {
        LateDigits(n / 0x8_0000_0000, 35, n % 0x1_0000_0000, rest);
        PassesIsSignDigits(n);
      }
    }
  }

  lemma {:induction false} TooManyDigits(s: seq<byte>, shift: nat, result: nat)
    requires shift <= 70 && shift % 7 == 0 && result < TWO64
    requires |s| >= 10 - shift / 7 && forall i :: 0 <= i < 10 - shift / 7 ==> s[i] >= 128
    ensures VarintFrom(s, shift, result, 63, TWO64) == None
    decreases 70 - shift
  {
    hide AddDigit;
    if shift < 70 {
      TooManyDigits(s[1..], shift + 7, AddDigit(result, s[0] % 128, shift, TWO64));
    }
  }

  /** Main result: a 64-bit number whose tenth byte announces another is refused. */
  lemma LongRefused(s: seq<byte>)
    requires |s| >= 10 && forall i :: 0 <= i < 10 ==> s[i] >= 128
    ensures Varint64(s) == None
  {
    TooManyDigits(s, 0, 0);
  }

  function Repeat(b: byte, n: nat): (r: seq<byte>)
    ensures |r| == n
  {
    if n == 0 then [] else [b] + Repeat(b, n - 1)
  }

  lemma {:induction false} RepeatEnds(n: nat)
    requires n > 0
    ensures Repeat(128, n) == Repeat(128, n - 1) + [128]
    decreases n
  {
    if n > 1 {
      RepeatEnds(n - 1);
    }
  }

  lemma LastAtThree(s: seq<byte>, digit: byte, rest: seq<byte>)
    requires digit < 128 && s == [digit] + rest
    ensures Varint32From(s, 3, 0) == Some(Read(8 * digit, rest))
  {
    hide AddDigit;
    assert Pow2(3) == 8;
    DigitAdded(0, digit, 3, TWO32);
    assert s[1..] == rest;
  }

  lemma ZeroAdded(bitpos: nat)
    ensures AddDigit(0, 0, bitpos, TWO32) == 0
  {
    assert 0 * Pow2(bitpos) == 0;
  }

  lemma ZeroDigit(s: seq<byte>, bitpos: nat)
    requires s != [] && s[0] == 128
    ensures Varint32From(s, bitpos, 0) == Varint32From(s[1..], (bitpos + 7) % 256, 0)
  {
    hide AddDigit;
    ZeroAdded(bitpos);
  }

  lemma {:induction false} ZeroDigits(n: nat, bitpos: nat, rest: seq<byte>)
    requires bitpos + 7 * n < 256
    ensures Varint32From(Repeat(128, n) + rest, bitpos, 0) == Varint32From(rest, bitpos + 7 * n, 0)
    decreases n
  {
    hide Varint32From;
    if n == 0 {
      assert [] + rest == rest;
    } else {
      OneBefore(128, Repeat(128, n - 1), rest);
      ZeroDigit(Repeat(128, n) + rest, bitpos);
      ZeroDigits(n - 1, bitpos + 7, rest);
    }
  }

  /** A 32-bit number is not refused for being long: the position wraps around in its eight bits, so that after
      37 bytes without a digit the next one counts eight times. */
  lemma LongNumberWraps(digit: byte, rest: seq<byte>)
    requires digit < 128
    ensures Varint32(Repeat(128, 37) + ([digit] + rest)) == Some(Read(8 * digit, rest))
  {
    hide Varint32From, AddDigit;
    var s := [digit] + rest;
    assert Repeat(128, 37) + s == [128] + (Repeat(128, 35) + ([128] + s)) by {
      RepeatEnds(36);
    }
    ZeroDigits(35, 7, [128] + s);
    ZeroDigit([128] + s, 252);
    LastAtThree(s, digit, rest);
  }
}
