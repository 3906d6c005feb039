/** Version edits as the records of a manifest (db/version_edit.cc). */
module VersionEditCodec {
  import opened Options
  import opened Coding
  import opened LengthPrefix

  import FileLevels

  type Bytes = seq<byte>

  datatype FileMeta = FileMeta(number: nat, size: nat, smallest: Bytes, largest: Bytes)

  /** What one tag and the data behind it say. */
  datatype Item =
    | Comparator(name: Bytes)
    | LogNumber(n: nat)
    | PrevLogNumber(n: nat)
    | NextFileNumber(n: nat)
    | LastSequence(n: nat)
    | CompactPointer(level: nat, key: Bytes)
    | DeletedFile(level: nat, n: nat)
    | NewFile(level: nat, file: FileMeta)

  type Pair = (nat, nat)

  /** An edit; the deleted files are a set of levels and numbers. */
  datatype Edit = Edit(comparator: Option<Bytes>, logNumber: Option<nat>, prevLogNumber: Option<nat>, nextFileNumber: Option<nat>,
                       lastSequence: Option<nat>, compactPointers: seq<(nat, Bytes)>, deletedFiles: set<Pair>,
                       newFiles: seq<(nat, FileMeta)>)

  const EMPTY := Edit(None, None, None, None, None, [], {}, [])

  /** What clearing an edit leaves: the compaction pointers stay. */
  function Cleared(e: Edit): Edit {
    EMPTY.(compactPointers := e.compactPointers)
  }

  function Put(e: Edit, item: Item): Edit {
    match item
    case Comparator(name) => e.(comparator := Some(name))
    case LogNumber(n) => e.(logNumber := Some(n))
    case PrevLogNumber(n) => e.(prevLogNumber := Some(n))
    case NextFileNumber(n) => e.(nextFileNumber := Some(n))
    case LastSequence(n) => e.(lastSequence := Some(n))
    case CompactPointer(level, key) => e.(compactPointers := e.compactPointers + [(level, key)])
    case DeletedFile(level, n) => e.(deletedFiles := e.deletedFiles + {(level, n)})
    case NewFile(level, file) => e.(newFiles := e.newFiles + [(level, file)])
  }

  function PutAll(e: Edit, items: seq<Item>): Edit
    decreases |items|
  {
    if items == [] then e else PutAll(Put(e, items[0]), items[1..])
  }

  // ----- items as bytes -----

  function TagOf(item: Item): nat {
    match item
    case Comparator(_) => 1
    case LogNumber(_) => 2
    case NextFileNumber(_) => 3
    case LastSequence(_) => 4
    case CompactPointer(_, _) => 5
    case DeletedFile(_, _) => 6
    case NewFile(_, _) => 7
    case PrevLogNumber(_) => 9
  }

  function Body(item: Item): Bytes {
    match item
    case Comparator(name) => Prefixed(name)
    case LogNumber(n) => VarintBytes(n)
    case PrevLogNumber(n) => VarintBytes(n)
    case NextFileNumber(n) => VarintBytes(n)
    case LastSequence(n) => VarintBytes(n)
    case CompactPointer(level, key) => VarintBytes(level) + Prefixed(key)
    case DeletedFile(level, n) => VarintBytes(level) + VarintBytes(n)
    case NewFile(level, f) =>
      VarintBytes(level) + (VarintBytes(f.number) + (VarintBytes(f.size) + (Prefixed(f.smallest) + Prefixed(f.largest))))
  }

  function ItemBytes(item: Item): Bytes {
    VarintBytes(TagOf(item)) + Body(item)
  }

  function Encoded(items: seq<Item>): Bytes {
    if items == [] then [] else ItemBytes(items[0]) + Encoded(items[1..])
  }

  /** The item's numbers have their widths, and its level is one of the store's. */
  predicate Fits(item: Item) {
    match item
    case Comparator(name) => |name| < TWO32
    case CompactPointer(level, key) => level < FileLevels.NUM_LEVELS && |key| < TWO32
    case DeletedFile(level, n) => level < FileLevels.NUM_LEVELS && n < TWO64
    case NewFile(level, f) =>
      level < FileLevels.NUM_LEVELS && f.number < TWO64 && f.size < TWO64 && |f.smallest| < TWO32 && |f.largest| < TWO32
    case _ => item.n < TWO64
  }

  // ----- reading -----

  function GetLevel(s: Bytes): (r: Option<Read<nat>>)
    ensures r.Some? ==> |r.value.rest| < |s|
  {
    var v := Varint32(s);
    if v.Some? && v.value.value < FileLevels.NUM_LEVELS then v else None
  }

  function GetNewFile(s: Bytes): (r: Option<Read<Item>>)
    ensures r.Some? ==> |r.value.rest| < |s|
  {
    var level := GetLevel(s);
    if level.None? then None
    else
      var number := Varint64(level.value.rest);
      if number.None? then None
      else
        var size := Varint64(number.value.rest);
        if size.None? then None
        else
          var smallest := GetPrefixed(size.value.rest);
          if smallest.None? then None
          else
            var largest := GetPrefixed(smallest.value.rest);
            if largest.None? then None
            else
              var f := FileMeta(number.value.value, size.value.value, smallest.value.value, largest.value.value);
              Some(Read(NewFile(level.value.value, f), largest.value.rest))
  }

  function NumberItem(tag: nat, n: nat): Item {
    if tag == 2 then LogNumber(n) else if tag == 3 then NextFileNumber(n) else if tag == 4 then LastSequence(n) else PrevLogNumber(n)
  }

  /** What follows a tag. */
  function GetBody(tag: nat, s: Bytes): (r: Option<Read<Item>>)
    ensures r.Some? ==> |r.value.rest| < |s|
  {
    if tag == 1 then
      var name := GetPrefixed(s);
      if name.None? then None else Some(Read(Comparator(name.value.value), name.value.rest))
    else if tag == 2 || tag == 3 || tag == 4 || tag == 9 then
      var n := Varint64(s);
      if n.None? then None else Some(Read(NumberItem(tag, n.value.value), n.value.rest))
    else if tag == 5 then
      var level := GetLevel(s);
      if level.None? then None
      else
        var key := GetPrefixed(level.value.rest);
        if key.None? then None else Some(Read(CompactPointer(level.value.value, key.value.value), key.value.rest))
    else if tag == 6 then
      var level := GetLevel(s);
      if level.None? then None
      else
        var n := Varint64(level.value.rest);
        if n.None? then None else Some(Read(DeletedFile(level.value.value, n.value.value), n.value.rest))
    else if tag == 7 then GetNewFile(s)
    else None
  }

  function GetItem(s: Bytes): (r: Option<Read<Item>>)
    ensures r.Some? ==> |r.value.rest| < |s|
  {
    var tag := Varint32(s);
    if tag.None? then None else GetBody(tag.value.value, tag.value.rest)
  }

  datatype Parse = Parse(edit: Edit, ok: bool)

  /** Item after item until nothing is left; anything else is corruption and stops there. */
  function Decoded(e: Edit, s: Bytes): Parse
    decreases |s|
  {
    if s == [] then Parse(e, true)
    else
      var item := GetItem(s);
      if item.None? then Parse(e, false) else Decoded(Put(e, item.value.value), item.value.rest)
  }

  // ----- decoding undoes encoding -----

  lemma LevelRead(level: nat, rest: Bytes)
    requires level < FileLevels.NUM_LEVELS
    ensures GetLevel(VarintBytes(level) + rest) == Some(Read(level, rest))
  {
    ReadVarint32(level, rest);
  }

  lemma NewFileRead(level: nat, f: FileMeta, rest: Bytes)
    requires Fits(NewFile(level, f))
    ensures GetNewFile(Body(NewFile(level, f)) + rest) == Some(Read(NewFile(level, f), rest))
  {
    var e := Prefixed(f.largest) + rest;
    var d := Prefixed(f.smallest) + e;
    var c := VarintBytes(f.size) + d;
    var b := VarintBytes(f.number) + c;
    NewFileParts(VarintBytes(level), VarintBytes(f.number), VarintBytes(f.size), Prefixed(f.smallest), Prefixed(f.largest), rest);
    LevelRead(level, b);
    ReadVarint64(f.number, c);
    ReadVarint64(f.size, d);
    PrefixedRead(f.smallest, e);
    PrefixedRead(f.largest, rest);
  }

  lemma NewFileParts(a: Bytes, b: Bytes, c: Bytes, d: Bytes, e: Bytes, rest: Bytes)
    ensures a + (b + (c + (d + e))) + rest == a + (b + (c + (d + (e + rest))))
  {
  }

  lemma BodyRead(item: Item, rest: Bytes)
    requires Fits(item)
    ensures GetBody(TagOf(item), Body(item) + rest) == Some(Read(item, rest))
  {
    match item
    case Comparator(name) => PrefixedRead(name, rest);
    case CompactPointer(level, key) =>
      Regroup(VarintBytes(level), Prefixed(key), rest);
      LevelRead(level, Prefixed(key) + rest);
      PrefixedRead(key, rest);
    case DeletedFile(level, n) =>
      Regroup(VarintBytes(level), VarintBytes(n), rest);
      LevelRead(level, VarintBytes(n) + rest);
      ReadVarint64(n, rest);
    case NewFile(level, f) => NewFileRead(level, f, rest);
    case LogNumber(n) => ReadVarint64(n, rest);
    case PrevLogNumber(n) => ReadVarint64(n, rest);
    case NextFileNumber(n) => ReadVarint64(n, rest);
    case LastSequence(n) => ReadVarint64(n, rest);
  }

  lemma ItemRead(item: Item, rest: Bytes)
    requires Fits(item)
    ensures GetItem(ItemBytes(item) + rest) == Some(Read(item, rest))
  {
    Regroup(VarintBytes(TagOf(item)), Body(item), rest);
    ReadVarint32(TagOf(item), Body(item) + rest);
    BodyRead(item, rest);
  }

  lemma ItemNonempty(item: Item, rest: Bytes)
    ensures ItemBytes(item) + rest != []
  {
  }

  lemma {:induction false} ItemsRead(e: Edit, items: seq<Item>, tail: Bytes)
    requires AllFit(items)
    ensures Decoded(e, Encoded(items) + tail) == Decoded(PutAll(e, items), tail)
    decreases |items|
  {
    hide ItemBytes, GetItem, Put;
    if items == [] {
      assert [] + tail == tail;
    } else {
      var rest := Encoded(items[1..]) + tail;
      Regroup(ItemBytes(items[0]), Encoded(items[1..]), tail);
      ItemRead(items[0], rest);
      ItemNonempty(items[0], rest);
      ItemsRead(Put(e, items[0]), items[1..], tail);
    }
  }

  /** A level beyond the store's is refused where a level is read. */
  lemma LevelRefused(level: nat, rest: Bytes)
    requires 7 <= level < TWO32
    ensures GetLevel(VarintBytes(level) + rest) == None
  {
    ReadVarint32(level, rest);
  }

  /** What is no item: a tag that is none, or one of the three that a level follows with a level of seven or more. */
  ghost predicate NoItem(tag: nat, body: Bytes) {
    tag < TWO32 &&
    ((tag !in {1, 2, 3, 4, 5, 6, 7, 9})
     || (tag in {5, 6, 7} && exists level, rest :: 7 <= level < TWO32 && body == VarintBytes(level) + rest))
  }

  /** Main result: decoding keeps what came before and fails at the first thing that is no item. */
  lemma DamageRefused(e: Edit, items: seq<Item>, tag: nat, body: Bytes)
    requires AllFit(items) && NoItem(tag, body)
    ensures Decoded(e, Encoded(items) + (VarintBytes(tag) + body)) == Parse(PutAll(e, items), false)
  {
    hide Encoded, AllFit, PutAll, VarintBytes;
    ItemsRead(e, items, VarintBytes(tag) + body);
    ReadVarint32(tag, body);
    FirstDigit(tag, body);
    if tag in {5, 6, 7} {
      var level, rest :| 7 <= level < TWO32 && body == VarintBytes(level) + rest;
      LevelRefused(level, rest);
    }
    assert GetItem(VarintBytes(tag) + body) == None;
  }

  // ----- the items of an edit -----

  predicate PairLess(a: Pair, b: Pair) {
    a.0 < b.0 || (a.0 == b.0 && a.1 < b.1)
  }

  predicate IsLeast(m: Pair, s: set<Pair>) {
    m in s && forall x :: x in s ==> !PairLess(x, m)
  }

  lemma {:induction false} LeastExists(s: set<Pair>) returns (m: Pair)
    requires s != {}
    ensures IsLeast(m, s)
  {
    var x :| x in s;
    if s == {x} {
      m := x;
    } else {
      var rest := s - {x};
      assert s == rest + {x};
      assert rest != {};
      var n := LeastExists(rest);
      m := if PairLess(x, n) then x else n;
    }
  }

  lemma LeastThere(s: set<Pair>)
    requires s != {}
    ensures exists m :: IsLeast(m, s)
  {
    var m := LeastExists(s);
  }

  ghost function Least(s: set<Pair>): (m: Pair)
    requires s != {}
    ensures IsLeast(m, s)
  {
    LeastThere(s);
    var m :| IsLeast(m, s);
    m
  }

  /** The pairs in ascending order. */
  ghost function Listing(s: set<Pair>): seq<Item> {
    if s == {} then [] else [DeletedFile(Least(s).0, Least(s).1)] + Listing(s - {Least(s)})
  }

  function Pointers(ps: seq<(nat, Bytes)>): seq<Item> {
    if ps == [] then [] else Pointers(ps[..|ps| - 1]) + [CompactPointer(ps[|ps| - 1].0, ps[|ps| - 1].1)]
  }

  function NewFiles(fs: seq<(nat, FileMeta)>): seq<Item> {
    if fs == [] then [] else NewFiles(fs[..|fs| - 1]) + [NewFile(fs[|fs| - 1].0, fs[|fs| - 1].1)]
  }

  function Singles(e: Edit): seq<Item> {
    (if e.comparator.Some? then [Comparator(e.comparator.value)] else []) +
    (if e.logNumber.Some? then [LogNumber(e.logNumber.value)] else []) +
    (if e.prevLogNumber.Some? then [PrevLogNumber(e.prevLogNumber.value)] else []) +
    (if e.nextFileNumber.Some? then [NextFileNumber(e.nextFileNumber.value)] else []) +
    (if e.lastSequence.Some? then [LastSequence(e.lastSequence.value)] else [])
  }

  ghost function ItemsOf(e: Edit): seq<Item> {
    Singles(e) + Pointers(e.compactPointers) + Listing(e.deletedFiles) + NewFiles(e.newFiles)
  }

  /** Every number in the edit has its width, and every level is one of the store's. */
  ghost predicate EditFits(e: Edit) {
    && (e.comparator.Some? ==> |e.comparator.value| < TWO32)
    && (e.logNumber.Some? ==> e.logNumber.value < TWO64) && (e.prevLogNumber.Some? ==> e.prevLogNumber.value < TWO64)
    && (e.nextFileNumber.Some? ==> e.nextFileNumber.value < TWO64) && (e.lastSequence.Some? ==> e.lastSequence.value < TWO64)
    && (forall p :: p in e.compactPointers ==> p.0 < FileLevels.NUM_LEVELS && |p.1| < TWO32)
    && (forall d :: d in e.deletedFiles ==> d.0 < FileLevels.NUM_LEVELS && d.1 < TWO64)
    && forall f :: f in e.newFiles ==> Fits(NewFile(f.0, f.1))
  }

  ghost predicate AllFit(items: seq<Item>) {
    forall i :: 0 <= i < |items| ==> Fits(items[i])
  }

  lemma {:induction false} ListingFits(s: set<Pair>)
    requires forall d :: d in s ==> d.0 < FileLevels.NUM_LEVELS && d.1 < TWO64
    ensures AllFit(Listing(s))
  {
    if s != {} {
      ListingFits(s - {Least(s)});
    }
  }

  lemma {:induction false} PointersFit(ps: seq<(nat, Bytes)>)
    requires forall p :: p in ps ==> p.0 < FileLevels.NUM_LEVELS && |p.1| < TWO32
    ensures AllFit(Pointers(ps))
  {
    if ps != [] {
      PointersFit(ps[..|ps| - 1]);
    }
  }

  lemma {:induction false} NewFilesFit(fs: seq<(nat, FileMeta)>)
    requires forall f :: f in fs ==> Fits(NewFile(f.0, f.1))
    ensures AllFit(NewFiles(fs))
  {
    if fs != [] {
      NewFilesFit(fs[..|fs| - 1]);
    }
  }

  lemma SinglesFit(e: Edit)
    requires EditFits(e)
    ensures AllFit(Singles(e))
  {
  }

  lemma AllFitTogether(a: seq<Item>, b: seq<Item>)
    requires AllFit(a) && AllFit(b)
    ensures AllFit(a + b)
  {
  }

  lemma ItemsFit(e: Edit)
    requires EditFits(e)
    ensures AllFit(ItemsOf(e))
  {
    hide AllFit, Fits, Singles, Pointers, Listing, NewFiles;
    var s, p, l, n := Singles(e), Pointers(e.compactPointers), Listing(e.deletedFiles), NewFiles(e.newFiles);
    SinglesFit(e);
    PointersFit(e.compactPointers);
    ListingFits(e.deletedFiles);
    NewFilesFit(e.newFiles);
    AllFitTogether(s, p);
    AllFitTogether(s + p, l);
    AllFitTogether(s + p + l, n);
  }

  lemma {:induction false} PutAppend(e: Edit, a: seq<Item>, b: seq<Item>)
    ensures PutAll(e, a + b) == PutAll(PutAll(e, a), b)
    decreases |a|
  {
    if a == [] {
      assert a + b == b;
    } else {
      assert (a + b)[1..] == a[1..] + b;
      PutAppend(Put(e, a[0]), a[1..], b);
    }
  }

  lemma PutOne(e: Edit, item: Item)
    ensures PutAll(e, [item]) == Put(e, item)
  {
    assert PutAll(Put(e, item), [item][1..]) == Put(e, item);
  }

  lemma {:induction false} PutPointers(e: Edit, ps: seq<(nat, Bytes)>)
    ensures PutAll(e, Pointers(ps)) == e.(compactPointers := e.compactPointers + ps)
  {
    if ps == [] {
      assert e.compactPointers + ps == e.compactPointers;
    } else {
      var n := |ps| - 1;
      PutPointers(e, ps[..n]);
      PutAppend(e, Pointers(ps[..n]), [CompactPointer(ps[n].0, ps[n].1)]);
      PutOne(PutAll(e, Pointers(ps[..n])), CompactPointer(ps[n].0, ps[n].1));
      assert e.compactPointers + ps[..n] + [ps[n]] == e.compactPointers + ps;
    }
  }

  lemma {:induction false} PutNewFiles(e: Edit, fs: seq<(nat, FileMeta)>)
    ensures PutAll(e, NewFiles(fs)) == e.(newFiles := e.newFiles + fs)
  {
    if fs == [] {
      assert e.newFiles + fs == e.newFiles;
    } else {
      var n := |fs| - 1;
      PutNewFiles(e, fs[..n]);
      PutAppend(e, NewFiles(fs[..n]), [NewFile(fs[n].0, fs[n].1)]);
      PutOne(PutAll(e, NewFiles(fs[..n])), NewFile(fs[n].0, fs[n].1));
      assert e.newFiles + fs[..n] + [fs[n]] == e.newFiles + fs;
    }
  }

  lemma {:induction false} PutListing(e: Edit, s: set<Pair>)
    ensures PutAll(e, Listing(s)) == e.(deletedFiles := e.deletedFiles + s)
    decreases s
  {
    if s == {} {
      assert e.deletedFiles + s == e.deletedFiles;
    } else {
      var m := Least(s);
      var item := DeletedFile(m.0, m.1);
      PutAppend(e, [item], Listing(s - {m}));
      PutOne(e, item);
      PutListing(Put(e, item), s - {m});
      assert e.deletedFiles + {m} + (s - {m}) == e.deletedFiles + s;
    }
  }

  lemma PutOption(e: Edit, items: seq<Item>, item: Item, there: bool)
    requires items == if there then [item] else []
    ensures PutAll(e, items) == if there then Put(e, item) else e
  {
    PutOne(e, item);
  }

  lemma PutSingles(e: Edit, d: Edit)
    requires d == Cleared(d)
    ensures PutAll(d, Singles(e)) == e.(compactPointers := d.compactPointers, deletedFiles := {}, newFiles := [])
  {
    var a := if e.comparator.Some? then [Comparator(e.comparator.value)] else [];
    var b := if e.logNumber.Some? then [LogNumber(e.logNumber.value)] else [];
    var c := if e.prevLogNumber.Some? then [PrevLogNumber(e.prevLogNumber.value)] else [];
    var f := if e.nextFileNumber.Some? then [NextFileNumber(e.nextFileNumber.value)] else [];
    var g := if e.lastSequence.Some? then [LastSequence(e.lastSequence.value)] else [];
    PutAppend(d, a + b + c + f, g);
    PutAppend(d, a + b + c, f);
    PutAppend(d, a + b, c);
    PutAppend(d, a, b);
    PutOption(d, a, if e.comparator.Some? then Comparator(e.comparator.value) else LogNumber(0), e.comparator.Some?);
    PutOption(PutAll(d, a), b, if e.logNumber.Some? then LogNumber(e.logNumber.value) else LogNumber(0), e.logNumber.Some?);
    PutOption(PutAll(PutAll(d, a), b), c, if e.prevLogNumber.Some? then PrevLogNumber(e.prevLogNumber.value) else LogNumber(0),
              e.prevLogNumber.Some?);
    PutOption(PutAll(PutAll(PutAll(d, a), b), c), f,
              if e.nextFileNumber.Some? then NextFileNumber(e.nextFileNumber.value) else LogNumber(0), e.nextFileNumber.Some?);
    PutOption(PutAll(PutAll(PutAll(PutAll(d, a), b), c), f), g,
              if e.lastSequence.Some? then LastSequence(e.lastSequence.value) else LogNumber(0), e.lastSequence.Some?);
  }

  lemma PrefixAdds<T>(a: seq<T>, b: seq<T>)
    ensures a + b == b <==> a == []
  {
    assert |a + b| == |a| + |b|;
  }

  lemma NothingLeft(d: Edit, items: seq<Item>)
    ensures Decoded(PutAll(d, items), []) == Parse(PutAll(d, items), true) && Encoded(items) + [] == Encoded(items)
  {
    hide PutAll, Encoded;
  }

  /** Main result: decoding the encoding of an edit gives the edit, after the compaction pointers that the edit
      decoded into had already: clearing it does not drop them. So it gives the edit itself if and only if the edit
      decoded into had none. */
  lemma DecodeUndoesEncode(e: Edit, into: Edit)
    requires EditFits(e)
    ensures Decoded(Cleared(into), Encoded(ItemsOf(e))) ==
            Parse(e.(compactPointers := into.compactPointers + e.compactPointers), true)
    ensures Decoded(Cleared(into), Encoded(ItemsOf(e))) == Parse(e, true) <==> into.compactPointers == []
  {
    hide Encoded, Pointers, Listing, NewFiles, Singles, Decoded, PutAll, EditFits, AllFit, Fits;
    var d := Cleared(into);
    ItemsFit(e);
    ItemsRead(d, ItemsOf(e), []);
    NothingLeft(d, ItemsOf(e));
    var s, p, l, n := Singles(e), Pointers(e.compactPointers), Listing(e.deletedFiles), NewFiles(e.newFiles);
    PutAppend(d, s + p + l, n);
    PutAppend(d, s + p, l);
    PutAppend(d, s, p);
    PutSingles(e, d);
    PutPointers(PutAll(d, s), e.compactPointers);
    PutListing(PutAll(d, s + p), e.deletedFiles);
    PutNewFiles(PutAll(d, s + p + l), e.newFiles);
    PrefixAdds(into.compactPointers, e.compactPointers);
  }

  lemma {:induction false} EncodedAppend(a: seq<Item>, b: seq<Item>)
    ensures Encoded(a + b) == Encoded(a) + Encoded(b)
  {
    if a == [] {
      assert a + b == b;
    } else {
      assert (a + b)[1..] == a[1..] + b;
      EncodedAppend(a[1..], b);
    }
  }

  lemma Wrote(r: Bytes, dst: Bytes, items: seq<Item>, item: Item)
    requires r == dst + Encoded(items)
    ensures r + ItemBytes(item) == dst + Encoded(items + [item])
  {
    EncodedAppend(items, [item]);
    OneItem(item);
    Regroup(dst, Encoded(items), ItemBytes(item));
  }

  lemma OneItem(item: Item)
    ensures Encoded([item]) == ItemBytes(item)
  {
    assert [item][1..] == [];
    assert ItemBytes(item) + [] == ItemBytes(item);
  }

  lemma EncodedInParts(dst: Bytes, s: seq<Item>, p: seq<Item>, l: seq<Item>, n: seq<Item>)
    ensures dst + Encoded(s) + Encoded(p) + Encoded(l) + Encoded(n) == dst + Encoded(s + p + l + n)
  {
    EncodedAppend(s + p + l, n);
    EncodedAppend(s + p, l);
    EncodedAppend(s, p);
    FourParts(dst, Encoded(s), Encoded(p), Encoded(l), Encoded(n));
  }

  lemma FourParts(dst: Bytes, s: Bytes, p: Bytes, l: Bytes, n: Bytes)
    ensures dst + s + p + l + n == dst + (s + p + l + n)
  {
  }

  function One(there: bool, item: Item): seq<Item> {
    if there then [item] else []
  }

  lemma WroteOne(r: Bytes, dst: Bytes, items: seq<Item>, there: bool, item: Item)
    requires r == dst + Encoded(items) || (r == dst && items == [])
    ensures (if there then r + ItemBytes(item) else r) == dst + Encoded(items + One(there, item))
  {
    assert dst + Encoded([]) == dst;
    Wrote(r, dst, items, item);
    assert items + [] == items;
  }

  /** The items when the fields and the flags beside them are stored apart. */
  lemma SinglesByFlag(e: Edit, c: (bool, Bytes), l: (bool, nat), p: (bool, nat), n: (bool, nat), q: (bool, nat))
    requires e.comparator == (if c.0 then Some(c.1) else None) && e.logNumber == (if l.0 then Some(l.1) else None)
    requires e.prevLogNumber == (if p.0 then Some(p.1) else None) && e.nextFileNumber == (if n.0 then Some(n.1) else None)
    requires e.lastSequence == (if q.0 then Some(q.1) else None)
    ensures Singles(e) == One(c.0, Comparator(c.1)) + One(l.0, LogNumber(l.1)) + One(p.0, PrevLogNumber(p.1)) +
                          One(n.0, NextFileNumber(n.1)) + One(q.0, LastSequence(q.1))
  {
  }

  lemma PointersOneMore(ps: seq<(nat, Bytes)>, i: nat)
    requires i < |ps|
    ensures Pointers(ps[..i + 1]) == Pointers(ps[..i]) + [CompactPointer(ps[i].0, ps[i].1)]
  {
    assert ps[..i + 1][..i] == ps[..i];
  }

  lemma NewFilesOneMore(fs: seq<(nat, FileMeta)>, i: nat)
    requires i < |fs|
    ensures NewFiles(fs[..i + 1]) == NewFiles(fs[..i]) + [NewFile(fs[i].0, fs[i].1)]
  {
    assert fs[..i + 1][..i] == fs[..i];
  }

  lemma ListedFirst(s: set<Pair>, m: Pair, done: seq<Item>)
    requires IsLeast(m, s)
    ensures done + Listing(s) == done + [DeletedFile(m.0, m.1)] + Listing(s - {m})
  {
    assert m == Least(s);
  }

  class VersionEdit {
    var comparator: Bytes
    var logNumber: nat
    var prevLogNumber: nat
    var nextFileNumber: nat
    var lastSequence: nat
    var hasComparator: bool
    var hasLogNumber: bool
    var hasPrevLogNumber: bool
    var hasNextFileNumber: bool
    var hasLastSequence: bool
    var compactPointers: seq<(nat, Bytes)>
    var deletedFiles: set<Pair>
    var newFiles: seq<(nat, FileMeta)>

    ghost function Value(): Edit
      reads this
    {
      Edit(if hasComparator then Some(comparator) else None, if hasLogNumber then Some(logNumber) else None,
           if hasPrevLogNumber then Some(prevLogNumber) else None, if hasNextFileNumber then Some(nextFileNumber) else None,
           if hasLastSequence then Some(lastSequence) else None, compactPointers, deletedFiles, newFiles)
    }

    constructor ()
      ensures Value() == EMPTY
    {
      compactPointers := [];
      new;
      Clear();
    }

    method Clear()
      modifies this
      ensures Value() == Cleared(old(Value()))
    {
      comparator, logNumber, prevLogNumber, lastSequence, nextFileNumber := [], 0, 0, 0, 0;
      hasComparator, hasLogNumber, hasPrevLogNumber := false, false, false;
      hasNextFileNumber, hasLastSequence := false, false;
      deletedFiles, newFiles := {}, [];
    }

    method PutSingles(dst: Bytes) returns (r: Bytes)
      ensures r == dst + Encoded(Singles(Value()))
    {
      r := dst;
      WroteOne(r, dst, [], hasComparator, Comparator(comparator));
      ghost var done := One(hasComparator, Comparator(comparator));
      if hasComparator {
        r := r + ItemBytes(Comparator(comparator));
      }
      WroteOne(r, dst, done, hasLogNumber, LogNumber(logNumber));
      done := done + One(hasLogNumber, LogNumber(logNumber));
      if hasLogNumber {
        r := r + ItemBytes(LogNumber(logNumber));
      }
      WroteOne(r, dst, done, hasPrevLogNumber, PrevLogNumber(prevLogNumber));
      done := done + One(hasPrevLogNumber, PrevLogNumber(prevLogNumber));
      if hasPrevLogNumber {
        r := r + ItemBytes(PrevLogNumber(prevLogNumber));
      }
      WroteOne(r, dst, done, hasNextFileNumber, NextFileNumber(nextFileNumber));
      done := done + One(hasNextFileNumber, NextFileNumber(nextFileNumber));
      if hasNextFileNumber {
        r := r + ItemBytes(NextFileNumber(nextFileNumber));
      }
      WroteOne(r, dst, done, hasLastSequence, LastSequence(lastSequence));
      done := done + One(hasLastSequence, LastSequence(lastSequence));
      if hasLastSequence {
        r := r + ItemBytes(LastSequence(lastSequence));
      }
      SinglesByFlag(Value(), (hasComparator, comparator), (hasLogNumber, logNumber), (hasPrevLogNumber, prevLogNumber),
                    (hasNextFileNumber, nextFileNumber), (hasLastSequence, lastSequence));
    }

    method PutPointers(dst: Bytes) returns (r: Bytes)
      ensures r == dst + Encoded(Pointers(compactPointers))
    {
      r := dst;
      assert r == dst + Encoded(Pointers([]));
      for i := 0 to |compactPointers|
        invariant r == dst + Encoded(Pointers(compactPointers[..i]))
      {
        var item := CompactPointer(compactPointers[i].0, compactPointers[i].1);
        Wrote(r, dst, Pointers(compactPointers[..i]), item);
        PointersOneMore(compactPointers, i);
        r := r + ItemBytes(item);
      }
      assert compactPointers[..|compactPointers|] == compactPointers;
    }

    /** In ascending order, as the ordered set is iterated. */
    method PutDeleted(dst: Bytes) returns (r: Bytes)
      ensures r == dst + Encoded(Listing(deletedFiles))
    {
      r := dst;
      var left := deletedFiles;
      ghost var done: seq<Item> := [];
      assert r == dst + Encoded(done);
      assert done + Listing(left) == Listing(deletedFiles);
      while left != {}
        invariant r == dst + Encoded(done)
        invariant done + Listing(left) == Listing(deletedFiles)
        decreases left
      {
        LeastThere(left);
        var m :| m in left && IsLeast(m, left);
        var item := DeletedFile(m.0, m.1);
        Wrote(r, dst, done, item);
        ListedFirst(left, m, done);
        r, done, left := r + ItemBytes(item), done + [item], left - {m};
      }
      assert done + [] == done;
    }

    method PutNewFiles(dst: Bytes) returns (r: Bytes)
      ensures r == dst + Encoded(NewFiles(newFiles))
    {
      r := dst;
      assert r == dst + Encoded(NewFiles([]));
      for i := 0 to |newFiles|
        invariant r == dst + Encoded(NewFiles(newFiles[..i]))
      {
        var item := NewFile(newFiles[i].0, newFiles[i].1);
        Wrote(r, dst, NewFiles(newFiles[..i]), item);
        NewFilesOneMore(newFiles, i);
        r := r + ItemBytes(item);
      }
      assert newFiles[..|newFiles|] == newFiles;
    }

    method EncodeTo(dst: Bytes) returns (r: Bytes)
      ensures r == dst + Encoded(ItemsOf(Value()))
    {
      r := PutSingles(dst);
      r := PutPointers(r);
      r := PutDeleted(r);
      r := PutNewFiles(r);
      EncodedInParts(dst, Singles(Value()), Pointers(compactPointers), Listing(deletedFiles), NewFiles(newFiles));
    }

    method Store(item: Item)
      modifies this
      ensures Value() == Put(old(Value()), item)
    {
      match item {
        case Comparator(name) => comparator, hasComparator := name, true;
        case LogNumber(n) => logNumber, hasLogNumber := n, true;
        case PrevLogNumber(n) => prevLogNumber, hasPrevLogNumber := n, true;
        case NextFileNumber(n) => nextFileNumber, hasNextFileNumber := n, true;
        case LastSequence(n) => lastSequence, hasLastSequence := n, true;
        case CompactPointer(level, key) => compactPointers := compactPointers + [(level, key)];
        case DeletedFile(level, n) => deletedFiles := deletedFiles + {(level, n)};
        case NewFile(level, file) => newFiles := newFiles + [(level, file)];
      }
    }

    /** Clears the edit first, whatever the bytes are. */
    method DecodeFrom(src: Bytes) returns (ok: bool)
      modifies this
      ensures Parse(Value(), ok) == Decoded(Cleared(old(Value())), src)
    {
      Clear();
      ok := true;
      var input := src;
      var tag := Varint32(input);
      while ok && tag.Some?
        invariant tag == Varint32(input)
        invariant Decoded(Cleared(old(Value())), src) == if ok then Decoded(Value(), input) else Parse(Value(), false)
        decreases |input|, ok
      {
        var item := GetBody(tag.value.value, tag.value.rest);
        if item.Some? {
          Store(item.value.value);
          input := item.value.rest;
          tag := Varint32(input);
        } else {
          ok := false;
        }
      }
      if ok && input != [] {
        ok := false;
      }
    }
  }
}
