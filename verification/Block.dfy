/** Reading a block: looking an entry up by binary search over the restart points, and walking both
    ways (table/block.cc). */
module Block {
  import opened Options
  import opened Coding
  import opened LengthPrefix
  import opened BlockLayout

  /** The three lengths in front of an entry, and the bytes behind them. */
  datatype EntryHead = EntryHead(shared: nat, nonShared: nat, size: nat, rest: Bytes)

  function DecodeLengths(s: Bytes): Option<EntryHead> {
    var a := Varint32(s);
    if a.None? then None
    else
      var b := Varint32(a.value.rest);
      if b.None? then None
      else
        var c := Varint32(b.value.rest);
        if c.None? then None else Some(EntryHead(a.value.value, b.value.value, c.value.value, c.value.rest))
  }

  /** Decodes the entry at the start of `s`, with a short cut when each length is one byte. */
  function DecodeEntry(s: Bytes): Option<EntryHead> {
    if |s| < 3 then None
    else if s[0] < 128 && s[1] < 128 && s[2] < 128 then IfRoom(EntryHead(s[0], s[1], s[2], s[3..]))
    else
      var head := DecodeLengths(s);
      if head.None? then None else IfRoom(head.value)
  }

  /** In 32-bit arithmetic, as the code compares them. */
  function IfRoom(h: EntryHead): Option<EntryHead> {
    if |h.rest| % TWO32 < (h.nonShared + h.size) % TWO32 then None else Some(h)
  }

  // ----- decoding undoes encoding -----

  lemma LengthsRead(a: nat, b: nat, c: nat, rest: Bytes)
    requires a < TWO32 && b < TWO32 && c < TWO32
    ensures DecodeLengths(VarintBytes(a) + (VarintBytes(b) + (VarintBytes(c) + rest))) == Some(EntryHead(a, b, c, rest))
  {
    ReadVarint32(a, VarintBytes(b) + (VarintBytes(c) + rest));
    ReadVarint32(b, VarintBytes(c) + rest);
    ReadVarint32(c, rest);
  }

  lemma OneByte(m: nat)
    ensures var s := VarintBytes(m); (s[0] < 128 <==> m < 128) && (m < 128 ==> s == [m])
  {
  }

  lemma ShortCut(a: byte, b: byte, c: byte, rest: Bytes)
    ensures var s := [a] + ([b] + ([c] + rest)); |s| >= 3 && s[0] == a && s[1] == b && s[2] == c && s[3..] == rest
  {
  }

  /** The short cut is taken only if each length is one byte. */
  lemma ShortCutOnly(va: Bytes, vb: Bytes, vc: Bytes, rest: Bytes)
    requires va != [] && vb != [] && vc != []
    ensures var s := va + (vb + (vc + rest));
            && |s| >= 3 && s[0] == va[0]
            && (|va| == 1 ==> s[1] == vb[0])
            && (|va| == 1 && |vb| == 1 ==> s[2] == vc[0])
  {
  }

  lemma RoomThere(h: EntryHead)
    requires h.nonShared + h.size <= |h.rest| < TWO32
    ensures IfRoom(h) == Some(h)
  {
  }

  lemma SingleBytes(a: byte, b: byte, c: byte, rest: Bytes)
    requires a < 128 && b < 128 && c < 128
    ensures VarintBytes(a) + (VarintBytes(b) + (VarintBytes(c) + rest)) == [a] + ([b] + ([c] + rest))
  {
  }

  /** The short cut reads the same lengths. */
  lemma HeadRead(a: nat, b: nat, c: nat, rest: Bytes, s: Bytes)
    requires a < TWO32 && b < TWO32 && c < TWO32 && b + c <= |rest| < TWO32
    requires s == VarintBytes(a) + (VarintBytes(b) + (VarintBytes(c) + rest))
    ensures DecodeEntry(s) == Some(EntryHead(a, b, c, rest))
  {
    if a < 128 && b < 128 && c < 128 {
      SingleBytes(a, b, c, rest);
      ShortCut(a, b, c, rest);
      RoomThere(EntryHead(a, b, c, rest));
    } else {
      LengthsRead(a, b, c, rest);
      OneByte(a);
      OneByte(b);
      OneByte(c);
      ShortCutOnly(VarintBytes(a), VarintBytes(b), VarintBytes(c), rest);
      RoomThere(EntryHead(a, b, c, rest));
    }
  }

  lemma SmallMod(n: nat)
    requires n < TWO32
    ensures n % TWO32 == n
  {
  }

  lemma VarintsFront(n: nat, ns: seq<nat>, b: Bytes)
    requires b == VarintBytes(n % TWO32)
    ensures Varints([n] + ns) == b + Varints(ns)
  {
    assert ([n] + ns)[1..] == ns;
  }

  lemma VarintsStep(n: nat, ns: seq<nat>, rest: Bytes)
    requires n < TWO32
    ensures Varints([n] + ns) + rest == VarintBytes(n) + (Varints(ns) + rest)
  {
    SmallMod(n);
    VarintsFront(n, ns, VarintBytes(n));
    Regroup(VarintBytes(n), Varints(ns), rest);
  }

  lemma HeaderIs(a: nat, b: nat, c: nat, rest: Bytes)
    requires a < TWO32 && b < TWO32 && c < TWO32
    ensures Header(a, b, c) + rest == VarintBytes(a) + (VarintBytes(b) + (VarintBytes(c) + rest))
  {
    VarintsStep(a, [b, c], rest);
    VarintsStep(b, [c], rest);
    VarintsStep(c, [], rest);
    assert [a] + [b, c] == [a, b, c] && [b] + [c] == [b, c] && [c] + [] == [c];
    assert Varints([]) + rest == rest;
  }

  /** An entry in front of anything is read as its lengths, its key's own bytes and its value. */
  lemma EntryRead(shared: nat, delta: Bytes, value: Bytes, tail: Bytes)
    requires shared < TWO32 && |delta| + |value| + |tail| < TWO32
    ensures DecodeEntry(Header(shared, |delta|, |value|) + (delta + value + tail)) ==
            Some(EntryHead(shared, |delta|, |value|, delta + value + tail))
  {
    var rest := delta + value + tail;
    HeaderIs(shared, |delta|, |value|, rest);
    HeadRead(shared, |delta|, |value|, rest, Header(shared, |delta|, |value|) + rest);
  }

  // ----- where things lie -----

  lemma Inside(a: Bytes, b: Bytes, c: Bytes, lo: nat, hi: nat)
    requires lo <= hi <= |b|
    ensures (a + b + c)[|a| + lo..|a| + hi] == b[lo..hi]
  {
  }

  lemma WordRead(ws: seq<nat>, r: nat)
    requires r < |ws| && ws[r] < TWO32
    ensures DecodeFixed32(Words(ws)[4 * r..4 * r + 4]) == ws[r]
  {
    WordAt(ws, r);
    SmallMod(ws[r]);
    DecodeEncodeFixed32(ws[r]);
  }

  /** An entry between `at` and `end`, which takes `shared` bytes of its key from the one before;
      `head` is what is decoded there. */
  ghost predicate EntryPlaced(data: Bytes, at: nat, head: Option<EntryHead>, shared: nat, e: Pair, end: nat) {
    && shared <= |e.key|
    && var p := end - |e.value| - (|e.key| - shared);
    && at < p && end <= |data|
    && head == Some(EntryHead(shared, |e.key| - shared, |e.value|, data[p..]))
    && data[p..p + |e.key| - shared] == e.key[shared..]
    && data[end - |e.value|..end] == e.value
  }

  lemma PartsSplit(data: Bytes, at: nat, h: Bytes, delta: Bytes, value: Bytes, end: nat)
    requires at <= |data| && h + (delta + value) <= data[at..] && end == at + |h| + |delta| + |value|
    ensures end <= |data| && data[at..] == h + (delta + value + data[end..])
    ensures data[at + |h|..] == delta + value + data[end..]
    ensures data[at + |h|..at + |h| + |delta|] == delta && data[at + |h| + |delta|..end] == value
  {
    var s, c := data[at..], h + (delta + value);
    assert s[|c|..] == data[end..];
    assert data[at + |h|..] == s[|h|..];
    assert data[at + |h|..at + |h| + |delta|] == c[|h|..|h| + |delta|];
    assert data[at + |h| + |delta|..end] == c[|h| + |delta|..];
  }

  lemma PartsPlaced(data: Bytes, at: nat, h: Bytes, shared: nat, e: Pair, head: Option<EntryHead>, end: nat)
    requires shared <= |e.key| && at <= |data| && h != [] && h + (e.key[shared..] + e.value) <= data[at..]
    requires end == at + |h| + (|e.key| - shared) + |e.value| <= |data|
    requires head == Some(EntryHead(shared, |e.key| - shared, |e.value|, e.key[shared..] + e.value + data[end..]))
    ensures EntryPlaced(data, at, head, shared, e, end)
  {
    PartsSplit(data, at, h, e.key[shared..], e.value, end);
  }

  /** The entries of a block, where they start, what is decoded there, how much they share, and which of
      them are restart points. */
  datatype Layout = Layout(es: seq<Pair>, ats: seq<nat>, heads: seq<Option<EntryHead>>, shares: seq<nat>, starts: seq<nat>)

  /** What the reader of a block relies on: each entry lies where the one before ends, and the stored
      offsets lead to entries that hold their whole key. */
  ghost predicate Readable(data: Bytes, restarts: nat, y: Layout) {
    && |data| < TWO32 && |y.ats| == |y.es| + 1 && |y.heads| == |y.shares| == |y.es|
    && y.starts != [] && (y.es == [] ==> |y.starts| == 1)
    && restarts + 4 * |y.starts| + 4 == |data|
    && y.ats[0] == 0 && y.ats[|y.es|] == restarts && y.starts[0] == 0
    && (forall i :: 0 <= i < |y.es| ==> EntryReadable(data[..restarts], y, i))
    && (forall i {:trigger HeadRight(data[..restarts], y, i)} :: 0 <= i < |y.es| ==> HeadRight(data[..restarts], y, i))
    && (forall r :: 0 <= r < |y.starts| ==> StartReadable(y, r))
    && forall r {:trigger WordRight(data, restarts, y, r)} :: 0 <= r < |y.starts| ==> WordRight(data, restarts, y, r)
  }

  ghost predicate EntryReadable(data: Bytes, y: Layout, i: nat) {
    && i < |y.es| == |y.shares| == |y.heads| && |y.ats| == |y.es| + 1
    && EntryPlaced(data, y.ats[i], y.heads[i], y.shares[i], y.es[i], y.ats[i + 1])
    && (y.shares[i] > 0 ==> i > 0 && y.shares[i] <= |y.es[i - 1].key| && y.es[i - 1].key[..y.shares[i]] == y.es[i].key[..y.shares[i]])
  }

  ghost predicate HeadRight(data: Bytes, y: Layout, i: nat) {
    && i < |y.heads| && i < |y.ats| && y.ats[i] <= |data|
    && DecodeEntry(data[y.ats[i]..]) == y.heads[i]
  }

  ghost predicate StartReadable(y: Layout, r: nat) {
    && r < |y.starts| && y.starts[r] <= |y.es| == |y.shares|
    && (y.es != [] ==> y.starts[r] < |y.es| && y.shares[y.starts[r]] == 0)
  }

  ghost predicate WordRight(data: Bytes, restarts: nat, y: Layout, r: nat) {
    && r < |y.starts| && y.starts[r] < |y.ats| && restarts + 4 * r + 4 <= |data|
    && DecodeFixed32(data[restarts + 4 * r..restarts + 4 * r + 4]) == y.ats[y.starts[r]]
  }

  // ----- a built block is readable -----

  lemma CellCoversDelta(shared: nat, e: Pair)
    requires shared <= |e.key|
    ensures |e.key| - shared <= |EntryBytes(shared, e)|
  {
  }

  /** A key is no longer than the data up to its end: what it shares was there before. */
  lemma {:induction false} KeyInside(es: seq<Pair>, interval: nat, i: nat)
    requires interval > 0 && i < |es|
    ensures |es[i].key| <= Offset(Cells(es, interval), i + 1)
  {
    SharedGood(es, interval, i);
    CellAt(es, interval, i);
    FlatStep(Cells(es, interval), i);
    CellCoversDelta(Shared(es, interval, i), es[i]);
    if i > 0 {
      KeyInside(es, interval, i - 1);
    }
  }

  lemma OffsetInside(cells: seq<Bytes>, i: nat)
    requires i <= |cells|
    ensures Offset(cells, i) <= |Flat(cells)|
  {
    FlatGrows(cells, i, |cells|);
    assert cells[..|cells|] == cells;
  }

  lemma SharedSmall(es: seq<Pair>, interval: nat, i: nat)
    requires interval > 0 && i < |es| && |Flat(Cells(es, interval))| < TWO32
    ensures Shared(es, interval, i) <= |es[i].key| && |es[i].key| < TWO32
  {
    SharedGood(es, interval, i);
    KeyInside(es, interval, i);
    OffsetInside(Cells(es, interval), i + 1);
  }

  lemma CellPlaced(cells: seq<Bytes>, i: nat, h: Bytes, shared: nat, e: Pair)
    requires i < |cells| && |Flat(cells)| < TWO32 && shared <= |e.key| && shared < TWO32
    requires cells[i] == h + (e.key[shared..] + e.value) && h == Header(shared, |e.key| - shared, |e.value|) && h != []
    ensures var data, at := Flat(cells), Offset(cells, i);
            at <= |data| && EntryPlaced(data, at, DecodeEntry(data[at..]), shared, e, Offset(cells, i + 1))
  {
    var data, at, end := Flat(cells), Offset(cells, i), Offset(cells, i + 1);
    CellLies(cells, i);
    PartsSplit(data, at, h, e.key[shared..], e.value, end);
    EntryRead(shared, e.key[shared..], e.value, data[end..]);
    PartsPlaced(data, at, h, shared, e, DecodeEntry(data[at..]), end);
  }

  lemma CellIs(es: seq<Pair>, interval: nat, i: nat, shared: nat, e: Pair)
    requires interval > 0 && i < |es| && e == es[i] && shared == Shared(es, interval, i)
    ensures shared <= |e.key|
    ensures Cells(es, interval)[i] == Header(shared, |e.key| - shared, |e.value|) + (e.key[shared..] + e.value)
  {
    SharedGood(es, interval, i);
    CellAt(es, interval, i);
  }

  lemma EntryThere(es: seq<Pair>, interval: nat, i: nat)
    requires interval > 0 && i < |es| && |Flat(Cells(es, interval))| < TWO32
    ensures var data, at, end := Flat(Cells(es, interval)), Offset(Cells(es, interval), i), Offset(Cells(es, interval), i + 1);
            at <= |data| && EntryPlaced(data, at, DecodeEntry(data[at..]), Shared(es, interval, i), es[i], end)
  {
    var shared, e := Shared(es, interval, i), es[i];
    SharedSmall(es, interval, i);
    CellIs(es, interval, i, shared, e);
    CellPlaced(Cells(es, interval), i, Header(shared, |e.key| - shared, |e.value|), shared, e);
  }

  lemma StartOffset(cells: seq<Bytes>, interval: nat, r: nat)
    requires interval > 0 && r < |Starts(|cells|, interval)|
    ensures |Restarts(cells, interval)| == |Starts(|cells|, interval)|
    ensures var s := Starts(|cells|, interval)[r];
            s <= |cells| && Restarts(cells, interval)[r] == Offset(cells, s) <= |Flat(cells)|
  {
    StartsGood(|cells|, interval, r);
    OffsetsAt(cells, Starts(|cells|, interval), r);
    OffsetInside(cells, Starts(|cells|, interval)[r]);
  }

  lemma WordMoved(d: Bytes, words: Bytes, last: Bytes, r: nat)
    requires 4 * r + 4 <= |words|
    ensures var b, at := d + words + last, |d| + 4 * r;
            at + 4 <= |b| && DecodeFixed32(b[at..at + 4]) == DecodeFixed32(words[4 * r..4 * r + 4])
  {
    Inside(d, words, last, 4 * r, 4 * r + 4);
  }

  /** The offset stored for restart point `r`. */
  lemma RestartThere(cells: seq<Bytes>, interval: nat, r: nat)
    requires interval > 0 && r < |Starts(|cells|, interval)| && |Flat(cells)| < TWO32
    ensures var words, s := Words(Restarts(cells, interval)), Starts(|cells|, interval)[r];
            s <= |cells| && 4 * r + 4 <= |words| && DecodeFixed32(words[4 * r..4 * r + 4]) == Offset(cells, s)
  {
    StartOffset(cells, interval, r);
    WordRead(Restarts(cells, interval), r);
  }

  /** How a block that was built is laid out. */
  ghost function LayoutOf(es: seq<Pair>, interval: nat): (y: Layout)
    requires interval > 0
    ensures |y.ats| == |es| + 1 && |y.heads| == |y.shares| == |y.es| == |es|
  {
    var cells := Cells(es, interval);
    Layout(es, seq(|es| + 1, i requires i >= 0 => Offset(cells, i)), Heads(cells),
           seq(|es|, i requires 0 <= i < |es| => Shared(es, interval, i)), Starts(|es|, interval))
  }

  ghost function Heads(cells: seq<Bytes>): (r: seq<Option<EntryHead>>)
    ensures |r| == |cells|
  {
    seq(|cells|, i requires i >= 0 => HeadAt(Flat(cells), Offset(cells, i)))
  }

  ghost function HeadAt(data: Bytes, at: nat): Option<EntryHead> {
    if at <= |data| then DecodeEntry(data[at..]) else None
  }

  lemma LayoutEntry(es: seq<Pair>, interval: nat, i: nat)
    requires interval > 0 && i < |es| && |Flat(Cells(es, interval))| < TWO32
    ensures EntryReadable(Flat(Cells(es, interval)), LayoutOf(es, interval), i)
    ensures HeadRight(Flat(Cells(es, interval)), LayoutOf(es, interval), i)
  {
    EntryThere(es, interval, i);
    SharedGood(es, interval, i);
  }

  lemma LayoutStart(es: seq<Pair>, interval: nat, r: nat)
    requires interval > 0 && r < |Starts(|es|, interval)|
    ensures StartReadable(LayoutOf(es, interval), r)
  {
    StartsGood(|es|, interval, r);
  }

  lemma WordThere(y: Layout, r: nat, d: Bytes, words: Bytes, last: Bytes)
    requires r < |y.starts| && y.starts[r] < |y.ats| && 4 * r + 4 <= |words|
    requires DecodeFixed32(words[4 * r..4 * r + 4]) == y.ats[y.starts[r]]
    ensures WordRight(d + words + last, |d|, y, r)
  {
    WordMoved(d, words, last, r);
  }

  lemma LayoutWord(es: seq<Pair>, interval: nat, r: nat, words: Bytes)
    requires interval > 0 && r < |Starts(|es|, interval)| && |Flat(Cells(es, interval))| < TWO32
    requires words == Words(Restarts(Cells(es, interval), interval))
    ensures var y := LayoutOf(es, interval);
            y.starts[r] < |y.ats| && 4 * r + 4 <= |words| && DecodeFixed32(words[4 * r..4 * r + 4]) == y.ats[y.starts[r]]
  {
    StartsGood(|es|, interval, r);
    RestartThere(Cells(es, interval), interval, r);
  }

  lemma BlockParts(cells: seq<Bytes>, interval: nat)
    requires interval > 0
    ensures var b, d, n := BlockBytes(cells, interval), Flat(cells), |Starts(|cells|, interval)|;
            |b| == |d| + 4 * n + 4 && b[..|d|] == d && b[|b| - 4..] == EncodeFixed32(n % TWO32)
  {
  }

  /** Every block that was built is readable. */
  lemma BuiltReadable(es: seq<Pair>, interval: nat)
    requires interval > 0 && |BlockBytes(Cells(es, interval), interval)| < TWO32
    ensures Readable(BlockBytes(Cells(es, interval), interval), |Flat(Cells(es, interval))|, LayoutOf(es, interval))
  {
    var cells := Cells(es, interval);
    var data, d, y := BlockBytes(cells, interval), Flat(cells), LayoutOf(es, interval);
    BlockParts(cells, interval);
    StartsGood(|es|, interval, 0);
    assert cells[..|es|] == cells;
    forall i | 0 <= i < |es| ensures EntryReadable(d, y, i) && HeadRight(d, y, i) {
      LayoutEntry(es, interval, i);
    }
    forall r | 0 <= r < |y.starts| ensures StartReadable(y, r) && WordRight(data, |d|, y, r) {
      LayoutStart(es, interval, r);
      LayoutWord(es, interval, r, Words(Restarts(cells, interval)));
      WordThere(y, r, d, Words(Restarts(cells, interval)), EncodeFixed32(|Restarts(cells, interval)| % TWO32));
    }
  }
}
