/** The iterator over a block (table/block.cc). */
module BlockIter {
  import opened Options
  import opened Coding
  import opened BlockLayout
  import opened Block
  import BlockBuilder

  type Less = (Bytes, Bytes) -> bool

  ghost predicate Transitive(less: Less) {
    forall a, b, c :: less(a, b) && less(b, c) ==> less(a, c)
  }

  predicate KeyBefore(less: Less, es: seq<Pair>, i: nat, j: nat) {
    i < |es| && j < |es| && less(es[i].key, es[j].key)
  }

  ghost predicate Ordered(less: Less, es: seq<Pair>) {
    forall i, j {:trigger KeyBefore(less, es, i, j)} :: 0 <= i < j < |es| ==> KeyBefore(less, es, i, j)
  }

  ghost predicate AllBefore(less: Less, es: seq<Pair>, n: nat, target: Bytes) {
    n <= |es| && forall i :: 0 <= i < n ==> less(es[i].key, target)
  }

  /** `pos` is the first entry that is not before the target. */
  ghost predicate LandsAt(less: Less, es: seq<Pair>, pos: nat, target: Bytes) {
    AllBefore(less, es, pos, target) && (pos < |es| ==> !less(es[pos].key, target))
  }

  lemma BeforeOne(less: Less, es: seq<Pair>, s: nat, target: Bytes)
    requires Transitive(less) && Ordered(less, es) && s < |es| && less(es[s].key, target)
    ensures AllBefore(less, es, s, target)
  {
    forall i | 0 <= i < s ensures less(es[i].key, target) {
      assert KeyBefore(less, es, i, s);
    }
  }

  lemma {:induction false} AtsGrow(data: Bytes, restarts: nat, y: Layout, i: nat, j: nat)
    requires Readable(data, restarts, y) && i < j <= |y.es|
    ensures y.ats[i] < y.ats[j]
    decreases j
  {
    assert EntryReadable(data[..restarts], y, j - 1);
    if i < j - 1 {
      AtsGrow(data, restarts, y, i, j - 1);
    }
  }

  class Iter {
    const less: Less
    const data: Bytes
    const restarts: nat     // offset of the restart array
    const numRestarts: nat
    var current: nat        // offset of the current entry; restarts when not valid
    var restartIndex: nat
    var key: Bytes
    var valueStart: nat
    var valueSize: nat
    ghost const layout: Layout
    ghost var pos: nat      // the current entry; their number when not valid

    ghost predicate Laid() {
      Readable(data, restarts, layout) && numRestarts == |layout.starts|
    }

    ghost predicate ValueIs(v: Bytes)
      reads this
    {
      valueStart + valueSize <= |data| && data[valueStart..valueStart + valueSize] == v
    }

    ghost predicate Valid()
      reads this
    {
      && Laid() && pos <= |layout.es| && current == layout.ats[pos] && (pos < |layout.es| <==> current < restarts)
      && (pos < |layout.es| ==> Loaded())
    }

    /** Key, value and restart index are those of the current entry. */
    ghost predicate Loaded()
      requires Laid() && pos < |layout.es|
      reads this
    {
      && key == layout.es[pos].key
      && ValueIs(layout.es[pos].value)
      && valueStart + valueSize == layout.ats[pos + 1]
      && restartIndex < numRestarts && layout.starts[restartIndex] <= pos
      && (restartIndex + 1 < numRestarts ==> pos <= layout.starts[restartIndex + 1])
    }

    /** Parsing goes on at entry `i`, and what the key holds is what that entry takes over. */
    ghost predicate Primed(i: nat)
      reads this
    {
      && Laid() && i <= |layout.es| && valueStart + valueSize == layout.ats[i]
      && restartIndex < numRestarts && layout.starts[restartIndex] <= i
      && (i < |layout.es| ==> layout.shares[i] <= |key| && key[..layout.shares[i]] == TakenOver(i))
    }

    ghost function TakenOver(i: nat): Bytes
      requires Laid() && i < |layout.es|
    {
      assert EntryReadable(data[..restarts], layout, i);
      layout.es[i].key[..layout.shares[i]]
    }

    constructor (less: Less, data: Bytes, restarts: nat, numRestarts: nat, ghost layout: Layout)
      requires Readable(data, restarts, layout) && numRestarts == |layout.starts|
      ensures Valid() && pos == |layout.es| && this.less == less && this.layout == layout
    {
      this.less, this.data, this.restarts, this.numRestarts, this.layout := less, data, restarts, numRestarts, layout;
      current, restartIndex, key, valueStart, valueSize := restarts, numRestarts, [], 0, 0;
      pos := |layout.es|;
    }

    predicate Positioned()
      reads this
    {
      current < restarts
    }

    method Value() returns (v: Bytes)
      requires Valid() && Positioned()
      ensures v == layout.es[pos].value
    {
      v := data[valueStart..valueStart + valueSize];
    }

    function NextEntryOffset(): nat
      reads this
    {
      valueStart + valueSize
    }

    method GetRestartPoint(index: nat) returns (offset: nat)
      requires Laid() && index < numRestarts
      ensures layout.starts[index] < |layout.ats| && offset == layout.ats[layout.starts[index]]
    {
      assert WordRight(data, restarts, layout, index);
      offset := DecodeFixed32(data[restarts + index * 4..restarts + index * 4 + 4]);
    }

    /** Decodes what starts at an offset below the restart array. */
    method Decode(offset: nat, ghost i: nat) returns (head: Option<EntryHead>)
      requires Laid() && i < |layout.es| && offset == layout.ats[i]
      ensures head == layout.heads[i]
    {
      assert HeadRight(data[..restarts], layout, i);
      assert data[offset..restarts] == data[..restarts][offset..];
      head := DecodeEntry(data[offset..restarts]);
    }

    method SeekToRestartPoint(index: nat)
      requires Laid() && index < numRestarts
      modifies `key, `restartIndex, `valueStart, `valueSize
      ensures Primed(layout.starts[index]) && restartIndex == index
    {
      key := [];
      restartIndex := index;
      var offset := GetRestartPoint(index);
      valueStart, valueSize := offset, 0;
      assert StartReadable(layout, index);
    }

    /** Reads the entry that parsing is at. */
    method Load(ghost i: nat) returns (ok: bool)
      requires Primed(i) && i < |layout.es| && current == layout.ats[i]
      modifies `key, `valueStart, `valueSize
      ensures ok && key == layout.es[i].key && ValueIs(layout.es[i].value) && valueStart + valueSize == layout.ats[i + 1]
    {
      var head := Decode(current, i);
      assert EntryReadable(data[..restarts], layout, i);
      ok := head.Some? && head.value.shared <= |key|;
      if ok {
        var p := restarts - |head.value.rest|;
        var nonShared := head.value.nonShared;
        assert data[..restarts][p..p + nonShared] == data[p..p + nonShared];
        var end := p + nonShared + head.value.size;
        assert data[..restarts][p + nonShared..end] == data[p + nonShared..end];
        key := key[..head.value.shared] + data[p..p + nonShared];
        valueStart, valueSize := p + nonShared, head.value.size;
      }
    }

    /** The restart index catches up with the current entry. */
    method CatchUp(ghost i: nat)
      requires Laid() && i < |layout.es| && current == layout.ats[i]
      requires restartIndex < numRestarts && layout.starts[restartIndex] <= i
      modifies `restartIndex
      ensures restartIndex < numRestarts && layout.starts[restartIndex] <= i
      ensures restartIndex + 1 < numRestarts ==> i <= layout.starts[restartIndex + 1]
    {
      while restartIndex + 1 < numRestarts
        invariant restartIndex < numRestarts && layout.starts[restartIndex] <= i
        decreases numRestarts - restartIndex
      {
        var next := GetRestartPoint(restartIndex + 1);
        assert StartReadable(layout, restartIndex + 1);
        if next >= current {
          if i > layout.starts[restartIndex + 1] {
            AtsGrow(data, restarts, layout, layout.starts[restartIndex + 1], i);
          }
          return;
        }
        if i < layout.starts[restartIndex + 1] {
          AtsGrow(data, restarts, layout, i, layout.starts[restartIndex + 1]);
        }
        restartIndex := restartIndex + 1;
      }
    }

    method ParseNextKey(ghost i: nat) returns (more: bool)
      requires Primed(i)
      modifies this
      ensures Valid() && pos == i && (more <==> i < |layout.es|)
    {
      current := NextEntryOffset();
      pos := i;
      if i < |layout.es| {
        AtsGrow(data, restarts, layout, i, |layout.es|);
      }
      if current >= restarts {
        restartIndex := numRestarts;
        return false;
      }
      more := Load(i);
      if !more {
        assert false;  // the entries of a readable block are never bad
      }
      CatchUp(i);
    }

    lemma PrimedNext()
      requires Valid() && Positioned()
      ensures Primed(pos + 1)
    {
      if pos + 1 < |layout.es| {
        assert EntryReadable(data[..restarts], layout, pos + 1);
      }
    }

    method Next()
      requires Valid() && Positioned()
      modifies this
      ensures Valid() && pos == old(pos) + 1
    {
      PrimedNext();
      var more := ParseNextKey(pos + 1);
    }

    /** Goes back to a restart point before the entry, and from there on to the entry just before it. */
    method Prev()
      requires Valid() && Positioned()
      modifies this
      ensures Valid() && pos == if old(pos) == 0 then |layout.es| else old(pos) - 1
    {
      var original := current;
      ghost var was := pos;
      while true
        invariant restartIndex < numRestarts
        invariant Laid() && pos == was == old(pos) && was < |layout.es| && original == layout.ats[was]
        decreases restartIndex
      {
        var point := GetRestartPoint(restartIndex);
        assert StartReadable(layout, restartIndex);
        if was < layout.starts[restartIndex] {
          AtsGrow(data, restarts, layout, was, layout.starts[restartIndex]);
        }
        if point < original {
          break;
        }
        if layout.starts[restartIndex] < was {
          AtsGrow(data, restarts, layout, layout.starts[restartIndex], was);
        }
        if restartIndex == 0 {
          current, restartIndex := restarts, numRestarts;
          pos := |layout.es|;
          return;
        }
        restartIndex := restartIndex - 1;
      }
      SeekToRestartPoint(restartIndex);
      ghost var i := layout.starts[restartIndex];
      while true
        invariant Primed(i) && i < was && was == old(pos) && was <= |layout.es| && original == layout.ats[was]
        decreases was - i
      {
        var more := ParseNextKey(i);
        if i + 1 < was {
          AtsGrow(data, restarts, layout, i + 1, was);
        }
        if !more || NextEntryOffset() >= original {
          return;
        }
        PrimedNext();
        i := i + 1;
      }
    }

    /** Binary search for the last restart point before the target. */
    method FindRestart(target: Bytes) returns (left: nat)
      requires Valid() && Transitive(less) && Ordered(less, layout.es)
      ensures left < numRestarts && AllBefore(less, layout.es, layout.starts[left], target)
    {
      left := 0;
      var right := numRestarts - 1;
      while left < right
        invariant 0 <= left <= right < numRestarts
        invariant left > 0 ==> layout.starts[left] < |layout.es| && less(layout.es[layout.starts[left]].key, target)
      {
        var mid := (left + right + 1) / 2;
        ghost var s := layout.starts[mid];
        assert StartReadable(layout, mid);
        var offset := GetRestartPoint(mid);
        var head := Decode(offset, s);
        assert EntryReadable(data[..restarts], layout, s);
        if head.None? || head.value.shared != 0 {
          assert false;  // restart points of a readable block are never bad
        }
        var p := restarts - |head.value.rest|;
        var midKey := data[p..p + head.value.nonShared];
        assert midKey == layout.es[s].key by {
          assert data[..restarts][p..p + head.value.nonShared] == midKey;
          assert layout.es[s].key[0..] == layout.es[s].key;
        }
        if less(midKey, target) {
          left := mid;
        } else {
          right := mid - 1;
        }
      }
      assert StartReadable(layout, left);
      if left > 0 {
        BeforeOne(less, layout.es, layout.starts[left], target);
      }
    }

    method Seek(target: Bytes)
      requires Valid() && Transitive(less) && Ordered(less, layout.es)
      modifies this
      ensures Valid() && LandsAt(less, layout.es, pos, target)
    {
      var left := FindRestart(target);
      SeekToRestartPoint(left);
      ghost var i := layout.starts[left];
      while true
        invariant Primed(i) && AllBefore(less, layout.es, i, target)
        decreases |layout.es| - i
      {
        var more := ParseNextKey(i);
        if !more || !less(key, target) {
          return;
        }
        PrimedNext();
        i := i + 1;
      }
    }

    method SeekToFirst()
      requires Valid()
      modifies this
      ensures Valid() && pos == 0
    {
      SeekToRestartPoint(0);
      var more := ParseNextKey(0);
    }

    method SeekToLast()
      requires Valid()
      modifies this
      ensures Valid() && pos == if layout.es == [] then 0 else |layout.es| - 1
    {
      SeekToRestartPoint(numRestarts - 1);
      ghost var i := layout.starts[numRestarts - 1];
      assert StartReadable(layout, numRestarts - 1);
      while true
        invariant Primed(i) && (layout.es == [] ==> i == 0) && (layout.es != [] ==> i < |layout.es|)
        decreases |layout.es| - i
      {
        var more := ParseNextKey(i);
        if more && i + 1 < |layout.es| {
          AtsGrow(data, restarts, layout, i + 1, |layout.es|);
        }
        if !more || NextEntryOffset() >= restarts {
          return;
        }
        PrimedNext();
        i := i + 1;
      }
    }
  }

  /** The contents of a block; size 0 marks contents that cannot be one. */
  class Contents {
    const data: Bytes
    var size: nat
    var restartOffset: nat

    /** The contents are a block of these entries. */
    ghost predicate On(es: seq<Pair>, interval: nat)
      reads this
    {
      IsBlock(data, es, interval) && size == |data| && restartOffset == |Flat(Cells(es, interval))|
    }

    constructor (contents: Bytes)
      ensures data == contents
      ensures forall es, interval: nat :: IsBlock(contents, es, interval) ==> On(es, interval)
    {
      data, size, restartOffset := contents, |contents|, 0;
      new;
      if size < 4 {
        size := 0;
      } else {
        var maxRestarts := (size - 4) / 4;
        if NumRestarts() > maxRestarts {
          size := 0;
        } else {
          restartOffset := size - (1 + NumRestarts()) * 4;
        }
      }
      forall es, interval: nat | IsBlock(contents, es, interval) ensures On(es, interval) {
        CountRead(contents, es, interval);
      }
    }

    function NumRestarts(): nat
      requires 4 <= size == |data|
      reads this
    {
      DecodeFixed32(data[size - 4..])
    }

    method NewIterator(less: Less, ghost es: seq<Pair>, ghost interval: nat) returns (it: Iter)
      requires On(es, interval)
      ensures fresh(it) && it.Valid() && it.less == less && it.layout.es == es && !it.Positioned()
    {
      CountRead(data, es, interval);
      BuiltReadable(es, interval);
      if size < 4 || NumRestarts() == 0 {
        assert false;  // a built block is never too small and has a restart point
      }
      it := new Iter(less, data, restartOffset, NumRestarts(), LayoutOf(es, interval));
    }
  }

  /** The bytes are the block that is built from the entries. */
  ghost predicate IsBlock(data: Bytes, es: seq<Pair>, interval: nat) {
    interval > 0 && data == BlockBytes(Cells(es, interval), interval) && |data| < TWO32
  }

  lemma CountRead(data: Bytes, es: seq<Pair>, interval: nat)
    requires IsBlock(data, es, interval)
    ensures |data| >= 4 && var n := DecodeFixed32(data[|data| - 4..]);
            n == |Starts(|es|, interval)| && n <= (|data| - 4) / 4 && |data| - (1 + n) * 4 == |Flat(Cells(es, interval))|
  {
    BlockParts(Cells(es, interval), interval);
    SmallMod(|Starts(|es|, interval)|);
    DecodeEncodeFixed32(|Starts(|es|, interval)|);
  }

  /** Two readings of the same bytes find the same entries. */
  lemma {:induction false} SameEntry(data: Bytes, restarts: nat, y: Layout, z: Layout, i: nat)
    requires Readable(data, restarts, y) && Readable(data, restarts, z) && i <= |y.es| && i <= |z.es|
    ensures y.ats[i] == z.ats[i]
    ensures i > 0 ==> y.es[i - 1] == z.es[i - 1]
  {
    if i > 0 {
      SameEntry(data, restarts, y, z, i - 1);
      var d := data[..restarts];
      assert EntryReadable(d, y, i - 1) && EntryReadable(d, z, i - 1) && HeadRight(d, y, i - 1) && HeadRight(d, z, i - 1);
      SameParts(d, y.ats[i - 1], y.heads[i - 1], y.shares[i - 1], y.es[i - 1], y.ats[i], z.shares[i - 1], z.es[i - 1], z.ats[i]);
      var n := y.shares[i - 1];
      assert n > 0 ==> y.es[i - 1].key[..n] == z.es[i - 1].key[..n];
      assert y.es[i - 1].key == y.es[i - 1].key[..n] + y.es[i - 1].key[n..];
      assert z.es[i - 1].key == z.es[i - 1].key[..n] + z.es[i - 1].key[n..];
    }
  }

  lemma SameParts(data: Bytes, at: nat, head: Option<EntryHead>, shared: nat, e: Pair, end: nat, shared': nat, e': Pair, end': nat)
    requires EntryPlaced(data, at, head, shared, e, end) && EntryPlaced(data, at, head, shared', e', end')
    ensures shared == shared' && end == end' && e.value == e'.value && e.key[shared..] == e'.key[shared'..]
  {
    assert |data[end - |e.value| - (|e.key| - shared)..]| == |data[end' - |e'.value| - (|e'.key| - shared')..]|;
  }

  lemma SameNumber(data: Bytes, restarts: nat, y: Layout, z: Layout)
    requires Readable(data, restarts, y) && Readable(data, restarts, z) && |y.es| <= |z.es|
    ensures |y.es| == |z.es|
  {
    SameEntry(data, restarts, y, z, |y.es|);
    if |y.es| < |z.es| {
      AtsGrow(data, restarts, z, |y.es|, |z.es|);
    }
  }

  /** The bytes of a block determine its entries. */
  lemma BlockUnique(data: Bytes, es: seq<Pair>, interval: nat, es': seq<Pair>, interval': nat)
    requires IsBlock(data, es, interval) && IsBlock(data, es', interval')
    ensures es == es'
  {
    CountRead(data, es, interval);
    CountRead(data, es', interval');
    BuiltReadable(es, interval);
    BuiltReadable(es', interval');
    LayoutsUnique(data, |Flat(Cells(es, interval))|, LayoutOf(es, interval), LayoutOf(es', interval'));
  }

  lemma LayoutsUnique(data: Bytes, restarts: nat, y: Layout, z: Layout)
    requires Readable(data, restarts, y) && Readable(data, restarts, z)
    ensures y.es == z.es
  {
    if |y.es| <= |z.es| {
      SameNumber(data, restarts, y, z);
    } else {
      SameNumber(data, restarts, z, y);
    }
    forall i | 0 <= i < |y.es| ensures y.es[i] == z.es[i] {
      SameEntry(data, restarts, y, z, i + 1);
    }
  }

  method AddAll(b: BlockBuilder.Builder, es: seq<Pair>)
    requires b.Valid() && !b.finished && b.entries == []
    modifies b
    ensures b.Valid() && !b.finished && b.entries == es
  {
    for i := 0 to |es|
      invariant b.Valid() && !b.finished && b.entries == es[..i]
    {
      b.Add(es[i].key, es[i].value);
    }
    assert es[..|es|] == es;
  }

  method Build(es: seq<Pair>, interval: nat) returns (data: Bytes)
    requires interval >= 1 && |BlockBytes(Cells(es, interval), interval)| < TWO32
    ensures IsBlock(data, es, interval)
  {
    var b := new BlockBuilder.Builder(interval);
    AddAll(b, es);
    data := b.Finish();
  }

  method ReadForward(it: Iter) returns (read: seq<Pair>)
    requires it.Valid()
    modifies it
    ensures it.Valid() && read == it.layout.es
  {
    read := [];
    it.SeekToFirst();
    while it.Positioned()
      invariant it.Valid() && read == it.layout.es[..it.pos]
      decreases |it.layout.es| - it.pos
    {
      var v := it.Value();
      read := read + [Pair(it.key, v)];
      it.Next();
    }
  }

  method ReadBackward(it: Iter) returns (read: seq<Pair>)
    requires it.Valid()
    modifies it
    ensures it.Valid() && read == it.layout.es
  {
    read := [];
    it.SeekToLast();
    while it.Positioned()
      invariant it.Valid() && read == if it.pos < |it.layout.es| then it.layout.es[it.pos + 1..] else it.layout.es
      decreases if it.pos < |it.layout.es| then it.pos + 1 else 0
    {
      var v := it.Value();
      read := [Pair(it.key, v)] + read;
      it.Prev();
    }
  }

  /** Main result: what was added, in order, is what iterating gives, from the front and from the back. */
  method RoundTrip(es: seq<Pair>, interval: nat, less: Less) returns (there: seq<Pair>, back: seq<Pair>)
    requires interval >= 1 && |BlockBytes(Cells(es, interval), interval)| < TWO32
    ensures there == es && back == es
  {
    var data := Build(es, interval);
    var contents := new Contents(data);
    var it := contents.NewIterator(less, es, interval);
    there := ReadForward(it);
    back := ReadBackward(it);
  }
}
