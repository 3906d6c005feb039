/** The format of a block: entries with shared key prefixes, the offsets of the restart points,
    their number (table/block_builder.cc). */
module BlockLayout {
  import opened Coding

  type Bytes = seq<byte>

  datatype Pair = Pair(key: Bytes, value: Bytes)

  /** How far the keys agree, from index `n` on. */
  function CommonFrom(a: Bytes, b: Bytes, n: nat): (r: nat)
    decreases |a| - n
  {
    if n < |a| && n < |b| && a[n] == b[n] then CommonFrom(a, b, n + 1) else n
  }

  /** The length of the longest common prefix. */
  function Common(a: Bytes, b: Bytes): nat {
    CommonFrom(a, b, 0)
  }

  lemma {:induction false} CommonGood(a: Bytes, b: Bytes, n: nat)
    requires n <= |a| && n <= |b| && forall i :: 0 <= i < n ==> a[i] == b[i]
    ensures var r := CommonFrom(a, b, n);
            && n <= r <= |a| && r <= |b| && a[..r] == b[..r]
            && (r < |a| && r < |b| ==> a[r] != b[r])
    decreases |a| - n
  {
    if n < |a| && n < |b| && a[n] == b[n] {
      CommonGood(a, b, n + 1);
    }
  }

  /** `i` modulo the restart interval, counted up. */
  function Phase(i: nat, interval: nat): (r: nat)
    requires interval > 0
    ensures r < interval
  {
    if i == 0 || Phase(i - 1, interval) + 1 == interval then 0 else Phase(i - 1, interval) + 1
  }

  /** How much of its key entry `i` takes from the entry before: nothing at a restart point. */
  function Shared(es: seq<Pair>, interval: nat, i: nat): nat
    requires interval > 0 && i < |es|
  {
    if Phase(i, interval) == 0 then 0 else Common(es[i - 1].key, es[i].key)
  }

  lemma SharedGood(es: seq<Pair>, interval: nat, i: nat)
    requires interval > 0 && i < |es|
    ensures var r := Shared(es, interval, i);
            r <= |es[i].key| && (r > 0 ==> i > 0 && r <= |es[i - 1].key| && es[i - 1].key[..r] == es[i].key[..r])
  {
    if i > 0 {
      CommonGood(es[i - 1].key, es[i].key, 0);
    }
  }

  /** Numbers as 32-bit varints, one after the other. */
  function Varints(ns: seq<nat>): Bytes {
    if ns == [] then [] else VarintBytes(ns[0] % TWO32) + Varints(ns[1..])
  }

  function Header(shared: nat, nonShared: nat, size: nat): Bytes {
    Varints([shared, nonShared, size])
  }

  function EntryBytes(shared: nat, e: Pair): Bytes {
    if shared > |e.key| then [] else Header(shared, |e.key| - shared, |e.value|) + (e.key[shared..] + e.value)
  }

  /** The entries, encoded one by one. */
  function Cells(es: seq<Pair>, interval: nat): (r: seq<Bytes>)
    requires interval > 0
    ensures |r| == |es|
  {
    seq(|es|, i requires 0 <= i < |es| => EntryBytes(Shared(es, interval, i), es[i]))
  }

  function Flat(cells: seq<Bytes>): Bytes {
    if cells == [] then [] else Flat(cells[..|cells| - 1]) + cells[|cells| - 1]
  }

  /** Where cell `i` starts. */
  function Offset(cells: seq<Bytes>, i: nat): nat {
    if i <= |cells| then |Flat(cells[..i])| else 0
  }

  /** The restart points among the first `n` entries; the first one is always there. */
  function Starts(n: nat, interval: nat): (r: seq<nat>)
    requires interval > 0
    ensures r != []
  {
    if n == 0 then [0]
    else if n > 1 && Phase(n - 1, interval) == 0 then Starts(n - 1, interval) + [n - 1]
    else Starts(n - 1, interval)
  }

  function Offsets(cells: seq<Bytes>, starts: seq<nat>): (r: seq<nat>)
    ensures |r| == |starts|
  {
    if starts == [] then []
    else Offsets(cells, starts[..|starts| - 1]) + [Offset(cells, starts[|starts| - 1])]
  }

  function Words(ws: seq<nat>): (r: Bytes)
    ensures |r| == 4 * |ws|
  {
    if ws == [] then [] else Words(ws[..|ws| - 1]) + EncodeFixed32(ws[|ws| - 1] % TWO32)
  }

  function Restarts(cells: seq<Bytes>, interval: nat): (r: seq<nat>)
    requires interval > 0
    ensures r != []
  {
    Offsets(cells, Starts(|cells|, interval))
  }

  function BlockBytes(cells: seq<Bytes>, interval: nat): Bytes
    requires interval > 0
  {
    Flat(cells) + Words(Restarts(cells, interval)) + EncodeFixed32(|Restarts(cells, interval)| % TWO32)
  }

  // ----- facts about the layout -----

  lemma {:induction false} StartsGood(n: nat, interval: nat, i: nat)
    requires interval > 0 && i < |Starts(n, interval)|
    ensures var s := Starts(n, interval)[i];
            s <= n && (n > 0 ==> s < n) && Phase(s, interval) == 0 && (i == 0 ==> s == 0)
  {
    if n > 0 && i < |Starts(n - 1, interval)| {
      StartsGood(n - 1, interval, i);
    }
  }

  lemma {:induction false} OffsetsAt(cells: seq<Bytes>, starts: seq<nat>, i: nat)
    requires i < |starts|
    ensures Offsets(cells, starts)[i] == Offset(cells, starts[i])
  {
    if i < |starts| - 1 {
      OffsetsAt(cells, starts[..|starts| - 1], i);
    }
  }

  lemma CellAt(es: seq<Pair>, interval: nat, i: nat)
    requires interval > 0 && i < |es|
    ensures Cells(es, interval)[i] == EntryBytes(Shared(es, interval, i), es[i])
  {
  }

  lemma FlatStep(cells: seq<Bytes>, i: nat)
    requires i < |cells|
    ensures Flat(cells[..i + 1]) == Flat(cells[..i]) + cells[i] && Offset(cells, i + 1) == Offset(cells, i) + |cells[i]|
  {
    assert cells[..i + 1][..i] == cells[..i];
  }

  lemma {:induction false} FlatGrows(cells: seq<Bytes>, i: nat, j: nat)
    requires i <= j <= |cells|
    ensures Flat(cells[..i]) <= Flat(cells[..j]) && Offset(cells, i) <= Offset(cells, j)
    ensures i < j && cells[i] != [] ==> Offset(cells, i) < Offset(cells, j)
    decreases j
  {
    if i < j {
      FlatStep(cells, j - 1);
      FlatGrows(cells, i, j - 1);
    }
  }

  lemma Behind(a: Bytes, b: Bytes, all: Bytes)
    requires a + b <= all
    ensures b <= all[|a|..]
  {
    assert b == (a + b)[|a|..];
  }

  /** Where cell `i` lies. */
  lemma CellLies(cells: seq<Bytes>, i: nat)
    requires i < |cells|
    ensures Offset(cells, i) <= |Flat(cells)| && cells[i] <= Flat(cells)[Offset(cells, i)..]
    ensures Offset(cells, i + 1) == Offset(cells, i) + |cells[i]|
  {
    FlatStep(cells, i);
    FlatGrows(cells, i + 1, |cells|);
    assert cells[..|cells|] == cells;
    Behind(Flat(cells[..i]), cells[i], Flat(cells));
  }

  lemma {:induction false} WordAt(ws: seq<nat>, i: nat)
    requires i < |ws|
    ensures Words(ws)[4 * i..4 * i + 4] == EncodeFixed32(ws[i] % TWO32)
  {
    var init := ws[..|ws| - 1];
    if i < |ws| - 1 {
      WordAt(init, i);
      assert Words(ws)[4 * i..4 * i + 4] == Words(init)[4 * i..4 * i + 4];
    } else {
      assert Words(ws)[4 * i..4 * i + 4] == EncodeFixed32(ws[i] % TWO32);
    }
  }

  // ----- one entry more -----

  lemma CellAdded(es: seq<Pair>, e: Pair, interval: nat, shared: nat)
    requires interval > 0
    requires shared == if Phase(|es|, interval) == 0 then 0 else Common(es[|es| - 1].key, e.key)
    ensures Cells(es + [e], interval) == Cells(es, interval) + [EntryBytes(shared, e)]
  {
    forall i | 0 <= i <= |es| ensures Cells(es + [e], interval)[i] == (Cells(es, interval) + [EntryBytes(shared, e)])[i] {
      CellAt(es + [e], interval, i);
      if i < |es| {
        CellAt(es, interval, i);
        SharedKept(es, e, interval, i);
      }
    }
  }

  lemma SharedKept(es: seq<Pair>, e: Pair, interval: nat, i: nat)
    requires interval > 0 && i < |es|
    ensures Shared(es + [e], interval, i) == Shared(es, interval, i)
  {
  }

  lemma FlatAdded(cells: seq<Bytes>, c: Bytes)
    ensures Flat(cells + [c]) == Flat(cells) + c
  {
    assert (cells + [c])[..|cells|] == cells;
  }

  lemma {:induction false} OffsetsKept(cells: seq<Bytes>, c: Bytes, starts: seq<nat>)
    requires forall i :: 0 <= i < |starts| ==> starts[i] <= |cells|
    ensures Offsets(cells + [c], starts) == Offsets(cells, starts)
  {
    if starts != [] {
      var n := |starts| - 1;
      OffsetsKept(cells, c, starts[..n]);
      assert (cells + [c])[..starts[n]] == cells[..starts[n]];
    }
  }

  lemma OffsetsPlus(cells: seq<Bytes>, starts: seq<nat>, s: nat)
    ensures Offsets(cells, starts + [s]) == Offsets(cells, starts) + [Offset(cells, s)]
  {
    assert (starts + [s])[..|starts|] == starts;
  }

  lemma {:induction false} StartsBelow(n: nat, interval: nat)
    requires interval > 0
    ensures forall i :: 0 <= i < |Starts(n, interval)| ==> Starts(n, interval)[i] <= n
  {
    forall i | 0 <= i < |Starts(n, interval)| ensures Starts(n, interval)[i] <= n {
      StartsGood(n, interval, i);
    }
  }

  lemma RestartAdded(cells: seq<Bytes>, c: Bytes, interval: nat)
    requires interval > 0
    ensures Restarts(cells + [c], interval) ==
            if cells != [] && Phase(|cells|, interval) == 0 then Restarts(cells, interval) + [|Flat(cells)|] else Restarts(cells, interval)
  {
    var n := |cells|;
    var starts := Starts(n, interval);
    StartsBelow(n, interval);
    OffsetsKept(cells, c, starts);
    OffsetsPlus(cells + [c], starts, n);
    assert (cells + [c])[..n] == cells;
  }
}
