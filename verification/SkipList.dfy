/** The memtable's skip list (db/skiplist.h): one writer links a node level by level while readers
    follow the links without a lock. Nodes live in an arena and are named by their place in it; node 0
    is the head. Each step below is one store or one load of a pointer. */
module SkipList {
  import opened Options

  const MAX_HEIGHT := 12

  /** A pointer of a node: not yet set, null, or to a node. */
  datatype Link = Unset | Null | To(n: nat)

  datatype Node = Node(key: int, next: seq<Link>)

  datatype Memory = Memory(nodes: seq<Node>, maxHeight: nat)

  /** The nodes of one level, from the head on, as the links have them. */
  type Level = seq<nat>

  // ----- what the links of a level look like -----

  ghost predicate Chain(nodes: seq<Node>, l: nat, c: Level) {
    && |c| > 0 && c[0] == 0
    && (forall i :: 0 <= i < |c| ==> c[i] < |nodes| && l < |nodes[c[i]].next|)
    && (forall i, j {:trigger c[i], c[j]} :: 0 <= i && j == i + 1 && j < |c| ==> nodes[c[i]].next[l] == To(c[j]))
    && nodes[c[|c| - 1]].next[l] == Null
    && (forall i, j {:trigger c[i], c[j]} :: 0 < i < j < |c| ==> nodes[c[i]].key < nodes[c[j]].key)
    && (forall i :: 0 < i < |c| ==> c[i] != 0)
  }

  ghost predicate Good(m: Memory, levels: seq<Level>) {
    && 1 <= m.maxHeight <= MAX_HEIGHT == |levels|
    && (forall l :: 0 <= l < MAX_HEIGHT ==> Chain(m.nodes, l, levels[l]))
    && (forall l, k, n {:trigger levels[l], n in levels[k]} :: 0 <= l && k == l + 1 && k < MAX_HEIGHT && n in levels[k] ==> n in levels[l])
    && (forall l :: m.maxHeight <= l < MAX_HEIGHT ==> levels[l] == [0])
  }

  /** The keys of a level; the head has none. */
  ghost function Keys(nodes: seq<Node>, c: Level): set<int>
  {
    set i | 0 < i < |c| && c[i] < |nodes| :: nodes[c[i]].key
  }

  /** The node comes before the place of the key. */
  ghost predicate IsBefore(nodes: seq<Node>, n: nat, key: int)
    requires n < |nodes|
  {
    n == 0 || nodes[n].key < key
  }

  lemma ChainIndex(nodes: seq<Node>, l: nat, c: Level, n: nat) returns (i: nat)
    requires Chain(nodes, l, c) && n in c
    ensures i < |c| && c[i] == n
    ensures nodes[n].next[l] == if i + 1 < |c| then To(c[i + 1]) else Null
    ensures n == 0 <==> i == 0
  {
    i :| 0 <= i < |c| && c[i] == n;
    if i + 1 < |c| {
      var j := i + 1;
      assert nodes[c[i]].next[l] == To(c[j]);
    }
  }

  /** At a node before the key whose link leads past it, the key's place in the level is known. */
  lemma PlaceDivides(nodes: seq<Node>, l: nat, c: Level, i: nat, key: int)
    requires Chain(nodes, l, c) && i < |c| && IsBefore(nodes, c[i], key)
    requires i + 1 < |c| ==> nodes[c[i + 1]].key >= key
    ensures forall j :: 0 <= j <= i ==> IsBefore(nodes, c[j], key)
    ensures forall j :: i < j < |c| ==> nodes[c[j]].key >= key
  {
    forall j | 0 <= j <= i ensures IsBefore(nodes, c[j], key) {
      if 0 < j < i {
        assert nodes[c[j]].key < nodes[c[i]].key;
      }
    }
    forall j | i < j < |c| ensures nodes[c[j]].key >= key {
      if i + 1 < j {
        assert nodes[c[i + 1]].key < nodes[c[j]].key;
      }
    }
  }

  // ----- searching, one load a step -----

  /** What a search stands on: a node before the target, on a level. */
  datatype Search = Search(x: nat, level: nat)

  datatype Outcome = Moved(at: Search) | Ended(x: nat, next: Link)

  /** The three searches differ in when they go on along a level. */
  datatype Query = AtLeast(target: int) | Below(target: int) | Last

  ghost predicate GoesOn(q: Query, nodes: seq<Node>, link: Link) {
    link.To? && link.n < |nodes| && (q.Last? || nodes[link.n].key < q.target)
  }

  ghost predicate Passed(q: Query, nodes: seq<Node>, n: nat)
    requires n < |nodes|
  {
    q.Last? || IsBefore(nodes, n, q.target)
  }

  /** A search is on a node linked into its level, before the target. */
  ghost predicate SearchGood(m: Memory, levels: seq<Level>, q: Query, at: Search) {
    at.level < MAX_HEIGHT == |levels| && at.x in levels[at.level] && at.x < |m.nodes| && Passed(q, m.nodes, at.x)
  }

  function Advance(link: Link, goesOn: bool, at: Search): Outcome {
    if goesOn && link.To? then Moved(at.(x := link.n))
    else if at.level == 0 then Ended(at.x, link)
    else Moved(at.(level := at.level - 1))
  }

  /** The least of the keys from the target on. */
  ghost predicate LeastFrom(keys: set<int>, target: int, r: Option<int>) {
    match r
    case None => forall k :: k in keys ==> k < target
    case Some(a) => a in keys && a >= target && forall k :: k in keys && k >= target ==> a <= k
  }

  /** The greatest of the keys below the bound, or of all of them. */
  ghost predicate GreatestBelow(keys: set<int>, bound: Option<int>, r: Option<int>) {
    match r
    case None => forall k :: k in keys ==> bound.Some? && k >= bound.value
    case Some(a) =>
      && a in keys && (bound.Some? ==> a < bound.value)
      && forall k :: k in keys && (bound.Some? ==> k < bound.value) ==> k <= a
  }

  function KeyOf(nodes: seq<Node>, n: nat): Option<int> {
    if 0 < n < |nodes| then Some(nodes[n].key) else None
  }

  function LinkKey(nodes: seq<Node>, link: Link): Option<int> {
    if link.To? then KeyOf(nodes, link.n) else None
  }

  /** What a search returns: the link it ended at for the first kind, the node for the others. */
  ghost predicate Answers(nodes: seq<Node>, keys: set<int>, q: Query, x: nat, next: Link) {
    && next != Unset
    && match q
       case AtLeast(t) => LeastFrom(keys, t, LinkKey(nodes, next)) && GreatestBelow(keys, Some(t), KeyOf(nodes, x))
       case Below(t) => GreatestBelow(keys, Some(t), KeyOf(nodes, x))
       case Last => GreatestBelow(keys, None, KeyOf(nodes, x))
  }

  lemma SearchStep(m: Memory, levels: seq<Level>, q: Query, at: Search)
    requires Good(m, levels) && SearchGood(m, levels, q, at)
    ensures at.level < |m.nodes[at.x].next| && m.nodes[at.x].next[at.level] != Unset
    ensures var link := m.nodes[at.x].next[at.level];
            match Advance(link, GoesOn(q, m.nodes, link), at)
            case Moved(to) => SearchGood(m, levels, q, to)
            case Ended(x, next) => Answers(m.nodes, Keys(m.nodes, levels[0]), q, x, next) && LinkInside(m.nodes, x, next)
  {
    var c := levels[at.level];
    assert Chain(m.nodes, at.level, c);
    var i := ChainIndex(m.nodes, at.level, c, at.x);
    var link := m.nodes[at.x].next[at.level];
    if GoesOn(q, m.nodes, link) {
      assert c[i + 1] in c;
    } else if at.level == 0 {
      EndAnswers(m, c, q, i);
    } else {
      var l := at.level - 1;
      assert at.x in levels[l];
    }
  }

  lemma EndAnswers(m: Memory, c: Level, q: Query, i: nat)
    requires Chain(m.nodes, 0, c) && i < |c| && Passed(q, m.nodes, c[i])
    requires !GoesOn(q, m.nodes, m.nodes[c[i]].next[0])
    ensures Answers(m.nodes, Keys(m.nodes, c), q, c[i], m.nodes[c[i]].next[0])
  {
    var j := i + 1;
    assert j < |c| ==> m.nodes[c[i]].next[0] == To(c[j]);
    if q.Last? {
      forall k | 0 < k < i ensures m.nodes[c[k]].key < m.nodes[c[i]].key {}
    } else {
      PlaceDivides(m.nodes, 0, c, i, q.target);
    }
    assert i > 0 ==> m.nodes[c[i]].key in Keys(m.nodes, c);
    assert j < |c| ==> m.nodes[c[j]].key in Keys(m.nodes, c);
  }

  // ----- stores -----

  function SetNext(m: Memory, n: nat, l: nat, link: Link): (r: Memory)
    requires n < |m.nodes| && l < |m.nodes[n].next|
  {
    m.(nodes := m.nodes[n := m.nodes[n].(next := m.nodes[n].next[l := link])])
  }

  function NewNode(m: Memory, key: int, height: nat): Memory {
    m.(nodes := m.nodes + [Node(key, seq(height, i => Unset))])
  }

  function RaiseTo(m: Memory, height: nat): Memory {
    if height > m.maxHeight then m.(maxHeight := height) else m
  }

  function IndexOf(c: Level, n: nat): (i: nat)
    requires n in c
    ensures i < |c| && c[i] == n
  {
    if c[0] == n then 0 else 1 + IndexOf(c[1..], n)
  }

  /** The level with `x` linked in after `p`. */
  function InsertAfter(c: Level, p: nat, x: nat): Level
    requires p in c
  {
    var i := IndexOf(c, p);
    c[..i + 1] + [x] + c[i + 1..]
  }

  /** Nodes only come, and neither their keys nor their heights change. */
  ghost predicate Grown(before: seq<Node>, after: seq<Node>) {
    && |before| <= |after|
    && forall n :: 0 <= n < |before| ==> after[n].key == before[n].key && |after[n].next| == |before[n].next|
  }

  lemma ChainFrame(before: seq<Node>, after: seq<Node>, l: nat, c: Level)
    requires Chain(before, l, c) && Grown(before, after)
    requires forall n {:trigger n in c} :: n in c ==> after[n].next[l] == before[n].next[l]
    ensures Chain(after, l, c) && Keys(after, c) == Keys(before, c)
  {
    forall i | 0 <= i < |c| ensures after[c[i]].next[l] == before[c[i]].next[l] {
      assert c[i] in c;
    }
  }

  /** Where a node for `key` goes on level `l`: behind `p`, and before what `p` leads to. */
  ghost predicate PlaceAfter(nodes: seq<Node>, l: nat, c: Level, p: nat, key: int) {
    && p in c && p < |nodes| && l < |nodes[p].next| && IsBefore(nodes, p, key)
    && var link := nodes[p].next[l];
       link == Null || (link.To? && link.n < |nodes| && nodes[link.n].key > key)
  }

  lemma InsertedAt(c: Level, p: nat, x: nat, k: nat)
    requires p in c && k <= |c|
    ensures |InsertAfter(c, p, x)| == |c| + 1
    ensures InsertAfter(c, p, x)[k] == if k <= IndexOf(c, p) then c[k] else if k == IndexOf(c, p) + 1 then x else c[k - 1]
  {
  }

  /** A node may be linked in behind `p`. */
  ghost predicate MayLink(m: Memory, l: nat, c: Level, p: nat, x: nat) {
    && Chain(m.nodes, l, c) && x < |m.nodes| && x != 0 && l < |m.nodes[x].next| && x !in c
    && PlaceAfter(m.nodes, l, c, p, m.nodes[x].key)
    && m.nodes[x].next[l] == m.nodes[p].next[l]
  }

  lemma LinksInserted(m: Memory, l: nat, c: Level, p: nat, x: nat, a: nat)
    requires MayLink(m, l, c, p, x) && a <= |c|
    ensures var nodes, d := SetNext(m, p, l, To(x)).nodes, InsertAfter(c, p, x);
            |d| == |c| + 1 && d[a] < |nodes| && l < |nodes[d[a]].next|
            && nodes[d[a]].next[l] == (if a < |c| then To(d[a + 1]) else Null) && (a > 0 ==> d[a] != 0)
  {
    var i := IndexOf(c, p);
    var d := InsertAfter(c, p, x);
    InsertedAt(c, p, x, a);
    if a < |c| {
      InsertedAt(c, p, x, a + 1);
    }
    OthersKeep(m, l, c, p, x);
    var at := if a <= i then a else a - 1;
    var k := at + 1;
    if k < |c| {
      assert m.nodes[c[at]].next[l] == To(c[k]);
    }
    if a < i {
      Distinct(m.nodes, l, c, a, i);
    } else if a > i + 1 {
      Distinct(m.nodes, l, c, i, at);
    }
  }

  lemma Distinct(nodes: seq<Node>, l: nat, c: Level, i: nat, j: nat)
    requires Chain(nodes, l, c) && i < j < |c|
    ensures c[i] != c[j]
  {
    if i > 0 {
      assert nodes[c[i]].key < nodes[c[j]].key;
    }
  }

  lemma SortInserted(m: Memory, l: nat, c: Level, p: nat, x: nat, a: nat, b: nat)
    requires MayLink(m, l, c, p, x) && 0 < a < b <= |c|
    ensures var nodes, d := SetNext(m, p, l, To(x)).nodes, InsertAfter(c, p, x);
            |d| == |c| + 1 && d[a] < |nodes| && d[b] < |nodes| && nodes[d[a]].key < nodes[d[b]].key
  {
    var i := IndexOf(c, p);
    InsertedAt(c, p, x, a);
    InsertedAt(c, p, x, b);
    var j := i + 1;
    assert j < |c| ==> m.nodes[c[i]].next[l] == To(c[j]);
    PlaceDivides(m.nodes, l, c, i, m.nodes[x].key);
    var a', b' := if a <= i then a else a - 1, if b <= i then b else b - 1;
    if 0 < a' < b' {
      assert m.nodes[c[a']].key < m.nodes[c[b']].key;
    }
    if b > i + 1 && j < b' {
      assert m.nodes[c[j]].key < m.nodes[c[b']].key;
    }
  }

  /** The store that publishes `x` on a level keeps the level a sorted chain. */
  lemma LinkKeepsChain(m: Memory, l: nat, c: Level, p: nat, x: nat)
    requires MayLink(m, l, c, p, x)
    ensures var nodes := SetNext(m, p, l, To(x)).nodes;
            Chain(nodes, l, InsertAfter(c, p, x)) && Keys(nodes, InsertAfter(c, p, x)) == Keys(m.nodes, c) + {m.nodes[x].key}
  {
    var nodes, d := SetNext(m, p, l, To(x)).nodes, InsertAfter(c, p, x);
    InsertedAt(c, p, x, 0);
    forall a | 0 <= a < |d|
      ensures d[a] < |nodes| && l < |nodes[d[a]].next|
      ensures nodes[d[a]].next[l] == (if a < |c| then To(d[a + 1]) else Null) && (a > 0 ==> d[a] != 0)
    {
      LinksInserted(m, l, c, p, x, a);
    }
    forall a, b {:trigger d[a], d[b]} | 0 < a < b < |d| ensures nodes[d[a]].key < nodes[d[b]].key {
      SortInserted(m, l, c, p, x, a, b);
    }
    KeysInserted(m, l, c, p, x);
  }

  lemma OthersKeep(m: Memory, l: nat, c: Level, p: nat, x: nat)
    requires Chain(m.nodes, l, c) && x < |m.nodes| && x !in c && p in c
    ensures var nodes := SetNext(m, p, l, To(x)).nodes;
            nodes[x] == m.nodes[x] && Grown(m.nodes, nodes) &&
            forall k :: 0 <= k < |c| && c[k] != p ==> nodes[c[k]] == m.nodes[c[k]]
  {
  }

  lemma KeysInserted(m: Memory, l: nat, c: Level, p: nat, x: nat)
    requires Chain(m.nodes, l, c) && x < |m.nodes| && x != 0 && x !in c && p in c
    ensures Keys(SetNext(m, p, l, To(x)).nodes, InsertAfter(c, p, x)) == Keys(m.nodes, c) + {m.nodes[x].key}
  {
    var nodes := SetNext(m, p, l, To(x)).nodes;
    KeysRelinked(m.nodes, nodes, InsertAfter(c, p, x));
    KeysWith(m.nodes, c, IndexOf(c, p), x);
  }

  lemma KeysRelinked(nodes: seq<Node>, nodes': seq<Node>, c: Level)
    requires |nodes'| == |nodes| && forall i :: 0 <= i < |nodes| ==> nodes'[i].key == nodes[i].key
    ensures Keys(nodes', c) == Keys(nodes, c)
  {
  }

  lemma KeysWith(nodes: seq<Node>, c: Level, i: nat, x: nat)
    requires i < |c| && x < |nodes|
    ensures Keys(nodes, c[..i + 1] + [x] + c[i + 1..]) == Keys(nodes, c) + {nodes[x].key}
  {
    var d := c[..i + 1] + [x] + c[i + 1..];
    assert d[i + 1] == x;
    forall k | 0 < k < |d| && d[k] < |nodes| ensures nodes[d[k]].key in Keys(nodes, c) + {nodes[x].key} {
      if k <= i {
        assert d[k] == c[k];
      } else if k > i + 1 {
        assert d[k] == c[k - 1];
      }
    }
    forall k | 0 < k < |c| && c[k] < |nodes| ensures nodes[c[k]].key in Keys(nodes, d) {
      var k' := if k <= i then k else k + 1;
      assert d[k'] == c[k];
    }
  }

  // ----- the writer and the readers, one load or store a step -----

  /** Insert has searched (`Found`), has its node (`Linking`, at level `i`, the new node's own link set or
      not), or is not running. `prev` is where the node goes, level by level. */
  datatype Writer =
    | Idle
    | Placed(key: int, height: nat, prev: seq<nat>)
    | Linking(x: nat, prev: seq<nat>, i: nat, pointed: bool)

  /** A search under way, or what it returned; `since` and `asOf` are the keys published when it began
      and when it made its last load. */
  datatype Reader =
    | Searching(q: Query, at: Search, since: set<int>)
    | Returned(q: Query, x: nat, next: Link, since: set<int>, asOf: set<int>)

  /** Memory, the processes, and two variables that only observe: the levels as linked so far, and the
      keys whose link on level 0 is stored. */
  datatype State = State(mem: Memory, levels: seq<Level>, published: set<int>, writer: Writer, readers: map<nat, Reader>)

  datatype Step =
    | BeginInsert(key: int, height: nat, prev: seq<nat>)
    | Allocate
    | Point
    | LinkIn
    | BeginSearch(r: nat, q: Query)
    | Look(r: nat)

  function Nulls(n: nat): (r: seq<Link>)
    ensures |r| == n && forall i :: 0 <= i < n ==> r[i] == Null
  {
    if n == 0 then [] else Nulls(n - 1) + [Null]
  }

  function HeadsOnly(n: nat): (r: seq<Level>)
    ensures |r| == n && forall i :: 0 <= i < n ==> r[i] == [0]
  {
    if n == 0 then [] else HeadsOnly(n - 1) + [[0]]
  }

  function Initial(): State {
    State(Memory([Node(0, Nulls(MAX_HEIGHT))], 1), HeadsOnly(MAX_HEIGHT), {}, Idle, map[])
  }

  /** Where FindGreaterOrEqual says the node goes, and the head on levels not in use. */
  ghost predicate Places(m: Memory, levels: seq<Level>, key: int, prev: seq<nat>, from: nat, height: nat) {
    && from <= height <= MAX_HEIGHT == |levels| == |prev|
    && forall l :: from <= l < height ==> PlaceAfter(m.nodes, l, levels[l], prev[l], key)
  }

  ghost predicate Enabled(s: State, step: Step) {
    match step
    case BeginInsert(key, height, prev) =>
      && s.writer.Idle? && key !in s.published && 1 <= height <= MAX_HEIGHT
      && Places(s.mem, s.levels, key, prev, 0, height)
    case Allocate => s.writer.Placed?
    case Point => s.writer.Linking? && !s.writer.pointed
    case LinkIn => s.writer.Linking? && s.writer.pointed
    case BeginSearch(r, q) => r !in s.readers
    case Look(r) => r in s.readers && s.readers[r].Searching?
  }

  /** Where the memory is not as the invariant has it, the load or store would be outside a node. */
  ghost predicate InBounds(s: State) {
    && s.mem.maxHeight > 0
    && (s.writer.Linking? ==>
          var w := s.writer;
          w.i < |w.prev| && w.i < |s.levels| && w.x < |s.mem.nodes| && w.i < |s.mem.nodes[w.x].next|
          && w.prev[w.i] < |s.mem.nodes| && w.i < |s.mem.nodes[w.prev[w.i]].next| && w.prev[w.i] in s.levels[w.i])
    && forall r :: r in s.readers && s.readers[r].Searching? ==>
         var at := s.readers[r].at;
         at.x < |s.mem.nodes| && at.level < |s.mem.nodes[at.x].next| && s.mem.nodes[at.x].next[at.level] != Unset
  }

  ghost function LookResult(s: State, rd: Reader): Reader
    requires rd.Searching? && rd.at.x < |s.mem.nodes| && rd.at.level < |s.mem.nodes[rd.at.x].next|
  {
    var link := s.mem.nodes[rd.at.x].next[rd.at.level];
    match Advance(link, GoesOn(rd.q, s.mem.nodes, link), rd.at)
    case Moved(to) => rd.(at := to)
    case Ended(x, next) => Returned(rd.q, x, next, rd.since, s.published)
  }

  ghost function Apply(s: State, step: Step): State
    requires Enabled(s, step) && InBounds(s)
  {
    match step
    case BeginInsert(key, height, prev) => s.(writer := Placed(key, height, prev), mem := RaiseTo(s.mem, height))
    case Allocate =>
      var w := s.writer;
      s.(mem := NewNode(s.mem, w.key, w.height), writer := Linking(|s.mem.nodes|, w.prev, 0, false))
    case Point =>
      var w := s.writer;
      s.(mem := SetNext(s.mem, w.x, w.i, s.mem.nodes[w.prev[w.i]].next[w.i]), writer := w.(pointed := true))
    case LinkIn =>
      var w := s.writer;
      s.(mem := SetNext(s.mem, w.prev[w.i], w.i, To(w.x)),
         levels := s.levels[w.i := InsertAfter(s.levels[w.i], w.prev[w.i], w.x)],
         published := if w.i == 0 then s.published + {s.mem.nodes[w.x].key} else s.published,
         writer := if w.i + 1 == |s.mem.nodes[w.x].next| then Idle else w.(i := w.i + 1, pointed := false))
    case BeginSearch(r, q) => s.(readers := s.readers[r := Searching(q, Search(0, s.mem.maxHeight - 1), s.published)])
    case Look(r) => s.(readers := s.readers[r := LookResult(s, s.readers[r])])
  }

  ghost predicate WriterGood(s: State) {
    match s.writer
    case Idle => true
    case Placed(key, height, prev) =>
      1 <= height <= s.mem.maxHeight && key !in s.published && Places(s.mem, s.levels, key, prev, 0, height)
    case Linking(x, prev, i, pointed) =>
      && 0 < x < |s.mem.nodes| && i < |s.mem.nodes[x].next| <= s.mem.maxHeight
      && Places(s.mem, s.levels, s.mem.nodes[x].key, prev, i, |s.mem.nodes[x].next|)
      && (forall l :: 0 <= l < MAX_HEIGHT ==> (x in s.levels[l] <==> l < i))
      && (i == 0 ==> s.mem.nodes[x].key !in s.published)
      && (pointed ==> s.mem.nodes[x].next[i] == s.mem.nodes[prev[i]].next[i])
  }

  ghost predicate ReaderGood(s: State, rd: Reader) {
    match rd
    case Searching(q, at, since) => SearchGood(s.mem, s.levels, q, at) && since <= s.published
    case Returned(q, x, next, since, asOf) => Answers(s.mem.nodes, asOf, q, x, next) && LinkInside(s.mem.nodes, x, next) && since <= asOf <= s.published
  }

  predicate LinkInside(nodes: seq<Node>, x: nat, next: Link) {
    x < |nodes| && (next.To? ==> next.n < |nodes|)
  }

  ghost predicate Inv(s: State) {
    && Good(s.mem, s.levels)
    && Keys(s.mem.nodes, s.levels[0]) == s.published
    && WriterGood(s)
    && forall r :: r in s.readers ==> ReaderGood(s, s.readers[r])
  }

  lemma InvInBounds(s: State)
    requires Inv(s)
    ensures InBounds(s)
  {
    forall r | r in s.readers && s.readers[r].Searching?
      ensures var at := s.readers[r].at;
              at.x < |s.mem.nodes| && at.level < |s.mem.nodes[at.x].next| && s.mem.nodes[at.x].next[at.level] != Unset
    {
      var rd := s.readers[r];
      assert ReaderGood(s, rd);
      SearchStep(s.mem, s.levels, rd.q, rd.at);
    }
  }

  /** No level loses a node. */
  ghost predicate LevelsGrown(before: seq<Level>, after: seq<Level>) {
    |before| == |after| && forall l, n {:trigger n in before[l]} :: 0 <= l < |before| && n in before[l] ==> n in after[l]
  }

  lemma ReaderKept(s: State, t: State, rd: Reader)
    requires ReaderGood(s, rd) && Grown(s.mem.nodes, t.mem.nodes) && LevelsGrown(s.levels, t.levels) && s.published <= t.published
    ensures ReaderGood(t, rd)
  {
  }

  lemma ReadersKept(s: State, t: State)
    requires Inv(s) && t.readers == s.readers
    requires Grown(s.mem.nodes, t.mem.nodes) && LevelsGrown(s.levels, t.levels) && s.published <= t.published
    ensures forall r :: r in t.readers ==> ReaderGood(t, t.readers[r])
  {
    forall r | r in t.readers ensures ReaderGood(t, t.readers[r]) {
      assert ReaderGood(s, s.readers[r]);
      ReaderKept(s, t, s.readers[r]);
    }
  }

  /** A store that changes no link of a linked node on its level. */
  lemma GoodFrame(m: Memory, m': Memory, levels: seq<Level>)
    requires Good(m, levels) && Grown(m.nodes, m'.nodes) && m.maxHeight <= m'.maxHeight <= MAX_HEIGHT
    requires forall l, n {:trigger n in levels[l]} :: 0 <= l < MAX_HEIGHT && n in levels[l] ==> m'.nodes[n].next[l] == m.nodes[n].next[l]
    ensures Good(m', levels) && Keys(m'.nodes, levels[0]) == Keys(m.nodes, levels[0])
  {
    forall l | 0 <= l < MAX_HEIGHT ensures Chain(m'.nodes, l, levels[l]) {
      assert Chain(m.nodes, l, levels[l]);
      ChainFrame(m.nodes, m'.nodes, l, levels[l]);
    }
    ChainFrame(m.nodes, m'.nodes, 0, levels[0]);
  }

  lemma BeginInsertKeeps(s: State, key: int, height: nat, prev: seq<nat>)
    requires Inv(s) && Enabled(s, BeginInsert(key, height, prev))
    ensures InBounds(s) && Inv(Apply(s, BeginInsert(key, height, prev)))
  {
    InvInBounds(s);
    var t := Apply(s, BeginInsert(key, height, prev));
    GoodFrame(s.mem, t.mem, s.levels);
    ReadersKept(s, t);
  }

  lemma AllocateKeeps(s: State)
    requires Inv(s) && Enabled(s, Allocate)
    ensures InBounds(s) && Inv(Apply(s, Allocate))
  {
    InvInBounds(s);
    var t := Apply(s, Allocate);
    var x := |s.mem.nodes|;
    forall l, n {:trigger n in s.levels[l]} | 0 <= l < MAX_HEIGHT && n in s.levels[l]
      ensures n < |s.mem.nodes| && t.mem.nodes[n] == s.mem.nodes[n]
    {
      assert Chain(s.mem.nodes, l, s.levels[l]);
    }
    GoodFrame(s.mem, t.mem, s.levels);
    ReadersKept(s, t);
    forall l | 0 <= l < MAX_HEIGHT ensures x !in s.levels[l] {
      assert Chain(s.mem.nodes, l, s.levels[l]);
    }
  }

  lemma PointKeeps(s: State)
    requires Inv(s) && Enabled(s, Point)
    ensures InBounds(s) && Inv(Apply(s, Point))
  {
    InvInBounds(s);
    var t := Apply(s, Point);
    var w := s.writer;
    forall l, n {:trigger n in s.levels[l]} | 0 <= l < MAX_HEIGHT && n in s.levels[l]
      ensures n < |s.mem.nodes| && l < |s.mem.nodes[n].next| && t.mem.nodes[n].next[l] == s.mem.nodes[n].next[l]
    {
      assert Chain(s.mem.nodes, l, s.levels[l]);
      if n == w.x {
        assert l < w.i;
      }
    }
    GoodFrame(s.mem, t.mem, s.levels);
    ReadersKept(s, t);
    forall l | w.i <= l < |s.mem.nodes[w.x].next| ensures PlaceAfter(t.mem.nodes, l, s.levels[l], w.prev[l], s.mem.nodes[w.x].key) {
      assert PlaceAfter(s.mem.nodes, l, s.levels[l], w.prev[l], s.mem.nodes[w.x].key);
      assert w.prev[l] != w.x;
    }
  }

  lemma InsertMembers(c: Level, p: nat, x: nat)
    requires p in c
    ensures forall n :: n in InsertAfter(c, p, x) <==> n in c || n == x
  {
    var i := IndexOf(c, p);
    assert c == c[..i + 1] + c[i + 1..];
  }

  lemma LinkInChains(s: State)
    requires Inv(s) && Enabled(s, LinkIn) && InBounds(s)
    ensures var t := Apply(s, LinkIn);
            (forall l :: 0 <= l < MAX_HEIGHT ==> Chain(t.mem.nodes, l, t.levels[l])) && Keys(t.mem.nodes, t.levels[0]) == t.published
  {
    var t := Apply(s, LinkIn);
    var w := s.writer;
    var p, i := w.prev[w.i], w.i;
    assert Chain(s.mem.nodes, i, s.levels[i]);
    assert PlaceAfter(s.mem.nodes, i, s.levels[i], p, s.mem.nodes[w.x].key);
    LinkKeepsChain(s.mem, i, s.levels[i], p, w.x);
    forall l | 0 <= l < MAX_HEIGHT
      ensures Chain(t.mem.nodes, l, t.levels[l])
      ensures l != i ==> Keys(t.mem.nodes, t.levels[l]) == Keys(s.mem.nodes, s.levels[l])
    {
      assert Chain(s.mem.nodes, l, s.levels[l]);
      if l != i {
        ChainFrame(s.mem.nodes, t.mem.nodes, l, s.levels[l]);
      }
    }
  }

  lemma LinkInNested(s: State)
    requires Inv(s) && Enabled(s, LinkIn) && InBounds(s)
    ensures var t := Apply(s, LinkIn).levels;
            && LevelsGrown(s.levels, t)
            && (forall l, k, n {:trigger t[l], n in t[k]} :: 0 <= l && k == l + 1 && k < MAX_HEIGHT && n in t[k] ==> n in t[l])
            && forall l :: s.mem.maxHeight <= l < MAX_HEIGHT ==> t[l] == [0]
  {
    InsertMembers(s.levels[s.writer.i], s.writer.prev[s.writer.i], s.writer.x);
  }

  lemma LinkInKeeps(s: State)
    requires Inv(s) && Enabled(s, LinkIn)
    ensures InBounds(s) && Inv(Apply(s, LinkIn))
  {
    InvInBounds(s);
    LinkInChains(s);
    LinkInNested(s);
    ReadersKept(s, Apply(s, LinkIn));
    LinkInWriter(s);
  }

  lemma LinkInWriter(s: State)
    requires Inv(s) && Enabled(s, LinkIn) && InBounds(s)
    ensures WriterGood(Apply(s, LinkIn))
  {
    var t := Apply(s, LinkIn);
    var w := s.writer;
    InsertMembers(s.levels[w.i], w.prev[w.i], w.x);
    forall l | w.i < l < |s.mem.nodes[w.x].next| ensures PlaceAfter(t.mem.nodes, l, t.levels[l], w.prev[l], s.mem.nodes[w.x].key) {
      assert PlaceAfter(s.mem.nodes, l, s.levels[l], w.prev[l], s.mem.nodes[w.x].key);
    }
  }

  lemma BeginSearchKeeps(s: State, r: nat, q: Query)
    requires Inv(s) && Enabled(s, BeginSearch(r, q))
    ensures InBounds(s) && Inv(Apply(s, BeginSearch(r, q)))
  {
    InvInBounds(s);
    var t := Apply(s, BeginSearch(r, q));
    var l := s.mem.maxHeight - 1;
    assert Chain(s.mem.nodes, l, s.levels[l]);
    assert s.levels[l][0] == 0;
    assert ReaderGood(t, t.readers[r]);
    forall a | a in t.readers ensures ReaderGood(t, t.readers[a]) {
      if a != r {
        ReaderKept(s, t, s.readers[a]);
      }
    }
  }

  lemma LookKeeps(s: State, r: nat)
    requires Inv(s) && Enabled(s, Look(r))
    ensures InBounds(s) && Inv(Apply(s, Look(r)))
  {
    InvInBounds(s);
    var t := Apply(s, Look(r));
    var rd := s.readers[r];
    assert ReaderGood(s, rd);
    SearchStep(s.mem, s.levels, rd.q, rd.at);
    assert ReaderGood(t, t.readers[r]);
    forall a | a in t.readers ensures ReaderGood(t, t.readers[a]) {
      if a != r {
        assert ReaderGood(s, s.readers[a]);
        ReaderKept(s, t, s.readers[a]);
      }
    }
  }

  lemma StepKeeps(s: State, step: Step)
    requires Inv(s) && Enabled(s, step)
    ensures InBounds(s) && Inv(Apply(s, step))
  {
    match step
    case BeginInsert(key, height, prev) => BeginInsertKeeps(s, key, height, prev);
    case Allocate => AllocateKeeps(s);
    case Point => PointKeeps(s);
    case LinkIn => LinkInKeeps(s);
    case BeginSearch(r, q) => BeginSearchKeeps(s, r, q);
    case Look(r) => LookKeeps(s, r);
  }

  // ----- over all runs -----

  ghost predicate Follows(s: State, step: Step, t: State) {
    Enabled(s, step) && InBounds(s) && t == Apply(s, step)
  }

  /** The bounds that a step is defined within exclude no enabled step of a run. */
  lemma EnabledFollows(s: State, step: Step)
    requires Inv(s) && Enabled(s, step)
    ensures InBounds(s) && Follows(s, step, Apply(s, step)) && Inv(Apply(s, step))
  {
    hide Inv;
    StepKeeps(s, step);
  }

  ghost predicate IsRun(run: seq<State>, steps: seq<Step>) {
    && |run| == |steps| + 1 && run[0] == Initial()
    && forall i :: 0 <= i < |steps| ==> Follows(run[i], steps[i], run[i + 1])
  }

  lemma {:induction false} RunKeeps(run: seq<State>, steps: seq<Step>, k: nat)
    requires IsRun(run, steps) && k < |run|
    ensures Inv(run[k])
  {
    if k == 0 {
      assert Keys(Initial().mem.nodes, Initial().levels[0]) == {};
    } else {
      var i := k - 1;
      RunKeeps(run, steps, i);
      assert Follows(run[i], steps[i], run[i + 1]);
      StepKeeps(run[i], steps[i]);
    }
  }

  /** Main result: in every state of every run, in which readers run between any two stores of the
      writer, every level is a sorted chain of set links and part of the level below; the next store or
      load of any process is to a link that exists, and no reader meets an unset one; and what a search
      returned was the right answer for the keys published at an instant between its first and its last
      load. */
  lemma Linearizable(run: seq<State>, steps: seq<Step>, k: nat)
    requires IsRun(run, steps) && k < |run|
    ensures var s := run[k];
            && |s.levels| == MAX_HEIGHT
            && (forall l :: 0 <= l < MAX_HEIGHT ==> Chain(s.mem.nodes, l, s.levels[l]))
            && (forall l, k, n {:trigger s.levels[l], n in s.levels[k]} ::
                  0 <= l && k == l + 1 && k < MAX_HEIGHT && n in s.levels[k] ==> n in s.levels[l])
            && Keys(s.mem.nodes, s.levels[0]) == s.published
            && InBounds(s)
            && forall r :: r in s.readers && s.readers[r].Returned? ==>
                 var rd := s.readers[r];
                 rd.since <= rd.asOf <= s.published && Answers(s.mem.nodes, rd.asOf, rd.q, rd.x, rd.next)
  {
    RunKeeps(run, steps, k);
    InvInBounds(run[k]);
    var s := run[k];
    forall r | r in s.readers ensures ReaderGood(s, s.readers[r]) {}
  }

  // ----- the list as its one writer runs it -----

  lemma StepsForward(m: Memory, levels: seq<Level>, at: Search)
    requires Good(m, levels) && SearchGood(m, levels, Last, at)
    ensures at.level < |m.nodes[at.x].next|
    ensures var link := m.nodes[at.x].next[at.level];
            link.To? ==> link.n in levels[at.level] && IndexOf(levels[at.level], at.x) < IndexOf(levels[at.level], link.n)
  {
    var c := levels[at.level];
    assert Chain(m.nodes, at.level, c);
    var i := IndexOf(c, at.x);
    var j := i + 1;
    if j < |c| {
      assert m.nodes[c[i]].next[at.level] == To(c[j]);
      assert c[j] in c;
    }
  }

  class SkipList {
    var mem: Memory
    ghost var levels: seq<Level>

    ghost predicate Valid()
      reads this
    {
      Good(mem, levels)
    }

    ghost function Contents(): set<int>
      requires Valid()
      reads this
    {
      Keys(mem.nodes, levels[0])
    }

    constructor ()
      ensures Valid() && Contents() == {}
    {
      mem := Memory([Node(0, Nulls(MAX_HEIGHT))], 1);
      levels := HeadsOnly(MAX_HEIGHT);
      new;
      assert Contents() == {};
    }

    /** How far a search still has to go along its level. */
    ghost function Ahead(at: Search): nat
      requires Valid() && SearchGood(mem, levels, Last, at)
      reads this
    {
      |levels[at.level]| - IndexOf(levels[at.level], at.x)
    }

    predicate KeyIsAfterNode(key: int, n: Link)
      reads this
    {
      n.To? && n.n < |mem.nodes| && mem.nodes[n.n].key < key
    }

    /** Level `l` of `prev` is where a key goes on that level. */
    ghost predicate PrevAt(key: int, p: nat, l: nat)
      requires Valid()
      reads this
    {
      && l < MAX_HEIGHT && p in levels[l] && p < |mem.nodes| && l < |mem.nodes[p].next| && IsBefore(mem.nodes, p, key)
      && !KeyIsAfterNode(key, mem.nodes[p].next[l])
    }

    method FindGreaterOrEqual(key: int, prev: array?<nat>) returns (next: Link)
      requires Valid() && (prev != null ==> prev.Length == MAX_HEIGHT)
      modifies prev
      ensures next != Unset && LeastFrom(Contents(), key, LinkKey(mem.nodes, next)) && (next.To? ==> 0 < next.n < |mem.nodes|)
      ensures prev != null ==> forall l :: 0 <= l < mem.maxHeight ==> PrevAt(key, prev[l], l)
    {
      hide Chain, Keys, LeastFrom, GreatestBelow;
      var x: nat, level: nat := 0, mem.maxHeight - 1;
      StartsAtHead(mem, levels);
      while true
        invariant SearchGood(mem, levels, AtLeast(key), Search(x, level))
        invariant prev != null ==> forall l :: level < l < mem.maxHeight ==> PrevAt(key, prev[l], l)
        decreases level, Ahead(Search(x, level))
      {
        SearchStep(mem, levels, AtLeast(key), Search(x, level));
        StepsForward(mem, levels, Search(x, level));
        next := mem.nodes[x].next[level];
        if KeyIsAfterNode(key, next) {
          x := next.n;
        } else {
          if prev != null {
            prev[level] := x;
          }
          if level == 0 {
            InsideLevel(mem, levels, x);
            return;
          }
          level := level - 1;
        }
      }
    }

    method FindLessThan(key: int) returns (x: nat)
      requires Valid()
      ensures x < |mem.nodes| && GreatestBelow(Contents(), Some(key), KeyOf(mem.nodes, x))
    {
      var level: nat := mem.maxHeight - 1;
      x := 0;
      StartsAtHead(mem, levels);
      while true
        invariant SearchGood(mem, levels, Below(key), Search(x, level))
        decreases level, Ahead(Search(x, level))
      {
        SearchStep(mem, levels, Below(key), Search(x, level));
        StepsForward(mem, levels, Search(x, level));
        var next := mem.nodes[x].next[level];
        if next == Null || mem.nodes[next.n].key >= key {
          if level == 0 {
            return;
          }
          level := level - 1;
        } else {
          x := next.n;
        }
      }
    }

    method FindLast() returns (x: nat)
      requires Valid()
      ensures x < |mem.nodes| && GreatestBelow(Contents(), None, KeyOf(mem.nodes, x))
    {
      var level: nat := mem.maxHeight - 1;
      x := 0;
      StartsAtHead(mem, levels);
      while true
        invariant SearchGood(mem, levels, Last, Search(x, level))
        decreases level, Ahead(Search(x, level))
      {
        SearchStep(mem, levels, Last, Search(x, level));
        StepsForward(mem, levels, Search(x, level));
        var next := mem.nodes[x].next[level];
        if next == Null {
          if level == 0 {
            return;
          }
          level := level - 1;
        } else {
          x := next.n;
        }
      }
    }

    method Contains(key: int) returns (b: bool)
      requires Valid()
      ensures b <==> key in Contents()
    {
      var x := FindGreaterOrEqual(key, null);
      b := x.To? && mem.nodes[x.n].key == key;
    }

    /** The stores of an insertion are those of the protocol, in its order, and leave the key in. */
    method Insert(key: int, height: nat)
      requires Valid() && key !in Contents() && 1 <= height <= MAX_HEIGHT
      modifies this
      ensures Valid() && Contents() == old(Contents()) + {key}
    {
      var prev := new nat[MAX_HEIGHT];
      var found := FindGreaterOrEqual(key, prev);
      SetToHead(prev, mem.maxHeight, height);
      ghost var s := State(mem, levels, Contents(), Idle, map[]);
      PrevPlaces(s, key, prev[..], height);
      StepKeeps(s, BeginInsert(key, height, prev[..]));
      s := Apply(s, BeginInsert(key, height, prev[..]));
      StepKeeps(s, Allocate);
      s := Apply(s, Allocate);
      if height > mem.maxHeight {
        mem := mem.(maxHeight := height);
      }
      var x := |mem.nodes|;
      mem := NewNode(mem, key, height);
      LinkLevels(x, height, prev[..], s);
    }

    /** The head comes before any key on the levels not in use yet. */
    method SetToHead(prev: array<nat>, from: nat, height: nat)
      requires from <= MAX_HEIGHT && height <= MAX_HEIGHT == prev.Length
      modifies prev
      ensures forall l :: 0 <= l < from ==> prev[l] == old(prev[l])
      ensures forall l :: from <= l < height ==> prev[l] == 0
    {
      var l := from;
      while l < height
        invariant from <= l && (l <= height || l == from)
        invariant forall k :: 0 <= k < from ==> prev[k] == old(prev[k])
        invariant forall k :: from <= k < l ==> prev[k] == 0
      {
        prev[l] := 0;
        l := l + 1;
      }
    }

    /** Sets the new node's link on a level, and then links the node in there. */
    method LinkLevel(x: nat, i: nat, prev: seq<nat>, ghost s: State) returns (ghost t: State)
      requires Inv(s) && s.mem == mem && s.levels == levels && s.writer == Linking(x, prev, i, false)
      modifies this
      ensures Inv(t) && t.mem == mem && t.levels == levels
      ensures |mem.nodes| == |s.mem.nodes| && |mem.nodes[x].next| == |s.mem.nodes[x].next| && mem.nodes[x].key == s.mem.nodes[x].key
      ensures t.writer == if i + 1 < |mem.nodes[x].next| then Linking(x, prev, i + 1, false) else Idle
      ensures t.published == if i == 0 then s.published + {mem.nodes[x].key} else s.published
    {
      InvInBounds(s);
      StepKeeps(s, Point);
      t := Apply(s, Point);
      StepKeeps(t, LinkIn);
      t := Apply(t, LinkIn);
      mem := SetNext(mem, x, i, mem.nodes[prev[i]].next[i]);
      levels := levels[i := InsertAfter(levels[i], prev[i], x)];
      mem := SetNext(mem, prev[i], i, To(x));
    }

    /** Links the node in level by level from the lowest. */
    method LinkLevels(x: nat, height: nat, prev: seq<nat>, ghost s0: State)
      requires Inv(s0) && s0.mem == mem && s0.levels == levels && s0.writer == Linking(x, prev, 0, false)
      requires |mem.nodes[x].next| == height
      modifies this
      ensures Valid() && Contents() == s0.published + {s0.mem.nodes[x].key}
    {
      ghost var s := s0;
      ghost var key := mem.nodes[x].key;
      for i := 0 to height
        invariant Inv(s) && s.mem == mem && s.levels == levels
        invariant x < |mem.nodes| && |mem.nodes[x].next| == height && mem.nodes[x].key == key
        invariant s.writer == if i < height then Linking(x, prev, i, false) else Idle
        invariant s.published == s0.published + if i == 0 then {} else {key}
      {
        s := LinkLevel(x, i, prev, s);
      }
    }

    /** What the search found, with the head on the levels above, is where the node goes. */
    lemma PrevPlaces(s: State, key: int, prev: seq<nat>, height: nat)
      requires Valid() && key !in Contents() && 1 <= height <= MAX_HEIGHT == |prev|
      requires s.mem == mem && s.levels == levels && s.published == Contents() && s.writer == Idle
      requires forall l :: 0 <= l < mem.maxHeight ==> PrevAt(key, prev[l], l)
      requires forall l :: mem.maxHeight <= l < height ==> prev[l] == 0
      ensures Places(mem, levels, key, prev, 0, height)
    {
      forall l | 0 <= l < height ensures PlaceAfter(mem.nodes, l, levels[l], prev[l], key) {
        assert Chain(mem.nodes, l, levels[l]);
        if l >= mem.maxHeight {
          assert levels[l] == [0];
        } else {
          assert PrevAt(key, prev[l], l);
          StrictlyPast(mem, levels, l, prev[l], key);
        }
      }
    }
  }

  lemma StartsAtHead(m: Memory, levels: seq<Level>)
    requires Good(m, levels)
    ensures 0 in levels[m.maxHeight - 1] && |m.nodes| > 0
  {
    var l := m.maxHeight - 1;
    assert Chain(m.nodes, l, levels[l]);
    assert levels[l][0] == 0;
  }

  lemma InsideLevel(m: Memory, levels: seq<Level>, x: nat)
    requires Good(m, levels) && x in levels[0]
    ensures x < |m.nodes| && 0 < |m.nodes[x].next|
    ensures m.nodes[x].next[0].To? ==> 0 < m.nodes[x].next[0].n < |m.nodes|
  {
    var i := ChainIndex(m.nodes, 0, levels[0], x);
  }

  /** A key that is in no level is never met exactly. */
  lemma StrictlyPast(m: Memory, levels: seq<Level>, l: nat, p: nat, key: int)
    requires Good(m, levels) && l < MAX_HEIGHT && p in levels[l] && key !in Keys(m.nodes, levels[0])
    ensures p < |m.nodes| && l < |m.nodes[p].next|
    ensures var link := m.nodes[p].next[l]; link == Null || (link.To? && link.n < |m.nodes| && m.nodes[link.n].key != key)
  {
    var c := levels[l];
    assert Chain(m.nodes, l, c);
    var i := ChainIndex(m.nodes, l, c, p);
    if i + 1 < |c| {
      assert c[i + 1] in c;
      InLowest(m, levels, l, c[i + 1]);
      var k := ChainIndex(m.nodes, 0, levels[0], c[i + 1]);
      assert m.nodes[levels[0][k]].key in Keys(m.nodes, levels[0]);
    }
  }

  lemma {:induction false} InLowest(m: Memory, levels: seq<Level>, l: nat, n: nat)
    requires Good(m, levels) && l < MAX_HEIGHT && n in levels[l]
    ensures n in levels[0]
  {
    if l > 0 {
      var j := l - 1;
      assert n in levels[j];
      InLowest(m, levels, j, n);
    }
  }
}
