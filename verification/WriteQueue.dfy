/** Group commit: writers queue up, the one in front writes for a whole group
    (DBImpl::Write and BuildBatchGroup in db/db_impl.cc). Each step below happens with the
    mutex held, or is one entry the leader inserts while it has released it. */
module WriteQueue {
  import opened Options

  /** One update of a batch. */
  type Op = string

  datatype Writer = Writer(id: nat, batch: Option<seq<Op>>, sync: bool)

  function Ops(w: Writer): seq<Op> {
    if w.batch.Some? then w.batch.value else []
  }

  function AllOps(ws: seq<Writer>): seq<Op> {
    if ws == [] then [] else AllOps(ws[..|ws| - 1]) + Ops(ws[|ws| - 1])
  }

  // ----- BuildBatchGroup -----

  function BatchSizes(ws: seq<Writer>, size: seq<Op> -> nat): nat {
    if ws == [] then 0
    else
      var w := ws[|ws| - 1];
      BatchSizes(ws[..|ws| - 1], size) + if w.batch.Some? then size(w.batch.value) else 0
  }

  /** A small first write is not slowed down by a big group. */
  function MaxGroupSize(first: nat): nat {
    if first <= 0x20000 then first + 0x20000 else 0x100000
  }

  /** Writer `n` may join the group of those before it. */
  predicate MayJoin(queue: seq<Writer>, size: seq<Op> -> nat, n: nat)
    requires 0 < n < |queue|
  {
    && (queue[n].sync ==> queue[0].sync)
    && (queue[n].batch.Some? ==> BatchSizes(queue[..n + 1], size) <= MaxGroupSize(BatchSizes(queue[..1], size)))
  }

  /** The group is the longest run of writers from the front of the queue that may join. */
  ghost predicate IsGroup(queue: seq<Writer>, size: seq<Op> -> nat, n: nat) {
    && 0 < n <= |queue|
    && (forall i :: 0 < i < n ==> MayJoin(queue, size, i))
    && (n < |queue| ==> !MayJoin(queue, size, n))
  }

  lemma {:induction false} JoinedBelow(queue: seq<Writer>, size: seq<Op> -> nat, n: nat)
    requires 0 < n <= |queue| && forall i :: 0 < i < n ==> MayJoin(queue, size, i)
    ensures var first, total := BatchSizes(queue[..1], size), BatchSizes(queue[..n], size);
            first <= total && (total > first ==> total <= if first <= 131072 then first + 131072 else 1048576)
    decreases n
  {
    if n > 1 {
      JoinedBelow(queue, size, n - 1);
      assert queue[..n][..n - 1] == queue[..n - 1];
      assert MayJoin(queue, size, n - 1);
    }
  }

  /** Main result: a first write of up to 128 KB is joined by at most 128 KB, a larger one up to 1 MB in all; no synced
      write waits on one that is not; and the next writer is left out for one of these reasons alone. */
  lemma GroupLimits(queue: seq<Writer>, size: seq<Op> -> nat, n: nat)
    requires IsGroup(queue, size, n)
    ensures var first, total := BatchSizes(queue[..1], size), BatchSizes(queue[..n], size);
            && (total > first ==> total <= if first <= 131072 then first + 131072 else 1048576)
            && (forall i :: 0 < i < n && queue[i].sync ==> queue[0].sync)
            && (n < |queue| ==>
                  || (queue[n].sync && !queue[0].sync)
                  || (queue[n].batch.Some?
                      && total + size(queue[n].batch.value) > if first <= 131072 then first + 131072 else 1048576))
  {
    JoinedBelow(queue, size, n);
    forall i | 0 < i < n && queue[i].sync ensures queue[0].sync {
      assert MayJoin(queue, size, i);
    }
    if n < |queue| {
      assert queue[..n + 1][..n] == queue[..n];
    }
  }

  method BuildBatchGroup(writers: seq<Writer>, byteSize: seq<Op> -> nat) returns (result: seq<Op>, n: nat)
    requires writers != [] && writers[0].batch.Some?
    ensures IsGroup(writers, byteSize, n)
    ensures result == AllOps(writers[..n])
  {
    var first := writers[0];
    result := first.batch.value;
    var size := byteSize(result);
    var maxSize := 0x100000;
    if size <= 0x20000 {
      maxSize := size + 0x20000;
    }
    n := 1;
    assert writers[..1][..0] == [];
    while n < |writers|
      invariant 0 < n <= |writers|
      invariant forall i :: 0 < i < n ==> MayJoin(writers, byteSize, i)
      invariant size == BatchSizes(writers[..n], byteSize)
      invariant maxSize == MaxGroupSize(BatchSizes(writers[..1], byteSize))
      invariant result == AllOps(writers[..n])
    {
      var w := writers[n];
      assert writers[..n + 1][..n] == writers[..n];
      if w.sync && !first.sync {
        break;
      }
      if w.batch.Some? {
        size := size + byteSize(w.batch.value);
        if size > maxSize {
          break;
        }
        result := result + w.batch.value;
      }
      n := n + 1;
    }
  }

  // ----- the protocol -----

  /** A record of the log: the first sequence number, the updates, and whether it was synced. */
  datatype Record = Record(first: nat, ops: seq<Op>, synced: bool)

  /** How a writer came back: with which leader's sync option, and with which sequence numbers. */
  datatype Outcome = Outcome(writer: Writer, leader: Writer, ok: bool, first: nat, count: nat)

  datatype Phase = Idle | Writing(group: seq<Writer>, ops: seq<Op>, logged: bool, inserted: nat)

  datatype State = State(arrivals: seq<Writer>, queue: seq<Writer>, outcomes: seq<Outcome>, phase: Phase,
                         lastSequence: nat, mem: map<nat, Op>, log: seq<Record>)

  datatype Step =
    | Enqueue(w: Writer)
    | Leave(ok: bool)        // the front writer has no batch, or there is no room for its write
    | Begin(n: nat)          // the front writer takes a group of n writers
    | AppendLog(synced: bool)
    | InsertEntry
    | Finish(ok: bool)

  const INITIAL := State([], [], [], Idle, 0, map[], [])

  ghost predicate Enabled(size: seq<Op> -> nat, s: State, step: Step) {
    match step
    case Enqueue(w) => forall x :: x in s.arrivals ==> x.id != w.id
    case Leave(ok) => s.phase.Idle? && s.queue != [] && (s.queue[0].batch.Some? ==> !ok)
    case Begin(n) => s.phase.Idle? && s.queue != [] && s.queue[0].batch.Some? && IsGroup(s.queue, size, n)
    case AppendLog(synced) => s.phase.Writing? && !s.phase.logged && s.phase.group != [] && (s.phase.group[0].sync <==> synced)
    case InsertEntry => s.phase.Writing? && s.phase.logged && s.phase.inserted < |s.phase.ops|
    // a failed append or sync comes before the first insertion
    case Finish(ok) => s.phase.Writing? && if ok then s.phase.logged && s.phase.inserted == |s.phase.ops| else s.phase.inserted == 0
  }

  /** The outcomes of a group whose first update has sequence number `first`. */
  function GroupOutcomes(group: seq<Writer>, leader: Writer, ok: bool, first: nat): (r: seq<Outcome>)
    ensures |r| == |group|
  {
    if group == [] then []
    else
      var init := group[..|group| - 1];
      var w := group[|group| - 1];
      GroupOutcomes(init, leader, ok, first) + [Outcome(w, leader, ok, first + |AllOps(init)|, |Ops(w)|)]
  }

  function Apply(s: State, step: Step): State
    requires s.phase.Writing? ==> s.phase.group != []
  {
    match step
    case Enqueue(w) => s.(arrivals := s.arrivals + [w], queue := s.queue + [w])
    case Leave(ok) =>
      if s.queue == [] then s
      else s.(queue := s.queue[1..], outcomes := s.outcomes + [Outcome(s.queue[0], s.queue[0], ok, s.lastSequence + 1, 0)])
    case Begin(n) =>
      if n > |s.queue| then s else s.(phase := Writing(s.queue[..n], AllOps(s.queue[..n]), false, 0))
    case AppendLog(synced) =>
      if s.phase.Idle? then s
      else s.(phase := s.phase.(logged := true), log := s.log + [Record(s.lastSequence + 1, s.phase.ops, synced)])
    case InsertEntry =>
      if s.phase.Idle? || s.phase.inserted >= |s.phase.ops| then s
      else s.(phase := s.phase.(inserted := s.phase.inserted + 1),
              mem := s.mem[s.lastSequence + 1 + s.phase.inserted := s.phase.ops[s.phase.inserted]])
    case Finish(ok) =>
      if s.phase.Idle? || |s.phase.group| > |s.queue| then s
      else s.(phase := Idle, queue := s.queue[|s.phase.group|..], lastSequence := s.lastSequence + |s.phase.ops|,
              outcomes := s.outcomes + GroupOutcomes(s.phase.group, s.phase.group[0], ok, s.lastSequence + 1))
  }

  // ----- what every run keeps -----

  function Writers(outcomes: seq<Outcome>): (r: seq<Writer>)
    ensures |r| == |outcomes|
  {
    seq(|outcomes|, i requires 0 <= i < |outcomes| => outcomes[i].writer)
  }

  lemma WritersAppend(a: seq<Outcome>, b: seq<Outcome>)
    ensures Writers(a + b) == Writers(a) + Writers(b)
  {
  }

  /** First come, first served, each writer once. */
  ghost predicate Fifo(s: State) {
    && s.arrivals == Writers(s.outcomes) + s.queue
    && forall i, j :: 0 <= i < j < |s.arrivals| ==> s.arrivals[i].id != s.arrivals[j].id
  }

  /** Sequence numbers are handed out in queue order, without gaps or overlaps, up to the last one. */
  ghost predicate Consecutive(s: State) {
    && (forall i, j :: 0 <= i < |s.outcomes| && j == i + 1 && j < |s.outcomes| ==>
          s.outcomes[j].first == s.outcomes[i].first + s.outcomes[i].count)
    && (s.outcomes != [] ==>
          var last := s.outcomes[|s.outcomes| - 1]; s.lastSequence + 1 == last.first + last.count)
  }

  ghost predicate StartsAtOne(s: State) {
    if s.outcomes == [] then s.lastSequence == 0 else s.outcomes[0].first == 1
  }

  /** A batch that was accepted has a number for each update; a rejected one may have none. */
  ghost predicate Counted(s: State) {
    forall o :: o in s.outcomes ==> o.count <= |Ops(o.writer)| && (o.ok ==> o.count == |Ops(o.writer)|) && o.first >= 1
  }

  /** A writer that asked for a sync was led by one that did, itself or another. */
  ghost predicate SyncServed(s: State) {
    forall o :: o in s.outcomes && o.writer.sync ==> o.leader.sync
  }

  /** Update `n` is in the batch of this accepted writer. */
  predicate Covers(o: Outcome, n: nat) {
    o.ok && o.first <= n < o.first + o.count && o.count == |Ops(o.writer)|
  }

  /** What a reader at the last sequence finds is whole accepted batches and nothing else. */
  ghost predicate Atomic(s: State) {
    && (forall o, n: nat :: o in s.outcomes && Covers(o, n) ==> n in s.mem && s.mem[n] == Ops(o.writer)[n - o.first])
    && (forall n :: n in s.mem && n <= s.lastSequence ==> exists o :: o in s.outcomes && Covers(o, n))
  }

  /** Beyond the last sequence is only what the current leader has inserted. */
  ghost predicate Pending(s: State) {
    && (forall n :: n in s.mem && n > s.lastSequence ==>
          s.phase.Writing? && n <= s.lastSequence + s.phase.inserted)
    && (s.phase.Writing? ==>
          && 0 < |s.phase.group| <= |s.queue| && s.phase.group == s.queue[..|s.phase.group|]
          && s.phase.ops == AllOps(s.phase.group)
          && s.phase.inserted <= |s.phase.ops|
          && (forall i :: 0 < i < |s.phase.group| && s.phase.group[i].sync ==> s.phase.group[0].sync)
          && (forall n :: s.lastSequence < n <= s.lastSequence + s.phase.inserted ==>
                n in s.mem && s.mem[n] == s.phase.ops[n - s.lastSequence - 1])
          && (s.phase.logged ==> s.log != [] && s.log[|s.log| - 1] == Record(s.lastSequence + 1, s.phase.ops, s.phase.group[0].sync)))
  }

  /** The batch is in a record of the log, whole and in place. */
  predicate InRecord(r: Record, o: Outcome) {
    && r.first <= o.first && o.first + o.count <= r.first + |r.ops|
    && r.ops[o.first - r.first..o.first - r.first + o.count] == Ops(o.writer)
    && (o.writer.sync ==> r.synced)
  }

  /** An accepted batch is in the log, in a synced record if it asked for that. */
  ghost predicate Logged(s: State) {
    forall o :: o in s.outcomes && o.ok && o.writer.batch.Some? ==> exists r :: r in s.log && InRecord(r, o)
  }

  ghost predicate Inv(s: State) {
    Fifo(s) && Consecutive(s) && StartsAtOne(s) && Counted(s) && SyncServed(s) && Atomic(s) && Pending(s) && Logged(s)
  }

  lemma {:induction false} OpsSplit(group: seq<Writer>, i: nat)
    requires i < |group|
    ensures |AllOps(group[..i])| + |Ops(group[i])| <= |AllOps(group)|
    ensures var k := |AllOps(group[..i])|; AllOps(group)[k..k + |Ops(group[i])|] == Ops(group[i])
    decreases |group|
  {
    var init := group[..|group| - 1];
    if i < |init| {
      OpsSplit(init, i);
      assert init[..i] == group[..i];
    } else {
      assert init == group[..i];
    }
  }

  lemma {:induction false} GroupOutcomeAt(group: seq<Writer>, leader: Writer, ok: bool, first: nat, i: nat)
    requires i < |group|
    ensures GroupOutcomes(group, leader, ok, first)[i] == Outcome(group[i], leader, ok, first + |AllOps(group[..i])|, |Ops(group[i])|)
    decreases |group|
  {
    var init := group[..|group| - 1];
    if i < |init| {
      GroupOutcomeAt(init, leader, ok, first, i);
      assert init[..i] == group[..i];
    } else {
      assert init == group[..i];
    }
  }

  lemma OpsAppend(group: seq<Writer>, i: nat)
    requires i < |group|
    ensures AllOps(group[..i + 1]) == AllOps(group[..i]) + Ops(group[i])
  {
    assert group[..i + 1][..i] == group[..i];
  }

  /** The parts of the invariant that speak of what is finished. */
  ghost predicate Settled(s: State) {
    Consecutive(s) && StartsAtOne(s) && Counted(s) && SyncServed(s) && Atomic(s) && Logged(s)
  }

  lemma SettledKept(s: State, t: State)
    requires Settled(s) && t.outcomes == s.outcomes && t.lastSequence == s.lastSequence && t.mem == s.mem && t.log == s.log
    ensures Settled(t)
  {
  }

  lemma EnqueueFifo(s: State, w: Writer)
    requires Fifo(s) && Pending(s) && forall x :: x in s.arrivals ==> x.id != w.id
    ensures Fifo(Apply(s, Enqueue(w)))
  {
    var t := Apply(s, Enqueue(w));
    assert t.arrivals == Writers(t.outcomes) + t.queue;
  }

  lemma EnqueuePending(s: State, w: Writer)
    requires Pending(s)
    ensures Pending(Apply(s, Enqueue(w)))
  {
    if s.phase.Writing? {
      assert (s.queue + [w])[..|s.phase.group|] == s.queue[..|s.phase.group|];
    }
  }

  lemma EnqueueKeeps(s: State, w: Writer)
    requires Inv(s) && forall x :: x in s.arrivals ==> x.id != w.id
    ensures Inv(Apply(s, Enqueue(w)))
  {
    EnqueueFifo(s, w);
    EnqueuePending(s, w);
    SettledKept(s, Apply(s, Enqueue(w)));
  }

  lemma LeaveFifo(s: State, ok: bool)
    requires Fifo(s) && s.phase.Idle? && s.queue != []
    ensures Fifo(Apply(s, Leave(ok)))
  {
    var t := Apply(s, Leave(ok));
    WritersAppend(s.outcomes, [Outcome(s.queue[0], s.queue[0], ok, s.lastSequence + 1, 0)]);
    assert t.arrivals == Writers(t.outcomes) + t.queue;
  }

  lemma LeaveNumbers(s: State, ok: bool, o: Outcome)
    requires Consecutive(s) && StartsAtOne(s) && Counted(s) && SyncServed(s) && s.queue != []
    requires o == Outcome(s.queue[0], s.queue[0], ok, s.lastSequence + 1, 0) && (s.queue[0].batch.Some? ==> !ok)
    ensures var t := s.(outcomes := s.outcomes + [o]);
            Consecutive(t) && StartsAtOne(t) && Counted(t) && SyncServed(t)
  {
  }

  lemma LeaveAtomic(s: State, o: Outcome)
    requires Atomic(s) && Logged(s) && o.count == 0 && (o.ok ==> o.writer.batch.None?)
    ensures var t := s.(outcomes := s.outcomes + [o]); Atomic(t) && Logged(t)
  {
    forall n | n in s.mem && n <= s.lastSequence ensures exists x :: x in s.outcomes + [o] && Covers(x, n) {
      var x :| x in s.outcomes && Covers(x, n);
      assert x in s.outcomes + [o];
    }
  }

  lemma LeaveKeeps(s: State, ok: bool)
    requires Inv(s) && s.phase.Idle? && s.queue != [] && (s.queue[0].batch.Some? ==> !ok)
    ensures Inv(Apply(s, Leave(ok)))
  {
    var o := Outcome(s.queue[0], s.queue[0], ok, s.lastSequence + 1, 0);
    LeaveFifo(s, ok);
    LeaveNumbers(s, ok, o);
    LeaveAtomic(s, o);
    SettledKept(s.(outcomes := s.outcomes + [o]), Apply(s, Leave(ok)));
  }

  lemma BeginKeeps(size: seq<Op> -> nat, s: State, n: nat)
    requires Inv(s) && s.phase.Idle? && s.queue != [] && s.queue[0].batch.Some? && IsGroup(s.queue, size, n)
    ensures Inv(Apply(s, Begin(n)))
  {
    forall i | 0 < i < n && s.queue[..n][i].sync ensures s.queue[0].sync {
      assert MayJoin(s.queue, size, i);
    }
  }

  lemma AppendLogLogged(s: State, synced: bool)
    requires Logged(s) && s.phase.Writing? && s.phase.group != []
    ensures Logged(Apply(s, AppendLog(synced)))
  {
    var t := Apply(s, AppendLog(synced));
    forall o | o in t.outcomes && o.ok && o.writer.batch.Some? ensures exists r :: r in t.log && InRecord(r, o) {
      var r :| r in s.log && InRecord(r, o);
      assert r in t.log;
    }
  }

  lemma AppendLogPending(s: State, synced: bool)
    requires Pending(s) && s.phase.Writing? && !s.phase.logged && (s.phase.group[0].sync <==> synced)
    ensures Pending(Apply(s, AppendLog(synced)))
  {
  }

  lemma AppendLogKeeps(s: State, synced: bool)
    requires Inv(s) && s.phase.Writing? && !s.phase.logged && (s.phase.group[0].sync <==> synced)
    ensures Inv(Apply(s, AppendLog(synced)))
  {
    AppendLogLogged(s, synced);
    AppendLogPending(s, synced);
  }

  lemma InsertAtomic(s: State)
    requires Inv(s) && s.phase.Writing? && s.phase.logged && s.phase.inserted < |s.phase.ops|
    ensures Atomic(Apply(s, InsertEntry))
  {
    var t := Apply(s, InsertEntry);
    forall o, n: nat | o in t.outcomes && Covers(o, n) ensures n <= s.lastSequence {
      WithinLast(s, o);
    }
  }

  lemma InsertPending(s: State)
    requires Pending(s) && s.phase.Writing? && s.phase.logged && s.phase.inserted < |s.phase.ops|
    ensures Pending(Apply(s, InsertEntry))
  {
  }

  lemma InsertKeeps(s: State)
    requires Inv(s) && s.phase.Writing? && s.phase.logged && s.phase.inserted < |s.phase.ops|
    ensures Inv(Apply(s, InsertEntry))
  {
    InsertAtomic(s);
    InsertPending(s);
  }

  /** Numbers handed out are at most the last one. */
  lemma {:induction false} WithinLast(s: State, o: Outcome)
    requires Consecutive(s) && Counted(s) && o in s.outcomes
    ensures o.first + o.count <= s.lastSequence + 1
  {
    var i :| 0 <= i < |s.outcomes| && s.outcomes[i] == o;
    EndsWithinLast(s, i);
  }

  lemma {:induction false} EndsWithinLast(s: State, i: nat)
    requires Consecutive(s) && Counted(s) && i < |s.outcomes|
    ensures s.outcomes[i].first + s.outcomes[i].count <= s.lastSequence + 1
    decreases |s.outcomes| - i
  {
    if i + 1 < |s.outcomes| {
      EndsWithinLast(s, i + 1);
      assert s.outcomes[i + 1].first == s.outcomes[i].first + s.outcomes[i].count;
    }
  }

  lemma {:induction false} GroupWriters(group: seq<Writer>, leader: Writer, ok: bool, first: nat)
    ensures Writers(GroupOutcomes(group, leader, ok, first)) == group
  {
    forall i | 0 <= i < |group| ensures GroupOutcomes(group, leader, ok, first)[i].writer == group[i] {
      GroupOutcomeAt(group, leader, ok, first, i);
    }
  }

  /** A finish step by its parts: the group, and the outcomes its writers get. */
  ghost predicate Finishes(s: State, ok: bool, news: seq<Outcome>) {
    && Inv(s) && s.phase.Writing?
    && (if ok then s.phase.logged && s.phase.inserted == |s.phase.ops| else s.phase.inserted == 0)
    && news == GroupOutcomes(s.phase.group, s.phase.group[0], ok, s.lastSequence + 1)
  }

  lemma FinishFifo(s: State, ok: bool)
    requires Fifo(s) && s.phase.Writing?
    requires 0 < |s.phase.group| <= |s.queue| && s.phase.group == s.queue[..|s.phase.group|]
    ensures Fifo(Apply(s, Finish(ok)))
  {
    var g := s.phase.group;
    var news := GroupOutcomes(g, g[0], ok, s.lastSequence + 1);
    GroupWriters(g, g[0], ok, s.lastSequence + 1);
    WritersAppend(s.outcomes, news);
    assert s.queue == g + s.queue[|g|..];
  }

  /** The outcome of writer `i` of the group: its numbers follow those of the writers before it. */
  lemma NewOutcome(s: State, ok: bool, news: seq<Outcome>, i: nat)
    requires Finishes(s, ok, news) && i < |news|
    ensures |news| == |s.phase.group| && news[i].writer == s.phase.group[i] && news[i].leader == s.phase.group[0] && news[i].ok == ok
    ensures news[i].count == |Ops(news[i].writer)|
    ensures news[i].first == s.lastSequence + 1 + |AllOps(s.phase.group[..i])|
    ensures news[i].first + news[i].count == s.lastSequence + 1 + |AllOps(s.phase.group[..i + 1])|
    ensures news[i].writer.sync ==> s.phase.group[0].sync
  {
    GroupOutcomeAt(s.phase.group, s.phase.group[0], ok, s.lastSequence + 1, i);
    OpsAppend(s.phase.group, i);
  }

  /** The numbers of a group follow those handed out before it, and one another. */
  lemma NewFollows(s: State, ok: bool, news: seq<Outcome>, i: nat)
    requires Finishes(s, ok, news) && i < |news|
    ensures news[i].first == if i == 0 then s.lastSequence + 1 else news[i - 1].first + news[i - 1].count
    ensures i == |news| - 1 ==> news[i].first + news[i].count == s.lastSequence + 1 + |s.phase.ops|
  {
    NewOutcome(s, ok, news, i);
    if i == 0 {
      assert s.phase.group[..0] == [];
    } else {
      NewOutcome(s, ok, news, i - 1);
    }
    assert s.phase.group[..|s.phase.group|] == s.phase.group;
  }

  lemma ConsecutiveAppend(s: State, t: State, news: seq<Outcome>)
    requires Consecutive(s) && StartsAtOne(s) && news != [] && t.outcomes == s.outcomes + news
    requires news[0].first == s.lastSequence + 1
    requires forall i, j :: 0 <= i < |news| && j == i + 1 && j < |news| ==> news[j].first == news[i].first + news[i].count
    requires news[|news| - 1].first + news[|news| - 1].count == t.lastSequence + 1
    ensures Consecutive(t) && StartsAtOne(t)
  {
  }

  lemma FinishConsecutive(s: State, ok: bool, news: seq<Outcome>)
    requires Finishes(s, ok, news)
    ensures Consecutive(Apply(s, Finish(ok))) && StartsAtOne(Apply(s, Finish(ok)))
  {
    NewFollows(s, ok, news, 0);
    NewFollows(s, ok, news, |news| - 1);
    forall i, j | 0 <= i < |news| && j == i + 1 && j < |news| ensures news[j].first == news[i].first + news[i].count {
      NewFollows(s, ok, news, j);
    }
    ConsecutiveAppend(s, Apply(s, Finish(ok)), news);
  }

  lemma FinishCounted(s: State, ok: bool, news: seq<Outcome>)
    requires Finishes(s, ok, news)
    ensures Counted(Apply(s, Finish(ok))) && SyncServed(Apply(s, Finish(ok)))
  {
    forall o | o in news ensures o.count == |Ops(o.writer)| && o.first >= 1 && (o.writer.sync ==> o.leader.sync) {
      var i :| 0 <= i < |news| && news[i] == o;
      NewOutcome(s, ok, news, i);
    }
  }

  /** A writer's updates are in place among those of its group. */
  predicate PartOf(ops: seq<Op>, first: nat, o: Outcome) {
    && first <= o.first && o.first + o.count <= first + |ops|
    && ops[o.first - first..o.first - first + o.count] == Ops(o.writer)
  }

  lemma PartAt(group: seq<Writer>, leader: Writer, ok: bool, first: nat, i: nat)
    requires i < |group|
    ensures PartOf(AllOps(group), first, Outcome(group[i], leader, ok, first + |AllOps(group[..i])|, |Ops(group[i])|))
  {
    OpsSplit(group, i);
  }

  lemma OutcomeOps(group: seq<Writer>, leader: Writer, ok: bool, first: nat, o: Outcome)
    requires o in GroupOutcomes(group, leader, ok, first)
    ensures PartOf(AllOps(group), first, o)
    ensures o.writer in group && o.leader == leader && o.ok == ok
  {
    var i :| 0 <= i < |group| && GroupOutcomes(group, leader, ok, first)[i] == o;
    GroupOutcomeAt(group, leader, ok, first, i);
    PartAt(group, leader, ok, first, i);
  }

  lemma PlaceInGroup(ops: seq<Op>, first: nat, o: Outcome, n: nat)
    requires PartOf(ops, first, o) && Covers(o, n)
    ensures first <= n < first + |ops| && ops[n - first] == Ops(o.writer)[n - o.first]
  {
    assert ops[n - first] == ops[o.first - first..o.first - first + o.count][n - o.first];
  }

  /** What a leader that succeeds leaves in the memtable: its group's updates, numbered in order. */
  ghost predicate Inserted(s: State, ops: seq<Op>) {
    forall n {:trigger n in s.mem} :: s.lastSequence < n <= s.lastSequence + |ops| ==> n in s.mem && s.mem[n] == ops[n - s.lastSequence - 1]
  }

  lemma NewInMem(s: State, group: seq<Writer>, o: Outcome, n: nat)
    requires group != [] && Inserted(s, AllOps(group))
    requires o in GroupOutcomes(group, group[0], true, s.lastSequence + 1) && Covers(o, n)
    ensures n in s.mem && s.mem[n] == Ops(o.writer)[n - o.first]
  {
    OutcomeOps(group, group[0], true, s.lastSequence + 1, o);
    PlaceInGroup(AllOps(group), s.lastSequence + 1, o, n);
  }

  lemma OldCovered(s: State, news: seq<Outcome>, n: nat)
    requires Atomic(s) && n in s.mem && n <= s.lastSequence
    ensures exists o :: o in s.outcomes + news && Covers(o, n)
  {
    var o :| o in s.outcomes && Covers(o, n);
    assert o in s.outcomes + news;
  }

  lemma NewCovered(earlier: seq<Outcome>, group: seq<Writer>, first: nat, n: nat)
    requires group != [] && first <= n < first + |AllOps(group)|
    ensures exists o :: o in earlier + GroupOutcomes(group, group[0], true, first) && Covers(o, n)
  {
    var o := CoveredByGroup(group, group[0], first, n);
    assert o in earlier + GroupOutcomes(group, group[0], true, first);
  }

  lemma FinishCovers(s: State, ok: bool, group: seq<Writer>, n: nat)
    requires Atomic(s) && group != []
    requires n in s.mem && n <= s.lastSequence + |AllOps(group)| && (!ok ==> n <= s.lastSequence)
    ensures exists o :: o in s.outcomes + GroupOutcomes(group, group[0], ok, s.lastSequence + 1) && Covers(o, n)
  {
    hide *;
    if n <= s.lastSequence {
      OldCovered(s, GroupOutcomes(group, group[0], ok, s.lastSequence + 1), n);
    } else {
      NewCovered(s.outcomes, group, s.lastSequence + 1, n);
    }
  }

  lemma NewOutcomeOk(s: State, ok: bool, news: seq<Outcome>, o: Outcome)
    requires Finishes(s, ok, news) && o in news
    ensures o.ok == ok
  {
    var i :| 0 <= i < |news| && news[i] == o;
    NewOutcome(s, ok, news, i);
  }

  lemma FinishAtomic(s: State, ok: bool, news: seq<Outcome>)
    requires Finishes(s, ok, news)
    ensures Atomic(Apply(s, Finish(ok)))
  {
    var t := Apply(s, Finish(ok));
    forall o, n: nat | o in t.outcomes && Covers(o, n) ensures n in t.mem && t.mem[n] == Ops(o.writer)[n - o.first] {
      if o !in s.outcomes {
        NewOutcomeOk(s, ok, news, o);
        NewInMem(s, s.phase.group, o, n);
      }
    }
    forall n | n in t.mem && n <= t.lastSequence ensures exists o :: o in t.outcomes && Covers(o, n) {
      FinishCovers(s, ok, s.phase.group, n);
    }
  }

  lemma NewInLog(log: seq<Record>, ops: seq<Op>, synced: bool, first: nat, o: Outcome)
    requires PartOf(ops, first, o) && (o.writer.sync ==> synced)
    requires log != [] && log[|log| - 1] == Record(first, ops, synced)
    ensures exists r :: r in log && InRecord(r, o)
  {
    assert InRecord(log[|log| - 1], o);
  }

  lemma LoggedAppend(s: State, news: seq<Outcome>)
    requires Logged(s)
    requires forall o :: o in news && o.ok ==> exists r :: r in s.log && InRecord(r, o)
    ensures Logged(s.(outcomes := s.outcomes + news))
  {
  }

  lemma FinishLogged(s: State, ok: bool)
    requires Logged(s) && Pending(s) && s.phase.Writing? && (ok ==> s.phase.logged)
    ensures Logged(Apply(s, Finish(ok)))
  {
    var g := s.phase.group;
    var news := GroupOutcomes(g, g[0], ok, s.lastSequence + 1);
    forall o | o in news && o.ok ensures exists r :: r in s.log && InRecord(r, o) {
      OutcomeOps(g, g[0], ok, s.lastSequence + 1, o);
      NewInLog(s.log, AllOps(g), g[0].sync, s.lastSequence + 1, o);
    }
    LoggedAppend(s, news);
  }

  lemma FinishKeeps(s: State, ok: bool)
    requires Inv(s) && Enabled(_ => 0, s, Finish(ok))
    ensures Inv(Apply(s, Finish(ok)))
  {
    var news := GroupOutcomes(s.phase.group, s.phase.group[0], ok, s.lastSequence + 1);
    FinishFifo(s, ok);
    FinishConsecutive(s, ok, news);
    FinishCounted(s, ok, news);
    FinishAtomic(s, ok, news);
    FinishLogged(s, ok);
  }

  /** Each number of a group belongs to one of its writers. */
  lemma {:induction false} CoveredByGroup(group: seq<Writer>, leader: Writer, first: nat, n: nat) returns (o: Outcome)
    requires first <= n < first + |AllOps(group)|
    ensures o in GroupOutcomes(group, leader, true, first) && Covers(o, n)
    decreases |group|
  {
    var init := group[..|group| - 1];
    if n < first + |AllOps(init)| {
      o := CoveredByGroup(init, leader, first, n);
    } else {
      o := GroupOutcomes(group, leader, true, first)[|group| - 1];
    }
  }

  lemma StepKeeps(size: seq<Op> -> nat, s: State, step: Step)
    requires Inv(s) && Enabled(size, s, step)
    ensures Inv(Apply(s, step))
  {
    match step
    case Enqueue(w) => EnqueueKeeps(s, w);
    case Leave(ok) => LeaveKeeps(s, ok);
    case Begin(n) => BeginKeeps(size, s, n);
    case AppendLog(synced) => AppendLogKeeps(s, synced);
    case InsertEntry => InsertKeeps(s);
    case Finish(ok) =>
      FinishKeeps(s, ok);
  }

  // ----- over all runs -----

  ghost predicate IsRun(size: seq<Op> -> nat, run: seq<State>, steps: seq<Step>) {
    && |run| == |steps| + 1 && run[0] == INITIAL
    && forall i :: 0 <= i < |steps| ==>
         (run[i].phase.Writing? ==> run[i].phase.group != []) && Enabled(size, run[i], steps[i]) && run[i + 1] == Apply(run[i], steps[i])
  }

  lemma {:induction false} RunKeeps(size: seq<Op> -> nat, run: seq<State>, steps: seq<Step>, i: nat)
    requires IsRun(size, run, steps) && i < |run|
    ensures Inv(run[i])
    decreases i
  {
    if i > 0 {
      RunKeeps(size, run, steps, i - 1);
      StepKeeps(size, run[i - 1], steps[i - 1]);
    }
  }

  /** What a read at the last sequence sees. */
  ghost function View(s: State): map<nat, Op> {
    map n | n in s.mem && n <= s.lastSequence :: s.mem[n]
  }

  /** Main result: in every state of every run, writers come back in the order they arrived, accepted
      batches have consecutive numbers in that order, a sync writer was led by a sync one, and a reader
      sees exactly the accepted batches, each whole and in the log. */
  lemma GroupCommit(size: seq<Op> -> nat, run: seq<State>, steps: seq<Step>, k: nat)
    requires IsRun(size, run, steps) && k < |run|
    ensures var s := run[k];
            && Writers(s.outcomes) <= s.arrivals
            && (forall i, j :: 0 <= i < j < |s.outcomes| ==> s.outcomes[i].writer.id != s.outcomes[j].writer.id)
            && (forall i, j :: 0 <= i < j < |s.outcomes| ==> s.outcomes[i].first + s.outcomes[i].count <= s.outcomes[j].first)
            && (forall o :: o in s.outcomes && o.writer.sync ==> o.leader.sync)
            && (forall n :: n in View(s) <==> exists o :: o in s.outcomes && Covers(o, n))
            && (forall o, n: nat :: o in s.outcomes && Covers(o, n) ==> View(s)[n] == Ops(o.writer)[n - o.first])
            && (forall o :: o in s.outcomes && o.ok && o.writer.batch.Some? ==> exists r :: r in s.log && InRecord(r, o))
  {
    RunKeeps(size, run, steps, k);
    var s := run[k];
    forall i, j | 0 <= i < j < |s.outcomes|
      ensures s.outcomes[i].writer.id != s.outcomes[j].writer.id
      ensures s.outcomes[i].first + s.outcomes[i].count <= s.outcomes[j].first
    {
      assert s.arrivals[i] == s.outcomes[i].writer && s.arrivals[j] == s.outcomes[j].writer;
      OrderedRanges(s, i, j);
    }
    forall o, n: nat | o in s.outcomes && Covers(o, n) ensures n in View(s) {
      WithinLast(s, o);
    }
  }

  lemma {:induction false} OrderedRanges(s: State, i: nat, j: nat)
    requires Consecutive(s) && i < j < |s.outcomes|
    ensures s.outcomes[i].first + s.outcomes[i].count <= s.outcomes[j].first
    decreases j
  {
    if i + 1 < j {
      OrderedRanges(s, i, j - 1);
    }
  }
}
