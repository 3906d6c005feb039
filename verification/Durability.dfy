/** Logs, tables and manifest on disk, over all runs of writing, flushing, compacting, deleting
    obsolete files, crashing and recovering (db/db_impl.cc, db/version_set.cc). A version is here the
    set of its tables' numbers; which level they are on is VersionSet's matter. */
module Durability {
  import opened Options
  import opened DbFormat
  import opened CompactionReads
  import opened Db
  import Version

  /** A batch as it is in a log: its entries and last sequence number, whether the writer was told it is
      in, and whether it had asked for a sync. */
  datatype Record = Record(entries: set<Entry>, last: nat, acked: bool, sync: bool)

  datatype Log = Log(records: seq<Record>, synced: nat)

  /** A manifest record. The last two only observe: the batches its version stands for, and the oldest
      sequence number at which it still answers for all of them. */
  datatype Edit = Edit(deleted: set<nat>, added: set<nat>, logNumber: nat, nextFile: nat, lastSequence: nat,
                       stands: set<Record>, floor: nat)

  /** Files by number; the current manifest is the one the file CURRENT names, and its first
      `syncedEdits` records cannot be lost. */
  datatype Disk = Disk(manifests: map<nat, seq<Edit>>, current: nat, syncedEdits: nat,
                       tables: map<nat, set<Entry>>, logs: map<nat, Log>)

  datatype Process =
    | Closed
    | Recovering(files: set<nat>, logNumber: nat, added: set<nat>, replayed: set<Record>, memtable: set<Record>,
                 finished: set<nat>, cursor: Option<nat>, pos: nat, nextFile: nat, lastSequence: nat,
                 newLog: Option<nat>, newManifest: Option<nat>)
    | Running(mem: set<Record>, imm: Option<set<Record>>, curLog: nat, files: set<nat>, logNumber: nat,
              nextFile: nat, lastSequence: nat, pending: set<nat>, bgError: bool)

  /** `acked` only observes: the batches whose writers were told they are in, and that no crash took. */
  datatype State = State(disk: Disk, acked: set<Record>, proc: Process)

  datatype Outcome = Committed | Unsynced | NotWritten

  datatype FileKind = TableFile | LogFile | ManifestFile

  datatype Step =
    | Write(entries: set<Entry>, count: nat, sync: bool, logged: bool, ok: bool)
    | SwitchMemTable
    | BuildTable(entries: set<Entry>)
    | InstallFlush(table: Option<nat>, outcome: Outcome)
    | InstallCompaction(deleted: set<nat>, added: set<nat>, snapshot: nat, outcome: Outcome)
    | DeleteFile(kind: FileKind, number: nat)
    | Crash(kept: map<nat, nat>, keptEdits: nat)
    | BeginRecovery
    | ReplayRecord(log: nat)
    | FlushReplayed
    | FinishLog(log: nat)
    | MakeLog
    | MakeManifest
    | SetCurrent

  // ----- what the disk says -----

  ghost function EntriesOf(rs: set<Record>): set<Entry> {
    set r, e | r in rs && e in r.entries :: e
  }

  ghost function TableEntries(tables: map<nat, set<Entry>>, files: set<nat>): set<Entry> {
    set n, e | n in files && n in tables && e in tables[n] :: e
  }

  /** The records of the logs numbered from `from` on: what recovery will replay. */
  ghost function LiveRecords(logs: map<nat, Log>, from: nat): set<Record> {
    set n, r | n in logs && n >= from && r in logs[n].records :: r
  }

  /** The version after the records of a manifest. */
  function Files(edits: seq<Edit>): set<nat> {
    if edits == [] then {}
    else Files(edits[..|edits| - 1]) - edits[|edits| - 1].deleted + edits[|edits| - 1].added
  }

  /** The tables answer for the batches they stand for, and the logs hold only newer ones. */
  ghost predicate Stands(stands: set<Record>, tables: map<nat, set<Entry>>, files: set<nat>, live: set<Record>, floor: nat, last: nat) {
    var history, store, newer := EntriesOf(stands), TableEntries(tables, files), EntriesOf(live);
    && files <= tables.Keys && store <= history
    && UniqueSeqnos(history + newer) && After(newer, history)
    && SameReads(history, store, floor)
    && forall e :: e in history ==> e.key.seqno <= last
  }

  ghost predicate Current(d: Disk) {
    d.current in d.manifests && 0 < d.syncedEdits <= |d.manifests[d.current]|
  }

  ghost function LastEdit(d: Disk, k: nat): Edit
    requires Current(d) && 0 < k <= |d.manifests[d.current]|
  {
    d.manifests[d.current][k - 1]
  }

  ghost function VersionAt(d: Disk, k: nat): set<nat>
    requires Current(d) && 0 < k <= |d.manifests[d.current]|
  {
    Files(d.manifests[d.current][..k])
  }

  /** With the first `k` records of its manifest the disk can be recovered. */
  ghost predicate Recoverable(d: Disk, k: nat)
    requires Current(d) && 0 < k <= |d.manifests[d.current]|
  {
    var last, files := LastEdit(d, k), VersionAt(d, k);
    && Stands(last.stands, d.tables, files, LiveRecords(d.logs, last.logNumber), last.floor, last.lastSequence)
    && d.current < last.nextFile && last.logNumber < last.nextFile
    && forall n :: n in files ==> n < last.nextFile
  }

  ghost function SyncedRecords(logs: map<nat, Log>, from: nat): set<Record> {
    set n, r | n in logs && n >= from && logs[n].synced <= |logs[n].records| && r in logs[n].records[..logs[n].synced] :: r
  }

  /** No acknowledged batch is missing, and those that asked for it are where no crash takes them. */
  ghost predicate Promise(d: Disk, acked: set<Record>, k: nat)
    requires Current(d) && 0 < k <= |d.manifests[d.current]|
  {
    var last := LastEdit(d, k);
    && acked <= last.stands + LiveRecords(d.logs, last.logNumber)
    && forall r :: r in acked && r.sync ==> r in last.stands + SyncedRecords(d.logs, last.logNumber)
  }

  ghost predicate DiskGood(d: Disk, acked: set<Record>) {
    && Current(d)
    && (forall n :: n in d.logs ==> d.logs[n].synced <= |d.logs[n].records|)
    && (forall n, r :: n in d.logs && r in d.logs[n].records ==> forall e :: e in r.entries ==> e.key.seqno <= r.last)
    && (forall r :: r in acked ==> r.acked)
    && forall k :: d.syncedEdits <= k <= |d.manifests[d.current]| ==> Recoverable(d, k) && Promise(d, acked, k)
  }

  // ----- sets -----

  lemma EntriesUnion(a: set<Record>, b: set<Record>)
    ensures EntriesOf(a + b) == EntriesOf(a) + EntriesOf(b)
  {
  }

  lemma EntriesMonotone(a: set<Record>, b: set<Record>)
    requires a <= b
    ensures EntriesOf(a) <= EntriesOf(b)
  {
  }

  lemma StandsFewer(stands: set<Record>, tables: map<nat, set<Entry>>, files: set<nat>, live: set<Record>, fewer: set<Record>, floor: nat, last: nat)
    requires Stands(stands, tables, files, live, floor, last) && fewer <= live
    ensures Stands(stands, tables, files, fewer, floor, last)
  {
    EntriesMonotone(fewer, live);
  }

  /** Recovering puts the tables and the logs together, and that answers for all the batches there are. */
  lemma RecoveredReads(stands: set<Record>, tables: map<nat, set<Entry>>, files: set<nat>, live: set<Record>, floor: nat, last: nat)
    requires Stands(stands, tables, files, live, floor, last)
    ensures SameReads(EntriesOf(stands + live), TableEntries(tables, files) + EntriesOf(live), floor)
  {
    var history, store, newer := EntriesOf(stands), TableEntries(tables, files), EntriesOf(live);
    BatchKeepsReads(store, history, newer, floor);
    EntriesUnion(stands, live);
    assert newer + store == store + newer;
  }

  // ----- the steps -----

  const INITIAL_EDIT := Edit({}, {}, 0, 2, 0, {}, 0)

  /** A database as DBImpl::NewDB leaves it. */
  const INITIAL := State(Disk(map[1 := [INITIAL_EDIT]], 1, 1, map[], map[]), {}, Closed)

  /** What is left of the entries reads the same from the snapshot on. */
  ghost predicate Replaces(before: set<Entry>, after: set<Entry>, snapshot: nat) {
    after <= before && SameReads(before, after, snapshot)
  }

  ghost predicate Enabled(s: State, step: Step) {
    var d, p := s.disk, s.proc;
    match step
    case Write(entries, count, sync, logged, ok) =>
      && p.Running? && !p.bgError && p.curLog in d.logs && (ok ==> logged)
      && UniqueSeqnos(entries) && forall e :: e in entries ==> p.lastSequence < e.key.seqno <= p.lastSequence + count
    case SwitchMemTable => p.Running? && !p.bgError && p.imm.None?
    case BuildTable(entries) => p.Running?
    case InstallFlush(table, outcome) =>
      && p.Running? && p.imm.Some? && Current(d) && d.syncedEdits == |d.manifests[d.current]|
      && (if table.None? then EntriesOf(p.imm.value) == {}
          else table.value in p.pending && table.value in d.tables && d.tables[table.value] == EntriesOf(p.imm.value))
    case InstallCompaction(deleted, added, snapshot, outcome) =>
      && p.Running? && Current(d) && d.syncedEdits == |d.manifests[d.current]|
      && deleted <= p.files && added <= p.pending + p.files
      && LastEdit(d, d.syncedEdits).floor <= snapshot
      && Replaces(TableEntries(d.tables, p.files), TableEntries(d.tables, p.files - deleted + added), snapshot)
    case DeleteFile(kind, n) =>
      && p.Running? && !p.bgError
      && (if kind.TableFile? then n !in p.files && n !in p.pending
          else if kind.LogFile? then n < p.logNumber
          else n < d.current)
    case Crash(kept, keptEdits) =>
      && Current(d) && d.syncedEdits <= keptEdits <= |d.manifests[d.current]|
      && forall n :: n in d.logs ==> n in kept && d.logs[n].synced <= kept[n] <= |d.logs[n].records|
    case BeginRecovery => p.Closed? && Current(d)
    case ReplayRecord(n) =>
      && p.Recovering? && InTurn(d, p, n)
      && (p.cursor == Some(n) || p.cursor == None) && p.pos < |d.logs[n].records| && (p.cursor == None ==> p.pos == 0)
    case FlushReplayed => p.Recovering? && p.memtable != {}
    case FinishLog(n) =>
      && p.Recovering? && InTurn(d, p, n) && p.memtable == {}
      && if p.cursor == None then d.logs[n].records == [] else p.cursor == Some(n) && p.pos == |d.logs[n].records|
    case MakeLog => p.Recovering? && p.newLog.None? && p.cursor.None? && forall n :: n in d.logs && n >= p.logNumber ==> n in p.finished
    case MakeManifest => p.Recovering? && p.newLog.Some? && p.newManifest.None? && Current(d)
    case SetCurrent => p.Recovering? && p.newManifest.Some? && p.newLog.Some? && p.newManifest.value in d.manifests
  }

  /** Logs are replayed from the lowest number up. */
  ghost predicate InTurn(d: Disk, p: Process, n: nat)
    requires p.Recovering?
  {
    && p.newLog.None? && n in d.logs && n >= p.logNumber && n !in p.finished
    && forall m :: m in d.logs && p.logNumber <= m < n ==> m in p.finished
  }

  /** The new version's record, as LogAndApply completes it. */
  function InstallEdit(d: Disk, edit: Edit, outcome: Outcome): Disk
    requires d.current in d.manifests
  {
    match outcome
    case NotWritten => d
    case Unsynced => d.(manifests := d.manifests[d.current := d.manifests[d.current] + [edit]])
    case Committed => d.(manifests := d.manifests[d.current := d.manifests[d.current] + [edit]], syncedEdits := |d.manifests[d.current]| + 1)
  }

  function FlushEdit(d: Disk, p: Process, table: Option<nat>): Edit
    requires p.Running? && p.imm.Some? && d.current in d.manifests && d.manifests[d.current] != []
  {
    var last := d.manifests[d.current][|d.manifests[d.current]| - 1];
    Edit({}, if table.Some? then {table.value} else {}, p.curLog, p.nextFile, p.lastSequence, last.stands + p.imm.value, last.floor)
  }

  function CompactionEdit(d: Disk, p: Process, deleted: set<nat>, added: set<nat>, snapshot: nat): Edit
    requires p.Running? && d.current in d.manifests && d.manifests[d.current] != []
  {
    var last := d.manifests[d.current][|d.manifests[d.current]| - 1];
    Edit(deleted, added, p.logNumber, p.nextFile, p.lastSequence, last.stands, snapshot)
  }

  function RecoveryEdit(d: Disk, p: Process): Edit
    requires p.Recovering? && p.newLog.Some? && d.current in d.manifests && d.manifests[d.current] != []
  {
    var last := d.manifests[d.current][|d.manifests[d.current]| - 1];
    Edit({}, p.files + p.added, p.newLog.value, p.nextFile, p.lastSequence, last.stands + p.replayed, last.floor)
  }

  function Max(a: nat, b: nat): nat {
    if a < b then b else a
  }

  function Truncate(log: Log, n: nat): Log
    requires n <= |log.records|
  {
    Log(log.records[..n], n)
  }

  /** What a crash may leave: of each log and of the manifest at least what was synced. */
  function Cut(d: Disk, kept: map<nat, nat>, keptEdits: nat): Disk
    requires d.current in d.manifests && keptEdits <= |d.manifests[d.current]|
    requires forall n :: n in d.logs ==> n in kept && kept[n] <= |d.logs[n].records|
  {
    d.(manifests := d.manifests[d.current := d.manifests[d.current][..keptEdits]], syncedEdits := keptEdits,
       logs := map n | n in d.logs :: Truncate(d.logs[n], kept[n]))
  }

  /** The acknowledged batches a crash leaves. */
  ghost function Surviving(d: Disk, acked: set<Record>): set<Record>
    requires Current(d)
  {
    var last := LastEdit(d, d.syncedEdits);
    acked * (last.stands + LiveRecords(d.logs, last.logNumber))
  }

  ghost function Apply(s: State, step: Step): State
    requires Enabled(s, step) && DiskGood(s.disk, s.acked)
  {
    var d, p := s.disk, s.proc;
    match step
    case Write(entries, count, sync, logged, ok) =>
      var record := Record(entries, p.lastSequence + count, ok, sync);
      var log := d.logs[p.curLog];
      var log' := Log(log.records + [record], if ok && sync then |log.records| + 1 else log.synced);
      // a failed sync is a background error
      s.(disk := if logged then d.(logs := d.logs[p.curLog := log']) else d, acked := if ok then s.acked + {record} else s.acked,
         proc := p.(lastSequence := p.lastSequence + count, mem := if ok then p.mem + {record} else p.mem, bgError := logged && !ok && sync))
    case SwitchMemTable =>
      s.(disk := d.(logs := d.logs[p.nextFile := Log([], 0)]),
         proc := p.(imm := Some(p.mem), mem := {}, curLog := p.nextFile, nextFile := p.nextFile + 1))
    case BuildTable(entries) =>
      s.(disk := d.(tables := d.tables[p.nextFile := entries]), proc := p.(pending := p.pending + {p.nextFile}, nextFile := p.nextFile + 1))
    case InstallFlush(table, outcome) =>
      var edit := FlushEdit(d, p, table);
      s.(disk := InstallEdit(d, edit, outcome),
         proc := if outcome != Committed then p.(bgError := true)
                 else p.(files := p.files + edit.added, pending := p.pending - edit.added, logNumber := p.curLog, imm := None))
    case InstallCompaction(deleted, added, snapshot, outcome) =>
      s.(disk := InstallEdit(d, CompactionEdit(d, p, deleted, added, snapshot), outcome),
         proc := if outcome != Committed then p.(bgError := true)
                 else p.(files := p.files - deleted + added, pending := p.pending - added))
    case DeleteFile(kind, n) =>
      s.(disk := if kind.TableFile? then d.(tables := d.tables - {n})
                 else if kind.LogFile? then d.(logs := d.logs - {n})
                 else d.(manifests := d.manifests - {n}))
    case Crash(kept, keptEdits) =>
      var d' := Cut(d, kept, keptEdits);
      State(d', Surviving(d', s.acked), Closed)
    case BeginRecovery =>
      var last := LastEdit(d, d.syncedEdits);
      s.(proc := Recovering(VersionAt(d, d.syncedEdits), last.logNumber, {}, {}, {}, {}, None, 0,
                            last.nextFile + 1, last.lastSequence, None, None))
    case ReplayRecord(n) =>
      var r := d.logs[n].records[p.pos];
      s.(proc := p.(cursor := Some(n), pos := p.pos + 1, memtable := p.memtable + {r}, lastSequence := Max(p.lastSequence, r.last)))
    case FlushReplayed =>
      s.(disk := d.(tables := d.tables[p.nextFile := EntriesOf(p.memtable)]),
         proc := p.(added := p.added + {p.nextFile}, replayed := p.replayed + p.memtable, memtable := {}, nextFile := p.nextFile + 1))
    case FinishLog(n) =>
      s.(proc := p.(cursor := None, pos := 0, finished := p.finished + {n}, nextFile := Max(p.nextFile, n + 1)))
    case MakeLog =>
      s.(disk := d.(logs := d.logs[p.nextFile := Log([], 0)]), proc := p.(newLog := Some(p.nextFile), nextFile := p.nextFile + 1))
    case MakeManifest =>
      var m := LastEdit(d, d.syncedEdits).nextFile;
      s.(disk := d.(manifests := d.manifests[m := [RecoveryEdit(d, p)]]), proc := p.(newManifest := Some(m)))
    case SetCurrent =>
      var edit := RecoveryEdit(d, p);
      s.(disk := d.(current := p.newManifest.value, syncedEdits := 1),
         proc := Running({}, None, p.newLog.value, edit.added, p.newLog.value, p.nextFile, p.lastSequence, {}, false))
  }

  // ----- what every step keeps -----

  ghost predicate Bounded(rs: set<Record>, bound: nat) {
    forall e :: e in EntriesOf(rs) ==> e.key.seqno <= bound
  }

  ghost function AckedOf(rs: set<Record>): set<Record> {
    set r | r in rs && r.acked
  }

  /** The records of the logs from `from` on but before `to`. */
  ghost function Between(logs: map<nat, Log>, from: nat, to: nat): set<Record> {
    set n, r | n in logs && from <= n < to && r in logs[n].records :: r
  }

  ghost predicate RunningVersion(d: Disk, p: Process)
    requires p.Running?
  {
    && Current(d)
    && var last := LastEdit(d, d.syncedEdits);
    && p.files == VersionAt(d, d.syncedEdits) && p.logNumber == last.logNumber
    && (d.syncedEdits == |d.manifests[d.current]| || p.bgError)
    && (forall k :: d.syncedEdits <= k <= |d.manifests[d.current]| ==> LastEdit(d, k).nextFile <= p.nextFile)
    && p.curLog in d.logs && p.logNumber <= p.curLog < p.nextFile && d.current < p.nextFile
    && (forall n :: n in d.logs ==> n <= p.curLog)
    && (forall n :: n in p.files ==> n < p.nextFile)
    && (forall n :: n in p.pending ==> n < p.nextFile && n in d.tables)
  }

  /** The memtables hold the acknowledged batches of the current log and of the one before it, and
      nothing is above the last sequence number. */
  ghost predicate RunningMemory(stands: set<Record>, logs: map<nat, Log>, p: Process)
    requires p.Running?
  {
    && p.mem == AckedOf(LiveRecords(logs, p.curLog))
    && (if p.imm.None? then p.logNumber == p.curLog
        else p.logNumber < p.curLog && p.imm.value == AckedOf(Between(logs, p.logNumber, p.curLog)))
    && After(EntriesOf(LiveRecords(logs, p.curLog)), EntriesOf(Between(logs, p.logNumber, p.curLog)))
    && Bounded(stands + LiveRecords(logs, p.logNumber), p.lastSequence)
  }

  ghost predicate RunningGood(s: State)
    requires s.proc.Running?
  {
    && RunningVersion(s.disk, s.proc)
    && RunningMemory(LastEdit(s.disk, s.disk.syncedEdits).stands, s.disk.logs, s.proc)
  }

  ghost predicate RecoveringGood(s: State)
    requires s.proc.Recovering?
  {
    var d, p := s.disk, s.proc;
    && Current(d) && d.syncedEdits == |d.manifests[d.current]|
    && var last := LastEdit(d, d.syncedEdits);
    && p.files == VersionAt(d, d.syncedEdits) && p.logNumber == last.logNumber && last.nextFile < p.nextFile
    && p.added <= d.tables.Keys && (forall n :: n in p.added ==> n < p.nextFile)
    && TableEntries(d.tables, p.added) == EntriesOf(p.replayed)
    && p.replayed + p.memtable == ReplayedSoFar(d.logs, p)
    && (forall n :: n in p.finished ==> n < p.nextFile)
    && (p.cursor.Some? ==> p.cursor.value in d.logs && p.cursor.value >= p.logNumber && p.cursor.value !in p.finished
                           && p.pos <= |d.logs[p.cursor.value].records|)
    && (p.cursor.None? ==> p.pos == 0 && p.memtable == {})
    && last.lastSequence <= p.lastSequence && Bounded(p.replayed + p.memtable, p.lastSequence)
    && (p.newLog.Some? ==>
          && p.newLog.value in d.logs && d.logs[p.newLog.value] == Log([], 0) && p.newLog.value < p.nextFile && p.logNumber <= p.newLog.value
          && p.cursor.None?
          && forall n :: n in d.logs ==> n <= p.newLog.value && (n >= p.logNumber ==> n in p.finished || n == p.newLog.value))
    && (p.newManifest.Some? ==>
          && p.newLog.Some? && p.newManifest.value == last.nextFile
          && p.newManifest.value in d.manifests && d.manifests[p.newManifest.value] == [RecoveryEdit(d, p)])
  }

  ghost function ReplayedSoFar(logs: map<nat, Log>, p: Process): set<Record>
    requires p.Recovering?
  {
    (set n, r | n in logs && n >= p.logNumber && n in p.finished && r in logs[n].records :: r) +
    (if p.cursor.Some? && p.cursor.value in logs && p.pos <= |logs[p.cursor.value].records|
     then set r | r in logs[p.cursor.value].records[..p.pos] else {})
  }

  ghost predicate Inv(s: State) {
    && DiskGood(s.disk, s.acked)
    && match s.proc
       case Closed => s.disk.syncedEdits == |s.disk.manifests[s.disk.current]|
       case Recovering(_, _, _, _, _, _, _, _, _, _, _, _) => RecoveringGood(s)
       case Running(_, _, _, _, _, _, _, _, _) => RunningGood(s)
  }

  // ----- writing -----

  lemma LiveAppend(logs: map<nat, Log>, from: nat, c: nat, log: Log, r: Record)
    requires c in logs && log.records == logs[c].records + [r]
    ensures LiveRecords(logs[c := log], from) == if c >= from then LiveRecords(logs, from) + {r} else LiveRecords(logs, from)
  {
    var logs' := logs[c := log];
    forall x ensures x in LiveRecords(logs', from) <==> x in LiveRecords(logs, from) || (c >= from && x == r) {
      if x in LiveRecords(logs', from) {
        var n :| n in logs' && n >= from && x in logs'[n].records;
        assert n != c ==> x in logs[n].records;
      }
      if x in LiveRecords(logs, from) {
        var n :| n in logs && n >= from && x in logs[n].records;
        assert x in logs'[n].records;
      }
      assert r in logs'[c].records;
    }
  }

  lemma SyncedAppend(logs: map<nat, Log>, from: nat, c: nat, log: Log, r: Record)
    requires c in logs && log.records == logs[c].records + [r]
    requires logs[c].synced <= |logs[c].records| && (log.synced == logs[c].synced || log.synced == |log.records|)
    ensures SyncedRecords(logs, from) <= SyncedRecords(logs[c := log], from)
    ensures log.synced == |log.records| && c >= from ==> r in SyncedRecords(logs[c := log], from)
  {
    var logs' := logs[c := log];
    forall x | x in SyncedRecords(logs, from) ensures x in SyncedRecords(logs', from) {
      var n :| n in logs && n >= from && logs[n].synced <= |logs[n].records| && x in logs[n].records[..logs[n].synced];
      if n == c {
        var i :| 0 <= i < logs[n].synced && logs[n].records[i] == x;
        assert log.records[..log.synced][i] == x;
      }
      assert x in logs'[n].records[..logs'[n].synced];
    }
    if log.synced == |log.records| && c >= from {
      assert log.records[..log.synced][|logs[c].records|] == r;
      assert r in logs'[c].records[..logs'[c].synced];
    }
  }

  /** Entries above all there are keep the sequence numbers apart and are newer. */
  lemma StandsMore(stands: set<Record>, tables: map<nat, set<Entry>>, files: set<nat>, live: set<Record>, r: Record, floor: nat, last: nat, bound: nat)
    requires Stands(stands, tables, files, live, floor, last)
    requires Bounded(stands + live, bound) && UniqueSeqnos(r.entries) && forall e :: e in r.entries ==> e.key.seqno > bound
    ensures Stands(stands, tables, files, live + {r}, floor, last)
  {
    EntriesUnion(live, {r});
    EntriesUnion(stands, live);
    assert EntriesOf({r}) == r.entries;
    var before := EntriesOf(stands) + EntriesOf(live);
    assert forall e :: e in before ==> e.key.seqno <= bound;
    assert EntriesOf(stands) + EntriesOf(live + {r}) == before + r.entries;
  }

  lemma WriteRecoverable(s: State, d': Disk, r: Record, log: Log)
    requires Inv(s) && s.proc.Running? && !s.proc.bgError && s.proc.curLog in s.disk.logs
    requires UniqueSeqnos(r.entries) && forall e :: e in r.entries ==> s.proc.lastSequence < e.key.seqno <= r.last
    requires log.records == s.disk.logs[s.proc.curLog].records + [r]
    requires d' == s.disk.(logs := s.disk.logs[s.proc.curLog := log])
    ensures Recoverable(d', d'.syncedEdits)
  {
    var d, p := s.disk, s.proc;
    var k := d.syncedEdits;
    assert Recoverable(d, k);
    var last, files := LastEdit(d, k), VersionAt(d, k);
    LiveAppend(d.logs, last.logNumber, p.curLog, log, r);
    StandsMore(last.stands, d.tables, files, LiveRecords(d.logs, last.logNumber), r, last.floor, last.lastSequence, p.lastSequence);
  }

  lemma WritePromise(s: State, d': Disk, r: Record, log: Log)
    requires DiskGood(s.disk, s.acked) && s.proc.Running? && RunningGood(s)
    requires log.records == s.disk.logs[s.proc.curLog].records + [r]
    requires log.synced == if r.acked && r.sync then |log.records| else s.disk.logs[s.proc.curLog].synced
    requires d' == s.disk.(logs := s.disk.logs[s.proc.curLog := log])
    ensures Promise(d', if r.acked then s.acked + {r} else s.acked, d'.syncedEdits)
  {
    var d, p := s.disk, s.proc;
    assert Promise(d, s.acked, d.syncedEdits);
    var last := LastEdit(d, d.syncedEdits);
    LiveAppend(d.logs, last.logNumber, p.curLog, log, r);
    SyncedAppend(d.logs, last.logNumber, p.curLog, log, r);
  }

  lemma WriteDisk(s: State, d': Disk, r: Record, log: Log)
    requires Inv(s) && s.proc.Running? && !s.proc.bgError && s.proc.curLog in s.disk.logs
    requires UniqueSeqnos(r.entries) && forall e :: e in r.entries ==> s.proc.lastSequence < e.key.seqno <= r.last
    requires log.records == s.disk.logs[s.proc.curLog].records + [r]
    requires log.synced == if r.acked && r.sync then |log.records| else s.disk.logs[s.proc.curLog].synced
    requires d' == s.disk.(logs := s.disk.logs[s.proc.curLog := log])
    ensures DiskGood(d', if r.acked then s.acked + {r} else s.acked)
  {
    WriteRecoverable(s, d', r, log);
    WritePromise(s, d', r, log);
  }

  lemma BetweenOther(logs: map<nat, Log>, from: nat, to: nat, c: nat, log: Log)
    requires c >= to
    ensures Between(logs[c := log], from, to) == Between(logs, from, to)
  {
    var logs' := logs[c := log];
    forall x ensures x in Between(logs', from, to) <==> x in Between(logs, from, to) {
      if x in Between(logs', from, to) {
        var n :| n in logs' && from <= n < to && x in logs'[n].records;
        assert x in logs[n].records;
      }
      if x in Between(logs, from, to) {
        var n :| n in logs && from <= n < to && x in logs[n].records;
        assert x in logs'[n].records;
      }
    }
  }

  lemma LiveSplit(logs: map<nat, Log>, from: nat, to: nat)
    requires from <= to
    ensures LiveRecords(logs, from) == Between(logs, from, to) + LiveRecords(logs, to)
  {
    forall x ensures x in LiveRecords(logs, from) <==> x in Between(logs, from, to) || x in LiveRecords(logs, to) {
      if x in LiveRecords(logs, from) {
        var n :| n in logs && n >= from && x in logs[n].records;
      }
    }
  }

  lemma BoundedMore(rs: set<Record>, r: Record, bound: nat)
    requires Bounded(rs, bound) && bound <= r.last && forall e :: e in r.entries ==> e.key.seqno <= r.last
    ensures Bounded(rs + {r}, r.last)
  {
    EntriesUnion(rs, {r});
  }

  lemma AfterMore(newer: set<Record>, older: set<Record>, all: set<Record>, r: Record, bound: nat)
    requires After(EntriesOf(newer), EntriesOf(older)) && older <= all && Bounded(all, bound)
    requires forall e :: e in r.entries ==> e.key.seqno > bound
    ensures After(EntriesOf(newer + {r}), EntriesOf(older))
  {
    EntriesUnion(newer, {r});
    EntriesMonotone(older, all);
    assert EntriesOf({r}) == r.entries;
  }

  lemma WriteMemory(stands: set<Record>, logs: map<nat, Log>, p: Process, q: Process, r: Record, log: Log)
    requires p.Running? && p.curLog in logs && p.logNumber <= p.curLog && RunningMemory(stands, logs, p)
    requires forall e :: e in r.entries ==> p.lastSequence < e.key.seqno <= r.last
    requires log.records == logs[p.curLog].records + [r] && p.lastSequence <= r.last
    requires q.Running? && q == p.(lastSequence := r.last, mem := if r.acked then p.mem + {r} else p.mem, bgError := q.bgError)
    ensures RunningMemory(stands, logs[p.curLog := log], q)
  {
    LiveAppend(logs, p.logNumber, p.curLog, log, r);
    LiveAppend(logs, p.curLog, p.curLog, log, r);
    BetweenOther(logs, p.logNumber, p.curLog, p.curLog, log);
    LiveSplit(logs, p.logNumber, p.curLog);
    var all := stands + LiveRecords(logs, p.logNumber);
    BoundedMore(all, r, p.lastSequence);
    AfterMore(LiveRecords(logs, p.curLog), Between(logs, p.logNumber, p.curLog), all, r, p.lastSequence);
    assert stands + (LiveRecords(logs, p.logNumber) + {r}) == all + {r};
  }

  lemma WriteKeeps(s: State, entries: set<Entry>, count: nat, sync: bool, logged: bool, ok: bool)
    requires Inv(s) && Enabled(s, Write(entries, count, sync, logged, ok))
    ensures Inv(Apply(s, Write(entries, count, sync, logged, ok)))
  {
    var t := Apply(s, Write(entries, count, sync, logged, ok));
    if logged {
      var r := Record(entries, s.proc.lastSequence + count, ok, sync);
      var log := t.disk.logs[s.proc.curLog];
      WriteDisk(s, t.disk, r, log);
      WriteMemory(LastEdit(s.disk, s.disk.syncedEdits).stands, s.disk.logs, s.proc, t.proc, r, log);
    }
  }

  // ----- frames -----

  lemma TablesFrame(tables: map<nat, set<Entry>>, tables': map<nat, set<Entry>>, files: set<nat>)
    requires forall n :: n in files && n in tables ==> n in tables' && tables'[n] == tables[n]
    requires files <= tables.Keys
    ensures TableEntries(tables', files) == TableEntries(tables, files)
  {
    forall e ensures e in TableEntries(tables', files) <==> e in TableEntries(tables, files) {
      if e in TableEntries(tables', files) {
        var n :| n in files && n in tables' && e in tables'[n];
        assert e in tables[n];
      }
      if e in TableEntries(tables, files) {
        var n :| n in files && n in tables && e in tables[n];
        assert e in tables'[n];
      }
    }
  }

  /** A change of files that are not needed. */
  lemma KeptGood(d: Disk, d': Disk, acked: set<Record>, k: nat)
    requires Current(d) && d.syncedEdits <= k <= |d.manifests[d.current]| && Recoverable(d, k) && Promise(d, acked, k)
    requires d'.current == d.current && d.current in d'.manifests && d'.manifests[d.current] == d.manifests[d.current]
    requires d'.syncedEdits == d.syncedEdits
    requires forall n :: n in VersionAt(d, k) && n in d.tables ==> n in d'.tables && d'.tables[n] == d.tables[n]
    requires var from := LastEdit(d, k).logNumber;
             LiveRecords(d'.logs, from) == LiveRecords(d.logs, from) && SyncedRecords(d.logs, from) <= SyncedRecords(d'.logs, from)
    ensures Recoverable(d', k) && Promise(d', acked, k)
  {
    TablesFrame(d.tables, d'.tables, VersionAt(d, k));
  }

  lemma NewLogFrame(logs: map<nat, Log>, n: nat, from: nat)
    requires n !in logs
    ensures LiveRecords(logs[n := Log([], 0)], from) == LiveRecords(logs, from)
    ensures SyncedRecords(logs, from) <= SyncedRecords(logs[n := Log([], 0)], from)
  {
    var logs' := logs[n := Log([], 0)];
    forall x ensures x in LiveRecords(logs', from) <==> x in LiveRecords(logs, from) {
      if x in LiveRecords(logs', from) {
        var m :| m in logs' && m >= from && x in logs'[m].records;
        assert x in logs[m].records;
      }
      if x in LiveRecords(logs, from) {
        var m :| m in logs && m >= from && x in logs[m].records;
        assert x in logs'[m].records;
      }
    }
    forall x | x in SyncedRecords(logs, from) ensures x in SyncedRecords(logs', from) {
      var m :| m in logs && m >= from && logs[m].synced <= |logs[m].records| && x in logs[m].records[..logs[m].synced];
      assert x in logs'[m].records[..logs'[m].synced];
    }
  }

  lemma NewLogDisk(d: Disk, acked: set<Record>, n: nat)
    requires DiskGood(d, acked) && n !in d.logs
    ensures DiskGood(d.(logs := d.logs[n := Log([], 0)]), acked)
  {
    var d' := d.(logs := d.logs[n := Log([], 0)]);
    forall k | d.syncedEdits <= k <= |d.manifests[d.current]| ensures Recoverable(d', k) && Promise(d', acked, k) {
      assert Recoverable(d, k) && Promise(d, acked, k);
      NewLogFrame(d.logs, n, LastEdit(d, k).logNumber);
      KeptGood(d, d', acked, k);
    }
  }

  lemma NewTableDisk(d: Disk, acked: set<Record>, n: nat, entries: set<Entry>)
    requires DiskGood(d, acked)
    requires forall k :: d.syncedEdits <= k <= |d.manifests[d.current]| ==> LastEdit(d, k).nextFile <= n
    ensures DiskGood(d.(tables := d.tables[n := entries]), acked)
  {
    var d' := d.(tables := d.tables[n := entries]);
    forall k | d.syncedEdits <= k <= |d.manifests[d.current]| ensures Recoverable(d', k) && Promise(d', acked, k) {
      assert Recoverable(d, k) && Promise(d, acked, k) && LastEdit(d, k).nextFile <= n;
      KeptGood(d, d', acked, k);
    }
  }

  lemma SwitchKeeps(s: State)
    requires Inv(s) && Enabled(s, SwitchMemTable)
    ensures Inv(Apply(s, SwitchMemTable))
  {
    var d, p := s.disk, s.proc;
    var t := Apply(s, SwitchMemTable);
    var n := p.nextFile;
    NewLogDisk(d, s.acked, n);
    NewLogFrame(d.logs, n, p.logNumber);
    NewLogFrame(d.logs, n, n);
    LiveSplit(t.disk.logs, p.logNumber, n);
    assert LiveRecords(d.logs, n) == {};
    assert Between(t.disk.logs, p.logNumber, n) == LiveRecords(d.logs, p.curLog);
    assert EntriesOf({}) == {};
  }

  lemma BuildTableKeeps(s: State, entries: set<Entry>)
    requires Inv(s) && Enabled(s, BuildTable(entries))
    ensures Inv(Apply(s, BuildTable(entries)))
  {
    NewTableDisk(s.disk, s.acked, s.proc.nextFile, entries);
    var t := Apply(s, BuildTable(entries));
    assert t.disk.manifests == s.disk.manifests && t.disk.logs == s.disk.logs;
    assert RunningVersion(t.disk, t.proc);
  }

  // ----- installing a version -----

  /** A record may be added to the manifest: the version it makes stands for the batches it names. */
  ghost predicate MayInstall(d: Disk, acked: set<Record>, edit: Edit) {
    && DiskGood(d, acked) && d.syncedEdits == |d.manifests[d.current]|
    && var files := VersionAt(d, d.syncedEdits) - edit.deleted + edit.added;
    && Stands(edit.stands, d.tables, files, LiveRecords(d.logs, edit.logNumber), edit.floor, edit.lastSequence)
    && d.current < edit.nextFile && edit.logNumber < edit.nextFile && (forall n :: n in files ==> n < edit.nextFile)
    && acked <= edit.stands + LiveRecords(d.logs, edit.logNumber)
    && forall r :: r in acked && r.sync ==> r in edit.stands + SyncedRecords(d.logs, edit.logNumber)
  }

  lemma InstallDisk(d: Disk, acked: set<Record>, edit: Edit, outcome: Outcome)
    requires MayInstall(d, acked, edit)
    ensures DiskGood(InstallEdit(d, edit, outcome), acked)
  {
    var edits := d.manifests[d.current];
    var n := |edits|;
    assert Recoverable(d, n) && Promise(d, acked, n);
    if !outcome.NotWritten? {
      var d' := InstallEdit(d, edit, outcome);
      var edits' := d'.manifests[d.current];
      assert edits'[..n] == edits == edits[..n] && edits'[..n + 1] == edits' && edits'[..|edits'| - 1] == edits;
      assert Recoverable(d', n) && Promise(d', acked, n);
      assert Recoverable(d', n + 1) && Promise(d', acked, n + 1);
    }
  }

  lemma SyncedSplit(logs: map<nat, Log>, from: nat, to: nat, r: Record)
    requires r in SyncedRecords(logs, from) && from <= to
    ensures r in Between(logs, from, to) || r in SyncedRecords(logs, to)
  {
    var n :| n in logs && n >= from && logs[n].synced <= |logs[n].records| && r in logs[n].records[..logs[n].synced];
    assert r in logs[n].records;
  }

  /** Writing the older memtable's batches to a table moves them from what the logs hold to what the
      tables stand for. */
  lemma FlushStands(stands: set<Record>, tables: map<nat, set<Entry>>, files: set<nat>, logs: map<nat, Log>, from: nat, to: nat,
                    flushed: set<Record>, files': set<nat>, floor: nat, last: nat, bound: nat)
    requires from <= to && Stands(stands, tables, files, LiveRecords(logs, from), floor, last)
    requires flushed <= Between(logs, from, to) && Bounded(stands + LiveRecords(logs, from), bound)
    requires After(EntriesOf(LiveRecords(logs, to)), EntriesOf(Between(logs, from, to)))
    requires files' <= tables.Keys && TableEntries(tables, files') == TableEntries(tables, files) + EntriesOf(flushed)
    ensures Stands(stands + flushed, tables, files', LiveRecords(logs, to), floor, bound)
  {
    LiveSplit(logs, from, to);
    var history, store, news := EntriesOf(stands), TableEntries(tables, files), EntriesOf(flushed);
    EntriesMonotone(flushed, LiveRecords(logs, from));
    EntriesMonotone(flushed, Between(logs, from, to));
    EntriesMonotone(LiveRecords(logs, to), LiveRecords(logs, from));
    EntriesUnion(stands, flushed);
    EntriesUnion(stands, LiveRecords(logs, from));
    BatchKeepsReads(store, history, news, floor);
    assert news + store == TableEntries(tables, files');
  }

  lemma FilesUnion(tables: map<nat, set<Entry>>, a: set<nat>, b: set<nat>)
    ensures TableEntries(tables, a + b) == TableEntries(tables, a) + TableEntries(tables, b)
  {
  }

  lemma FlushFiles(tables: map<nat, set<Entry>>, files: set<nat>, table: Option<nat>, entries: set<Entry>)
    requires if table.None? then entries == {} else table.value in tables && tables[table.value] == entries
    ensures var added := if table.Some? then {table.value} else {};
            TableEntries(tables, files - {} + added) == TableEntries(tables, files) + entries
  {
    var added := if table.Some? then {table.value} else {};
    FilesUnion(tables, files, added);
    assert files - {} + added == files + added;
    assert TableEntries(tables, added) == entries;
  }

  lemma FlushMayInstall(s: State, table: Option<nat>)
    requires Inv(s) && Enabled(s, InstallFlush(table, Committed))
    ensures MayInstall(s.disk, s.acked, FlushEdit(s.disk, s.proc, table))
  {
    var d, p := s.disk, s.proc;
    var k := d.syncedEdits;
    assert Recoverable(d, k) && Promise(d, s.acked, k);
    var last, files := LastEdit(d, k), VersionAt(d, k);
    var edit := FlushEdit(d, p, table);
    FlushFiles(d.tables, files, table, EntriesOf(p.imm.value));
    FlushStands(last.stands, d.tables, files, d.logs, p.logNumber, p.curLog, p.imm.value, files - {} + edit.added,
                last.floor, last.lastSequence, p.lastSequence);
    LiveSplit(d.logs, p.logNumber, p.curLog);
    forall r | r in s.acked && r.sync ensures r in edit.stands + SyncedRecords(d.logs, edit.logNumber) {
      if r in SyncedRecords(d.logs, last.logNumber) {
        SyncedSplit(d.logs, last.logNumber, p.curLog, r);
      }
    }
  }

  /** After the manifest's write, the version in memory is the manifest's. */
  lemma InstalledVersion(d: Disk, p: Process, q: Process, edit: Edit, outcome: Outcome)
    requires p.Running? && q.Running? && RunningVersion(d, p) && d.syncedEdits == |d.manifests[d.current]|
    requires edit.nextFile == p.nextFile && d.current < edit.nextFile
    requires forall n :: n in edit.added ==> n < p.nextFile
    requires q == if outcome != Committed then p.(bgError := true)
                  else p.(files := q.files, pending := q.pending, logNumber := edit.logNumber, imm := q.imm)
    requires outcome == Committed ==> q.files == p.files - edit.deleted + edit.added && q.pending <= p.pending && edit.logNumber <= p.curLog
    ensures RunningVersion(InstallEdit(d, edit, outcome), q)
  {
    var edits := d.manifests[d.current];
    var n := |edits|;
    if !outcome.NotWritten? {
      var d' := InstallEdit(d, edit, outcome);
      var edits' := d'.manifests[d.current];
      assert edits'[..n] == edits == edits[..n] && edits'[..n + 1] == edits' && edits'[..|edits'| - 1] == edits;
    }
  }

  lemma FlushedMemory(stands: set<Record>, logs: map<nat, Log>, p: Process, q: Process)
    requires p.Running? && p.imm.Some? && RunningMemory(stands, logs, p)
    requires q.Running? && q.mem == p.mem && q.imm == None && q.curLog == q.logNumber == p.curLog && q.lastSequence == p.lastSequence
    ensures RunningMemory(stands + p.imm.value, logs, q)
  {
    LiveSplit(logs, p.logNumber, p.curLog);
    EntriesMonotone(stands + p.imm.value + LiveRecords(logs, p.curLog), stands + LiveRecords(logs, p.logNumber));
    assert Between(logs, p.curLog, p.curLog) == {};
    assert EntriesOf({}) == {};
  }

  lemma InstallFlushKeeps(s: State, table: Option<nat>, outcome: Outcome)
    requires Inv(s) && Enabled(s, InstallFlush(table, outcome))
    ensures Inv(Apply(s, InstallFlush(table, outcome)))
  {
    var t := Apply(s, InstallFlush(table, outcome));
    var d, p := s.disk, s.proc;
    var edit := FlushEdit(d, p, table);
    FlushMayInstall(s, table);
    InstallDisk(d, s.acked, edit, outcome);
    InstalledVersion(d, p, t.proc, edit, outcome);
    if outcome == Committed {
      FlushedMemory(LastEdit(d, d.syncedEdits).stands, d.logs, p, t.proc);
    } else if outcome == Unsynced {
      assert LastEdit(t.disk, d.syncedEdits) == LastEdit(d, d.syncedEdits);
    }
  }

  lemma CompactionMayInstall(s: State, deleted: set<nat>, added: set<nat>, snapshot: nat)
    requires Inv(s) && Enabled(s, InstallCompaction(deleted, added, snapshot, Committed))
    ensures MayInstall(s.disk, s.acked, CompactionEdit(s.disk, s.proc, deleted, added, snapshot))
  {
    var d, p := s.disk, s.proc;
    var k := d.syncedEdits;
    assert Recoverable(d, k) && Promise(d, s.acked, k);
    var last := LastEdit(d, k);
    EntriesMonotone(last.stands, last.stands + LiveRecords(d.logs, p.logNumber));
    var history := EntriesOf(last.stands);
    var before, after := TableEntries(d.tables, p.files), TableEntries(d.tables, p.files - deleted + added);
    forall u, q | q >= snapshot ensures Read(after, u, q) == Read(history, u, q) {
      assert Read(before, u, q) == Read(history, u, q);
    }
  }

  lemma InstallCompactionKeeps(s: State, deleted: set<nat>, added: set<nat>, snapshot: nat, outcome: Outcome)
    requires Inv(s) && Enabled(s, InstallCompaction(deleted, added, snapshot, outcome))
    ensures Inv(Apply(s, InstallCompaction(deleted, added, snapshot, outcome)))
  {
    var t := Apply(s, InstallCompaction(deleted, added, snapshot, outcome));
    var d, p := s.disk, s.proc;
    var edit := CompactionEdit(d, p, deleted, added, snapshot);
    CompactionMayInstall(s, deleted, added, snapshot);
    InstallDisk(d, s.acked, edit, outcome);
    InstalledVersion(d, p, t.proc, edit, outcome);
    assert outcome == Unsynced ==> LastEdit(t.disk, d.syncedEdits) == LastEdit(d, d.syncedEdits);
  }

  // ----- deleting -----

  lemma DropLogFrame(logs: map<nat, Log>, n: nat, from: nat)
    requires n < from
    ensures LiveRecords(logs - {n}, from) == LiveRecords(logs, from) && SyncedRecords(logs - {n}, from) == SyncedRecords(logs, from)
  {
    var logs' := logs - {n};
    forall x ensures x in LiveRecords(logs', from) <==> x in LiveRecords(logs, from) {
      if x in LiveRecords(logs, from) {
        var m :| m in logs && m >= from && x in logs[m].records;
        assert m in logs' && x in logs'[m].records;
      }
      if x in LiveRecords(logs', from) {
        var m :| m in logs' && m >= from && x in logs'[m].records;
        assert x in logs[m].records;
      }
    }
    forall x ensures x in SyncedRecords(logs', from) <==> x in SyncedRecords(logs, from) {
      if x in SyncedRecords(logs, from) {
        var m :| m in logs && m >= from && logs[m].synced <= |logs[m].records| && x in logs[m].records[..logs[m].synced];
        assert m in logs' && x in logs'[m].records[..logs'[m].synced];
      }
      if x in SyncedRecords(logs', from) {
        var m :| m in logs' && m >= from && logs'[m].synced <= |logs'[m].records| && x in logs'[m].records[..logs'[m].synced];
        assert x in logs[m].records[..logs[m].synced];
      }
    }
  }

  lemma DropLogBetween(logs: map<nat, Log>, n: nat, from: nat, to: nat)
    requires n < from
    ensures Between(logs - {n}, from, to) == Between(logs, from, to)
  {
    var logs' := logs - {n};
    forall x ensures x in Between(logs', from, to) <==> x in Between(logs, from, to) {
      if x in Between(logs, from, to) {
        var m :| m in logs && from <= m < to && x in logs[m].records;
        assert m in logs' && x in logs'[m].records;
      }
      if x in Between(logs', from, to) {
        var m :| m in logs' && from <= m < to && x in logs'[m].records;
        assert x in logs[m].records;
      }
    }
  }

  lemma DeleteFileKeeps(s: State, kind: FileKind, n: nat)
    requires Inv(s) && Enabled(s, DeleteFile(kind, n))
    ensures Inv(Apply(s, DeleteFile(kind, n)))
  {
    var d, p := s.disk, s.proc;
    var d' := Apply(s, DeleteFile(kind, n)).disk;
    var k := d.syncedEdits;
    assert Recoverable(d, k) && Promise(d, s.acked, k);
    if kind.LogFile? {
      DropLogFrame(d.logs, n, p.logNumber);
      DropLogFrame(d.logs, n, p.curLog);
      DropLogBetween(d.logs, n, p.logNumber, p.curLog);
    }
    KeptGood(d, d', s.acked, k);
  }

  // ----- crashing -----

  lemma CutLogs(logs: map<nat, Log>, kept: map<nat, nat>, from: nat)
    requires forall n :: n in logs ==> n in kept && logs[n].synced <= kept[n] <= |logs[n].records|
    ensures var cut := map n | n in logs :: Truncate(logs[n], kept[n]);
            && LiveRecords(cut, from) <= LiveRecords(logs, from)
            && SyncedRecords(logs, from) <= SyncedRecords(cut, from)
            && ((forall n :: n in logs ==> kept[n] == |logs[n].records|) ==> LiveRecords(cut, from) == LiveRecords(logs, from))
  {
    var cut := map n | n in logs :: Truncate(logs[n], kept[n]);
    forall x | x in LiveRecords(cut, from) ensures x in LiveRecords(logs, from) {
      var n :| n in cut && n >= from && x in cut[n].records;
      assert x in logs[n].records;
    }
    forall x | x in SyncedRecords(logs, from) ensures x in SyncedRecords(cut, from) {
      var n :| n in logs && n >= from && logs[n].synced <= |logs[n].records| && x in logs[n].records[..logs[n].synced];
      var i :| 0 <= i < logs[n].synced && logs[n].records[i] == x;
      assert cut[n].records[..cut[n].synced][i] == x;
      assert x in cut[n].records[..cut[n].synced];
    }
    if forall n :: n in logs ==> kept[n] == |logs[n].records| {
      forall x | x in LiveRecords(logs, from) ensures x in LiveRecords(cut, from) {
        var n :| n in logs && n >= from && x in logs[n].records;
        assert cut[n].records == logs[n].records;
      }
    }
  }

  lemma SyncedAreLive(logs: map<nat, Log>, from: nat)
    ensures SyncedRecords(logs, from) <= LiveRecords(logs, from)
  {
    forall x | x in SyncedRecords(logs, from) ensures x in LiveRecords(logs, from) {
      var n :| n in logs && n >= from && logs[n].synced <= |logs[n].records| && x in logs[n].records[..logs[n].synced];
      assert x in logs[n].records;
    }
  }

  /** Whatever a crash leaves can be recovered, has all that was synced, and has everything that was
      acknowledged if nothing was lost. */
  lemma CrashLeaves(d: Disk, acked: set<Record>, kept: map<nat, nat>, keptEdits: nat)
    requires DiskGood(d, acked) && d.syncedEdits <= keptEdits <= |d.manifests[d.current]|
    requires forall n :: n in d.logs ==> n in kept && d.logs[n].synced <= kept[n] <= |d.logs[n].records|
    ensures var d' := Cut(d, kept, keptEdits);
            && Current(d') && DiskGood(d', Surviving(d', acked))
            && (forall r :: r in acked && r.sync ==> r in Surviving(d', acked))
            && ((forall n :: n in d.logs ==> kept[n] == |d.logs[n].records|) ==> Surviving(d', acked) == acked)
  {
    var d' := Cut(d, kept, keptEdits);
    assert Recoverable(d, keptEdits) && Promise(d, acked, keptEdits);
    var last := LastEdit(d, keptEdits);
    assert d'.manifests[d.current][..keptEdits] == d.manifests[d.current][..keptEdits];
    CutLogs(d.logs, kept, last.logNumber);
    StandsFewer(last.stands, d.tables, VersionAt(d, keptEdits), LiveRecords(d.logs, last.logNumber), LiveRecords(d'.logs, last.logNumber),
                last.floor, last.lastSequence);
    forall n, r | n in d'.logs && r in d'.logs[n].records ensures r in d.logs[n].records {}
    SyncedAreLive(d'.logs, last.logNumber);
    assert Recoverable(d', keptEdits);
    assert Promise(d', Surviving(d', acked), keptEdits);
  }

  lemma CrashKeeps(s: State, kept: map<nat, nat>, keptEdits: nat)
    requires Inv(s) && Enabled(s, Crash(kept, keptEdits))
    ensures Inv(Apply(s, Crash(kept, keptEdits)))
  {
    CrashLeaves(s.disk, s.acked, kept, keptEdits);
  }

  // ----- recovering -----

  lemma BeginRecoveryKeeps(s: State)
    requires Inv(s) && Enabled(s, BeginRecovery)
    ensures Inv(Apply(s, BeginRecovery))
  {
    assert EntriesOf({}) == {};
    assert TableEntries(s.disk.tables, {}) == {};
    var t := Apply(s, BeginRecovery);
    assert ReplayedSoFar(t.disk.logs, t.proc) == {};
  }

  lemma ReplayRecordKeeps(s: State, n: nat)
    requires Inv(s) && Enabled(s, ReplayRecord(n))
    ensures Inv(Apply(s, ReplayRecord(n)))
  {
    var d, p := s.disk, s.proc;
    var t := Apply(s, ReplayRecord(n));
    var records := d.logs[n].records;
    var r := records[p.pos];
    assert records[..p.pos + 1] == records[..p.pos] + [r];
    assert ReplayedSoFar(d.logs, t.proc) == ReplayedSoFar(d.logs, p) + {r};
    assert r in records;
    EntriesUnion(p.replayed + p.memtable, {r});
    assert t.proc.replayed + t.proc.memtable == p.replayed + p.memtable + {r};
  }

  lemma OneTable(tables: map<nat, set<Entry>>, n: nat)
    requires n in tables
    ensures TableEntries(tables, {n}) == tables[n]
  {
    assert n in {n};
  }

  lemma FlushReplayedKeeps(s: State)
    requires Inv(s) && Enabled(s, FlushReplayed)
    ensures Inv(Apply(s, FlushReplayed))
  {
    var d, p := s.disk, s.proc;
    var t := Apply(s, FlushReplayed);
    var entries := EntriesOf(p.memtable);
    NewTableDisk(d, s.acked, p.nextFile, entries);
    TablesFrame(d.tables, t.disk.tables, p.added);
    FilesUnion(t.disk.tables, p.added, {p.nextFile});
    OneTable(t.disk.tables, p.nextFile);
    EntriesUnion(p.replayed, p.memtable);
    assert t.proc.replayed + t.proc.memtable == p.replayed + p.memtable;
    assert ReplayedSoFar(d.logs, t.proc) == ReplayedSoFar(d.logs, p);
  }

  lemma FinishLogKeeps(s: State, n: nat)
    requires Inv(s) && Enabled(s, FinishLog(n))
    ensures Inv(Apply(s, FinishLog(n)))
  {
    var d, p := s.disk, s.proc;
    var t := Apply(s, FinishLog(n));
    var records := d.logs[n].records;
    assert records[..|records|] == records;
    assert ReplayedSoFar(d.logs, t.proc) == ReplayedSoFar(d.logs, p);
  }

  lemma MakeLogKeeps(s: State)
    requires Inv(s) && Enabled(s, MakeLog)
    ensures Inv(Apply(s, MakeLog))
  {
    var d, p := s.disk, s.proc;
    var t := Apply(s, MakeLog);
    assert Recoverable(d, d.syncedEdits);
    NewLogDisk(d, s.acked, p.nextFile);
    forall x ensures x in ReplayedSoFar(t.disk.logs, t.proc) <==> x in ReplayedSoFar(d.logs, p) {
      if x in ReplayedSoFar(t.disk.logs, t.proc) {
        var n :| n in t.disk.logs && n >= p.logNumber && n in p.finished && x in t.disk.logs[n].records;
        assert n in d.logs && x in d.logs[n].records;
      }
      if x in ReplayedSoFar(d.logs, p) {
        var n :| n in d.logs && n >= p.logNumber && n in p.finished && x in d.logs[n].records;
        assert x in t.disk.logs[n].records;
      }
    }
  }

  lemma MakeManifestKeeps(s: State)
    requires Inv(s) && Enabled(s, MakeManifest)
    ensures Inv(Apply(s, MakeManifest))
  {
    var d, p := s.disk, s.proc;
    var t := Apply(s, MakeManifest);
    var k := d.syncedEdits;
    assert Recoverable(d, k) && Promise(d, s.acked, k);
    KeptGood(d, t.disk, s.acked, k);
  }

  /** When all logs are replayed, what was replayed is what they hold. */
  lemma AllReplayed(s: State)
    requires Inv(s) && s.proc.Recovering? && s.proc.newLog.Some?
    ensures s.proc.replayed == LiveRecords(s.disk.logs, s.proc.logNumber) && LiveRecords(s.disk.logs, s.proc.newLog.value) == {}
  {
    var d, p := s.disk, s.proc;
    forall x | x in LiveRecords(d.logs, p.logNumber) ensures x in p.replayed {
      var n :| n in d.logs && n >= p.logNumber && x in d.logs[n].records;
      assert x in ReplayedSoFar(d.logs, p);
    }
    forall x | x in p.replayed ensures x in LiveRecords(d.logs, p.logNumber) {
      assert x in ReplayedSoFar(d.logs, p);
    }
  }

  lemma RecoveredStands(s: State)
    requires Inv(s) && Enabled(s, SetCurrent)
    ensures var p, edit := s.proc, RecoveryEdit(s.disk, s.proc);
            Stands(edit.stands, s.disk.tables, p.files + p.added, LiveRecords(s.disk.logs, edit.logNumber), edit.floor, edit.lastSequence)
            && Bounded(edit.stands, edit.lastSequence)
  {
    var d, p := s.disk, s.proc;
    var k := d.syncedEdits;
    assert Recoverable(d, k);
    var last := LastEdit(d, k);
    AllReplayed(s);
    var history, store, news := EntriesOf(last.stands), TableEntries(d.tables, p.files), EntriesOf(p.replayed);
    EntriesUnion(last.stands, p.replayed);
    FilesUnion(d.tables, p.files, p.added);
    BatchKeepsReads(store, history, news, last.floor);
    assert store + news == news + store;
    assert EntriesOf({}) == {};
    EntriesMonotone(p.replayed, p.replayed + p.memtable);
    assert history + news + {} == history + news;
  }

  lemma OneEdit(edit: Edit)
    ensures [edit][..1] == [edit] && Files([edit]) == edit.added
  {
    assert [edit][..0] == [] && Files([]) == {};
  }

  lemma SetCurrentKeeps(s: State)
    requires Inv(s) && Enabled(s, SetCurrent)
    ensures Inv(Apply(s, SetCurrent))
  {
    hide SameReads;
    var d, p := s.disk, s.proc;
    var t := Apply(s, SetCurrent);
    var edit := RecoveryEdit(d, p);
    assert Recoverable(d, d.syncedEdits) && Promise(d, s.acked, d.syncedEdits);
    RecoveredStands(s);
    AllReplayed(s);
    assert t.disk.manifests[t.disk.current] == [edit];
    assert [edit][..1] == [edit] && [edit][..0] == [];
    OneEdit(edit);
    SyncedAreLive(d.logs, p.logNumber);
    assert Recoverable(t.disk, 1);
    assert Promise(t.disk, s.acked, 1);
    assert Between(d.logs, edit.logNumber, edit.logNumber) == {};
    assert EntriesOf({}) == {};
  }

  // ----- which compactions may be installed -----

  /** The tables of these numbers hold the files of the version. */
  ghost predicate StoredAs(tables: map<nat, set<Entry>>, files: set<nat>, v: Version.Levels) {
    && (forall l, f :: 0 <= l < |v| && f in v[l] ==> f.number in files && f.number in tables && tables[f.number] == SetOf(f.entries))
    && forall n :: n in files ==> exists l, f :: 0 <= l < |v| && f in v[l] && f.number == n
  }

  lemma StoredEntries(tables: map<nat, set<Entry>>, files: set<nat>, v: Version.Levels)
    requires StoredAs(tables, files, v)
    ensures TableEntries(tables, files) == Version.VersionEntries(v)
  {
    forall e ensures e in TableEntries(tables, files) <==> e in Version.VersionEntries(v) {
      if e in TableEntries(tables, files) {
        var n :| n in files && n in tables && e in tables[n];
        var l, f :| 0 <= l < |v| && f in v[l] && f.number == n;
        assert e in f.entries;
      }
      if e in Version.VersionEntries(v) {
        var l, f :| 0 <= l < |v| && f in v[l] && e in f.entries;
        assert e in tables[f.number];
      }
    }
  }

  /** The version a compaction makes may be installed if and only if it exposes no value in a lower file
      that was left out. */
  lemma CompactionEnabled(s: State, deleted: set<nat>, added: set<nat>, j: Job, w: Version.Levels, outcome: Outcome)
    requires s.proc.Running? && Current(s.disk) && s.disk.syncedEdits == |s.disk.manifests[s.disk.current]|
    requires deleted <= s.proc.files && added <= s.proc.pending + s.proc.files
    requires LastEdit(s.disk, s.disk.syncedEdits).floor <= j.snapshot
    requires j.Valid() && j.all == Version.VersionEntries(j.v) && StoredAs(s.disk.tables, s.proc.files, j.v)
    requires StoredAs(s.disk.tables, s.proc.files - deleted + added, w)
    requires Version.VersionEntries(w) == Version.VersionEntries(j.v) - j.DroppedOnes()
    ensures Enabled(s, InstallCompaction(deleted, added, j.snapshot, outcome)) <==> !j.ExposesSome()
  {
    EnabledWhen(s, deleted, added, j.snapshot, outcome);
    StoredKept(s.disk.tables, s.proc.files, s.proc.files - deleted + added, j, w);
    KeptReplaces(j);
  }

  lemma EnabledWhen(s: State, deleted: set<nat>, added: set<nat>, snapshot: nat, outcome: Outcome)
    requires s.proc.Running? && Current(s.disk) && s.disk.syncedEdits == |s.disk.manifests[s.disk.current]|
    requires deleted <= s.proc.files && added <= s.proc.pending + s.proc.files
    requires LastEdit(s.disk, s.disk.syncedEdits).floor <= snapshot
    ensures Enabled(s, InstallCompaction(deleted, added, snapshot, outcome)) <==>
            Replaces(TableEntries(s.disk.tables, s.proc.files), TableEntries(s.disk.tables, s.proc.files - deleted + added), snapshot)
  {
  }

  lemma KeptReplaces(j: Job)
    requires j.Valid() && j.Kept() <= j.all
    ensures Replaces(j.all, j.Kept(), j.snapshot) <==> !j.ExposesSome()
  {
    ReadsPreserved(j);
  }

  lemma StoredKept(tables: map<nat, set<Entry>>, before: set<nat>, after: set<nat>, j: Job, w: Version.Levels)
    requires j.all == Version.VersionEntries(j.v) && StoredAs(tables, before, j.v) && StoredAs(tables, after, w)
    requires Version.VersionEntries(w) == Version.VersionEntries(j.v) - j.DroppedOnes()
    ensures TableEntries(tables, before) == j.all && TableEntries(tables, after) == j.Kept() && j.Kept() <= j.all
  {
    StoredEntries(tables, before, j.v);
    StoredEntries(tables, after, w);
  }

  // ----- over all runs -----

  lemma StepKeeps(s: State, step: Step)
    requires Inv(s) && Enabled(s, step)
    ensures Inv(Apply(s, step))
  {
    hide Inv;
    match step
    case Write(entries, count, sync, logged, ok) => WriteKeeps(s, entries, count, sync, logged, ok);
    case SwitchMemTable => SwitchKeeps(s);
    case BuildTable(entries) => BuildTableKeeps(s, entries);
    case InstallFlush(table, outcome) => InstallFlushKeeps(s, table, outcome);
    case InstallCompaction(deleted, added, snapshot, outcome) => InstallCompactionKeeps(s, deleted, added, snapshot, outcome);
    case DeleteFile(kind, n) => DeleteFileKeeps(s, kind, n);
    case Crash(kept, keptEdits) => CrashKeeps(s, kept, keptEdits);
    case BeginRecovery => BeginRecoveryKeeps(s);
    case ReplayRecord(n) => ReplayRecordKeeps(s, n);
    case FlushReplayed => FlushReplayedKeeps(s);
    case FinishLog(n) => FinishLogKeeps(s, n);
    case MakeLog => MakeLogKeeps(s);
    case MakeManifest => MakeManifestKeeps(s);
    case SetCurrent => SetCurrentKeeps(s);
  }

  ghost predicate Follows(s: State, step: Step, t: State) {
    Enabled(s, step) && DiskGood(s.disk, s.acked) && t == Apply(s, step)
  }

  /** What a step is defined on excludes no enabled step of a run. */
  lemma EnabledFollows(s: State, step: Step)
    requires Inv(s) && Enabled(s, step)
    ensures Follows(s, step, Apply(s, step)) && Inv(Apply(s, step))
  {
    StepKeeps(s, step);
  }

  ghost predicate IsRun(run: seq<State>, steps: seq<Step>) {
    && |run| == |steps| + 1 && run[0] == INITIAL
    && forall i :: 0 <= i < |steps| ==> Follows(run[i], steps[i], run[i + 1])
  }

  lemma InitialGood()
    ensures Inv(INITIAL)
  {
    var d := INITIAL.disk;
    assert [INITIAL_EDIT][..1] == [INITIAL_EDIT] && [INITIAL_EDIT][..0] == [];
    OneEdit(INITIAL_EDIT);
    assert EntriesOf({}) == {} && TableEntries(map[], {}) == {} && LiveRecords(map[], 0) == {};
    assert Recoverable(d, 1) && Promise(d, {}, 1);
  }

  lemma {:induction false} RunKeeps(run: seq<State>, steps: seq<Step>, k: nat)
    requires IsRun(run, steps) && k < |run|
    ensures Inv(run[k])
  {
    if k == 0 {
      InitialGood();
    } else {
      RunKeeps(run, steps, k - 1);
      assert Follows(run[k - 1], steps[k - 1], run[k - 1 + 1]);
      StepKeeps(run[k - 1], steps[k - 1]);
    }
  }

  /** What recovery reads on a disk: the manifest's version and the logs from its log number on; and the
      whole batches those are. */
  ghost function RecoveredStore(d: Disk): set<Entry>
    requires Current(d)
  {
    TableEntries(d.tables, VersionAt(d, d.syncedEdits)) + EntriesOf(LiveRecords(d.logs, LastEdit(d, d.syncedEdits).logNumber))
  }

  ghost function RecoveredBatches(d: Disk): set<Record>
    requires Current(d)
  {
    LastEdit(d, d.syncedEdits).stands + LiveRecords(d.logs, LastEdit(d, d.syncedEdits).logNumber)
  }

  /** The batch of a write as it goes to the log. */
  ghost function Written(s: State, step: Step): Record
    requires step.Write? && s.proc.Running?
  {
    Record(step.entries, s.proc.lastSequence + step.count, step.ok, step.sync)
  }

  ghost predicate IsWrite(s: State, step: Step) {
    step.Write? && s.proc.Running?
  }

  /** All batches that a writer asked to be synced and was told are in, in the first `k` steps, whatever
      crashes there were. */
  ghost function SyncedWrites(run: seq<State>, steps: seq<Step>, k: nat): set<Record>
    requires k <= |steps| < |run|
  {
    if k == 0 then {}
    else
      var s, step := run[k - 1], steps[k - 1];
      SyncedWrites(run, steps, k - 1) + if IsWrite(s, step) && step.ok && step.sync then {Written(s, step)} else {}
  }

  ghost function Logged(s: State, step: Step): set<Record> {
    if IsWrite(s, step) && step.logged then {Written(s, step)} else {}
  }

  /** All batches that were put in a log in the first `k` steps. */
  ghost function LoggedWrites(run: seq<State>, steps: seq<Step>, k: nat): set<Record>
    requires k <= |steps| < |run|
  {
    if k == 0 then {} else LoggedWrites(run, steps, k - 1) + Logged(run[k - 1], steps[k - 1])
  }

  /** What asked for a sync and was acknowledged stays acknowledged. */
  lemma AckedStay(s: State, step: Step, r: Record)
    requires Inv(s) && Enabled(s, step) && r in s.acked && r.sync
    ensures r in Apply(s, step).acked
  {
    if step.Crash? {
      CrashLeaves(s.disk, s.acked, step.kept, step.keptEdits);
    }
  }

  lemma {:induction false} SyncedStay(run: seq<State>, steps: seq<Step>, k: nat)
    requires IsRun(run, steps) && k < |run|
    ensures forall r :: r in SyncedWrites(run, steps, k) ==> r in run[k].acked && r.sync
  {
    if k > 0 {
      SyncedStay(run, steps, k - 1);
      RunKeeps(run, steps, k - 1);
      var s, step := run[k - 1], steps[k - 1];
      assert Follows(s, step, run[k - 1 + 1]);
      forall r | r in SyncedWrites(run, steps, k) ensures r in run[k].acked && r.sync {
        if r in SyncedWrites(run, steps, k - 1) {
          AckedStay(s, step, r);
        }
      }
    }
  }

  ghost predicate LogsKnown(d: Disk, rs: set<Record>) {
    forall n, r :: n in d.logs && r in d.logs[n].records ==> r in rs
  }

  ghost predicate EditsKnown(d: Disk, rs: set<Record>) {
    forall m, e :: m in d.manifests && e in d.manifests[m] ==> e.stands <= rs
  }

  /** Every batch anywhere in the state is one of `rs`. */
  ghost predicate OnlyKnown(s: State, rs: set<Record>) {
    && LogsKnown(s.disk, rs) && EditsKnown(s.disk, rs)
    && match s.proc
       case Closed => true
       case Recovering(_, _, _, replayed, memtable, _, _, _, _, _, _, _) => replayed <= rs && memtable <= rs
       case Running(mem, imm, _, _, _, _, _, _, _) => mem <= rs && (imm.Some? ==> imm.value <= rs)
  }

  lemma InstallKnown(d: Disk, edit: Edit, outcome: Outcome, rs: set<Record>)
    requires d.current in d.manifests && edit.stands <= rs && EditsKnown(d, rs)
    ensures EditsKnown(InstallEdit(d, edit, outcome), rs)
  {
  }

  lemma CutKnown(d: Disk, kept: map<nat, nat>, keptEdits: nat, rs: set<Record>)
    requires d.current in d.manifests && keptEdits <= |d.manifests[d.current]|
    requires forall n :: n in d.logs ==> n in kept && kept[n] <= |d.logs[n].records|
    requires LogsKnown(d, rs) && EditsKnown(d, rs)
    ensures LogsKnown(Cut(d, kept, keptEdits), rs) && EditsKnown(Cut(d, kept, keptEdits), rs)
  {
  }

  lemma WriteKnown(s: State, step: Step, rs: set<Record>)
    requires step.Write? && Inv(s) && Enabled(s, step) && OnlyKnown(s, rs)
    ensures OnlyKnown(Apply(s, step), rs + Logged(s, step))
  {
  }

  lemma OtherKnown(s: State, step: Step, rs: set<Record>)
    requires !step.Write? && Inv(s) && Enabled(s, step) && OnlyKnown(s, rs)
    ensures OnlyKnown(Apply(s, step), rs)
  {
    var d, p := s.disk, s.proc;
    match step
    case InstallFlush(table, outcome) => InstallKnown(d, FlushEdit(d, p, table), outcome, rs);
    case InstallCompaction(deleted, added, snapshot, outcome) =>
      InstallKnown(d, CompactionEdit(d, p, deleted, added, snapshot), outcome, rs);
    case Crash(kept, keptEdits) => CutKnown(d, kept, keptEdits, rs);
    case _ =>
  }

  lemma StepKnown(s: State, step: Step, rs: set<Record>)
    requires Inv(s) && Enabled(s, step) && OnlyKnown(s, rs)
    ensures OnlyKnown(Apply(s, step), rs + Logged(s, step))
  {
    if step.Write? {
      WriteKnown(s, step, rs);
    } else {
      OtherKnown(s, step, rs);
      assert rs + {} == rs;
    }
  }

  lemma InitialKnown()
    ensures OnlyKnown(INITIAL, {})
  {
  }

  lemma FollowsKnown(s: State, step: Step, t: State, rs: set<Record>)
    requires Inv(s) && Follows(s, step, t) && OnlyKnown(s, rs)
    ensures OnlyKnown(t, rs + Logged(s, step))
  {
    StepKnown(s, step, rs);
  }

  lemma {:induction false} RunKnown(run: seq<State>, steps: seq<Step>, k: nat)
    requires IsRun(run, steps) && k < |run|
    ensures OnlyKnown(run[k], LoggedWrites(run, steps, k))
  {
    if k == 0 {
      InitialKnown();
    } else {
      RunKnown(run, steps, k - 1);
      RunKeeps(run, steps, k - 1);
      assert Follows(run[k - 1], steps[k - 1], run[k - 1 + 1]);
      FollowsKnown(run[k - 1], steps[k - 1], run[k], LoggedWrites(run, steps, k - 1));
    }
  }

  lemma RecoveredKnown(s: State, kept: map<nat, nat>, keptEdits: nat, rs: set<Record>)
    requires Inv(s) && Enabled(s, Crash(kept, keptEdits)) && OnlyKnown(s, rs)
    ensures Current(Cut(s.disk, kept, keptEdits)) && RecoveredBatches(Cut(s.disk, kept, keptEdits)) <= rs
  {
    StepKnown(s, Crash(kept, keptEdits), rs);
    var t := Apply(s, Crash(kept, keptEdits));
    assert OnlyKnown(t, rs);
    var edits := t.disk.manifests[t.disk.current];
    assert edits[t.disk.syncedEdits - 1] in edits;
  }

  /** Main result: in every state of every run, also in the middle of a recovery and after any crashes
      before, a crash leaves a disk whose manifest names only tables that exist, and whose version and
      logs together answer every read, from the floor on, for a set of whole batches. That set holds
      every batch that was ever acknowledged with a sync, nothing but batches that some write logged, and
      every acknowledged batch that no earlier crash took if this one loses no unsynced byte. */
  lemma Durable(run: seq<State>, steps: seq<Step>, k: nat, kept: map<nat, nat>, keptEdits: nat)
    requires IsRun(run, steps) && k < |run| && Enabled(run[k], Crash(kept, keptEdits))
    ensures var s, d := run[k], Cut(run[k].disk, kept, keptEdits);
            && Current(d) && VersionAt(d, d.syncedEdits) <= d.tables.Keys
            && SameReads(EntriesOf(RecoveredBatches(d)), RecoveredStore(d), LastEdit(d, d.syncedEdits).floor)
            && SyncedWrites(run, steps, k) <= RecoveredBatches(d) <= LoggedWrites(run, steps, k)
            && ((forall n :: n in s.disk.logs ==> kept[n] == |s.disk.logs[n].records|) ==> s.acked <= RecoveredBatches(d))
  {
    RunKeeps(run, steps, k);
    var s, d := run[k], Cut(run[k].disk, kept, keptEdits);
    CrashLeaves(s.disk, s.acked, kept, keptEdits);
    assert Recoverable(d, d.syncedEdits);
    var last := LastEdit(d, d.syncedEdits);
    RecoveredReads(last.stands, d.tables, VersionAt(d, d.syncedEdits), LiveRecords(d.logs, last.logNumber), last.floor, last.lastSequence);
    SyncedStay(run, steps, k);
    RunKnown(run, steps, k);
    RecoveredKnown(s, kept, keptEdits, LoggedWrites(run, steps, k));
  }

  /** A database that is open, after however many crashes, has every batch ever acknowledged with a sync,
      and a last sequence number no lower than that of any entry on its disk that counts. */
  lemma SequencesNotReused(run: seq<State>, steps: seq<Step>, k: nat)
    requires IsRun(run, steps) && k < |run| && run[k].proc.Running?
    ensures var s := run[k];
            && Current(s.disk) && SyncedWrites(run, steps, k) <= s.acked <= RecoveredBatches(s.disk)
            && forall e :: e in EntriesOf(RecoveredBatches(s.disk)) ==> e.key.seqno <= s.proc.lastSequence
  {
    RunKeeps(run, steps, k);
    SyncedStay(run, steps, k);
    assert Promise(run[k].disk, run[k].acked, run[k].disk.syncedEdits);
  }
}
