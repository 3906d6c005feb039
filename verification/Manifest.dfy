/** Recovering the version from the bytes of a manifest (VersionSet::Recover in db/version_set.cc): the log is
    read record by record, each record is decoded, and each edit is applied. */
module Manifest {
  import opened Options
  import opened Coding
  import opened DbFormat
  import opened FileLevels
  import opened Version
  import opened Builder
  import opened VersionSet
  import opened ManifestReplay
  import opened Log
  import opened LogReader
  import ByteKeys
  import Edits = VersionEditCodec

  type Bytes = seq<byte>

  /** What the descriptors in a manifest refer to: the comparator, and the entries of each table file. */
  datatype Store = Store(f: ByteKeys.Format, comparator: Bytes, contents: nat -> seq<Entry>)

  // ----- what an edit says -----

  function FileOf(s: Store, m: Edits.FileMeta): File {
    File(m.number, m.size, ByteKeys.Decode(s.f, m.smallest), ByteKeys.Decode(s.f, m.largest), s.contents(m.number))
  }

  ghost predicate SaysFile(s: Store, a: (nat, Edits.FileMeta), b: (nat, File)) {
    && a.0 == b.0 && b.1.smallest.seqno <= MAX_SEQUENCE && b.1.largest.seqno <= MAX_SEQUENCE
    && a.1 == Edits.FileMeta(b.1.number, b.1.size, ByteKeys.Encode(s.f.keyOf, b.1.smallest), ByteKeys.Encode(s.f.keyOf, b.1.largest))
    && b.1.entries == s.contents(b.1.number)
  }

  /** The edit's bytes stand for the files that are deleted and added. */
  ghost predicate Says(s: Store, e: Edits.Edit, v: VersionEdit) {
    && |e.newFiles| == |v.newFiles| && (forall i :: 0 <= i < |e.newFiles| ==> SaysFile(s, e.newFiles[i], v.newFiles[i]))
    && forall d :: d in e.deletedFiles <==> d in v.deletedFiles
  }

  lemma FileSaid(s: Store, a: (nat, Edits.FileMeta), b: (nat, File))
    requires s.f.Good() && SaysFile(s, a, b)
    ensures b == (a.0, FileOf(s, a.1))
  {
    ByteKeys.DecodeEncode(s.f, b.1.smallest);
    ByteKeys.DecodeEncode(s.f, b.1.largest);
  }

  /** The edit as the builder takes it, with the deleted files in any order. */
  method FromDecoded(s: Store, e: Edits.VersionEdit, ghost v: VersionEdit) returns (r: VersionEdit)
    requires s.f.Good() && Says(s, e.Value(), v)
    ensures r.newFiles == v.newFiles && forall d :: d in r.deletedFiles <==> d in v.deletedFiles
  {
    hide SaysFile, FileOf, ByteKeys.Format.Good;
    var left, deleted := e.deletedFiles, [];
    while left != {}
      invariant forall d :: d in e.deletedFiles <==> d in left || d in deleted
      decreases left
    {
      var d :| d in left;
      left, deleted := left - {d}, deleted + [d];
    }
    var files: seq<(nat, File)> := [];
    for i := 0 to |e.newFiles|
      invariant files == v.newFiles[..i]
    {
      FileSaid(s, e.newFiles[i], v.newFiles[i]);
      var (level, m) := e.newFiles[i];
      files := files + [(level, FileOf(s, m))];
    }
    r := VersionEdit(deleted, files);
  }

  lemma SameAt(v: VersionEdit, w: VersionEdit)
    requires v.newFiles == w.newFiles && forall d :: d in v.deletedFiles <==> d in w.deletedFiles
    ensures GoodEdit(v) ==> GoodEdit(w)
    ensures forall l :: AddedAt(v, l) == AddedAt(w, l) && DeletedAt(v, l) == DeletedAt(w, l)
  {
  }

  // ----- the counters -----

  datatype Counters = Counters(log: Option<nat>, prevLog: Option<nat>, nextFile: Option<nat>, lastSequence: Option<nat>)

  function Over(c: Counters, e: Edits.Edit): Counters {
    Counters(if e.logNumber.Some? then e.logNumber else c.log, if e.prevLogNumber.Some? then e.prevLogNumber else c.prevLog,
             if e.nextFileNumber.Some? then e.nextFileNumber else c.nextFile,
             if e.lastSequence.Some? then e.lastSequence else c.lastSequence)
  }

  /** Each counter as the last edit that names it sets it. */
  ghost function LastSet(es: seq<Edits.Edit>): Counters {
    if es == [] then Counters(None, None, None, None) else Over(LastSet(es[..|es| - 1]), es[|es| - 1])
  }

  predicate Named(s: Store, e: Edits.Edit) {
    e.comparator.Some? ==> e.comparator.value == s.comparator
  }

  // ----- the manifest -----

  ghost function RecordOf(e: Edits.Edit): Bytes {
    Edits.Encoded(Edits.ItemsOf(e))
  }

  ghost function Records(es: seq<Edits.Edit>): (r: seq<Bytes>)
    ensures |r| == |es|
  {
    seq(|es|, i requires 0 <= i < |es| => RecordOf(es[i]))
  }

  /** The manifest holds these edits, which made these versions one after the other. */
  ghost predicate Made(s: Store, es: seq<Edits.Edit>, vs: seq<VersionEdit>, versions: seq<Levels>) {
    && s.f.Good() && |vs| == |es| && NumbersStable(vs) && History(vs, versions)
    && forall i :: 0 <= i < |es| ==> Edits.EditFits(es[i]) && Says(s, es[i], vs[i]) && GoodEdit(vs[i])
  }

  method DecodeRecord(record: Bytes, ghost e: Edits.Edit) returns (edit: Edits.VersionEdit, ok: bool)
    requires Edits.EditFits(e) && record == RecordOf(e)
    ensures fresh(edit) && ok && edit.Value() == e
  {
    hide Edits.Encoded, Edits.Decoded, Edits.ItemsOf, Edits.EditFits;
    edit := new Edits.VersionEdit();
    ok := edit.DecodeFrom(record);
    Edits.DecodeUndoesEncode(e, Edits.EMPTY);
  }

  /** One record: its edit goes to the builder if it names the right comparator. */
  method TakeRecord(s: Store, record: Bytes, builder: Builder, c: Counters, ghost es: seq<Edits.Edit>, ghost vs: seq<VersionEdit>,
                    ghost versions: seq<Levels>, ghost k: nat)
      returns (ok: bool, c': Counters)
    requires Made(s, es, vs, versions) && k < |es| && record == RecordOf(es[k]) && Gathered(builder, vs[..k])
    modifies builder
    ensures c' == Over(c, es[k]) && (ok <==> Named(s, es[k]))
    ensures ok ==> Gathered(builder, vs[..k + 1])
  {
    hide Gathered, Edits.EditFits, RecordOf, History, NumbersStable;
    var edit;
    edit, ok := DecodeRecord(record, es[k]);
    if edit.hasComparator && edit.comparator != s.comparator {
      ok := false;
    } else {
      var v := FromDecoded(s, edit, vs[k]);
      SameAt(vs[k], v);
      ApplyNext(builder, vs, k, v);
    }
    c' := Counters(if edit.hasLogNumber then Some(edit.logNumber) else c.log,
                   if edit.hasPrevLogNumber then Some(edit.prevLogNumber) else c.prevLog,
                   if edit.hasNextFileNumber then Some(edit.nextFileNumber) else c.nextFile,
                   if edit.hasLastSequence then Some(edit.lastSequence) else c.lastSequence);
  }

  lemma {:induction false} InsideExists(codec: Codec, records: seq<seq<byte>>, k: nat, size: nat) returns (n: nat)
    requires k <= |records| && |LogBytes(codec, records[..k])| <= size
    ensures k <= n && WhollyInside(codec, records, n, size)
    decreases |records| - k
  {
    if k < |records| && |LogBytes(codec, records[..k + 1])| <= size {
      n := InsideExists(codec, records, k + 1, size);
    } else {
      n := k;
    }
  }

  lemma PrefixHistory(vs: seq<VersionEdit>, versions: seq<Levels>, k: nat)
    requires NumbersStable(vs) && History(vs, versions) && k <= |vs|
    ensures NumbersStable(vs[..k]) && History(vs[..k], versions[..k + 1])
  {
    forall l, f, g | 0 <= l < NUM_LEVELS && f in AllAdded(vs[..k], l) && g in AllAdded(vs[..k], l) && f.number == g.number ensures f == g {
      AddedGrows(vs, k, l);
      assert f in AllAdded(vs, l) && g in AllAdded(vs, l);
    }
    forall i | 0 <= i < k ensures Applied(versions[..k + 1][i], vs[..k][i], versions[..k + 1][i + 1]) {
      assert Applied(versions[i], vs[i], versions[i + 1]);
    }
  }

  /** What recovery restores. The manifest's own number is that of the next file. */
  datatype Recovered = Recovered(v: Levels, manifestFileNumber: nat, nextFileNumber: nat, lastSequence: nat, logNumber: nat, prevLogNumber: nat)

  function Restored(v: Levels, c: Counters): Recovered
    requires c.nextFile.Some? && c.log.Some? && c.lastSequence.Some?
  {
    Recovered(v, c.nextFile.value, c.nextFile.value + 1, c.lastSequence.value, c.log.value, if c.prevLog.Some? then c.prevLog.value else 0)
  }

  method SaveRecovered(builder: Builder, ghost vs: seq<VersionEdit>, ghost versions: seq<Levels>, ghost k: nat) returns (v: Levels)
    requires NumbersStable(vs) && History(vs, versions) && k <= |vs| && Gathered(builder, vs[..k])
    ensures v == versions[k]
  {
    v := builder.SaveTo();
    PrefixHistory(vs, versions, k);
    RebuiltIsLast(vs[..k], versions[..k + 1], v);
  }

  /** What the first `k` edits recover to: the version that the last of them made, and each counter as the last
      of them set it; nothing if and only if one of them names another comparator or none sets a counter
      that there must be. */
  ghost predicate RecoversTo(s: Store, es: seq<Edits.Edit>, versions: seq<Levels>, k: nat, r: Option<Recovered>) {
    && k <= |es| && k < |versions|
    && var c := LastSet(es[..k]);
      && (r.Some? <==> (forall i :: 0 <= i < k ==> Named(s, es[i])) && c.nextFile.Some? && c.log.Some? && c.lastSequence.Some?)
      && (r.Some? ==> r.value == Restored(versions[k], c))
  }

  /** Main result: from any prefix of a manifest's bytes, recovery restores what the edits wholly inside it
      recover to. */
  method Recover(codec: Codec, file: Bytes, s: Store, ghost es: seq<Edits.Edit>, ghost vs: seq<VersionEdit>, ghost versions: seq<Levels>)
      returns (r: Option<Recovered>)
    requires codec.Good() && Made(s, es, vs, versions) && file <= LogBytes(codec, Records(es))
    ensures exists k :: WhollyInside(codec, Records(es), k, |file|) && RecoversTo(s, es, versions, k, r)
  {
    hide Gathered, Made, Named, LogBytes, RecordOf, Over, History, NumbersStable;
    MadeParts(s, es, vs, versions);
    ghost var records := Records(es);
    var reader := new Reader(codec, file);
    var builder := new Builder(Empty());
    var c := Counters(None, None, None, None);
    ghost var k := 0;
    Begins(codec, records, builder);
    assert vs[..0] == [] && es[..0] == [];
    var more, ok := true, true;
    while more && ok
      invariant reader.Valid() && fresh(reader) && fresh(builder) && reader.file == file && reader.codec == codec
      invariant k <= |es| && |LogBytes(codec, records[..k])| <= |file|
      invariant more && ok ==> reader.Position() == |LogBytes(codec, records[..k])|
      invariant !more && ok ==> WhollyInside(codec, records, k, |file|)
      invariant ok ==> Gathered(builder, vs[..k])
      invariant if ok then forall i :: 0 <= i < k ==> Named(s, es[i]) else k > 0 && !Named(s, es[k - 1])
      invariant c == LastSet(es[..k])
      decreases more, |es| - k
    {
      var record;
      more, record := NextRecord(reader, records, k);
      if more {
        ok, c := TakeRecord(s, record, builder, c, es, vs, versions, k);
        assert es[..k + 1][..k] == es[..k];
        k := k + 1;
      }
    }
    if !ok {
      k := InsideExists(codec, records, k, |file|);
      r := None;
      assert RecoversTo(s, es, versions, k, r);
      return;
    }
    if c.nextFile.None? || c.log.None? || c.lastSequence.None? {
      r := None;
      assert RecoversTo(s, es, versions, k, r);
      return;
    }
    var v := SaveRecovered(builder, vs, versions, k);
    r := Some(Restored(v, c));
    assert RecoversTo(s, es, versions, k, r);
  }

  lemma Begins(codec: Codec, records: seq<Bytes>, builder: Builder)
    requires builder.Valid() && builder.base == Empty()
    requires forall l :: 0 <= l < NUM_LEVELS ==> builder.deleted[l] == {} && builder.added[l] == []
    ensures LogBytes(codec, records[..0]) == [] && Gathered(builder, [])
  {
  }

  lemma MadeParts(s: Store, es: seq<Edits.Edit>, vs: seq<VersionEdit>, versions: seq<Levels>)
    requires Made(s, es, vs, versions)
    ensures NumbersStable(vs) && History(vs, versions) && |vs| == |es| < |versions|
  {
  }
}
