/** Reading a log back, whole or cut short (db/log_reader.cc, with initial offset 0). */
module LogReader {
  import opened Options
  import opened Coding
  import opened Log

  /** What ReadPhysicalRecord returns: a fragment's type and data, or one of two extra codes. */
  datatype Physical = Fragment(t: RecordType, data: seq<byte>) | Eof | BadRecord

  /** The log holds, at `at`, a trailer and then a fragment of type `t` with payload `data`. */
  ghost predicate FragmentAt(codec: Codec, log: seq<byte>, at: nat, t: RecordType, data: seq<byte>) {
    var start := at + Pad(at % BLOCK_SIZE);
    && start % BLOCK_SIZE + HEADER_SIZE + |data| <= BLOCK_SIZE
    && start + HEADER_SIZE + |data| <= |log|
    && log[start..start + HEADER_SIZE] == Header(codec, t, data)
    && log[start + HEADER_SIZE..start + HEADER_SIZE + |data|] == data
    && (t.FullType? || t.FirstType? || t.MiddleType? || t.LastType?)
  }

  function FragmentEnd(at: nat, data: seq<byte>): nat {
    at + Pad(at % BLOCK_SIZE) + HEADER_SIZE + |data|
  }

  lemma HeaderParses(codec: Codec, t: RecordType, data: seq<byte>)
    requires |data| < 0x1_0000 && codec.Good() && (t.FullType? || t.FirstType? || t.MiddleType? || t.LastType?)
    ensures var h := Header(codec, t, data);
            && h[4] as int + h[5] as int * 256 == |data| && TypeOf(h[6]) == t
            && codec.load(h[..4]) == codec.crc([h[6]] + data)
  {
    var h := Header(codec, t, data);
    assert h[..4] == codec.store(codec.crc([TypeCode(t)] + data));
  }

  // ----- what any bytes read as -----

  /** The fragment at `at` of the bytes has the length, type and payload given, and its stored checksum is theirs. */
  ghost predicate SoundAt(codec: Codec, file: seq<byte>, at: nat, t: RecordType, data: seq<byte>) {
    && at + 7 + |data| <= |file|
    && file[at + 4] as int + 256 * file[at + 5] as int == |data| && TypeOf(file[at + 6]) == t
    && file[at + 7..at + 7 + |data|] == data
    && codec.crc([file[at + 6]] + data) == codec.load(file[at..at + 4])
  }

  /** What the rest `h` of a block is taken for, and what is reported. The codes 5 and 6 are those that stand for the
      end of the file and a bad record. */
  ghost predicate ReadsAs(codec: Codec, h: seq<byte>, eof: bool, r: Physical, reported: seq<string>) {
    if |h| < 7 then r == Eof && reported == []
    else
      var length := h[4] as int + 256 * h[5] as int;
      if 7 + length > |h| then
        if eof then r == Eof && reported == [] else r == BadRecord && reported == ["bad record length"]
      else if h[6] == 0 && length == 0 then r == BadRecord && reported == []
      else if codec.crc([h[6]] + h[7..7 + length]) != codec.load(h[..4]) then r == BadRecord && reported == ["checksum mismatch"]
      else
        && reported == []
        && r == if h[6] == 5 then Eof else if h[6] == 6 then BadRecord else Fragment(TypeOf(h[6]), h[7..7 + length])
  }

  lemma SliceOfPrefix(part: seq<byte>, all: seq<byte>, p: nat, q: nat, lo: nat, hi: nat)
    requires part <= all && p <= q <= |part| && lo <= hi <= q - p
    ensures part[p..q][lo..hi] == all[p + lo..p + hi]
  {
    var s := part[p..q];
    forall i | 0 <= i < hi - lo ensures s[lo..hi][i] == all[p + lo..p + hi][i] {
      assert s[lo..hi][i] == s[lo + i] == part[p + lo + i];
    }
  }

  lemma ShortReads(codec: Codec, h: seq<byte>, eof: bool)
    requires |h| < 7
    ensures ReadsAs(codec, h, eof, Eof, [])
  {
  }

  lemma FragmentSound(codec: Codec, file: seq<byte>, at: nat, end: nat, eof: bool, r: Physical, reported: seq<string>)
    requires at <= end <= |file| && ReadsAs(codec, file[at..end], eof, r, reported) && r.Fragment?
    ensures SoundAt(codec, file, at, r.t, r.data) && at + 7 + |r.data| <= end
  {
    var h := file[at..end];
    var length := h[4] as int + 256 * h[5] as int;
    SliceOfPrefix(file, file, at, end, 7, 7 + length);
    SliceOfPrefix(file, file, at, end, 0, 4);
  }

  /** Where a header is looked for: fewer than seven bytes at the end of a block are skipped. */
  function HeaderAt(p: nat): nat {
    if 32768 - p % 32768 < 7 then p + (32768 - p % 32768) else p
  }

  datatype Part = Part(at: nat, t: RecordType, data: seq<byte>)

  function PartEnd(p: Part): nat {
    p.at + 7 + |p.data|
  }

  function Payload(parts: seq<Part>): seq<byte> {
    if parts == [] then [] else Payload(parts[..|parts| - 1]) + parts[|parts| - 1].data
  }

  /** Sound fragments of the bytes, each where the one before leads. */
  ghost predicate Chain(codec: Codec, file: seq<byte>, parts: seq<Part>) {
    && (forall i :: 0 <= i < |parts| ==> SoundAt(codec, file, parts[i].at, parts[i].t, parts[i].data))
    && (forall i :: 0 < i < |parts| ==> parts[i].at == HeaderAt(PartEnd(parts[i - 1])))
  }

  /** A record that was begun: a first fragment and middle ones. */
  ghost predicate Begun(parts: seq<Part>) {
    && parts != [] && parts[0].t == FirstType
    && forall i :: 0 < i < |parts| ==> parts[i].t == MiddleType
  }

  /** A whole record: one full fragment, or a first one, middle ones and a last one. */
  ghost predicate Whole(parts: seq<Part>) {
    && parts != []
    && if |parts| == 1 then parts[0].t == FullType
       else Begun(parts[..|parts| - 1]) && parts[|parts| - 1].t == LastType
  }

  lemma ChainGrows(codec: Codec, file: seq<byte>, parts: seq<Part>, p: Part)
    requires Chain(codec, file, parts) && SoundAt(codec, file, p.at, p.t, p.data)
    requires parts != [] ==> p.at == HeaderAt(PartEnd(parts[|parts| - 1]))
    ensures Chain(codec, file, parts + [p])
  {
    hide SoundAt, HeaderAt, PartEnd;
  }

  lemma RecordGrows(parts: seq<Part>, p: Part)
    ensures Payload(parts + [p]) == Payload(parts) + p.data
    ensures Begun(parts) && p.t == MiddleType ==> Begun(parts + [p])
    ensures Begun(parts) && p.t == LastType ==> Whole(parts + [p])
  {
    assert (parts + [p])[..|parts|] == parts;
  }

  lemma ChainOfOne(codec: Codec, file: seq<byte>, p: Part)
    requires SoundAt(codec, file, p.at, p.t, p.data)
    ensures Chain(codec, file, [p]) && Payload([p]) == p.data
    ensures p.t == FirstType ==> Begun([p])
    ensures p.t == FullType ==> Whole([p])
  {
    hide SoundAt;
    assert [p][..0] == [];
  }

  /** What ReadRecord knows after a physical record: the record so far, whether it is one that was
      begun, whether it is complete, and what there is to report. */
  datatype Assembly = Assembly(scratch: seq<byte>, inFragmentedRecord: bool, done: bool, report: Option<string>)

  /** One round of ReadRecord's switch. */
  function Absorb(scratch: seq<byte>, inFragmentedRecord: bool, r: Physical): Assembly
    requires !r.Eof?
  {
    match r
    case BadRecord =>
      Assembly([], false, false, if inFragmentedRecord then Some("error in middle of record") else None)
    case Fragment(FullType, data) =>
      Assembly(data, false, true, if inFragmentedRecord && scratch != [] then Some("partial record without end(1)") else None)
    case Fragment(FirstType, data) =>
      Assembly(data, true, false, if inFragmentedRecord && scratch != [] then Some("partial record without end(2)") else None)
    case Fragment(MiddleType, data) =>
      if inFragmentedRecord then Assembly(scratch + data, true, false, None)
      else Assembly(scratch, false, false, Some("missing start of fragmented record(1)"))
    case Fragment(LastType, data) =>
      if inFragmentedRecord then Assembly(scratch + data, false, true, None)
      else Assembly(scratch, false, false, Some("missing start of fragmented record(2)"))
    case Fragment(_, data) =>
      Assembly([], false, false, Some("unknown record type"))
  }

  /** The record is the payload of sound fragments of the file, one behind the other from `from` on up to `to`. */
  ghost predicate Assembled(codec: Codec, file: seq<byte>, from: nat, to: nat, parts: seq<Part>, record: seq<byte>) {
    && Whole(parts) && Chain(codec, file, parts) && Payload(parts) == record
    && from <= parts[0].at && PartEnd(parts[|parts| - 1]) == to
  }

  /** The record so far, up to the position `to`. */
  ghost predicate RecordSoFar(codec: Codec, file: seq<byte>, from: nat, to: nat, parts: seq<Part>, scratch: seq<byte>, begun: bool) {
    if begun then
      && Begun(parts) && Chain(codec, file, parts) && Payload(parts) == scratch
      && from <= parts[0].at && PartEnd(parts[|parts| - 1]) == to
    else parts == [] && scratch == []
  }

  /** The fragments of the record after one more physical record. */
  function Gather(parts: seq<Part>, begun: bool, at: nat, r: Physical): seq<Part> {
    if !r.Fragment? then []
    else if r.t == FullType || r.t == FirstType then [Part(at, r.t, r.data)]
    else if begun && (r.t == MiddleType || r.t == LastType) then parts + [Part(at, r.t, r.data)]
    else []
  }

  lemma Gathers(codec: Codec, file: seq<byte>, from: nat, to: nat, parts: seq<Part>, scratch: seq<byte>, begun: bool, r: Physical)
    requires RecordSoFar(codec, file, from, to, parts, scratch, begun) && from <= to && !r.Eof?
    requires r.Fragment? ==> SoundAt(codec, file, HeaderAt(to), r.t, r.data)
    ensures var a, parts' := Absorb(scratch, begun, r), Gather(parts, begun, HeaderAt(to), r);
            var to' := HeaderAt(to) + 7 + if r.Fragment? then |r.data| else 0;
            && (a.done ==> r.Fragment? && Assembled(codec, file, from, to', parts', a.scratch))
            && (!a.done ==> forall p :: (r.Fragment? ==> p == to') ==> RecordSoFar(codec, file, from, p, parts', a.scratch, a.inFragmentedRecord))
  {
    hide SoundAt, Chain, Begun, Whole, Payload;
    if r.Fragment? {
      var p := Part(HeaderAt(to), r.t, r.data);
      ChainOfOne(codec, file, p);
      if begun {
        ChainGrows(codec, file, parts, p);
        RecordGrows(parts, p);
      }
    }
  }

  /** What is not reported is kept: without a report, the payload read joins what was gathered. */
  lemma NothingLostSilently(scratch: seq<byte>, begun: bool, r: Physical)
    requires !r.Eof? && (!begun ==> scratch == [])
    ensures var a := Absorb(scratch, begun, r);
            a.report == None ==> a.scratch == scratch + if r.Fragment? then r.data else []
  {
  }

  class Reader {
    const file: seq<byte>
    const codec: Codec
    var filePos: nat           // bytes handed out by the file so far
    var buffer: seq<byte>      // the unread part of the latest block
    var eof: bool              // the latest read came up short
    var reports: seq<string>   // corruption reports

    ghost predicate Valid()
      reads this
    {
      && |buffer| <= filePos <= |file|
      && buffer == file[filePos - |buffer|..filePos]
      && if eof then filePos == |file| && |buffer| <= |file| % BLOCK_SIZE
         else filePos % BLOCK_SIZE == 0 && |buffer| <= BLOCK_SIZE
    }

    /** The offset of the next unread byte. */
    function Position(): nat
      requires |buffer| <= filePos
      reads this
    {
      filePos - |buffer|
    }

    constructor (codec: Codec, file: seq<byte>)
      ensures Valid() && this.file == file && this.codec == codec && Position() == 0 && reports == []
    {
      this.codec, this.file := codec, file;
      filePos, buffer, eof, reports := 0, [], false, [];
    }

    method ReadBlock()
      requires Valid() && !eof && |buffer| < HEADER_SIZE
      modifies `filePos, `buffer, `eof
      ensures Valid() && Position() == old(filePos)
      ensures eof || |buffer| == BLOCK_SIZE
    {
      var n := if |file| - filePos < BLOCK_SIZE then |file| - filePos else BLOCK_SIZE;
      BlockModulo(filePos, n, |file|);
      buffer := file[filePos..filePos + n];
      filePos := filePos + n;
      eof := n < BLOCK_SIZE;
    }

    lemma BlockModulo(p: nat, n: nat, len: nat)
      requires p % BLOCK_SIZE == 0 && p + n <= len && n == if len - p < BLOCK_SIZE then len - p else BLOCK_SIZE
      ensures n == BLOCK_SIZE ==> (p + n) % BLOCK_SIZE == 0
      ensures n < BLOCK_SIZE ==> n == len % BLOCK_SIZE
    {
    }

    method ReportCorruption(reason: string)
      modifies `reports
      ensures reports == old(reports) + [reason]
    {
      reports := reports + [reason];
    }

    /** Where the next header is, once a trailer is skipped. */
    function HeaderPosition(): nat
      requires Valid()
      reads this
    {
      if |buffer| < HEADER_SIZE && !eof then filePos else Position()
    }

    /** Loads a block if what is left of the latest one is a trailer. */
    method FillBuffer()
      requires Valid()
      modifies `filePos, `buffer, `eof
      ensures Valid() && Position() == old(HeaderPosition())
      ensures |buffer| < HEADER_SIZE ==> eof
    {
      while |buffer| < HEADER_SIZE && !eof
        invariant Valid()
        invariant Position() == old(Position()) || Position() == old(HeaderPosition())
        invariant Position() != old(HeaderPosition()) ==> |buffer| < HEADER_SIZE && !eof && filePos == old(filePos)
        decreases |file| - filePos, !eof
      {
        ReadBlock();
      }
    }

    /** A header and payload of the log start right at the reader's position. */
    ghost predicate HeaderHere(log: seq<byte>, t: RecordType, data: seq<byte>)
      reads this
    {
      && Valid() && file <= log && codec.Good()
      && FragmentAt(codec, log, Position(), t, data) && Pad(Position() % BLOCK_SIZE) == 0
    }

    /** Parses the fragment at the front of the buffer. */
    method ParseFragment(ghost log: seq<byte>, ghost t: RecordType, ghost data: seq<byte>) returns (r: Physical)
      requires Valid() && |buffer| >= HEADER_SIZE
      modifies `buffer, `reports
      ensures Valid() && Position() > old(Position())
      ensures old(reports) <= reports && ReadsAs(codec, old(buffer), eof, r, reports[|old(reports)|..])
      ensures if r.Fragment? then Position() == old(Position()) + 7 + |r.data| else reports != old(reports) ==> buffer == []
      ensures old(HeaderHere(log, t, data)) ==>
                && reports == old(reports)
                && if old(Position()) + HEADER_SIZE + |data| <= |file|
                   then r == Fragment(t, data) && Position() == old(Position()) + HEADER_SIZE + |data|
                   else r == Eof
    {
      var header := buffer;
      if HeaderHere(log, t, data) {
        HeaderParsed(log, t, data);
      }
      var length := header[4] as int + header[5] as int * 256;
      var t' := TypeOf(header[6]);
      if HEADER_SIZE + length > |header| {
        buffer := [];
        if !eof {
          ReportCorruption("bad record length");
          return BadRecord;
        }
        return Eof;
      }
      if t' == ZeroType && length == 0 {
        buffer := [];
        return BadRecord;
      }
      if codec.crc([header[6]] + header[HEADER_SIZE..HEADER_SIZE + length]) != codec.load(header[..4]) {
        buffer := [];
        ReportCorruption("checksum mismatch");
        return BadRecord;
      }
      buffer := header[HEADER_SIZE + length..];
      // the codes of the two extra results are not told apart from them
      if header[6] == 5 {
        return Eof;
      }
      if header[6] == 6 {
        return BadRecord;
      }
      return Fragment(t', header[HEADER_SIZE..HEADER_SIZE + length]);
    }

    /** What the front of the buffer looks like when the log has a fragment here. */
    lemma HeaderParsed(log: seq<byte>, t: RecordType, data: seq<byte>)
      requires HeaderHere(log, t, data) && |buffer| >= HEADER_SIZE
      ensures buffer[4] as int + buffer[5] as int * 256 == |data| && TypeOf(buffer[6]) == t && t != ZeroType
      ensures codec.load(buffer[..4]) == codec.crc([buffer[6]] + data)
      ensures Position() + HEADER_SIZE + |data| <= |file| <==> HEADER_SIZE + |data| <= |buffer|
      ensures !eof ==> HEADER_SIZE + |data| <= |buffer|
      ensures HEADER_SIZE + |data| <= |buffer| ==> buffer[HEADER_SIZE..HEADER_SIZE + |data|] == data
    {
      var p := Position();
      HeaderParses(codec, t, data);
      SliceOfPrefix(file, log, p, filePos, 0, HEADER_SIZE);
      assert buffer[..4] == Header(codec, t, data)[..4];
      if HEADER_SIZE + |data| <= |buffer| {
        SliceOfPrefix(file, log, p, filePos, HEADER_SIZE, HEADER_SIZE + |data|);
      }
      RoomInBlock(filePos, |buffer|, HEADER_SIZE + |data|);
    }

    lemma RoomInBlock(end: nat, n: nat, size: nat)
      requires 0 < n <= end && n <= BLOCK_SIZE
      ensures end % BLOCK_SIZE == 0 && (end - n) % BLOCK_SIZE + size <= BLOCK_SIZE ==> size <= n
    {
    }

    /** The next fragment of the log, after the trailer if there is one. */
    ghost predicate Next(log: seq<byte>, t: RecordType, data: seq<byte>)
      reads this
    {
      Valid() && file <= log && codec.Good() && FragmentAt(codec, log, Position(), t, data)
    }

    /** Skipping what is left of a block skips exactly the trailer. */
    lemma SkipsTrailer(log: seq<byte>, t: RecordType, data: seq<byte>)
      requires Next(log, t, data)
      ensures |buffer| < HEADER_SIZE && eof ==> FragmentEnd(Position(), data) > |file|
      ensures |buffer| >= HEADER_SIZE || !eof ==> HeaderPosition() == Position() + Pad(Position() % BLOCK_SIZE)
      ensures |buffer| >= HEADER_SIZE || !eof ==> Pad(HeaderPosition() % BLOCK_SIZE) == 0
    {
      PositionInBlock(filePos, |buffer|, |file|, eof);
    }

    /** A position in a block is its end less the bytes left. */
    lemma PositionInBlock(end: nat, n: nat, len: nat, atEof: bool)
      requires n <= end && if atEof then end == len && n <= len % BLOCK_SIZE else end % BLOCK_SIZE == 0 && n <= BLOCK_SIZE
      ensures !atEof ==> (end - n) % BLOCK_SIZE == if n == 0 || n == BLOCK_SIZE then 0 else BLOCK_SIZE - n
      ensures atEof ==> (end - n) % BLOCK_SIZE == len % BLOCK_SIZE - n
    {
      if atEof {
        assert (len - n) % BLOCK_SIZE == len % BLOCK_SIZE - n;
      }
    }

    lemma SamePlace(log: seq<byte>, at: nat, t: RecordType, data: seq<byte>)
      requires FragmentAt(codec, log, at, t, data)
      requires Pad((at + Pad(at % BLOCK_SIZE)) % BLOCK_SIZE) == 0
      ensures FragmentAt(codec, log, at + Pad(at % BLOCK_SIZE), t, data)
    {
    }

    /** Gets to the next header, and to the fragment there if the log has one. */
    method NextHeader(ghost log: seq<byte>, ghost t: RecordType, ghost data: seq<byte>)
      requires Valid()
      modifies `filePos, `buffer, `eof
      ensures Valid() && Position() == old(HeaderPosition()) && Position() >= old(Position())
      ensures |buffer| < HEADER_SIZE ==> eof
      ensures |buffer| >= HEADER_SIZE ==> Position() == HeaderAt(old(Position()))
      ensures old(Next(log, t, data)) && |buffer| < HEADER_SIZE ==> FragmentEnd(old(Position()), data) > |file|
      ensures old(Next(log, t, data)) && |buffer| >= HEADER_SIZE ==>
                HeaderHere(log, t, data) && Position() + HEADER_SIZE + |data| == FragmentEnd(old(Position()), data)
    {
      ghost var at := Position();
      if Next(log, t, data) {
        SkipsTrailer(log, t, data);
      }
      ghost var skipped := HeaderPosition();
      PositionIsHeader();
      FillBuffer();
      if old(Next(log, t, data)) && |buffer| >= HEADER_SIZE {
        SamePlace(log, at, t, data);
      }
    }

    method ReadPhysicalRecord(ghost log: seq<byte>, ghost t: RecordType, ghost data: seq<byte>) returns (r: Physical)
      requires Valid()
      modifies this
      ensures Valid() && (r.Eof? || Position() > old(Position()))
      ensures old(Next(log, t, data)) ==>
                && reports == old(reports)
                && if FragmentEnd(old(Position()), data) <= |file|
                   then r == Fragment(t, data) && Position() == FragmentEnd(old(Position()), data)
                   else r == Eof
      ensures old(Position()) == |file| ==> r == Eof && reports == old(reports)
      ensures old(HeaderPosition()) <= filePos
      ensures old(reports) <= reports && ReadsAs(codec, file[old(HeaderPosition())..filePos], eof, r, reports[|old(reports)|..])
      ensures reports != old(reports) ==> buffer == []
      ensures r.Fragment? ==> Takes(r, old(Position()))
    {
      hide ReadsAs, SoundAt, Reader.Next, Reader.HeaderHere, HeaderAt;
      NextHeader(log, t, data);
      ghost var at := Position();
      if |buffer| < HEADER_SIZE {
        ShortReads(codec, buffer, eof);
        buffer := [];
        assert reports[|reports|..] == [];
        return Eof;
      }
      r := ParseFragment(log, t, data);
      if r.Fragment? {
        FragmentSound(codec, file, at, filePos, eof, r, reports[|old(reports)|..]);
      }
    }

    /** The fragment returned is a sound one of the file, where the position led, and the reader is behind it. */
    ghost predicate Takes(r: Physical, from: nat)
      requires r.Fragment? && |buffer| <= filePos
      reads this
    {
      SoundAt(codec, file, HeaderAt(from), r.t, r.data) && Position() == HeaderAt(from) + 7 + |r.data|
    }

    lemma PositionIsHeader()
      requires Valid()
      ensures |buffer| >= HEADER_SIZE || !eof ==> HeaderPosition() == HeaderAt(Position())
    {
      PositionInBlock(filePos, |buffer|, |file|, eof);
    }

    /** The log has the record, or its remaining fragments, at the reader's position. */
    ghost predicate OnRecord(log: seq<byte>, data: seq<byte>, begin: bool)
      reads this
    {
      Valid() && file <= log && codec.Good() && RecordAt(codec, log, Position(), data, begin)
    }

    /** ReadPhysicalRecord in the middle of a record: the next part of it, or the end of the file. */
    method ReadNext(ghost log: seq<byte>, ghost rest: seq<byte>, ghost begin: bool) returns (r: Physical)
      requires Valid()
      modifies this
      ensures Valid() && (r.Eof? || Position() > old(Position()))
      ensures old(OnRecord(log, rest, begin)) ==> reports == old(reports) && (r.Fragment? || r.Eof?)
      ensures old(OnRecord(log, rest, begin)) && r.Eof? ==> RecordEnd(codec, old(Position()), rest, begin) > |file|
      ensures old(OnRecord(log, rest, begin)) && r.Fragment? ==>
                && r.data <= rest && r.t == FragmentType(begin, r.data == rest)
                && (r.data == rest ==> Position() == RecordEnd(codec, old(Position()), rest, begin))
                && (r.data != rest ==>
                      && OnRecord(log, rest[|r.data|..], false)
                      && RecordEnd(codec, Position(), rest[|r.data|..], false) == RecordEnd(codec, old(Position()), rest, begin))
      ensures old(Position()) == |file| ==> r == Eof && reports == old(reports)
      ensures old(reports) <= reports && (r.Fragment? ==> Takes(r, old(Position())))
    {
      ghost var at, n := Position(), FragmentLength(Position() % BLOCK_SIZE, |rest|);
      ghost var t := FragmentType(begin, n == |rest|);
      ghost var on := OnRecord(log, rest, begin);
      if on {
        RecordStarts(codec, log, at, rest, begin);
      }
      r := ReadPhysicalRecord(log, t, rest[..n]);
      assert n == |rest| <==> rest[..n] == rest;
    }

    /** Reads the next record, or says there is none. */
    method ReadRecord(ghost log: seq<byte>, ghost data: seq<byte>) returns (ok: bool, record: seq<byte>, ghost parts: seq<Part>)
      requires Valid()
      modifies this
      ensures Valid() && (ok ==> Position() > old(Position()))
      ensures old(OnRecord(log, data, true)) ==>
                && reports == old(reports)
                && if RecordEnd(codec, old(Position()), data, true) <= |file|
                   then ok && record == data && Position() == RecordEnd(codec, old(Position()), data, true)
                   else !ok
      ensures old(Position()) == |file| ==> !ok && reports == old(reports)
      ensures old(reports) <= reports && (ok ==> Assembled(codec, file, old(Position()), Position(), parts, record))
    {
      hide RecordBytes, FragmentType, Assembled, Absorb, SoundAt, HeaderAt;
      parts := [];
      var scratch: seq<byte> := [];
      var inFragmentedRecord := false;
      ghost var on, atEnd, end := OnRecord(log, data, true), Position() == |file|, RecordEnd(codec, Position(), data, true);
      ghost var rest := data;
      while true
        invariant Valid() && Position() >= old(Position())
        invariant atEnd ==> Position() == |file| && reports == old(reports)
        invariant on ==> OnRecord(log, rest, !inFragmentedRecord) && reports == old(reports)
        invariant on ==> RecordEnd(codec, Position(), rest, !inFragmentedRecord) == end && scratch + rest == data
        invariant old(reports) <= reports
        invariant RecordSoFar(codec, file, old(Position()), Position(), parts, scratch, inFragmentedRecord)
        decreases |file| - Position()
      {
        ghost var p := Position();
        var r := ReadNext(log, rest, !inFragmentedRecord);
        if r.Eof? {
          return false, [], [];
        }
        Gathers(codec, file, old(Position()), p, parts, scratch, inFragmentedRecord, r);
        parts := Gather(parts, inFragmentedRecord, HeaderAt(p), r);
        var a := Absorb(scratch, inFragmentedRecord, r);
        if on {
          AbsorbsPart(scratch, inFragmentedRecord, rest, r);
          rest := rest[|r.data|..];
        }
        if a.report.Some? {
          ReportCorruption(a.report.value);
        }
        if a.done {
          return true, a.scratch, parts;
        }
        scratch, inFragmentedRecord := a.scratch, a.inFragmentedRecord;
      }
    }
  }

  /** The next part of a record is added to it, and its last part completes it. */
  lemma AbsorbsPart(scratch: seq<byte>, inFragmentedRecord: bool, rest: seq<byte>, r: Physical)
    requires r.Fragment? && r.data <= rest && r.t == FragmentType(!inFragmentedRecord, r.data == rest)
    requires !inFragmentedRecord ==> scratch == []
    ensures var a := Absorb(scratch, inFragmentedRecord, r);
            && a.report == None && (a.done <==> r.data == rest)
            && a.scratch == scratch + r.data && a.scratch + rest[|r.data|..] == scratch + rest
            && (a.done ==> a.scratch == scratch + rest)
            && (!a.done ==> a.inFragmentedRecord)
  {
  }

  // ----- records in a log -----

  ghost predicate RecordAt(codec: Codec, log: seq<byte>, at: nat, data: seq<byte>, begin: bool) {
    at <= |log| && RecordBytes(codec, at % BLOCK_SIZE, data, begin) <= log[at..]
  }

  ghost function RecordEnd(codec: Codec, at: nat, data: seq<byte>, begin: bool): nat {
    at + |RecordBytes(codec, at % BLOCK_SIZE, data, begin)|
  }

  lemma PrefixParts(a: seq<byte>, b: seq<byte>, log: seq<byte>, at: nat)
    requires at <= |log| && a + b <= log[at..]
    ensures at + |a| <= |log| && log[at..at + |a|] == a && b <= log[at + |a|..]
  {
    assert log[at..][..|a|] == (a + b)[..|a|];
    assert log[at..][|a|..] == log[at + |a|..];
    assert b == (a + b)[|a|..];
  }

  /** A fragment and the rest of the record, one behind the other in the log. */
  lemma PartsFollow(record: seq<byte>, fragment: seq<byte>, rest: seq<byte>, log: seq<byte>, at: nat, next: nat)
    requires at <= |log| && record == fragment + rest && record <= log[at..] && next == at + |fragment|
    ensures next <= |log| && log[at..next] == fragment && rest <= log[next..] && at + |record| == next + |rest|
  {
    PrefixParts(fragment, rest, log, at);
  }

  lemma FirstFragment(codec: Codec, log: seq<byte>, at: nat, off: nat, fragment: seq<byte>, rest: seq<byte>, data: seq<byte>, begin: bool)
    requires at <= |log| && off == at % BLOCK_SIZE && fragment == FragmentBytes(codec, off, data, begin) && fragment + rest <= log[at..]
    ensures FragmentAt(codec, log, at, FragmentType(begin, FragmentLength(off, |data|) == |data|), data[..FragmentLength(off, |data|)])
  {
    hide *;
    PrefixParts(fragment, rest, log, at);
    FragmentParts(codec, log, at, data, begin);
  }

  lemma RestThere(codec: Codec, log: seq<byte>, next: nat, rest: seq<byte>, data: seq<byte>)
    requires next <= |log| && rest <= log[next..] && rest == RecordBytes(codec, next % BLOCK_SIZE, data, false)
    ensures RecordAt(codec, log, next, data, false) && RecordEnd(codec, next, data, false) == next + |rest|
  {
    hide RecordBytes;
  }

  /** The first fragment of a record, and what follows it. */
  lemma RecordStarts(codec: Codec, log: seq<byte>, at: nat, data: seq<byte>, begin: bool)
    requires RecordAt(codec, log, at, data, begin)
    ensures var n := FragmentLength(at % BLOCK_SIZE, |data|);
            && FragmentAt(codec, log, at, FragmentType(begin, n == |data|), data[..n])
            && var next := FragmentEnd(at, data[..n]);
               && next <= RecordEnd(codec, at, data, begin)
               && (n == |data| ==> next == RecordEnd(codec, at, data, begin))
               && (n < |data| ==> RecordAt(codec, log, next, data[n..], false)
                                  && RecordEnd(codec, next, data[n..], false) == RecordEnd(codec, at, data, begin))
  {
    hide RecordBytes, FragmentBytes, FragmentLength, FragmentAt, FragmentEnd, HeaderOffset;
    var off := at % BLOCK_SIZE;
    var n := FragmentLength(off, |data|);
    var record, fragment := RecordBytes(codec, off, data, begin), FragmentBytes(codec, off, data, begin);
    var rest, next := RestBytes(codec, HeaderOffset(off) + HEADER_SIZE + n, data[n..]), FragmentEnd(at, data[..n]);
    RecordSplits(codec, off, data, begin);
    FragmentSize(codec, at, data, begin, n);
    PartsFollow(record, fragment, rest, log, at, next);
    FirstFragment(codec, log, at, off, fragment, rest, data, begin);
    if n < |data| {
      RestIsRecord(codec, at, data, n);
      RestThere(codec, log, next, rest, data[n..]);
    }
  }

  lemma FragmentSize(codec: Codec, at: nat, data: seq<byte>, begin: bool, n: nat)
    requires n == FragmentLength(at % BLOCK_SIZE, |data|)
    ensures at + |FragmentBytes(codec, at % BLOCK_SIZE, data, begin)| == FragmentEnd(at, data[..n])
  {
    hide FragmentLength;
  }

  lemma RecordSplits(codec: Codec, off: nat, data: seq<byte>, begin: bool)
    requires off <= BLOCK_SIZE
    ensures var n := FragmentLength(off, |data|);
            RecordBytes(codec, off, data, begin) ==
            FragmentBytes(codec, off, data, begin) + RestBytes(codec, HeaderOffset(off) + HEADER_SIZE + n, data[n..])
  {
  }

  lemma RestIsRecord(codec: Codec, at: nat, data: seq<byte>, n: nat)
    requires n == FragmentLength(at % BLOCK_SIZE, |data|) && n < |data|
    ensures RestBytes(codec, HeaderOffset(at % BLOCK_SIZE) + HEADER_SIZE + n, data[n..]) ==
            RecordBytes(codec, FragmentEnd(at, data[..n]) % BLOCK_SIZE, data[n..], false)
  {
    NextOffset(at, n);
    FullBlockIsNext(codec, data[n..], false);
  }

  lemma FragmentParts(codec: Codec, log: seq<byte>, at: nat, data: seq<byte>, begin: bool)
    requires var fragment := FragmentBytes(codec, at % BLOCK_SIZE, data, begin);
             at + |fragment| <= |log| && log[at..at + |fragment|] == fragment
    ensures var n := FragmentLength(at % BLOCK_SIZE, |data|);
            FragmentAt(codec, log, at, FragmentType(begin, n == |data|), data[..n])
  {
    var off := at % BLOCK_SIZE;
    var n := FragmentLength(off, |data|);
    var zeros, header, payload := Zeros(Pad(off)), Header(codec, FragmentType(begin, n == |data|), data[..n]), data[..n];
    assert FragmentBytes(codec, off, data, begin) == zeros + (header + payload);
    assert log[at..at + |zeros| + |header| + |payload|] <= log[at..];
    PrefixParts(zeros, header + payload, log, at);
    PrefixParts(header, payload, log, at + |zeros|);
    PrefixParts(payload, [], log, at + |zeros| + |header|);
    HeaderInBlock(at);
  }

  lemma HeaderInBlock(at: nat)
    ensures (at + Pad(at % BLOCK_SIZE)) % BLOCK_SIZE == HeaderOffset(at % BLOCK_SIZE)
  {
  }

  lemma NextOffset(at: nat, n: nat)
    requires HeaderOffset(at % BLOCK_SIZE) + HEADER_SIZE + n <= BLOCK_SIZE
    ensures var off := HeaderOffset(at % BLOCK_SIZE) + HEADER_SIZE + n;
            (at + Pad(at % BLOCK_SIZE) + HEADER_SIZE + n) % BLOCK_SIZE == if off == BLOCK_SIZE then 0 else off
  {
    HeaderInBlock(at);
    var start := at + Pad(at % BLOCK_SIZE);
    assert (start + (HEADER_SIZE + n)) % BLOCK_SIZE == (start % BLOCK_SIZE + HEADER_SIZE + n) % BLOCK_SIZE;
  }

  lemma {:induction false} LogExtends(codec: Codec, records: seq<seq<byte>>, k: nat)
    requires k <= |records|
    ensures LogBytes(codec, records[..k]) <= LogBytes(codec, records)
    decreases |records|
  {
    if k == |records| {
      assert records[..k] == records;
    } else {
      LogExtends(codec, records[..|records| - 1], k);
      assert records[..|records| - 1][..k] == records[..k];
    }
  }

  lemma PartBehind(before: seq<byte>, part: seq<byte>, all: seq<byte>)
    requires before + part <= all
    ensures part <= all[|before|..]
  {
    assert part == (before + part)[|before|..];
  }

  /** The log of the first records is a prefix of the whole log, and the next record lies behind it. */
  lemma LogPrefix(codec: Codec, records: seq<seq<byte>>, k: nat)
    requires k <= |records|
    ensures LogBytes(codec, records[..k]) <= LogBytes(codec, records)
    ensures k < |records| ==> RecordAt(codec, LogBytes(codec, records), |LogBytes(codec, records[..k])|, records[k], true)
    ensures k < |records| ==> |LogBytes(codec, records[..k + 1])| ==
                              RecordEnd(codec, |LogBytes(codec, records[..k])|, records[k], true)
  {
    LogExtends(codec, records, k);
    if k < |records| {
      LogExtends(codec, records, k + 1);
      assert records[..k + 1][..k] == records[..k];
      var before := LogBytes(codec, records[..k]);
      PartBehind(before, RecordBytes(codec, |before| % BLOCK_SIZE, records[k], true), LogBytes(codec, records));
    }
  }

  /** Writes the records one by one, reopening the file for each. */
  method WriteLog(codec: Codec, records: seq<seq<byte>>) returns (file: seq<byte>)
    ensures file == LogBytes(codec, records)
  {
    file := [];
    for i := 0 to |records|
      invariant file == LogBytes(codec, records[..i])
    {
      var w := new Writer(codec, file);
      w.AddRecord(records[i]);
      file := w.dest;
      assert records[..i + 1][..i] == records[..i];
    }
    assert records[..|records|] == records;
  }

  /** The records that lie wholly inside the first `size` bytes of their log: the first `k`. */
  ghost predicate WhollyInside(codec: Codec, records: seq<seq<byte>>, k: nat, size: nat) {
    && k <= |records|
    && |LogBytes(codec, records[..k])| <= size
    && (k < |records| ==> |LogBytes(codec, records[..k + 1])| > size)
  }

  lemma LogBegins(codec: Codec, records: seq<seq<byte>>)
    requires codec.Good()
    ensures LogBytes(codec, records[..0]) == []
  {
  }

  /** Main result: whatever prefix of a log is left, reading it gives back exactly the records
      that are wholly inside it, in order, and reports no corruption. */
  method ReadLog(codec: Codec, file: seq<byte>, ghost records: seq<seq<byte>>)
      returns (read: seq<seq<byte>>, reports: seq<string>, ghost k: nat)
    requires codec.Good() && file <= LogBytes(codec, records)
    ensures WhollyInside(codec, records, k, |file|)
    ensures read == records[..k] && reports == []
  {
    hide LogBytes, RecordBytes;
    LogBegins(codec, records);
    var reader := new Reader(codec, file);
    read := [];
    k := 0;
    var more := true;
    while more
      invariant reader.Valid() && fresh(reader) && reader.file == file && reader.codec == codec && reader.reports == []
      invariant k <= |records| && read == records[..k]
      invariant |LogBytes(codec, records[..k])| <= |file|
      invariant more ==> reader.Position() == |LogBytes(codec, records[..k])|
      invariant !more ==> WhollyInside(codec, records, k, |file|)
      decreases more, |file| - reader.Position()
    {
      var record;
      more, record := NextRecord(reader, records, k);
      if more {
        assert records[..k + 1] == records[..k] + [record];
        read := read + [record];
        k := k + 1;
      }
    }
    reports := reader.reports;
  }

  /** Reads record `k`, if it is there. */
  method NextRecord(reader: Reader, ghost records: seq<seq<byte>>, ghost k: nat) returns (ok: bool, record: seq<byte>)
    requires reader.Valid() && k <= |records| && reader.Position() == |LogBytes(reader.codec, records[..k])|
    requires reader.codec.Good() && reader.file <= LogBytes(reader.codec, records)
    modifies reader
    ensures reader.Valid() && reader.reports == old(reader.reports)
    ensures ok ==> k < |records| && record == records[k] && reader.Position() == |LogBytes(reader.codec, records[..k + 1])|
    ensures ok ==> reader.Position() > old(reader.Position())
    ensures !ok && k < |records| ==> |LogBytes(reader.codec, records[..k + 1])| > |reader.file|
  {
    ghost var log := LogBytes(reader.codec, records);
    LogPrefix(reader.codec, records, k);
    if k == |records| {
      assert records[..k] == records;
    }
    ghost var parts;
    ok, record, parts := reader.ReadRecord(log, if k < |records| then records[k] else []);
  }

  /** The whole log reads back whole. */
  method RoundTrip(codec: Codec, records: seq<seq<byte>>) returns (read: seq<seq<byte>>, reports: seq<string>)
    requires codec.Good()
    ensures read == records && reports == []
  {
    var file := WriteLog(codec, records);
    ghost var k;
    read, reports, k := ReadLog(codec, file, records);
    if k < |records| {
      LogPrefix(codec, records, k + 1);
    }
  }
}
