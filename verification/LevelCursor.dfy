/** The iterator over the files of a sorted level, opening one table after the other (LevelFileNumIterator and
    Version::NewConcatenatingIterator in db/version_set.cc): one cursor on the level's entries. */
module LevelCursor {
  import opened Coding
  import opened DbFormat
  import opened FileLevels
  import opened Compaction
  import opened TableCursor
  import ByteKeys
  import Table
  import TableBuilder
  import TableFormat
  import TableGet

  type Bytes = seq<byte>

  /** How the tables of a store are written and read. */
  datatype Tables = Tables(f: ByteKeys.Format, options: TableBuilder.TableOptions, verify: bool)
  {
    ghost predicate Good() {
      f.Good() && options.Good() && options.comparator == TableFormat.InternalComparator()
    }

    /** The bytes are a table of the file's entries. */
    ghost predicate Holds(file: File, bytes: Bytes, y: TableBuilder.Layout) {
      && TableBuilder.IsTable(options, bytes, y) && Table.Small(bytes, y) && Table.SmallFilter(options, y)
      && SortedEntries(file.entries) && TableGet.Written(f, file.entries, TableBuilder.Concat(y.b.es))
    }
  }

  /** What the table builder writes for a good file can be read back as that file. */
  method BuildTable(ts: Tables, file: File) returns (bytes: Bytes)
    requires ts.Good() && GoodFile(file)
    ensures |bytes| < TWO32 ==> exists y :: ts.Holds(file, bytes, y)
  {
    hide TableBuilder.IsTable, TableBuilder.TableOptions.Good;
    var ps := TableGet.Write(ts.f, file.entries);
    TableGet.WrittenOrdered(ts.f, file.entries, ps);
    bytes := Table.Build(ts.options, ps);
    ghost var y :| TableBuilder.IsTable(ts.options, bytes, y) && TableBuilder.Concat(y.b.es) == ps;
    if |bytes| < TWO32 {
      Table.SmallFile(ts.options, bytes, y);
      assert ts.Holds(file, bytes, y);
    }
  }

  /** The table cache's iterator over a file. */
  method NewFileIterator(ts: Tables, bytes: Bytes, ghost file: File, ghost y: TableBuilder.Layout) returns (c: TableCursor)
    requires ts.Good() && ts.Holds(file, bytes, y)
    ensures c.Valid() && c in c.Repr && fresh(c.Repr) && c.f == ts.f && c.entries == file.entries && c.Pos() == |c.entries|
  {
    hide TableBuilder.IsTable, Table.Small, Table.SmallFilter, TableGet.Written, TableBuilder.TableOptions.Good;
    var t := Table.Open(ts.options, bytes, ts.verify, y);
    c := new TableCursor(ts.f, t, file.entries);
  }

  // ----- places in the level -----

  /** How many entries there are before file `i`. */
  function EntriesBefore(files: seq<File>, i: nat): nat
    requires i <= |files|
  {
    |Flatten(files[..i])|
  }

  lemma {:induction false} FlattenPart(files: seq<File>, i: nat)
    requires i <= |files|
    ensures Flatten(files[..i]) <= Flatten(files)
    decreases |files|
  {
    if i == |files| {
      assert files[..i] == files;
    } else {
      FlattenPart(files[..|files| - 1], i);
      assert files[..|files| - 1][..i] == files[..i];
    }
  }

  lemma FileStep(files: seq<File>, i: nat)
    requires i < |files|
    ensures EntriesBefore(files, i + 1) == EntriesBefore(files, i) + |files[i].entries| <= |Flatten(files)|
    ensures forall p :: 0 <= p < |files[i].entries| ==> Flatten(files)[EntriesBefore(files, i) + p] == files[i].entries[p]
  {
    assert files[..i + 1][..i] == files[..i];
    FlattenPart(files, i + 1);
    var part := Flatten(files[..i + 1]);
    forall p | 0 <= p < |files[i].entries| ensures Flatten(files)[EntriesBefore(files, i) + p] == files[i].entries[p] {
      assert part[EntriesBefore(files, i) + p] == files[i].entries[p];
    }
  }

  lemma FileEnds(files: seq<File>)
    ensures EntriesBefore(files, 0) == 0 && EntriesBefore(files, |files|) == |Flatten(files)|
  {
    assert files[..|files|] == files;
  }

  lemma {:induction false} InEarlierFile(files: seq<File>, i: nat, q: nat)
    requires i <= |files| && q < EntriesBefore(files, i)
    ensures exists j :: 0 <= j < i && Flatten(files[..i])[q] in files[j].entries
    decreases i
  {
    if q < EntriesBefore(files, i - 1) {
      InEarlierFile(files, i - 1, q);
      FileStep(files, i - 1);
      assert files[..i][..i - 1] == files[..i - 1];
      var j :| 0 <= j < i - 1 && Flatten(files[..i - 1])[q] in files[j].entries;
      assert Flatten(files[..i])[q] in files[j].entries;
    } else {
      assert files[..i][..i - 1] == files[..i - 1];
      assert Flatten(files[..i])[q] in files[i - 1].entries;
    }
  }

  /** The file found for a key, and the place in it, lead to the place in the level. */
  lemma {:induction false} SeekPlace(files: seq<File>, i: nat, p: nat, target: InternalKey)
    requires SortedRun(files) && SortedEntries(Flatten(files)) && i <= |files|
    requires forall j :: 0 <= j < i ==> Less(files[j].largest, target)
    requires if i == |files| then p == 0 else LessEq(target, files[i].largest) && AtSeek(files[i].entries, p, target)
    ensures AtSeek(Flatten(files), EntriesBefore(files, i) + p, target)
  {
    var es, place := Flatten(files), EntriesBefore(files, i) + p;
    FileEnds(files);
    FlattenPart(files, i);
    forall q | 0 <= q < EntriesBefore(files, i) ensures Less(es[q].key, target) {
      InEarlierFile(files, i, q);
      var j :| 0 <= j < i && Flatten(files[..i])[q] in files[j].entries;
      assert files[j] in files && GoodFile(files[j]);
    }
    if i < |files| {
      FileStep(files, i);
      var file := files[i];
      assert file in files && GoodFile(file);
      assert p < |file.entries|;
      forall q | EntriesBefore(files, i) <= q < place ensures Less(es[q].key, target) {
        assert es[q] == file.entries[q - EntriesBefore(files, i)];
      }
      forall q | place <= q < |es| ensures LessEq(target, es[q].key) {
        assert es[place] == file.entries[p];
        assert q > place ==> Precedes(es[place], es[q]);
      }
    }
  }

  class LevelCursor {
    const ts: Tables
    const files: seq<File>
    const bytes: seq<Bytes>                         // of each file's table
    ghost const layouts: seq<TableBuilder.Layout>
    var index: nat                                  // the file number iterator; |files| when not valid
    var data: TableCursor?
    var dataNumber: nat                             // the number of the data iterator's file, if there is one
    ghost var dataIndex: nat
    ghost var pos: nat
    ghost var Repr: set<object>

    ghost predicate Stored() {
      && ts.Good() && |bytes| == |layouts| == |files| && SortedRun(files) && SortedEntries(Flatten(files))
      && forall i :: 0 <= i < |files| ==> ts.Holds(files[i], bytes[i], layouts[i])
    }

    ghost predicate OnFile()
      reads this, Repr
    {
      data != null ==>
        && data in Repr && data.Repr <= Repr && this !in data.Repr && data.Valid() && data.f == ts.f
        && dataIndex < |files| && data.entries == files[dataIndex].entries && dataNumber == files[dataIndex].number
    }

    ghost predicate Parts()
      reads this, Repr
    {
      this in Repr && index <= |files| && Stored() && OnFile()
    }

    ghost predicate Together()
      reads this
    {
      if data == null then index == |files| else index < |files| && dataIndex == index
    }

    ghost predicate Valid()
      reads this, Repr
    {
      && Parts() && Together()
      && if data == null then pos == |Flatten(files)|
         else data.Pos() < |data.entries| && pos == EntriesBefore(files, dataIndex) + data.Pos()
    }

    /** The place in all entries, whether or not there is one in this file. */
    ghost predicate AtPlace(p: nat)
      requires Parts()
      reads this, Repr
    {
      if data == null then p == |Flatten(files)| else p == EntriesBefore(files, dataIndex) + data.Pos()
    }

    constructor (ts: Tables, files: seq<File>, bytes: seq<Bytes>, ghost layouts: seq<TableBuilder.Layout>)
      requires ts.Good() && |bytes| == |layouts| == |files| && SortedRun(files) && SortedEntries(Flatten(files))
      requires forall i :: 0 <= i < |files| ==> ts.Holds(files[i], bytes[i], layouts[i])
      ensures Valid() && fresh(Repr) && this.files == files && pos == |Flatten(files)|
    {
      this.ts, this.files, this.bytes, this.layouts := ts, files, bytes, layouts;
      index, data, dataNumber, dataIndex := |files|, null, 0, 0;
      pos := |Flatten(files)|;
      Repr := {this};
    }

    predicate Positioned()
      requires Valid()
      reads this, Repr
      ensures pos <= |Flatten(files)| && (Positioned() <==> pos < |Flatten(files)|)
    {
      if data != null then FileStep(files, dataIndex); true else false
    }

    method Current() returns (e: Entry)
      requires Valid() && pos < |Flatten(files)|
      ensures e == Flatten(files)[pos]
    {
      hide TableCursor.Valid, Flatten, Stored;
      FileStep(files, dataIndex);
      e := data.Current();
    }

    /** Takes the file the index is at; a data iterator on it is kept. */
    method InitDataBlock()
      requires Parts()
      modifies this
      ensures Parts() && Together() && fresh(Repr - old(Repr)) && index == old(index)
    {
      hide Tables.Holds, Tables.Good, TableCursor.Valid, Flatten, SortedEntries;
      if index == |files| {
        data := null;
      } else if data != null && dataNumber == files[index].number {
        assert files[index] in files && files[dataIndex] in files;
        dataIndex := index;
      } else {
        data := NewFileIterator(ts, bytes[index], files[index], layouts[index]);
        dataNumber, dataIndex := files[index].number, index;
        Repr := Repr + data.Repr;
      }
    }

    /** The next file with an entry, from the end of this one on. */
    method SkipEmptyForward(ghost p: nat)
      requires Parts() && Together() && AtPlace(p)
      modifies Repr
      ensures Valid() && pos == p && fresh(Repr - old(Repr))
    {
      hide Stored, TableCursor.Valid, Flatten;
      while data == null || !data.Positioned()
        invariant Parts() && Together() && AtPlace(p) && fresh(Repr - old(Repr))
        decreases |files| - index
      {
        if index == |files| {
          data := null;
          pos := p;
          return;
        }
        FileStep(files, dataIndex);
        FileEnds(files);
        NextFile();
      }
      pos := p;
    }

    method NextFile()
      requires Parts() && Together() && index < |files|
      modifies Repr
      ensures Parts() && Together() && index == old(index) + 1 && fresh(Repr - old(Repr))
      ensures data != null ==> data.Pos() == 0
    {
      hide Stored, TableCursor.Valid;
      index := index + 1;
      InitDataBlock();
      if data != null {
        data.SeekToFirst();
        Repr := Repr + data.Repr;
      }
    }

    method PrevFile()
      requires Parts() && Together() && index < |files|
      modifies Repr
      ensures Parts() && Together() && fresh(Repr - old(Repr)) && (data == null <==> old(index) == 0)
      ensures data != null ==> index == old(index) - 1 && data.Pos() == if data.entries == [] then 0 else |data.entries| - 1
    {
      hide Stored, TableCursor.Valid;
      index := if index == 0 then |files| else index - 1;
      InitDataBlock();
      if data != null {
        data.SeekToLast();
        Repr := Repr + data.Repr;
      }
    }

    /** Behind the first `n` entries, at the last of them if it is in this file. */
    ghost predicate Behind(n: nat)
      requires Parts()
      reads this, Repr
    {
      if data == null then n == 0
      else n == EntriesBefore(files, dataIndex) + if data.Pos() < |data.entries| then data.Pos() + 1 else 0
    }

    /** The file before with an entry. */
    method SkipEmptyBackward(ghost n: nat)
      requires Parts() && Together() && Behind(n)
      modifies Repr
      ensures Valid() && pos == (if n == 0 then |Flatten(files)| else n - 1) && fresh(Repr - old(Repr))
    {
      hide Stored, TableCursor.Valid, Flatten;
      while data == null || !data.Positioned()
        invariant Parts() && Together() && Behind(n) && fresh(Repr - old(Repr))
        decreases if index < |files| then index + 1 else 0
      {
        if index == |files| {
          data := null;
          pos := |Flatten(files)|;
          return;
        }
        FileEnds(files);
        if dataIndex > 0 {
          FileStep(files, dataIndex - 1);
        }
        PrevFile();
      }
      pos := n - 1;
    }

    /** Opens the file the index is at and seeks in it. */
    method SeekInFile(target: InternalKey) returns (ghost p: nat)
      requires Parts() && target.seqno <= MAX_SEQUENCE
      modifies Repr
      ensures Parts() && Together() && fresh(Repr - old(Repr)) && index == old(index)
      ensures if data == null then p == 0 else p == data.Pos() && AtSeek(data.entries, p, target)
    {
      hide TableCursor.Valid, Stored, AtSeek;
      InitDataBlock();
      p := 0;
      if data != null {
        data.Seek(target);
        Repr := Repr + data.Repr;
        p := data.Pos();
      }
    }

    method Seek(target: InternalKey)
      requires Valid() && target.seqno <= MAX_SEQUENCE
      modifies Repr
      ensures Valid() && fresh(Repr - old(Repr)) && AtSeek(Flatten(files), pos, target)
    {
      hide TableCursor.Valid, Flatten, Tables.Holds, Tables.Good, SortedEntries, SortedRun, AtSeek, Less;
      index := FindFile(files, target);
      ghost var p := SeekInFile(target);
      SeekPlace(files, index, p, target);
      FileEnds(files);
      SkipEmptyForward(EntriesBefore(files, index) + p);
    }

    method SeekToFirst()
      requires Valid()
      modifies Repr
      ensures Valid() && fresh(Repr - old(Repr)) && pos == 0
    {
      hide TableCursor.Valid, Flatten, Stored;
      index := 0;
      InitDataBlock();
      if data != null {
        data.SeekToFirst();
        Repr := Repr + data.Repr;
      }
      FileEnds(files);
      SkipEmptyForward(0);
    }

    method SeekToLast()
      requires Valid()
      modifies Repr
      ensures Valid() && fresh(Repr - old(Repr)) && pos == if Flatten(files) == [] then 0 else |Flatten(files)| - 1
    {
      hide TableCursor.Valid, Flatten, Stored;
      index := if |files| == 0 then 0 else |files| - 1;
      InitDataBlock();
      if data != null {
        data.SeekToLast();
        Repr := Repr + data.Repr;
        FileStep(files, |files| - 1);
      }
      FileEnds(files);
      SkipEmptyBackward(|Flatten(files)|);
    }

    method Next()
      requires Valid() && pos < |Flatten(files)|
      modifies Repr
      ensures Valid() && fresh(Repr - old(Repr)) && pos == old(pos) + 1
    {
      hide TableCursor.Valid, Flatten, Stored;
      ghost var p := pos + 1;
      data.Next();
      Repr := Repr + data.Repr;
      SkipEmptyForward(p);
    }

    method Prev()
      requires Valid() && pos < |Flatten(files)|
      modifies Repr
      ensures Valid() && fresh(Repr - old(Repr)) && pos == PrevPos(old(pos), |Flatten(files)|)
    {
      hide TableCursor.Valid, Flatten, Stored;
      ghost var p := pos;
      data.Prev();
      Repr := Repr + data.Repr;
      SkipEmptyBackward(p);
    }
  }
}
