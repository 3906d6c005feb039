/** A version of the tree: seven levels of table files, and the lookup that reads at most
    one file of each level below the first (Version::Get in db/version_set.cc). */
module Version {
  import opened Options
  import opened DbFormat
  import opened FileLevels

  type Levels = seq<seq<File>>

  /** Entries of `f` are newer than the entries of the same user key in `g`. */
  ghost predicate Newer(f: File, g: File) {
    forall e, x {:trigger e in f.entries, x in g.entries} ::
      e in f.entries && x in g.entries && e.key.ukey == x.key.ukey ==> e.key.seqno > x.key.seqno
  }

  /** Newer entries of a key sit in shallower levels. */
  ghost predicate NewerIsShallower(v: Levels) {
    forall i, j, f, g :: 0 <= i < j < |v| && f in v[i] && g in v[j] ==> Newer(f, g)
  }

  /** Within a level, `f` is searched before `g` for a key they share. */
  predicate Above(level: nat, f: File, g: File) {
    f != g && if level == 0 then f.number > g.number else Before(f, g)
  }

  ghost predicate ShapedLevel(level: nat, fs: seq<File>) {
    && GoodFiles(fs)
    && (level > 0 ==> PairwiseDisjoint(fs))
    && forall f, g :: f in fs && g in fs && Above(level, f, g) ==> Newer(f, g)
  }

  ghost predicate Shaped(v: Levels) {
    && |v| == NUM_LEVELS
    && (forall l :: 0 <= l < |v| ==> ShapedLevel(l, v[l]))
    && NewerIsShallower(v)
  }

  ghost function VersionEntries(v: Levels): set<Entry> {
    set l, f, e | 0 <= l < |v| && f in v[l] && e in f.entries :: e
  }

  lemma UniqueInFile(f: File, a: Entry, b: Entry)
    requires GoodFile(f) && a in f.entries && b in f.entries
    requires a.key.ukey == b.key.ukey && a.key.seqno == b.key.seqno
    ensures a == b
  {
    var i :| 0 <= i < |f.entries| && f.entries[i] == a;
    var j :| 0 <= j < |f.entries| && f.entries[j] == b;
  }

  lemma SameLevelNewer(level: nat, fs: seq<File>, f: File, g: File)
    requires ShapedLevel(level, fs) && f in fs && g in fs
    ensures f == g || Newer(f, g) || Newer(g, f)
  {
    if f != g {
      assert Above(level, f, g) || Above(level, g, f);
    }
  }

  /** An entry has one place: two files that hold the same user key and sequence number are the same file. */
  lemma OnePlace(v: Levels, l: nat, f: File, a: Entry, m: nat, g: File, b: Entry)
    requires Shaped(v) && l < |v| && m < |v| && f in v[l] && g in v[m] && a in f.entries && b in g.entries
    requires a.key.ukey == b.key.ukey && a.key.seqno == b.key.seqno
    ensures l == m && f == g && a == b
  {
    assert l < m ==> Newer(f, g);
    assert m < l ==> Newer(g, f);
    if l == m {
      assert ShapedLevel(l, v[l]);
      SameLevelNewer(l, v[l], f, g);
      UniqueInFile(f, a, b);
    }
  }

  lemma VersionUnique(v: Levels)
    requires Shaped(v)
    ensures UniqueSeqnos(VersionEntries(v))
  {
    forall a, b | a in VersionEntries(v) && b in VersionEntries(v) && a.key.ukey == b.key.ukey && a.key.seqno == b.key.seqno
      ensures a == b
    {
      var l, f :| 0 <= l < |v| && f in v[l] && a in f.entries;
      var m, g :| 0 <= m < |v| && g in v[m] && b in g.entries;
      OnePlace(v, l, f, a, m, g, b);
    }
  }

  // ----- lookup -----

  /** What a table lookup passes to the saver. */
  datatype SaverState = NotFound | Found(value: Value) | Deleted

  /** One seek in a sorted run, then a user key comparison, as SaveValue and MemTable::Get both do. */
  function RunGet(es: seq<Entry>, u: UserKey, s: nat): SaverState {
    var i := SeekIndex(es, LookupKey(u, s));
    if i < |es| && es[i].key.ukey == u then
      if es[i].key.kind == Put then Found(es[i].value) else Deleted
    else
      NotFound
  }

  function TableGet(f: File, u: UserKey, s: nat): SaverState {
    RunGet(f.entries, u, s)
  }

  ghost predicate Saves(es: set<Entry>, u: UserKey, s: nat, st: SaverState) {
    if st.NotFound? then NoneVisible(es, u, s)
    else exists e :: NewestAt(es, u, s, e) && Shown(e) == (if st.Found? then Some(st.value) else None)
  }

  lemma TableGetSaves(f: File, u: UserKey, s: nat)
    requires GoodFile(f)
    ensures Saves(SetOf(f.entries), u, s, TableGet(f, u, s))
  {
    SeekFindsNewest(f.entries, u, s);
  }

  predicate Covers(f: File, u: UserKey) {
    f.smallest.ukey <= u <= f.largest.ukey
  }

  lemma OnlyCoveringFiles(f: File, u: UserKey)
    requires GoodFile(f)
    ensures !Covers(f, u) ==> forall e :: e in f.entries ==> e.key.ukey != u
  {
  }

  /** The other files of a sorted run have nothing visible when the file FindFile chose is at `index`. */
  lemma OtherFilesOfRun(fs: seq<File>, u: UserKey, s: nat, index: nat, i: nat)
    requires SortedRun(fs) && index <= |fs| && i < |fs|
    requires forall j :: 0 <= j < index ==> Less(fs[j].largest, LookupKey(u, s))
    requires index < |fs| ==> LessEq(LookupKey(u, s), fs[index].largest)
    requires i < index || (i == index && u < fs[i].smallest.ukey)
    ensures forall e :: e in fs[i].entries ==> !VisibleTo(e, u, s)
  {
    assert fs[i] in fs;
  }

  /** A file after the one FindFile chose holds only older entries of the key. */
  lemma LaterFilesOfRun(level: nat, fs: seq<File>, u: UserKey, s: nat, index: nat, i: nat)
    requires level > 0 && ShapedLevel(level, fs) && index < i < |fs|
    requires LessEq(LookupKey(u, s), fs[index].largest)
    ensures NoneVisible(SetOf(fs[index].entries), u, s) ==> forall e :: e in fs[i].entries ==> !VisibleTo(e, u, s)
    ensures Newer(fs[index], fs[i])
  {
    var f, g := fs[index], fs[i];
    assert f in fs && g in fs;
    RunOrder(fs, index, i);
    GoodFileOrder(f);
    GoodFileOrder(g);
    assert f.entries[|f.entries| - 1] in SetOf(f.entries);
  }

  lemma LevelSaves(level: nat, fs: seq<File>, u: UserKey, s: nat, index: nat)
    requires level > 0 && ShapedLevel(level, fs) && index <= |fs|
    requires forall j :: 0 <= j < index ==> Less(fs[j].largest, LookupKey(u, s))
    requires index < |fs| ==> LessEq(LookupKey(u, s), fs[index].largest)
    ensures Saves(LevelEntries(fs), u, s,
                  if index < |fs| && fs[index].smallest.ukey <= u then TableGet(fs[index], u, s) else NotFound)
  {
    if index < |fs| {
      assert fs[index] in fs;
      TableGetSaves(fs[index], u, s);
      GoodFileOrder(fs[index]);
    }
    forall e | e in LevelEntries(fs) && VisibleTo(e, u, s)
      ensures index < |fs| && fs[index].smallest.ukey <= u
      ensures !NoneVisible(SetOf(fs[index].entries), u, s)
      ensures e in fs[index].entries || exists i :: index < i < |fs| && e in fs[i].entries && Newer(fs[index], fs[i])
    {
      var f :| f in fs && e in f.entries;
      var i :| 0 <= i < |fs| && fs[i] == f;
      if i <= index {
        if i < index || u < fs[i].smallest.ukey { OtherFilesOfRun(fs, u, s, index, i); }
        assert e in SetOf(fs[index].entries);
      } else {
        LaterFilesOfRun(level, fs, u, s, index, i);
        GoodFileOrder(fs[i]);
        RunOrder(fs, index, i);
      }
    }
    if index < |fs| && fs[index].smallest.ukey <= u && !TableGet(fs[index], u, s).NotFound? {
      var e :| NewestAt(SetOf(fs[index].entries), u, s, e) && Shown(e) == (if TableGet(fs[index], u, s).Found? then Some(TableGet(fs[index], u, s).value) else None);
      assert NewestAt(LevelEntries(fs), u, s, e);
    }
  }

  ghost predicate NewestFirst(fs: seq<File>) {
    forall i, j :: 0 <= i < j < |fs| ==> fs[i].number >= fs[j].number
  }

  method InsertNewestFirst(r: seq<File>, f: File) returns (r': seq<File>)
    requires NewestFirst(r)
    ensures NewestFirst(r') && forall x :: x in r' <==> x in r || x == f
  {
    var k := 0;
    while k < |r| && r[k].number >= f.number
      invariant 0 <= k <= |r|
      invariant forall i :: 0 <= i < k ==> r[i].number >= f.number
    {
      k := k + 1;
    }
    r' := r[..k] + [f] + r[k..];
    forall x ensures x in r' <==> x in r || x == f {
      assert x in r <==> x in r[..k] || x in r[k..] by {
        assert r == r[..k] + r[k..];
      }
    }
  }

  /** std::sort with NewestFirst. */
  method SortNewestFirst(files: seq<File>) returns (r: seq<File>)
    ensures NewestFirst(r)
    ensures forall f :: f in r <==> f in files
  {
    r := [];
    for n := 0 to |files|
      invariant NewestFirst(r)
      invariant forall f :: f in r <==> f in files[..n]
    {
      r := InsertNewestFirst(r, files[n]);
    }
    assert files[..|files|] == files;
  }

  /** The level-0 part of Get: every covering file, newest first. */
  method GetLevel0(fs: seq<File>, u: UserKey, s: nat) returns (st: SaverState)
    requires ShapedLevel(0, fs)
    ensures Saves(LevelEntries(fs), u, s, st)
  {
    var tmp: seq<File> := [];
    for i := 0 to |fs|
      invariant forall f :: f in tmp <==> f in fs[..i] && Covers(f, u)
    {
      if u >= fs[i].smallest.ukey && u <= fs[i].largest.ukey {
        tmp := tmp + [fs[i]];
      }
    }
    assert fs[..|fs|] == fs;
    var sorted := SortNewestFirst(tmp);
    for i := 0 to |sorted|
      invariant forall j :: 0 <= j < i ==> NoneVisible(SetOf(sorted[j].entries), u, s)
    {
      st := TableGet(sorted[i], u, s);
      assert sorted[i] in fs;
      TableGetSaves(sorted[i], u, s);
      if !st.NotFound? {
        Level0Saves(fs, sorted, i, u, s, st);
        return;
      }
    }
    forall e | e in LevelEntries(fs) ensures !VisibleTo(e, u, s) {
      var f :| f in fs && e in f.entries;
      OnlyCoveringFiles(f, u);
      if f in sorted {
        assert e in SetOf(f.entries);
      }
    }
    return NotFound;
  }

  lemma Level0Saves(fs: seq<File>, sorted: seq<File>, i: nat, u: UserKey, s: nat, st: SaverState)
    requires ShapedLevel(0, fs) && i < |sorted|
    requires forall f :: f in sorted <==> f in fs && Covers(f, u)
    requires forall j, k :: 0 <= j < k < |sorted| ==> sorted[j].number >= sorted[k].number
    requires forall j :: 0 <= j < i ==> NoneVisible(SetOf(sorted[j].entries), u, s)
    requires !st.NotFound? && Saves(SetOf(sorted[i].entries), u, s, st)
    ensures Saves(LevelEntries(fs), u, s, st)
  {
    var e :| NewestAt(SetOf(sorted[i].entries), u, s, e) && Shown(e) == (if st.Found? then Some(st.value) else None);
    assert sorted[i] in fs;
    forall x | x in LevelEntries(fs) && VisibleTo(x, u, s) ensures x.key.seqno <= e.key.seqno {
      var f :| f in fs && x in f.entries;
      OnlyCoveringFiles(f, u);
      var j :| 0 <= j < |sorted| && sorted[j] == f;
      assert x in SetOf(sorted[j].entries);
      if f != sorted[i] {
        assert i < j;
        assert sorted[i].number > f.number;
        assert Newer(sorted[i], f);
      }
    }
    assert NewestAt(LevelEntries(fs), u, s, e);
  }

  /** The newest visible entry of a level is the newest of the version when the levels above see nothing. */
  lemma NewestOfVersion(v: Levels, l: nat, u: UserKey, s: nat, e: Entry)
    requires Shaped(v) && l < |v|
    requires forall m :: 0 <= m < l ==> NoneVisible(LevelEntries(v[m]), u, s)
    requires NewestAt(LevelEntries(v[l]), u, s, e)
    ensures NewestAt(VersionEntries(v), u, s, e)
  {
    var f :| f in v[l] && e in f.entries;
    assert e in VersionEntries(v);
    forall x | x in VersionEntries(v) && VisibleTo(x, u, s) ensures x.key.seqno <= e.key.seqno {
      var m, g :| 0 <= m < |v| && g in v[m] && x in g.entries;
      assert x in LevelEntries(v[m]);
      if l < m {
        assert Newer(f, g);
      }
    }
  }

  lemma HitAnswers(v: Levels, l: nat, u: UserKey, s: nat, st: SaverState)
    requires Shaped(v) && l < |v| && !st.NotFound?
    requires forall m :: 0 <= m < l ==> NoneVisible(LevelEntries(v[m]), u, s)
    requires Saves(LevelEntries(v[l]), u, s, st)
    ensures Read(VersionEntries(v), u, s) == if st.Found? then Some(st.value) else None
  {
    var e :| NewestAt(LevelEntries(v[l]), u, s, e) && Shown(e) == (if st.Found? then Some(st.value) else None);
    NewestOfVersion(v, l, u, s, e);
    VersionUnique(v);
    ReadNewest(VersionEntries(v), u, s, e);
  }

  method Get(v: Levels, u: UserKey, s: nat) returns (r: Option<Value>)
    requires Shaped(v)
    ensures r == Read(VersionEntries(v), u, s)
  {
    for level := 0 to NUM_LEVELS
      invariant forall m :: 0 <= m < level ==> NoneVisible(LevelEntries(v[m]), u, s)
    {
      assert ShapedLevel(level, v[level]);
      var st := NotFound;
      if level == 0 {
        st := GetLevel0(v[0], u, s);
      } else {
        var index := FindFile(v[level], LookupKey(u, s));
        LevelSaves(level, v[level], u, s, index);
        if index < |v[level]| && u >= v[level][index].smallest.ukey {
          st := TableGet(v[level][index], u, s);
        }
      }
      if !st.NotFound? {
        HitAnswers(v, level, u, s, st);
        return if st.Found? then Some(st.value) else None;
      }
    }
    forall e | e in VersionEntries(v) ensures !VisibleTo(e, u, s) {
      var l, f :| 0 <= l < |v| && f in v[l] && e in f.entries;
      assert e in LevelEntries(v[l]);
    }
    ReadNone(VersionEntries(v), u, s);
    return None;
  }
}
