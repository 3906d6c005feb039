/** VersionEdit and VersionSet::Builder: how a version is made from the one before it
    (db/version_edit.h, db/version_set.cc). */
module Builder {
  import opened DbFormat
  import opened FileLevels
  import opened Version

  datatype VersionEdit = VersionEdit(deletedFiles: seq<(nat, nat)>, newFiles: seq<(nat, File)>)

  /** The file numbers an edit deletes from a level. */
  ghost function DeletedAt(e: VersionEdit, level: nat): set<nat> {
    set d | d in e.deletedFiles && d.0 == level :: d.1
  }

  ghost function AddedAt(e: VersionEdit, level: nat): set<File> {
    set a | a in e.newFiles && a.0 == level :: a.1
  }

  ghost predicate GoodEdit(e: VersionEdit) {
    && (forall d :: d in e.deletedFiles ==> d.0 < NUM_LEVELS)
    && (forall a :: a in e.newFiles ==> a.0 < NUM_LEVELS)
    && forall a, b :: a in e.newFiles && b in e.newFiles && a.1.number == b.1.number ==> a == b
  }

  /** `files` without the deleted numbers, with the added files, in level order. */
  ghost predicate Rebuilt(files: seq<File>, deleted: set<nat>, added: set<File>, r: seq<File>) {
    && SortedFiles(r)
    && forall f :: f in r <==> (f in files || f in added) && f.number !in deleted
  }

  /** A std::set insertion: nothing happens if an equivalent file is there. */
  method InsertFile(fs: seq<File>, f: File) returns (r: seq<File>)
    requires SortedFiles(fs)
    requires forall g :: g in fs && g.number == f.number ==> g == f
    ensures SortedFiles(r)
    ensures forall g :: g in r <==> g in fs || g == f
  {
    var k := 0;
    while k < |fs| && BySmallest(fs[k], f)
      invariant 0 <= k <= |fs|
      invariant forall i :: 0 <= i < k ==> BySmallest(fs[i], f)
    {
      k := k + 1;
    }
    if k < |fs| && !BySmallest(f, fs[k]) {
      assert fs[k] in fs && fs[k] == f by {
        assert fs[k].smallest == f.smallest by {
          LessIsStrictTotalOrder(fs[k].smallest, f.smallest, f.smallest);
        }
      }
      return fs;
    }
    r := fs[..k] + [f] + fs[k..];
    forall g ensures g in r <==> g in fs || g == f {
      assert g in fs <==> g in fs[..k] || g in fs[k..] by {
        assert fs == fs[..k] + fs[k..];
      }
    }
    forall i, j | 0 <= i < j < |r| ensures BySmallest(r[i], r[j]) {
      if k < |fs| && j > k { assert BySmallest(f, fs[k]) && (j - 1 == k || BySmallest(fs[k], fs[j - 1])); }
    }
  }

  method MaybeAddFile(r: seq<File>, f: File, deleted: set<nat>) returns (r': seq<File>)
    ensures r' == if f.number in deleted then r else r + [f]
  {
    if f.number in deleted {
      return r;
    }
    return r + [f];
  }

  ghost predicate AllBySmallest(a: seq<File>, b: seq<File>) {
    forall x, y :: x in a && y in b ==> BySmallest(x, y)
  }

  /** SaveTo for one level: merge the base files with the added files, dropping deleted ones. */
  method SaveLevel(base: seq<File>, added: seq<File>, deleted: set<nat>) returns (r: seq<File>)
    requires SortedFiles(base) && SortedFiles(added)
    requires forall f, g :: f in base && g in added ==> f.number != g.number
    ensures Rebuilt(base, deleted, SetOf(added), r)
  {
    r := [];
    var b := 0;
    for a := 0 to |added|
      invariant 0 <= b <= |base|
      invariant SortedFiles(r)
      invariant forall f :: f in r <==> (f in base[..b] || f in added[..a]) && f.number !in deleted
      invariant AllBySmallest(r, base[b..]) && AllBySmallest(r, added[a..])
    {
      // every base file that std::upper_bound leaves before the added file
      while b < |base| && !BySmallest(added[a], base[b])
        invariant 0 <= b <= |base|
        invariant SortedFiles(r)
        invariant forall f :: f in r <==> (f in base[..b] || f in added[..a]) && f.number !in deleted
        invariant AllBySmallest(r, base[b..]) && AllBySmallest(r, added[a..])
      {
        MergeStep(r, base, b, added, a);
        r := MaybeAddFile(r, base[b], deleted);
        b := b + 1;
      }
      MergeStep'(r, base, b, added, a);
      r := MaybeAddFile(r, added[a], deleted);
    }
    assert added[..|added|] == added;
    while b < |base|
      invariant 0 <= b <= |base|
      invariant SortedFiles(r)
      invariant forall f :: f in r <==> (f in base[..b] || f in added) && f.number !in deleted
      invariant AllBySmallest(r, base[b..])
    {
      assert base[b] in base[b..];
      assert AllBySmallest([base[b]], base[b + 1..]);
      r := MaybeAddFile(r, base[b], deleted);
      b := b + 1;
    }
    assert base[..|base|] == base;
  }

  lemma BySmallestOrder(a: File, b: File, c: File)
    ensures BySmallest(a, b) && BySmallest(b, c) ==> BySmallest(a, c)
    ensures BySmallest(a, b) || BySmallest(b, a) || (a.smallest == b.smallest && a.number == b.number)
  {
    LessIsStrictTotalOrder(a.smallest, b.smallest, c.smallest);
  }

  lemma MergeStep(r: seq<File>, base: seq<File>, b: nat, added: seq<File>, a: nat)
    requires SortedFiles(base) && SortedFiles(added) && b < |base| && a < |added|
    requires forall f, g :: f in base && g in added ==> f.number != g.number
    requires AllBySmallest(r, base[b..]) && AllBySmallest(r, added[a..])
    requires !BySmallest(added[a], base[b])
    ensures AllBySmallest(r + [base[b]], base[b + 1..]) && AllBySmallest(r + [base[b]], added[a..])
    ensures AllBySmallest(r, [base[b]])
  {
    assert base[b] in base[b..] && base[b] in base && added[a] in added;
    BySmallestOrder(base[b], added[a], added[a]);
    forall x, y | x in r + [base[b]] && y in added[a..] ensures BySmallest(x, y) {
      var j :| a <= j < |added| && added[j] == y;
      BySmallestOrder(base[b], added[a], y);
    }
    forall x, y | x in r + [base[b]] && y in base[b + 1..] ensures BySmallest(x, y) {
      assert y in base[b..];
    }
  }

  lemma MergeStep'(r: seq<File>, base: seq<File>, b: nat, added: seq<File>, a: nat)
    requires SortedFiles(base) && SortedFiles(added) && b <= |base| && a < |added|
    requires AllBySmallest(r, base[b..]) && AllBySmallest(r, added[a..])
    requires b < |base| ==> BySmallest(added[a], base[b])
    ensures AllBySmallest(r + [added[a]], base[b..]) && AllBySmallest(r + [added[a]], added[a + 1..])
    ensures AllBySmallest(r, [added[a]])
  {
    assert added[a] in added[a..];
    forall x, y | x in r + [added[a]] && y in base[b..] ensures BySmallest(x, y) {
      var j :| b <= j < |base| && base[j] == y;
      BySmallestOrder(added[a], base[b], y);
    }
    forall x, y | x in r + [added[a]] && y in added[a + 1..] ensures BySmallest(x, y) {
      assert y in added[a..];
    }
  }

  /** One file more, seen from a level. */
  lemma AddedMore(edit: VersionEdit, i: nat, l: nat, gone: set<nat>, had: set<File>, d0: set<nat>, d: set<nat>, a0: seq<File>, a: seq<File>)
    requires GoodEdit(edit) && i < |edit.newFiles| && d0 == gone - Numbers(AddedAt(Prefix(edit, i), l)) && SetOf(a0) == had + AddedAt(Prefix(edit, i), l)
    requires var (level, f) := edit.newFiles[i];
             if l == level then d == d0 - {f.number} && SetOf(a) == SetOf(a0) + {f} else d == d0 && a == a0
    ensures d == gone - Numbers(AddedAt(Prefix(edit, i + 1), l)) && SetOf(a) == had + AddedAt(Prefix(edit, i + 1), l)
  {
    AddedPrefix(edit, i, l);
  }

  class Builder {
    const base: Levels
    var deleted: seq<set<nat>>
    var added: seq<seq<File>>

    ghost predicate Valid()
      reads this
    {
      && |base| == |deleted| == |added| == NUM_LEVELS
      && (forall l :: 0 <= l < NUM_LEVELS ==> SortedFiles(base[l]) && SortedFiles(added[l]))
    }

    constructor (base: Levels)
      requires |base| == NUM_LEVELS && forall l :: 0 <= l < NUM_LEVELS ==> SortedFiles(base[l])
      ensures Valid() && this.base == base
      ensures forall l :: 0 <= l < NUM_LEVELS ==> deleted[l] == {} && added[l] == []
    {
      this.base := base;
      deleted := seq(NUM_LEVELS, _ => {});
      added := seq(NUM_LEVELS, _ => []);
    }

    method DeleteFiles(edit: VersionEdit)
      requires Valid() && GoodEdit(edit)
      modifies `deleted
      ensures Valid()
      ensures forall l :: 0 <= l < NUM_LEVELS ==> deleted[l] == old(deleted)[l] + DeletedAt(edit, l)
    {
      for i := 0 to |edit.deletedFiles|
        invariant Valid()
        invariant forall l :: 0 <= l < NUM_LEVELS ==>
                    deleted[l] == old(deleted)[l] + DeletedAt(VersionEdit(edit.deletedFiles[..i], []), l)
      {
        var d := edit.deletedFiles[i];
        deleted := deleted[d.0 := deleted[d.0] + {d.1}];
        assert edit.deletedFiles[..i + 1] == edit.deletedFiles[..i] + [d];
      }
      assert edit.deletedFiles[..|edit.deletedFiles|] == edit.deletedFiles;
    }

    method AddFile(level: nat, f: File)
      requires Valid() && level < NUM_LEVELS
      requires forall g :: g in added[level] && g.number == f.number ==> g == f
      modifies this
      ensures Valid()
      ensures deleted == old(deleted)[level := old(deleted)[level] - {f.number}]
      ensures forall l :: 0 <= l < NUM_LEVELS && l != level ==> added[l] == old(added)[l]
      ensures SetOf(added[level]) == SetOf(old(added)[level]) + {f}
    {
      deleted := deleted[level := deleted[level] - {f.number}];
      var files := InsertFile(added[level], f);
      added := added[level := files];
    }

    method Apply(edit: VersionEdit)
      requires Valid() && GoodEdit(edit)
      // a file number names one file
      requires forall l, f, g :: 0 <= l < NUM_LEVELS && f in added[l] && g in AddedAt(edit, l) && f.number == g.number ==> f == g
      modifies this
      ensures Valid()
      ensures forall l :: 0 <= l < NUM_LEVELS ==>
                && deleted[l] == old(deleted)[l] + DeletedAt(edit, l) - Numbers(AddedAt(edit, l))
                && SetOf(added[l]) == SetOf(old(added)[l]) + AddedAt(edit, l)
    {
      DeleteFiles(edit);
      ghost var mid := deleted;
      for i := 0 to |edit.newFiles|
        invariant Valid()
        invariant forall l :: 0 <= l < NUM_LEVELS ==>
                    && deleted[l] == mid[l] - Numbers(AddedAt(Prefix(edit, i), l))
                    && SetOf(added[l]) == SetOf(old(added)[l]) + AddedAt(Prefix(edit, i), l)
      {
        var a := edit.newFiles[i];
        AddedPrefix(edit, i, a.0);
        forall g | g in added[a.0] && g.number == a.1.number ensures g == a.1 {
          assert g in SetOf(added[a.0]);
        }
        ghost var added0, deleted0 := added, deleted;
        AddFile(a.0, a.1);
        forall l | 0 <= l < NUM_LEVELS
          ensures deleted[l] == mid[l] - Numbers(AddedAt(Prefix(edit, i + 1), l))
          ensures SetOf(added[l]) == SetOf(old(added)[l]) + AddedAt(Prefix(edit, i + 1), l)
        {
          AddedMore(edit, i, l, mid[l], SetOf(old(added)[l]), deleted0[l], deleted[l], added0[l], added[l]);
        }
      }
      assert Prefix(edit, |edit.newFiles|).newFiles == edit.newFiles;
    }

    method SaveTo() returns (v: Levels)
      requires Valid()
      requires forall l, f, g :: 0 <= l < NUM_LEVELS && f in base[l] && g in added[l] ==> f.number != g.number
      ensures |v| == NUM_LEVELS
      ensures forall l :: 0 <= l < NUM_LEVELS ==> Rebuilt(base[l], deleted[l], SetOf(added[l]), v[l])
    {
      v := [];
      for level := 0 to NUM_LEVELS
        invariant |v| == level
        invariant forall l :: 0 <= l < level ==> Rebuilt(base[l], deleted[l], SetOf(added[l]), v[l])
      {
        var files := SaveLevel(base[level], added[level], deleted[level]);
        v := v + [files];
      }
    }
  }

  ghost function Numbers(fs: set<File>): set<nat> {
    set f | f in fs :: f.number
  }

  /** The edit that only adds the first `i` files of `edit`. */
  ghost function Prefix(edit: VersionEdit, i: nat): VersionEdit
    requires i <= |edit.newFiles|
  {
    VersionEdit([], edit.newFiles[..i])
  }

  lemma AddedPrefix(edit: VersionEdit, i: nat, l: nat)
    requires i < |edit.newFiles| && GoodEdit(edit)
    ensures var a := edit.newFiles[i];
            && a in edit.newFiles && a.0 < NUM_LEVELS
            && AddedAt(Prefix(edit, i + 1), l) == AddedAt(Prefix(edit, i), l) + (if a.0 == l then {a.1} else {})
            && Numbers(AddedAt(Prefix(edit, i + 1), l)) == Numbers(AddedAt(Prefix(edit, i), l)) + (if a.0 == l then {a.1.number} else {})
            && AddedAt(Prefix(edit, i + 1), l) <= AddedAt(edit, l)
            && forall f, g :: f in AddedAt(edit, l) && g in AddedAt(edit, l) && f.number == g.number ==> f == g
  {
    var a := edit.newFiles[i];
    assert edit.newFiles[..i + 1] == edit.newFiles[..i] + [a];
    assert AddedAt(Prefix(edit, i + 1), l) == AddedAt(Prefix(edit, i), l) + (if a.0 == l then {a.1} else {});
    forall f, g | f in AddedAt(edit, l) && g in AddedAt(edit, l) && f.number == g.number ensures f == g {
      assert (l, f) in edit.newFiles && (l, g) in edit.newFiles;
    }
  }
}
