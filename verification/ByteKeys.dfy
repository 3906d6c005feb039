/** Keys as bytes: the bytewise order and its short separators (util/comparator.cc), and the order of
    internal keys, user key up and then sequence number and type, as one number, down (db/dbformat.cc). */
module ByteKeys {
  import opened Coding
  import opened BlockLayout
  import DbFormat

  // ----- the bytewise order -----

  predicate Before(a: Bytes, b: Bytes) {
    var c := Common(a, b);
    c < |b| && (c >= |a| || a[c] < b[c])
  }

  lemma {:induction false} CommonIs(a: Bytes, b: Bytes, i: nat, n: nat)
    requires i <= n <= |a| && n <= |b| && forall j :: i <= j < n ==> a[j] == b[j]
    requires n == |a| || n == |b| || a[n] != b[n]
    ensures CommonFrom(a, b, i) == n
    decreases n - i
  {
    if i < n {
      CommonIs(a, b, i + 1, n);
    }
  }

  lemma CommonAgrees(a: Bytes, b: Bytes)
    ensures var c := Common(a, b);
            c <= |a| && c <= |b| && (forall j :: 0 <= j < c ==> a[j] == b[j]) && (c < |a| && c < |b| ==> a[c] != b[c])
  {
    CommonGood(a, b, 0);
    var c := Common(a, b);
    forall j | 0 <= j < c ensures a[j] == b[j] {
      assert a[..c][j] == b[..c][j];
    }
  }

  lemma CommonSwaps(a: Bytes, b: Bytes)
    ensures Common(a, b) == Common(b, a)
  {
    CommonAgrees(a, b);
    CommonIs(b, a, 0, Common(a, b));
  }

  /** The order is strict and total. */
  lemma BeforeTotal(a: Bytes, b: Bytes)
    ensures a == b <==> !Before(a, b) && !Before(b, a)
    ensures !(Before(a, b) && Before(b, a))
  {
    CommonAgrees(a, b);
    CommonSwaps(a, b);
    if a == b {
      CommonIs(a, b, 0, |a|);
    }
  }

  lemma BeforeTransitive(a: Bytes, b: Bytes, c: Bytes)
    requires Before(a, b) && Before(b, c)
    ensures Before(a, c)
  {
    var m, n := Common(a, b), Common(b, c);
    CommonAgrees(a, b);
    CommonAgrees(b, c);
    CommonIs(a, c, 0, if m < n then m else n);
  }

  // ----- short separators and successors -----

  /** The common prefix and the next byte one higher, if that stays below the limit. */
  function Separator(start: Bytes, limit: Bytes): Bytes {
    var d := Common(start, limit);
    if d < |start| && d < |limit| && start[d] < 255 && start[d] + 1 < limit[d] then start[..d] + [start[d] + 1] else start
  }

  lemma SeparatorSeparates(start: Bytes, limit: Bytes)
    requires Before(start, limit)
    ensures var s := Separator(start, limit);
            |s| <= |start| && (s == start || Before(start, s)) && Before(s, limit)
  {
    var d, s := Common(start, limit), Separator(start, limit);
    if s != start {
      CommonAgrees(start, limit);
      CommonIs(start, s, 0, d);
      CommonIs(s, limit, 0, d);
    }
  }

  /** The separator differs from the start exactly if the keys part at a byte of the start that can be raised and stay
      below the limit's; then it is the start up to there with that byte raised. */
  lemma SeparatorIs(start: Bytes, limit: Bytes, d: nat)
    requires d <= |start| && d <= |limit| && start[..d] == limit[..d]
    requires d < |start| && d < |limit| ==> start[d] != limit[d]
    ensures Separator(start, limit) ==
            if d < |start| && d < |limit| && start[d] < 0xff && start[d] + 1 < limit[d] then start[..d] + [start[d] + 1] else start
  {
    forall j | 0 <= j < d ensures start[j] == limit[j] {
      assert start[..d][j] == limit[..d][j];
    }
    if d < |start| && d < |limit| {
      CommonIs(start, limit, 0, d);
    } else {
      CommonAgrees(start, limit);
    }
  }

  method FindShortestSeparator(start: Bytes, limit: Bytes) returns (r: Bytes)
    ensures r == Separator(start, limit)
  {
    r := start;
    var minLength := if |start| < |limit| then |start| else |limit|;
    var d := 0;
    while d < minLength && start[d] == limit[d]
      invariant d <= minLength && CommonFrom(start, limit, d) == Common(start, limit)
    {
      d := d + 1;
    }
    if d >= minLength {
      // one is a prefix of the other: not shortened
    } else {
      var diff := start[d];
      if diff < 0xff && diff + 1 < limit[d] {
        r := start[..d] + [start[d] + 1];
      }
    }
  }

  /** The key up to the first byte that can be raised, raised. */
  function SuccessorFrom(key: Bytes, i: nat): Bytes
    requires i <= |key|
    decreases |key| - i
  {
    if i == |key| then key else if key[i] != 255 then key[..i] + [key[i] + 1] else SuccessorFrom(key, i + 1)
  }

  /** A run of 0xff bytes has no successor; else it ends at the first other byte, raised. */
  lemma {:induction false} SuccessorIs(key: Bytes, i: nat, d: nat)
    requires i <= d <= |key| && (forall j :: i <= j < d ==> key[j] == 0xff) && (d < |key| ==> key[d] < 0xff)
    ensures SuccessorFrom(key, i) == if d < |key| then key[..d] + [key[d] + 1] else key
    decreases d - i
  {
    if i < d {
      SuccessorIs(key, i + 1, d);
    }
  }

  lemma {:induction false} SuccessorFollows(key: Bytes, i: nat)
    requires i <= |key|
    ensures var s := SuccessorFrom(key, i); |s| <= |key| && (s == key || Before(key, s))
    decreases |key| - i
  {
    if i < |key| {
      if key[i] != 255 {
        CommonIs(key, key[..i] + [key[i] + 1], 0, i);
      } else {
        SuccessorFollows(key, i + 1);
      }
    }
  }

  method FindShortSuccessor(key: Bytes) returns (r: Bytes)
    ensures r == SuccessorFrom(key, 0)
  {
    r := key;
    for i := 0 to |key|
      invariant r == key && SuccessorFrom(key, i) == SuccessorFrom(key, 0)
    {
      if key[i] != 0xff {
        r := key[..i] + [key[i] + 1];
        return;
      }
    }
  }

  // ----- internal keys -----

  /** The value type for seeking is the highest, so that it comes first among equal sequence numbers. */
  const SEEK_TAG: word64 := DbFormat.MAX_SEQUENCE * 256 + 1

  function UserKey(k: Bytes): Bytes {
    if |k| < 8 then k else k[..|k| - 8]
  }

  function PackedTag(k: Bytes): nat {
    if |k| < 8 then 0 else DecodeFixed64(k[|k| - 8..])
  }

  function EncodedKey(user: Bytes, tag: word64): Bytes {
    user + EncodeFixed64(tag)
  }

  lemma EncodedKeyParts(user: Bytes, tag: word64)
    ensures UserKey(EncodedKey(user, tag)) == user && PackedTag(EncodedKey(user, tag)) == tag
  {
    DecodeEncodeFixed64(tag);
    var k := EncodedKey(user, tag);
    assert k[..|k| - 8] == user && k[|k| - 8..] == EncodeFixed64(tag);
  }

  predicate InternalBefore(a: Bytes, b: Bytes) {
    if UserKey(a) == UserKey(b) then PackedTag(a) > PackedTag(b) else Before(UserKey(a), UserKey(b))
  }

  lemma InternalTransitive(a: Bytes, b: Bytes, c: Bytes)
    requires InternalBefore(a, b) && InternalBefore(b, c)
    ensures InternalBefore(a, c)
  {
    if UserKey(a) != UserKey(b) && UserKey(b) != UserKey(c) {
      BeforeTransitive(UserKey(a), UserKey(b), UserKey(c));
      BeforeTotal(UserKey(a), UserKey(b));
    }
  }

  function InternalSeparator(start: Bytes, limit: Bytes): Bytes {
    var s := Separator(UserKey(start), UserKey(limit));
    if |s| < |UserKey(start)| && Before(UserKey(start), s) then EncodedKey(s, SEEK_TAG) else start
  }

  method FindInternalSeparator(start: Bytes, limit: Bytes) returns (r: Bytes)
    ensures r == InternalSeparator(start, limit)
  {
    r := start;
    var s := FindShortestSeparator(UserKey(start), UserKey(limit));
    if |s| < |UserKey(start)| && Before(UserKey(start), s) {
      r := EncodedKey(s, SEEK_TAG);
    }
  }

  function InternalSuccessor(key: Bytes): Bytes {
    var s := SuccessorFrom(UserKey(key), 0);
    if |s| < |UserKey(key)| && Before(UserKey(key), s) then EncodedKey(s, SEEK_TAG) else key
  }

  /** A separator lies from the start to below the limit, and a lookup of the limit's user key lies
      behind every separator that was shortened. */
  lemma InternalSeparates(start: Bytes, limit: Bytes, k: Bytes)
    requires InternalBefore(start, limit)
    ensures var s := InternalSeparator(start, limit);
            && (s == start || InternalBefore(start, s)) && InternalBefore(s, limit)
            && (s != start && !InternalBefore(s, k) ==> UserKey(k) != UserKey(limit))
  {
    var s := InternalSeparator(start, limit);
    if s != start {
      var u := Separator(UserKey(start), UserKey(limit));
      EncodedKeyParts(u, SEEK_TAG);
      BeforeTotal(UserKey(start), u);
      SeparatorOfOne(UserKey(start), UserKey(limit));
      SeparatorSeparates(UserKey(start), UserKey(limit));
      BeforeTotal(u, UserKey(limit));
    }
  }

  lemma SeparatorOfOne(a: Bytes, b: Bytes)
    ensures a == b ==> Separator(a, b) == a
  {
    if a == b {
      CommonIs(a, b, 0, |a|);
    }
  }

  lemma InternalFollows(key: Bytes)
    ensures var s := InternalSuccessor(key); s == key || InternalBefore(key, s)
  {
    if InternalSuccessor(key) != key {
      EncodedKeyParts(SuccessorFrom(UserKey(key), 0), SEEK_TAG);
      BeforeTotal(UserKey(key), SuccessorFrom(UserKey(key), 0));
    }
  }

  // ----- ranks and bytes -----

  /** Ranks stand for the keys `keyOf` in their order. */
  ghost predicate KeepsOrder(keyOf: DbFormat.UserKey -> Bytes) {
    forall u, v {:trigger keyOf(u), keyOf(v)} :: u < v ==> Before(keyOf(u), keyOf(v))
  }

  /** How user keys and values are written as bytes, and what the comparator and the readers make of them. */
  datatype Format = Format(keyOf: DbFormat.UserKey -> Bytes, rank: Bytes -> DbFormat.UserKey,
                           valueOf: DbFormat.Value -> Bytes, read: Bytes -> DbFormat.Value)
  {
    ghost predicate Good() {
      KeepsOrder(keyOf) && (forall u :: rank(keyOf(u)) == u) && forall v :: read(valueOf(v)) == v
    }
  }

  function Encode(keyOf: DbFormat.UserKey -> Bytes, k: DbFormat.InternalKey): Bytes
    requires k.seqno <= DbFormat.MAX_SEQUENCE
  {
    EncodedKey(keyOf(k.ukey), DbFormat.Tag(k))
  }

  /** The order of internal keys over ranks is the one over their bytes. */
  lemma OrderAgrees(keyOf: DbFormat.UserKey -> Bytes, a: DbFormat.InternalKey, b: DbFormat.InternalKey)
    requires KeepsOrder(keyOf) && a.seqno <= DbFormat.MAX_SEQUENCE && b.seqno <= DbFormat.MAX_SEQUENCE
    ensures InternalBefore(Encode(keyOf, a), Encode(keyOf, b)) <==> DbFormat.Less(a, b)
  {
    EncodedKeyParts(keyOf(a.ukey), DbFormat.Tag(a));
    EncodedKeyParts(keyOf(b.ukey), DbFormat.Tag(b));
    BeforeTotal(keyOf(a.ukey), keyOf(b.ukey));
  }

  /** The internal key of these bytes. */
  function Decode(f: Format, b: Bytes): DbFormat.InternalKey {
    var tag := PackedTag(b);
    DbFormat.InternalKey(f.rank(UserKey(b)), tag / 256, if tag % 256 == 1 then DbFormat.Put else DbFormat.Deletion)
  }

  lemma DecodeEncode(f: Format, k: DbFormat.InternalKey)
    requires f.Good() && k.seqno <= DbFormat.MAX_SEQUENCE
    ensures Decode(f, Encode(f.keyOf, k)) == k
  {
    EncodedKeyParts(f.keyOf(k.ukey), DbFormat.Tag(k));
  }
}
