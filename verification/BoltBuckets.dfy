/** The persistent structures of the bolt provider, as values, and what ties them to the sessions. */
module BoltBuckets {
  import opened Basics
  import opened BigEndian
  import opened Sessions
  import Index
  import Store

  datatype Metadata = Metadata(
    id: string,
    access: string,
    refresh: string,
    accessDeadline: int,
    refreshDeadline: int,
    lru: uint64)

  /** `sequence` is the counter behind the lru bucket's NextSequence; `count` is the stored eight-byte number. */
  datatype Buckets = Buckets(
    metadata: map<string, Metadata>,
    data: map<string, map<string, Bytes>>,
    ids: map<string, seq<string>>,
    lru: map<Bytes, string>,
    sequence: nat,
    count: Option<Bytes>)

  const EMPTY: Buckets := Buckets(map[], map[], map[], map[], 0, None)

  /** The stored number, or zero when none is stored. */
  function Count(db: Buckets): (n: nat)
    ensures n < TWO_TO_64
  {
    if db.count.Some? && |db.count.value| == 8 then
      KeyCodecBijective(0, db.count.value);
      ToUint64(db.count.value)
    else 0
  }

  function MetadataOf(x: Session, lru: uint64): Metadata {
    Metadata(x.id, x.access, x.refresh, x.accessDeadline, x.refreshDeadline, lru)
  }

  /** Everything stored for a session `x` of sequence number `k`. */
  ghost predicate Placed(db: Buckets, x: Session, k: nat) {
    && 1 <= k <= db.sequence < TWO_TO_64
    && x.access in db.metadata && db.metadata[x.access] == MetadataOf(x, k)
    && x.access in db.data && db.data[x.access] == x.data && "" !in x.data
    && ToBytes(k) in db.lru && db.lru[ToBytes(k)] == x.access
  }

  ghost predicate Increasing(ks: seq<nat>) {
    forall i, j :: 0 <= i < j < |ks| ==> ks[i] < ks[j]
  }

  /** The structures hold exactly the sessions `s`, in the order of their sequence numbers `ks`, and the stored
      count is their number. */
  ghost predicate Agrees(db: Buckets, s: seq<Session>, ks: seq<nat>) {
    && |ks| == |s| && Increasing(ks)
    && db.metadata.Keys == Accesses(s) && db.data.Keys == Accesses(s)
    && (forall i :: 0 <= i < |s| ==> Placed(db, s[i], ks[i]))
    && (forall b :: b in db.lru ==> |b| == 8 && ToUint64(b) in ks)
    && |s| <= db.sequence < TWO_TO_64
    && Count(db) == |s| && (db.count == None ==> s == []) && (db.count.Some? ==> |db.count.value| == 8)
  }

  /** What `increment` stores; the eight bytes wrap around. */
  function Incremented(db: Buckets): Option<Bytes> {
    Some(ToBytes(if Count(db) + 1 == TWO_TO_64 then 0 else Count(db) + 1))
  }

  /** What `decrement` stores; it stops at zero, and does nothing when no number is stored. */
  function Decremented(db: Buckets): Option<Bytes> {
    if db.count == None then None
    else
      var n := Count(db);
      Some(ToBytes(if n > 0 then n - 1 else n))
  }

  /** The structures without one session, as `delete` leaves them. */
  function Dropped(db: Buckets, md: Metadata): Buckets {
    Buckets(
      db.metadata - {md.access},
      db.data - {md.access},
      Index.Unfile(db.ids, md.id, md.access, false),
      db.lru - {ToBytes(md.lru)},
      db.sequence,
      Decremented(db))
  }

  /** A token's data bucket, or an empty one. */
  function Bucket(db: Buckets, token: string): map<string, Bytes> {
    if token in db.data then db.data[token] else map[]
  }

  /** The structures with one more session at the end, as Create and Refresh leave them: a record already stored under
      its token is overwritten, and the data put on top of what is in the token's bucket. */
  function Added(db: Buckets, x: Session): Buckets
    requires db.sequence + 1 < TWO_TO_64
  {
    Buckets(
      db.metadata[x.access := MetadataOf(x, db.sequence + 1)],
      db.data[x.access := Bucket(db, x.access) + x.data],
      Index.File(db.ids, x.id, x.access),
      db.lru[ToBytes(db.sequence + 1) := x.access],
      db.sequence + 1,
      Incremented(db))
  }

  /** The structures after a Refresh that succeeds: the old entry out, the renewed session in. */
  function Moved(db: Buckets, md: Metadata, y: Session): Buckets
    requires db.sequence + 1 < TWO_TO_64
  {
    Added(Dropped(db, md), y)
  }

  // ---------------------------------------------------------------- keeping them in agreement

  lemma CountStored(n: nat)
    requires n < TWO_TO_64
    ensures ToUint64(ToBytes(n)) == n
  {
    KeyCodecBijective(n, ToBytes(n));
  }

  /** A key of the lru bucket belongs to one sequence number. */
  lemma KeyOfNumber(b: Bytes, k: nat)
    requires |b| == 8 && k < TWO_TO_64
    ensures b == ToBytes(k) <==> ToUint64(b) == k
  {
    KeyCodecBijective(k, b);
  }

  lemma CutAt(ks: seq<nat>, i: nat)
    requires i < |ks| && Increasing(ks)
    ensures Increasing(ks[..i] + ks[i + 1..])
    ensures forall k :: k in ks[..i] + ks[i + 1..] <==> k in ks && k != ks[i]
  {
    var rest := ks[..i] + ks[i + 1..];
    forall k | k in ks && k != ks[i]
      ensures k in rest
    {
      var j :| 0 <= j < |ks| && ks[j] == k;
      assert rest[if j < i then j else j - 1] == k;
    }
  }

  /** A session stays placed as long as its own entries stay. */
  lemma StaysPlaced(db: Buckets, db': Buckets, x: Session, k: nat)
    requires Placed(db, x, k) && db.sequence <= db'.sequence < TWO_TO_64
    requires x.access in db'.metadata && db'.metadata[x.access] == db.metadata[x.access]
    requires x.access in db'.data && db'.data[x.access] == db.data[x.access]
    requires ToBytes(k) in db'.lru && db'.lru[ToBytes(k)] == db.lru[ToBytes(k)]
    ensures Placed(db', x, k)
  {
    hide ToBytes;
  }

  lemma PlacedFacts(db: Buckets, x: Session, k: nat)
    requires Placed(db, x, k)
    ensures 1 <= k <= db.sequence < TWO_TO_64
    ensures x.access in db.metadata && db.metadata[x.access] == MetadataOf(x, k)
    ensures x.access in db.data && db.data[x.access] == x.data
    ensures ToBytes(k) in db.lru && db.lru[ToBytes(k)] == x.access
  {
    hide ToBytes;
  }

  lemma DropPlaced(db: Buckets, s: seq<Session>, ks: seq<nat>, i: nat, j: nat)
    requires Agrees(db, s, ks) && i < |s| && j < |s| && j != i && Distinct(s) && ks[i] < TWO_TO_64
    ensures Placed(Dropped(db, MetadataOf(s[i], ks[i])), s[j], ks[j])
  {
    hide Accesses, ToBytes, ToUint64, Less, Placed, Count, Index.Unfile, Decremented;
    PlacedFacts(db, s[i], ks[i]);
    PlacedFacts(db, s[j], ks[j]);
    assert s[j].access != s[i].access && ks[j] != ks[i];
    KeyOrder(ks[i], ks[j]);
    StaysPlaced(db, Dropped(db, MetadataOf(s[i], ks[i])), s[j], ks[j]);
  }

  lemma DropCount(db: Buckets, md: Metadata)
    requires Count(db) > 0
    ensures Count(Dropped(db, md)) == Count(db) - 1
    ensures db.count.Some? && Dropped(db, md).count.Some? && |Dropped(db, md).count.value| == 8
  {
    hide ToBytes, ToUint64;
    CountStored(Count(db) - 1);
  }

  lemma DropKeys(db: Buckets, ks: seq<nat>, i: nat, md: Metadata)
    requires i < |ks| && Increasing(ks) && md.lru == ks[i]
    requires forall b :: b in db.lru ==> |b| == 8 && ToUint64(b) in ks
    ensures forall b :: b in Dropped(db, md).lru ==> |b| == 8 && ToUint64(b) in ks[..i] + ks[i + 1..]
    ensures Increasing(ks[..i] + ks[i + 1..])
  {
    hide ToBytes, ToUint64, Index.Unfile, Decremented;
    CutAt(ks, i);
    forall b | b in Dropped(db, md).lru
      ensures |b| == 8 && ToUint64(b) in ks[..i] + ks[i + 1..]
    {
      KeyOfNumber(b, ks[i]);
    }
  }

  /** Deleting a session keeps the five structures in agreement, and `decrement` stays off its floor. */
  lemma DropAgrees(db: Buckets, s: seq<Session>, ks: seq<nat>, i: nat)
    requires Agrees(db, s, ks) && i < |s| && Distinct(s)
    ensures 1 <= ks[i] < TWO_TO_64 && Count(db) > 0
    ensures s[i].access in db.metadata && db.metadata[s[i].access] == MetadataOf(s[i], ks[i])
    ensures s[i].access in db.data
    ensures Agrees(Dropped(db, MetadataOf(s[i], ks[i])), s[..i] + s[i + 1..], ks[..i] + ks[i + 1..])
    ensures Without(s, s[i].access) == s[..i] + s[i + 1..]
  {
    hide Accesses, Without, ToBytes, ToUint64, Less, Placed, Count, Index.Unfile, Decremented, Increasing, Distinct;
    PlacedFacts(db, s[i], ks[i]);
    var md := MetadataOf(s[i], ks[i]);
    var s', ks' := s[..i] + s[i + 1..], ks[..i] + ks[i + 1..];
    WithoutAt(s, i);
    AccessesWithout(s, s[i].access);
    DropCount(db, md);
    DropKeys(db, ks, i, md);
    forall n | 0 <= n < |s'|
      ensures Placed(Dropped(db, md), s'[n], ks'[n])
    {
      DropPlaced(db, s, ks, i, if n < i then n else n + 1);
    }
  }

  lemma AddPlaced(db: Buckets, s: seq<Session>, ks: seq<nat>, x: Session, j: nat)
    requires Agrees(db, s, ks) && x.access !in Accesses(s) && j < |s|
    requires db.sequence + 1 < TWO_TO_64
    ensures Placed(Added(db, x), s[j], ks[j]) && ks[j] <= db.sequence
  {
    hide Accesses, ToBytes, ToUint64, Less, Placed, Index.File, Count, Incremented, Increasing;
    PlacedFacts(db, s[j], ks[j]);
    KeyOrder(ks[j], db.sequence + 1);
    AccessesLookup(s, x.access);
    StaysPlaced(db, Added(db, x), s[j], ks[j]);
  }

  lemma AddCount(db: Buckets, x: Session)
    requires db.sequence + 1 < TWO_TO_64 && Count(db) + 1 < TWO_TO_64
    ensures Count(Added(db, x)) == Count(db) + 1
    ensures Added(db, x).count.Some? && |Added(db, x).count.value| == 8
  {
    hide ToBytes, ToUint64;
    CountStored(Count(db) + 1);
  }

  /** Storing a session under the next sequence number keeps them in agreement. */
  lemma AddAgrees(db: Buckets, s: seq<Session>, ks: seq<nat>, x: Session)
    requires Agrees(db, s, ks) && x.access !in Accesses(s) && "" !in x.data
    requires db.sequence + 1 < TWO_TO_64
    ensures Agrees(Added(db, x), s + [x], ks + [db.sequence + 1])
  {
    hide Accesses, ToBytes, ToUint64, Less, Placed, Index.File, Count, Incremented;
    var k := db.sequence + 1;
    var db' := Added(db, x);
    AccessesAppend(s, x);
    AddCount(db, x);
    forall j | 0 <= j < |s|
      ensures Placed(db', s[j], ks[j]) && ks[j] < k
    {
      AddPlaced(db, s, ks, x, j);
    }
    NowPlaced(db, x);
    forall b | b in db'.lru
      ensures |b| == 8 && ToUint64(b) in ks + [k]
    {
      KeyOfNumber(b, k);
    }
  }

  lemma NowPlaced(db: Buckets, x: Session)
    requires db.sequence + 1 < TWO_TO_64 && "" !in x.data && x.access !in db.data
    ensures Placed(Added(db, x), x, db.sequence + 1)
  {
    hide ToBytes;
    assert map[] + x.data == x.data;
  }

  /** Replacing the data of one session keeps them in agreement. */
  lemma SetDataAgrees(db: Buckets, s: seq<Session>, ks: seq<nat>, token: string, data: map<string, Bytes>)
    requires Agrees(db, s, ks) && token in db.data && "" !in data
    ensures Agrees(db.(data := db.data[token := data]), SetData(s, token, data), ks)
  {
    hide Accesses, SetData, ToBytes, ToUint64, Placed;
    var db' := db.(data := db.data[token := data]);
    AccessesSetData(s, token, data);
    SetDataAt(s, token, data);
    forall i | 0 <= i < |s|
      ensures Placed(db', SetData(s, token, data)[i], ks[i])
    {
      PlacedFacts(db, s[i], ks[i]);
      if s[i].access == token {
        PlacedWithData(db, s[i], ks[i], data);
      } else {
        StaysPlaced(db, db', s[i], ks[i]);
      }
    }
  }

  lemma PlacedWithData(db: Buckets, x: Session, k: nat, data: map<string, Bytes>)
    requires Placed(db, x, k) && "" !in data
    ensures Placed(db.(data := db.data[x.access := data]), x.(data := data), k)
  {
    hide ToBytes;
  }

  /** What the metadata bucket finds is what the list holds. */
  lemma MetadataFound(db: Buckets, s: seq<Session>, ks: seq<nat>, token: string) returns (i: nat)
    requires Agrees(db, s, ks) && Distinct(s)
    ensures token in db.metadata <==> Lookup(s, token).Some?
    ensures token in db.metadata ==>
      && i < |s| && 1 <= ks[i] < TWO_TO_64 && s[i].access == token && Lookup(s, token) == Some(s[i])
      && db.metadata[token] == MetadataOf(s[i], ks[i])
      && token in db.data && db.data[token] == s[i].data
  {
    hide Accesses, Lookup, ToBytes, ToUint64, Placed;
    AccessesLookup(s, token);
    i := 0;
    if token in db.metadata {
      i := PositionOf(s, token);
      PlacedFacts(db, s[i], ks[i]);
    }
  }

  // ---------------------------------------------------------------- refreshing onto a token

  /** What a Refresh of `x` onto `token` has made of structures that held the sessions `s`. Onto a token in use: the id
      lists it twice, the stored count is one more than there are records, and its bucket holds both sessions' data. */
  ghost predicate MovedOnto(s: seq<Session>, x: Session, token: string, after: Buckets) {
    var clean := token == x.access || Lookup(s, token) == None;
    && (Index.NoneFiledTwice(after.ids) <==> clean)
    && Count(after) == |s| && |after.metadata| == (if clean then |s| else |s| - 1)
    && token in after.data
    && after.data[token] == if clean then x.data else Lookup(s, token).value.data + x.data
  }

  lemma MovedIds(t: Index.Table, x: Session, y: Session)
    requires Index.Linked(t) && Lookup(t.sessions, x.access) == Some(x)
    requires y.id == x.id == Store.IdOf(y.access)
    ensures Index.NoneFiledTwice(Index.File(Index.Unfile(t.ids, x.id, x.access, false), y.id, y.access))
       <==> y.access == x.access || Lookup(t.sessions, y.access) == None
  {
    hide Lookup, Without, Store.IdOf;
    var ids := Index.Unfile(t.ids, x.id, x.access, false);
    var after := Index.File(ids, y.id, y.access);
    if y.access == x.access || Lookup(t.sessions, y.access) == None {
      Index.RefreshLinkedIffFresh(t, x.access, y);
    } else {
      Index.UnfileFiled(t.ids, x.id, x.access, false, x.id);
      assert y.access in Index.Filed(ids, y.id);
      var i :| 0 <= i < |ids[y.id]| && ids[y.id][i] == y.access;
      assert after[y.id][i] == after[y.id][|ids[y.id]|];
      assert !NoDup(after[y.id]);
    }
  }

  /** The structures stay in step exactly when the new token was unused or is the one replaced. */
  lemma MovedIff(db: Buckets, s: seq<Session>, ks: seq<nat>, i: nat, y: Session)
    requires Agrees(db, s, ks) && Index.Linked(Index.Table(s, db.ids)) && i < |s|
    requires db.sequence + 1 < TWO_TO_64
    requires y.id == s[i].id == Store.IdOf(y.access) && y.data == s[i].data
    ensures 1 <= ks[i] < TWO_TO_64
    ensures MovedOnto(s, s[i], y.access, Moved(db, MetadataOf(s[i], ks[i]), y))
  {
    hide Lookup, Agrees, Index.Linked, Index.Unfile, Index.File, Count, Index.NoneFiledTwice, Distinct;
    hide Decremented, Incremented, Store.IdOf, ToBytes;
    var t := Index.Table(s, db.ids);
    Index.LinkedDistinct(t);
    LookupAt(s, i);
    PlacedAt(db, s, ks, i);
    MovedIds(t, s[i], y);
    MovedCount(db, s, ks, i, y);
    MovedData(db, s, ks, i, y);
  }

  lemma PlacedAt(db: Buckets, s: seq<Session>, ks: seq<nat>, i: nat)
    requires Agrees(db, s, ks) && i < |s|
    ensures i < |ks| && 1 <= ks[i] < TWO_TO_64
    ensures s[i].access in db.data && db.data[s[i].access] == s[i].data
  {
    hide Accesses, Placed, ToBytes, ToUint64, Increasing, Count;
    PlacedFacts(db, s[i], ks[i]);
  }

  lemma MovedData(db: Buckets, s: seq<Session>, ks: seq<nat>, i: nat, y: Session)
    requires Agrees(db, s, ks) && Distinct(s) && i < |s| && y.data == s[i].data
    ensures
      var clean := y.access == s[i].access || Lookup(s, y.access) == None;
      var data := db.data - {s[i].access};
      (if y.access in data then data[y.access] else map[]) + y.data
      == if clean then y.data else Lookup(s, y.access).value.data + y.data
  {
    hide Lookup, Agrees, Distinct, Accesses;
    DataIs(db, s, ks);
    AccessesLookup(s, y.access);
    if Lookup(s, y.access).Some? {
      var j := PositionOf(s, y.access);
      PlacedAt(db, s, ks, j);
    }
    assert map[] + y.data == y.data;
  }

  lemma DataIs(db: Buckets, s: seq<Session>, ks: seq<nat>)
    requires Agrees(db, s, ks)
    ensures db.data.Keys == Accesses(s)
  {
    hide Accesses, Placed, ToBytes, ToUint64, Increasing, Count;
  }

  lemma MovedCount(db: Buckets, s: seq<Session>, ks: seq<nat>, i: nat, y: Session)
    requires Agrees(db, s, ks) && Distinct(s) && i < |s| && 1 <= ks[i] < TWO_TO_64
    requires db.sequence + 1 < TWO_TO_64
    ensures
      var after := Moved(db, MetadataOf(s[i], ks[i]), y);
      var clean := y.access == s[i].access || Lookup(s, y.access) == None;
      Count(after) == |s| && |after.metadata| == (if clean then |s| else |s| - 1)
  {
    hide Lookup, Accesses, Placed, ToBytes, ToUint64, Index.Unfile, Index.File, Increasing, Decremented, Distinct;
    var dropped := Dropped(db, MetadataOf(s[i], ks[i]));
    AccessesSize(s);
    LookupAt(s, i);
    AccessesLookup(s, s[i].access);
    AccessesLookup(s, y.access);
    DropCount(db, MetadataOf(s[i], ks[i]));
    CountStored(|s|);
    assert db.metadata.Keys == Accesses(s);
    assert dropped.metadata.Keys == Accesses(s) - {s[i].access};
    assert Moved(db, MetadataOf(s[i], ks[i]), y).metadata.Keys == dropped.metadata.Keys + {y.access};
  }

  // ---------------------------------------------------------------- the cursor over the lru bucket

  ghost predicate InKeyOrder(keys: seq<Bytes>) {
    forall i, j :: 0 <= i < j < |keys| ==> Less(keys[i], keys[j])
  }

  lemma {:induction false} LessIrreflexive(a: Bytes)
    ensures !Less(a, a)
  {
    if a != [] {
      LessIrreflexive(a[1..]);
    }
  }

  lemma {:induction false} LessTransitive(a: Bytes, b: Bytes, c: Bytes)
    requires Less(a, b) && Less(b, c)
    ensures Less(a, c)
  {
    if a != [] && b != [] && c != [] && a[0] == b[0] == c[0] {
      LessTransitive(a[1..], b[1..], c[1..]);
    }
  }

  lemma {:induction false} LessTotal(a: Bytes, b: Bytes)
    ensures a == b || Less(a, b) || Less(b, a)
  {
    if a != [] && b != [] && a[0] == b[0] {
      LessTotal(a[1..], b[1..]);
      assert a == [a[0]] + a[1..] && b == [b[0]] + b[1..];
    }
  }

  lemma LeastKey(keys: set<Bytes>) returns (k: Bytes)
    requires keys != {}
    ensures k in keys && forall j :: j in keys ==> j == k || Less(k, j)
    decreases |keys|
  {
    k :| k in keys;
    var rest := keys - {k};
    if rest != {} {
      var least := LeastKey(rest);
      LessTotal(k, least);
      if Less(least, k) {
        k := least;
      } else {
        forall j | j in rest && j != least
          ensures Less(k, j)
        {
          LessTransitive(k, least, j);
        }
      }
    }
  }

  /** A cursor's walk: every key once, in byte order, as the bucket stood when the walk began. */
  method Cursor(bucket: map<Bytes, string>) returns (keys: seq<Bytes>)
    ensures InKeyOrder(keys) && forall b :: b in keys <==> b in bucket
  {
    keys := [];
    var rest := bucket.Keys;
    while rest != {}
      invariant InKeyOrder(keys) && rest <= bucket.Keys
      invariant forall b :: b in keys <==> b in bucket && b !in rest
      invariant forall b, c :: b in keys && c in rest ==> Less(b, c)
      decreases rest
    {
      ghost var least := LeastKey(rest);
      var k :| k in rest && forall j :: j in rest ==> j == k || Less(k, j);
      rest := rest - {k};
      keys := keys + [k];
    }
  }

  lemma HeadIsMember(b: seq<Bytes>)
    requires b != []
    ensures b[0] in b
  {
  }

  lemma {:induction false} SameInOrder(a: seq<Bytes>, b: seq<Bytes>)
    requires InKeyOrder(a) && InKeyOrder(b) && forall k :: k in a <==> k in b
    ensures a == b
  {
    if a == [] {
      if b != [] {
        HeadIsMember(b);
        assert false;
      }
    } else {
      HeadIsMember(a);
      HeadIsMember(b);
      if a[0] != b[0] {
        var i :| 0 <= i < |b| && b[i] == a[0];
        var j :| 0 <= j < |a| && a[j] == b[0];
        assert Less(b[0], b[i]) && Less(a[0], a[j]);
        LessTransitive(a[0], b[0], a[0]);
        LessIrreflexive(a[0]);
      }
      LessIrreflexive(a[0]);
      assert a == [a[0]] + a[1..] && b == [b[0]] + b[1..];
      assert a[0] !in a[1..] && b[0] !in b[1..];
      forall k
        ensures k in a[1..] <==> k in b[1..]
      {
        assert k in a <==> k in b;
      }
      SameInOrder(a[1..], b[1..]);
    }
  }

  /** The cursor meets the sessions in the order in which their sequence numbers were issued. */
  lemma CursorFollowsList(db: Buckets, s: seq<Session>, ks: seq<nat>, keys: seq<Bytes>)
    requires Agrees(db, s, ks) && InKeyOrder(keys) && forall b :: b in keys <==> b in db.lru
    ensures |keys| == |s|
    ensures forall i :: 0 <= i < |s| ==>
      ks[i] < TWO_TO_64 && keys[i] == ToBytes(ks[i]) && db.lru[keys[i]] == s[i].access
  {
    hide Accesses, ToBytes, ToUint64, Less, Placed;
    forall i | 0 <= i < |s|
      ensures ks[i] < TWO_TO_64 && ToBytes(ks[i]) in db.lru && db.lru[ToBytes(ks[i])] == s[i].access
    {
      PlacedFacts(db, s[i], ks[i]);
    }
    var listed := seq(|ks|, i requires 0 <= i < |ks| => ToBytes(ks[i]));
    forall i, j | 0 <= i < j < |ks|
      ensures Less(listed[i], listed[j])
    {
      KeyOrder(ks[i], ks[j]);
    }
    forall b
      ensures b in listed <==> b in db.lru
    {
      if b in db.lru {
        var i :| 0 <= i < |ks| && ks[i] == ToUint64(b);
        KeyOfNumber(b, ks[i]);
        assert listed[i] == b;
      }
    }
    SameInOrder(keys, listed);
  }
}
