/** The bolt provider: every operation is a transaction that edits the buckets step by step and is rolled back
    if a step reports an error. */
module BoltProviders {
  import opened Basics
  import opened BigEndian
  import opened BoltBuckets
  import opened Clocks
  import opened Sessions
  import opened Slices
  import Index
  import Runs
  import Store
  import Tokens

  /** A bucket refuses the empty key. */
  function KeyError(key: string): Option<Error> {
    if key == "" then Some(BoltKeyRequired) else None
  }

  predicate KeyedPairs(pairs: seq<Pair>) {
    forall i :: 0 <= i < |pairs| ==> pairs[i].key != ""
  }

  /** The calls whose ids and data keys bolt can store. */
  predicate Keyed(op: Store.Op) {
    match op
    case Create(access, _, pairs, _, _) => Store.IdOf(access) != "" && KeyedPairs(pairs)
    case Put(_, pairs) => KeyedPairs(pairs)
    case _ => true
  }

  /** No id is empty and no list is: an id leaves the bucket with its last token. */
  ghost predicate IdsKept(ids: map<string, seq<string>>) {
    forall id :: id in ids ==> id != "" && ids[id] != []
  }

  lemma {:induction false} PutAllKeyed(data: map<string, Bytes>, pairs: seq<Pair>)
    requires "" !in data && KeyedPairs(pairs)
    ensures "" !in PutAll(data, pairs)
    decreases |pairs|
  {
    if pairs != [] {
      assert pairs[0].key != "";
      PutAllKeyed(data[pairs[0].key := pairs[0].value], pairs[1..]);
    }
  }

  function SessionOf(md: Metadata, data: map<string, Bytes>): Session {
    Session(md.id, md.access, md.refresh, md.accessDeadline, md.refreshDeadline, data)
  }

  /** The call would store something, and cannot: its id or one of its data keys is empty. */
  predicate Refuses(cfg: Config, st: Store.State, op: Store.Op, now: int, later: int) {
    && !Keyed(op) && Store.LazyStep(cfg, st, op, now, later).reply == Store.Done
    && !(op.Create? && Store.Created(cfg, op).Dead(op.checked))
  }

  /** One call on bolt: a refusal that changes nothing, or the step every back end takes. */
  function BoltStep(cfg: Config, st: Store.State, op: Store.Op, now: int, later: int): Store.Outcome {
    if Refuses(cfg, st, op, now, later) then Store.Outcome(st, Store.Failed(BoltKeyRequired))
    else Store.LazyStep(cfg, st, op, now, later)
  }

  /** A data key is empty. */
  ghost predicate HasEmptyKey(pairs: seq<Pair>) {
    exists i :: 0 <= i < |pairs| && pairs[i].key == ""
  }

  /** What bolt refuses: storing under an empty id, or putting an empty data key, where another back end would succeed.
      A refusal changes nothing, and every other call is the step of every back end. */
  lemma RefusesIff(cfg: Config, st: Store.State, op: Store.Op, now: int, later: int)
    ensures
      var lazy := Store.LazyStep(cfg, st, op, now, later);
      var refused :=
        || (op.Create? && Store.Reject(op) == None && st.Open? && op.checked < op.stamp + cfg.refresh
            && (Store.IdOf(op.access) == "" || HasEmptyKey(op.pairs)))
        || (op.Put? && lazy.reply == Store.Done && HasEmptyKey(op.pairs));
      BoltStep(cfg, st, op, now, later)
      == if refused then Store.Outcome(st, Store.Failed(BoltKeyRequired)) else lazy
  {
    hide Lookup, Store.Reject, Store.IdOf, Store.Insert, PutAll, SetData, Without;
  }

  /** A token that splits is not empty. */
  lemma NotEmpty(token: string)
    requires Tokens.Split(token).Ok?
    ensures token != ""
  {
  }

  lemma EmptyAgrees(n: nat)
    requires n < TWO_TO_64
    ensures Agrees(EMPTY.(sequence := n), [], [])
  {
  }

  lemma UnfileKept(ids: map<string, seq<string>>, id: string, token: string)
    requires IdsKept(ids)
    ensures IdsKept(Index.Unfile(ids, id, token, false))
  {
    if token in Index.Filed(ids, id) && |ids[id]| > 1 {
      assert RemoveFirst(ids[id], token) != [];
    }
  }

  class Provider {
    const cfg: Config
    var db: Buckets
    var done: bool

    /** The stored sessions and their sequence numbers, in order of creation or refresh. */
    ghost var sessions: seq<Session>
    ghost var ks: seq<nat>

    ghost function State(): Store.State
      reads this
    {
      if done then Store.Closed else Store.Open(sessions)
    }

    ghost function Table(): Index.Table
      reads this
    {
      Index.Table(sessions, db.ids)
    }

    ghost predicate Valid()
      reads this
    {
      Agrees(db, sessions, ks) && Index.Linked(Table()) && IdsKept(db.ids)
    }

    constructor (cfg: Config)
      ensures Valid() && this.cfg == cfg && !done && sessions == []
    {
      this.cfg := cfg;
      db, done := EMPTY, false;
      sessions, ks := [], [];
    }

    /** The end of a transaction: an error puts the buckets back as they were. */
    method Settle(saved: Buckets, ghost s: seq<Session>, ghost k: seq<nat>, e: Option<Error>)
      modifies this`db, this`sessions, this`ks
      ensures e != None ==> db == saved && sessions == s && ks == k
      ensures e == None ==> db == old(db) && sessions == old(sessions) && ks == old(ks)
    {
      if e != None {
        db, sessions, ks := saved, s, k;
      }
    }

    // ---------------------------------------------------------------- metadata.go: one bucket at a time

    /** deleteIDS: decode the list, close the gap in place, store it back or drop the entry. */
    method DeleteIds(id: string, token: string) returns (e: Option<Error>)
      modifies this`db
      ensures id != "" ==> e == None && db == old(db).(ids := Index.Unfile(old(db).ids, id, token, false))
      ensures e.Some? ==> e.value == BoltKeyRequired
    {
      if id !in db.ids {
        return None;
      }
      var strs := FromSeq(db.ids[id]);
      var i := Find(strs, token);
      if i == strs.len {
        assert Elements(strs)[..i] == Elements(strs);
        return None;
      }
      RemoveFirstAt(Elements(strs), i);
      assert Elements(strs)[i] in Elements(strs);
      if strs.len == 1 {
        db := db.(ids := db.ids - {id});
        return None;
      }
      var shorter := CloseGap(strs, i);
      e := KeyError(id);
      if e == None {
        db := db.(ids := db.ids[id := shorter.buf[..shorter.len]]);
      }
    }

    /** appendIDS. */
    method AppendIds(id: string, token: string) returns (e: Option<Error>)
      modifies this`db
      ensures e == KeyError(id)
      ensures e == None ==> db == old(db).(ids := Index.File(old(db).ids, id, token))
    {
      var strs := if id in db.ids then db.ids[id] else [];
      e := KeyError(id);
      if e == None {
        db := db.(ids := db.ids[id := strs + [token]]);
      }
    }

    /** putLRU: the next number of the bucket's sequence becomes the key. */
    method PutLru(token: string) returns (k: uint64)
      requires db.sequence + 1 < TWO_TO_64
      modifies this`db
      ensures k == old(db).sequence + 1
      ensures db == old(db).(sequence := k, lru := old(db).lru[ToBytes(k) := token])
    {
      k := db.sequence + 1;
      db := db.(sequence := k, lru := db.lru[ToBytes(k) := token]);
    }

    /** putData: into the token's bucket, created if it is missing. */
    method PutData(key: string, pairs: seq<Pair>) returns (e: Option<Error>)
      modifies this`db
      ensures key != "" && KeyedPairs(pairs) ==> e == None
      ensures key != "" && KeyedPairs(pairs) ==>
        db == old(db).(data := old(db).data[key := PutAll(Bucket(old(db), key), pairs)])
      ensures key == "" || !KeyedPairs(pairs) ==> e == Some(BoltKeyRequired)
    {
      e := KeyError(key);
      if e != None {
        return;
      }
      var bucket := Bucket(db, key);
      ghost var was := bucket;
      db := db.(data := db.data[key := bucket]);
      for i := 0 to |pairs|
        invariant KeyedPairs(pairs[..i])
        invariant bucket == PutAll(was, pairs[..i])
        invariant db == old(db).(data := old(db).data[key := bucket])
      {
        e := KeyError(pairs[i].key);
        if e != None {
          return;
        }
        PutAllSnoc(was, pairs[..i], pairs[i]);
        assert pairs[..i + 1] == pairs[..i] + [pairs[i]];
        bucket := bucket[pairs[i].key := pairs[i].value];
        db := db.(data := db.data[key := bucket]);
      }
      assert pairs[..|pairs|] == pairs;
      e := None;
    }

    /** getPairs: the whole of a token's bucket. */
    method GetPairs(token: string) returns (pairs: seq<Pair>)
      ensures PutAll(map[], pairs) == Bucket(db, token)
      ensures token in db.data && "" !in db.data[token] ==> KeyedPairs(pairs)
    {
      pairs := [];
      if token !in db.data {
        return;
      }
      var bucket := db.data[token];
      var rest := bucket.Keys;
      while rest != {}
        invariant rest <= bucket.Keys
        invariant PutAll(map[], pairs) == map k | k in bucket && k !in rest :: bucket[k]
        invariant forall i :: 0 <= i < |pairs| ==> pairs[i].key in bucket
        decreases rest
      {
        var k :| k in rest;
        PutAllSnoc(map[], pairs, Pair(k, bucket[k]));
        pairs := pairs + [Pair(k, bucket[k])];
        rest := rest - {k};
      }
    }

    /** deleteKeys. */
    method DeleteKeys(token: string, keys: seq<string>)
      modifies this`db
      ensures db == if token in old(db).data
                    then old(db).(data := old(db).data[token := DeleteAll(old(db).data[token], keys)])
                    else old(db)
    {
      if token !in db.data {
        return;
      }
      var bucket := db.data[token];
      assert bucket == DeleteAll(bucket, keys[..0]);
      for i := 0 to |keys|
        invariant bucket == DeleteAll(old(db).data[token], keys[..i])
        invariant db == old(db).(data := old(db).data[token := bucket])
      {
        assert keys[..i + 1] == keys[..i] + [keys[i]];
        bucket := bucket - {keys[i]};
        db := db.(data := db.data[token := bucket]);
      }
      assert keys[..|keys|] == keys;
    }

    method Increment()
      modifies this`db
      ensures db == old(db).(count := Incremented(old(db)))
    {
      db := db.(count := Some(ToBytes(if Count(db) + 1 == TWO_TO_64 then 0 else Count(db) + 1)));
    }

    method Decrement()
      modifies this`db
      ensures db == old(db).(count := Decremented(old(db)))
    {
      if db.count == None {
        return;
      }
      db := db.(count := Some(ToBytes(if Count(db) > 0 then Count(db) - 1 else Count(db))));
    }

    // ---------------------------------------------------------------- removing sessions

    /** delete: one token out of every bucket; the lru key is left when `lru` is zero. */
    method DeleteEntry(md: Metadata, withLru: bool) returns (e: Option<Error>)
      modifies this`db
      ensures md.access in old(db).data && md.id != "" ==> e == None
      ensures md.access in old(db).data && md.id != "" && md.lru != 0 ==>
        db == if withLru then Dropped(old(db), md) else Dropped(old(db), md).(lru := old(db).lru)
    {
      db := db.(metadata := db.metadata - {md.access});
      if md.access !in db.data {
        return Some(BoltBucketNotFound);
      }
      db := db.(data := db.data - {md.access});
      e := DeleteIds(md.id, md.access);
      if e != None {
        return;
      }
      if withLru && md.lru != 0 {
        db := db.(lru := db.lru - {ToBytes(md.lru)});
      }
      Decrement();
    }

    /** What Valid says about one token. */
    lemma Found(token: string) returns (i: nat)
      requires Valid()
      ensures Distinct(sessions)
      ensures token in db.metadata <==> Lookup(sessions, token).Some?
      ensures token in db.metadata ==>
        && i < |sessions| && i < |ks| && 1 <= ks[i] < TWO_TO_64
        && sessions[i].access == token && Lookup(sessions, token) == Some(sessions[i])
        && db.metadata[token] == MetadataOf(sessions[i], ks[i])
        && db.metadata[token].id != "" && sessions[i].id == Store.IdOf(token)
        && token in db.data && db.data[token] == sessions[i].data
    {
      hide Lookup, Accesses, Placed, Count;
      Index.LinkedDistinct(Table());
      i := MetadataFound(db, sessions, ks, token);
      if token in db.metadata {
        assert token in Index.Filed(db.ids, sessions[i].id);
      }
    }

    /** Cutting one session out of the structures keeps everything in agreement. */
    lemma Cut(i: nat)
      requires Valid() && i < |sessions| && i < |ks| && ks[i] < TWO_TO_64
      ensures
        var db' := Dropped(db, MetadataOf(sessions[i], ks[i]));
        var s' := Without(sessions, sessions[i].access);
        && Agrees(db', s', ks[..i] + ks[i + 1..])
        && Index.Linked(Index.Table(s', db'.ids)) && IdsKept(db'.ids)
    {
      hide Agrees, Index.Linked, IdsKept, Without, Index.Unfile, Decremented;
      var x := sessions[i];
      Index.LinkedDistinct(Table());
      DropAgrees(db, sessions, ks, i);
      Index.RemoveLinked(Table(), x, false);
      UnfileKept(db.ids, x.id, x.access);
    }

    /** destroyToken: a stored token leaves every bucket, and no step fails. */
    method DestroyToken(token: string) returns (e: Option<Error>)
      requires Valid()
      modifies this`db, this`sessions, this`ks
      ensures Valid() && e == None
      ensures sessions == Without(old(sessions), token) && db.sequence == old(db).sequence
      ensures db == if token in old(db).metadata then Dropped(old(db), old(db).metadata[token]) else old(db)
    {
      hide Agrees, Index.Linked, IdsKept, Without, Lookup, Index.Unfile, Decremented;
      ghost var i := Found(token);
      if token !in db.metadata {
        WithoutNone(sessions, token);
        return None;
      }
      Cut(i);
      e := DeleteEntry(db.metadata[token], true);
      sessions, ks := Without(sessions, token), ks[..i] + ks[i + 1..];
    }

    /** What Valid says about the cursor of the lru bucket. */
    lemma CursorWalk(keys: seq<Bytes>)
      requires Valid() && InKeyOrder(keys) && forall b :: b in keys <==> b in db.lru
      ensures |keys| == |sessions| == |ks|
      ensures forall i :: 0 <= i < |sessions| ==>
        ks[i] < TWO_TO_64 && keys[i] == ToBytes(ks[i]) && keys[i] in db.lru && db.lru[keys[i]] == sessions[i].access
    {
      hide Accesses, Placed, Count, Increasing, Index.Linked, IdsKept;
      CursorFollowsList(db, sessions, ks, keys);
    }

    /** unsafePop: the cursor's first token with metadata goes, and its key with it. */
    method UnsafePop() returns (e: Option<Error>)
      requires Valid() && |sessions| > 0
      modifies this`db, this`sessions, this`ks
      ensures Valid() && e == None
      ensures sessions == Without(old(sessions), old(sessions)[0].access) && db.sequence == old(db).sequence
    {
      hide Agrees, Index.Linked, IdsKept, Without, Lookup, Index.Unfile, Decremented, ToBytes, Distinct;
      var keys := Cursor(db.lru);
      CursorWalk(keys);
      var n, popped := 0, false;
      e := None;
      while n < |keys| && !popped
        invariant n <= |keys| && e == None
        invariant !popped ==> n == 0 && Valid() && db == old(db) && sessions == old(sessions) && ks == old(ks)
        invariant popped ==> Valid() && sessions == Without(old(sessions), old(sessions)[0].access)
        invariant db.sequence == old(db).sequence
        decreases |keys| - n
      {
        var token := db.lru[keys[n]];
        ghost var i := FoundFirst(token);
        Cut(0);
        if token in db.metadata {
          e := DeleteEntry(db.metadata[token], false);
          popped := true;
        }
        // The key goes either way: with its token, or because it is stale.
        db := db.(lru := db.lru - {keys[n]});
        sessions, ks := Without(sessions, token), ks[..0] + ks[1..];
        n := n + 1;
      }
    }

    lemma FoundFirst(token: string) returns (i: nat)
      requires Valid() && |sessions| > 0 && token == sessions[0].access
      ensures |ks| > 0 && 1 <= ks[0] < TWO_TO_64
      ensures token in db.metadata && token in db.data
      ensures db.metadata[token] == MetadataOf(sessions[0], ks[0]) && db.metadata[token].id != ""
    {
      hide Agrees, Index.Linked, IdsKept, Lookup;
      i := Found(token);
      WithoutAt(sessions, 0);
    }

    // ---------------------------------------------------------------- storing sessions

    /** One session more keeps everything in agreement exactly when its token is new. */
    lemma Grown(x: Session)
      requires Valid() && db.sequence + 1 < TWO_TO_64
      requires x.id == Store.IdOf(x.access) && x.id != "" && "" !in x.data
      ensures Lookup(sessions, x.access) == None ==>
        Agrees(Added(db, x), sessions + [x], ks + [db.sequence + 1]) && x.access !in db.data
      ensures Index.Linked(Index.Table(sessions + [x], Added(db, x).ids)) <==> Lookup(sessions, x.access) == None
      ensures IdsKept(Added(db, x).ids)
    {
      hide Agrees, Index.Linked, Lookup, Accesses, Incremented, ToBytes;
      AccessesLookup(sessions, x.access);
      KeysAre();
      if Lookup(sessions, x.access) == None {
        AddAgrees(db, sessions, ks, x);
      }
      Index.AppendLinkedIffUnused(Table(), x);
    }

    lemma KeysAre()
      requires Valid()
      ensures db.metadata.Keys == Accesses(sessions) == db.data.Keys
    {
      hide Index.Linked, IdsKept, Placed, Accesses;
    }

    /** The last steps of Create and Refresh: a new key, the record, its data, its id, the count. A record already
        stored under the token is overwritten and its data merged. */
    method WriteEntry(md: Metadata, pairs: seq<Pair>, id: string) returns (e: Option<Error>)
      requires db.sequence + 1 < TWO_TO_64 && md.access != "" && md.id == id
      modifies this`db
      ensures e == if id != "" && KeyedPairs(pairs) then None else Some(BoltKeyRequired)
      ensures e == None ==> db == Added(old(db), SessionOf(md, PutAll(map[], pairs)))
    {
      hide ToBytes, PutAll, Index.File, KeyedPairs;
      PutAllMerges(Bucket(db, md.access), pairs);
      var k := PutLru(md.access);
      e := KeyError(md.access);
      if e != None {
        return;
      }
      db := db.(metadata := db.metadata[md.access := md.(lru := k)]);
      e := PutData(md.access, pairs);
      if e != None {
        return;
      }
      e := AppendIds(id, md.access);
      if e != None {
        return;
      }
      Increment();
    }

    /** The same, for a session: the buckets stay in agreement exactly when its token was not stored. */
    method StoreEntry(md: Metadata, pairs: seq<Pair>, id: string) returns (e: Option<Error>)
      requires Valid() && db.sequence + 1 < TWO_TO_64
      requires md.access != "" && md.id == id == Store.IdOf(md.access)
      modifies this`db, this`sessions, this`ks
      ensures e == if id != "" && KeyedPairs(pairs) then None else Some(BoltKeyRequired)
      ensures e == None ==> db.sequence == old(db).sequence + 1
      ensures e == None ==> db == Added(old(db), SessionOf(md, PutAll(map[], pairs)))
      ensures e == None ==> (Valid() <==> Lookup(old(sessions), md.access) == None)
      ensures Valid() && e == None ==> sessions == old(sessions) + [SessionOf(md, PutAll(map[], pairs))]
    {
      hide Agrees, Index.Linked, IdsKept, Lookup, ToBytes, PutAll, Index.File, Bucket, Incremented;
      ghost var x := SessionOf(md, PutAll(map[], pairs));
      if id != "" && KeyedPairs(pairs) {
        PutAllKeyed(map[], pairs);
        Grown(x);
      }
      e := WriteEntry(md, pairs, id);
      if e == None {
        sessions, ks := sessions + [x], ks + [db.sequence];
      }
    }

    lemma CountIs()
      requires Valid()
      ensures Count(db) == |sessions|
    {
      hide Index.Linked, IdsKept, Placed, Accesses;
    }

    /** Create's transaction: replace, make room, store. */
    method CreateTx(md: Metadata, pairs: seq<Pair>, id: string) returns (e: Option<Error>)
      requires Valid() && db.sequence + 1 < TWO_TO_64
      requires md.access != "" && md.id == id == Store.IdOf(md.access)
      modifies this`db, this`sessions, this`ks
      ensures e == if id != "" && KeyedPairs(pairs) then None else Some(BoltKeyRequired)
      ensures e == None ==> Valid() && db.sequence == old(db).sequence + 1
      ensures e == None ==> sessions == Store.Insert(cfg, old(sessions), SessionOf(md, PutAll(map[], pairs)))
    {
      hide Valid, Without, Lookup, PutAll;
      e := DestroyToken(md.access);
      LookupWithout(old(sessions), md.access, md.access);
      CountIs();
      if cfg.maxSize > 0 && Count(db) >= cfg.maxSize {
        FrontCut();
        LookupWithout(sessions, sessions[0].access, md.access);
        e := UnsafePop();
      }
      e := StoreEntry(md, pairs, id);
    }

    lemma FrontCut()
      requires Valid() && |sessions| > 0
      ensures Without(sessions, sessions[0].access) == sessions[1..]
    {
      hide Agrees, IdsKept, Index.Linked;
      Index.LinkedDistinct(Table());
      WithoutAt(sessions, 0);
      assert sessions[..0] + sessions[1..] == sessions[1..];
    }

    /** Create a session: stamped first, stored by one transaction. */
    method Create(access: string, refresh: string, pairs: seq<Pair>, clock: Clock)
      returns (e: Option<Error>, ghost op: Store.Op)
      requires Valid() && db.sequence + 1 < TWO_TO_64
      modifies this`db, this`sessions, this`ks, clock
      ensures Valid() && db.sequence <= old(db).sequence + 1
      ensures op.Create? && op == Store.Create(access, refresh, pairs, op.stamp, op.checked)
      ensures old(clock.now) <= op.stamp <= op.checked <= clock.now
      ensures BoltStep(cfg, old(State()), op, clock.now, clock.now)
           == Store.Outcome(State(), Store.ReplyOf(e))
    {
      hide Valid, Store.Insert, PutAll;
      op := Store.Create(access, refresh, pairs, clock.now, clock.now);
      var parts := Tokens.Split(access);
      if parts.Err? {
        return Some(parts.error), op;
      }
      var other := Tokens.Split(refresh);
      if other.Err? {
        return Some(other.error), op;
      }
      var id := parts.value.id;
      var at := clock.Now();
      var md := Metadata(id, access, refresh, at + cfg.access, at + cfg.refresh, 0);
      var test := clock.Now();
      op := Store.Create(access, refresh, pairs, at, test);
      if md.refreshDeadline <= test {
        return None, op;
      }
      if done {
        return Some(ProviderClosed), op;
      }
      NotEmpty(access);
      var saved := db;
      ghost var s, k := sessions, ks;
      e := CreateTx(md, pairs, id);
      Settle(saved, s, k, e);
    }

    // ---------------------------------------------------------------- destroying

    /** Agreement does not involve the id index. */
    lemma IdsApart(d: Buckets, ids: map<string, seq<string>>, s: seq<Session>, k: seq<nat>)
      requires Agrees(d, s, k)
      ensures Agrees(d.(ids := ids), s, k)
    {
      hide Accesses, ToBytes, ToUint64, Increasing, Placed, Count;
      var d' := d.(ids := ids);
      SameCount(d, d');
      forall i | 0 <= i < |s|
        ensures Placed(d', s[i], k[i])
      {
        PlacedFacts(d, s[i], k[i]);
        StaysPlaced(d, d', s[i], k[i]);
      }
    }

    lemma SameCount(d: Buckets, d': Buckets)
      requires d.count == d'.count
      ensures Count(d) == Count(d')
    {
    }

    /** One round of deleteTokens. */
    method RemoveOne(token: string) returns (e: Option<Error>)
      requires Agrees(db, sessions, ks) && Distinct(sessions)
      modifies this`db, this`sessions, this`ks
      ensures e == None && Agrees(db, sessions, ks)
      ensures sessions == Without(old(sessions), token)
      ensures db.ids == old(db).ids && db.sequence == old(db).sequence
    {
      hide Agrees, Without, Lookup, Distinct, Index.Unfile, ToBytes;
      ghost var i := MetadataFound(db, sessions, ks, token);
      if token !in db.metadata {
        WithoutNone(sessions, token);
        return None;
      }
      var md := db.metadata[token];
      LengthsMatch();
      DropAgrees(db, sessions, ks, i);
      IdsApart(Dropped(db, md), db.ids, Without(sessions, token), ks[..i] + ks[i + 1..]);
      db := db.(metadata := db.metadata - {token});
      if token !in db.data {
        return Some(BoltBucketNotFound);
      }
      db := db.(data := db.data - {token});
      db := db.(lru := db.lru - {ToBytes(md.lru)});
      Decrement();
      sessions, ks := Without(sessions, token), ks[..i] + ks[i + 1..];
      e := None;
    }

    lemma LengthsMatch()
      requires Agrees(db, sessions, ks)
      ensures |ks| == |sessions|
    {
      hide Accesses, Placed, Count;
    }

    /** deleteTokens, for the list of one id. */
    method DeleteTokens(tokens: seq<string>, id: string, ghost was: Index.Table) returns (e: Option<Error>)
      requires Agrees(db, sessions, ks) && Index.Linked(was) && sessions == was.sessions
      requires tokens == Index.Filed(was.ids, id)
      modifies this`db, this`sessions, this`ks
      ensures e == None && Agrees(db, sessions, ks)
      ensures sessions == Index.WithoutAll(was.sessions, tokens)
      ensures db.ids == old(db).ids && db.sequence == old(db).sequence
    {
      hide Agrees, Index.Linked, Lookup, Without;
      e := None;
      for i := 0 to |tokens|
        invariant e == None && Agrees(db, sessions, ks)
        invariant sessions == Index.WithoutAll(was.sessions, tokens[..i])
        invariant db.ids == old(db).ids && db.sequence == old(db).sequence
      {
        Index.WithoutAllNext(was, id, i);
        e := RemoveOne(tokens[i]);
        if e != None {
          return;
        }
      }
      assert tokens[..|tokens|] == tokens;
    }

    /** unsafeDestroy: the id leaves the index, then each token it listed leaves the other buckets. */
    method UnsafeDestroy(id: string) returns (e: Option<Error>)
      requires Valid()
      modifies this`db, this`sessions, this`ks
      ensures e == None && Valid() && sessions == WithoutId(old(sessions), id) && db.sequence == old(db).sequence
    {
      hide Agrees, Index.Linked, Index.WithoutAll, WithoutId;
      ghost var was := Table();
      Index.DropIdLinked(was, id);
      if id !in db.ids {
        assert db.ids - {id} == db.ids;
        Index.NothingFiled(was, id);
        return None;
      }
      var tokens := db.ids[id];
      IdsApart(db, db.ids - {id}, sessions, ks);
      db := db.(ids := db.ids - {id});
      e := DeleteTokens(tokens, id, was);
    }

    method Destroy(id: string) returns (e: Option<Error>)
      requires Valid()
      modifies this`db, this`sessions, this`ks
      ensures Valid() && db.sequence == old(db).sequence
      ensures forall now, later ::
        BoltStep(cfg, old(State()), Store.Destroy(id), now, later) == Store.Outcome(State(), Store.ReplyOf(e))
    {
      hide Valid, WithoutId;
      if done {
        return Some(ProviderClosed);
      }
      var saved := db;
      ghost var s, k := sessions, ks;
      e := UnsafeDestroy(id);
      Settle(saved, s, k, e);
    }

    method DestroyByToken(token: string) returns (e: Option<Error>)
      requires Valid()
      modifies this`db, this`sessions, this`ks
      ensures Valid() && db.sequence == old(db).sequence
      ensures forall now, later ::
        BoltStep(cfg, old(State()), Store.DestroyByToken(token), now, later)
        == Store.Outcome(State(), Store.ReplyOf(e))
    {
      hide Valid, Without;
      var parts := Tokens.Split(token);
      if parts.Err? {
        return Some(parts.error);
      }
      if done {
        return Some(ProviderClosed);
      }
      var saved := db;
      ghost var s, k := sessions, ks;
      e := DestroyToken(token);
      Settle(saved, s, k, e);
    }

    // ---------------------------------------------------------------- reading

    /** unsafeCheck. */
    method UnsafeCheck(token: string, clock: Clock)
      returns (e: Option<Error>, deleted: bool, ghost now: int, ghost later: int)
      requires Valid()
      modifies clock
      ensures Valid() && old(clock.now) <= now <= later <= clock.now
      ensures e == Store.LazyStatus(sessions, token, now, later)
      ensures deleted <==> Lookup(sessions, token).Some? && Lookup(sessions, token).value.Dead(now)
      ensures e == None ==> token in db.data && db.data[token] == Lookup(sessions, token).value.data
      ensures Lookup(sessions, token).Some? ==> token in db.metadata && db.metadata[token].id != ""
    {
      hide Valid, Lookup;
      ghost var i := Found(token);
      now, later, deleted := clock.now, clock.now, false;
      if token !in db.metadata {
        return Some(TokenNotExists), deleted, now, later;
      }
      var md := db.metadata[token];
      var at := clock.Now();
      now, later := at, at;
      if md.refreshDeadline <= at {
        return Some(TokenNotExists), true, now, later;
      }
      at := clock.Now();
      later := at;
      e := if md.accessDeadline <= at then Some(TokenExpired) else None;
    }

    method Check(token: string, clock: Clock)
      returns (e: Option<Error>, post: bool, ghost now: int, ghost later: int)
      requires Valid()
      modifies clock
      ensures Valid() && old(clock.now) <= now <= later <= clock.now
      ensures BoltStep(cfg, old(State()), Store.Check(token), now, later)
           == Store.Outcome(State(), Store.ReplyOf(e))
      ensures post <==> Store.Posts(State(), token, now)
    {
      hide Valid, Lookup;
      now, later, post := clock.now, clock.now, false;
      var parts := Tokens.Split(token);
      if parts.Err? {
        return Some(parts.error), post, now, later;
      }
      if done {
        return Some(ProviderClosed), post, now, later;
      }
      e, post, now, later := UnsafeCheck(token, clock);
    }

    /** Get; getData fills one slot per key. */
    method Get(token: string, keys: seq<string>, clock: Clock)
      returns (vals: seq<Value>, e: Option<Error>, post: bool, ghost now: int, ghost later: int)
      requires Valid()
      modifies clock
      ensures Valid() && old(clock.now) <= now <= later <= clock.now
      ensures BoltStep(cfg, old(State()), Store.Get(token, keys), now, later)
           == Store.Outcome(State(), if e == None then Store.Values(vals) else Store.Failed(e.value))
      ensures post <==> Store.Posts(State(), token, now)
    {
      hide Valid, Lookup;
      now, later, post, vals := clock.now, clock.now, false, [];
      var parts := Tokens.Split(token);
      if parts.Err? {
        return vals, Some(parts.error), post, now, later;
      }
      if done {
        return vals, Some(ProviderClosed), post, now, later;
      }
      e, post, now, later := UnsafeCheck(token, clock);
      if e == None {
        vals := GetData(token, keys);
      }
    }

    method GetData(token: string, keys: seq<string>) returns (vals: seq<Value>)
      ensures vals == ValuesOf(Bucket(db, token), keys)
    {
      vals := [];
      if |keys| == 0 {
        return;
      }
      for i := 0 to |keys|
        invariant |vals| == i && forall j :: 0 <= j < i ==> vals[j] == ValueOf(Bucket(db, token), keys[j])
      {
        vals := vals + [if token in db.data && keys[i] in db.data[token] then Present(db.data[token][keys[i]])
                        else Absent];
      }
    }

    method Keys(token: string, clock: Clock)
      returns (keys: seq<string>, e: Option<Error>, post: bool, ghost now: int, ghost later: int)
      requires Valid()
      modifies clock
      ensures Valid() && old(clock.now) <= now <= later <= clock.now
      ensures BoltStep(cfg, old(State()), Store.Keys(token), now, later)
           == Store.Outcome(State(), if e == None then Store.KeySet(set k | k in keys) else Store.Failed(e.value))
      ensures post <==> Store.Posts(State(), token, now)
    {
      hide Valid, Lookup;
      now, later, post, keys := clock.now, clock.now, false, [];
      var parts := Tokens.Split(token);
      if parts.Err? {
        return keys, Some(parts.error), post, now, later;
      }
      if done {
        return keys, Some(ProviderClosed), post, now, later;
      }
      e, post, now, later := UnsafeCheck(token, clock);
      if e == None {
        keys := GetKeys(token);
      }
    }

    method GetKeys(token: string) returns (keys: seq<string>)
      ensures NoDup(keys) && (set k | k in keys) == Bucket(db, token).Keys
    {
      keys := [];
      var rest := Bucket(db, token).Keys;
      while rest != {}
        invariant NoDup(keys) && rest <= Bucket(db, token).Keys
        invariant forall k :: k in keys <==> k in Bucket(db, token) && k !in rest
        decreases rest
      {
        var k :| k in rest;
        keys := keys + [k];
        rest := rest - {k};
      }
    }

    // ---------------------------------------------------------------- writing

    /** Put's transaction. A dead session is deleted on the way; `err` is what the caller is told besides. */
    method PutTx(token: string, pairs: seq<Pair>, clock: Clock)
      returns (e: Option<Error>, err: Option<Error>, ghost now: int, ghost later: int)
      requires Valid() && token != ""
      modifies this`db, this`sessions, this`ks, clock
      ensures old(clock.now) <= now <= later <= clock.now
      ensures e == None ==> db.sequence == old(db).sequence
      ensures err == Store.LazyStatus(old(sessions), token, now, later)
      ensures err.Some? ==> e == None && Valid() && sessions == Store.Touch(old(sessions), token, now)
      ensures err == None && KeyedPairs(pairs) ==> e == None && Valid()
      ensures err == None && KeyedPairs(pairs) ==>
        sessions == SetData(old(sessions), token, PutAll(Lookup(old(sessions), token).value.data, pairs))
      ensures err == None && !KeyedPairs(pairs) ==> e == Some(BoltKeyRequired)
    {
      hide Valid, Lookup, Without, SetData, PutAll;
      var deleted;
      err, deleted, now, later := UnsafeCheck(token, clock);
      e := None;
      if err != None {
        if deleted {
          e := DestroyToken(token);
        }
        return;
      }
      e := PutEntry(token, pairs);
    }

    method PutEntry(token: string, pairs: seq<Pair>) returns (e: Option<Error>)
      requires Valid() && token in db.data && token != ""
      modifies this`db, this`sessions
      ensures e == None ==> db.sequence == old(db).sequence
      ensures KeyedPairs(pairs) ==> e == None && Valid()
      ensures KeyedPairs(pairs) ==> sessions == SetData(old(sessions), token, PutAll(old(db).data[token], pairs))
      ensures !KeyedPairs(pairs) ==> e == Some(BoltKeyRequired)
    {
      hide Agrees, Index.Linked, IdsKept, SetData, PutAll;
      ghost var i := Found(token);
      if KeyedPairs(pairs) {
        DataKeyed(token);
        PutAllKeyed(db.data[token], pairs);
        SetDataAgrees(db, sessions, ks, token, PutAll(db.data[token], pairs));
        Index.SetDataLinked(Table(), token, PutAll(db.data[token], pairs));
        sessions := SetData(sessions, token, PutAll(db.data[token], pairs));
      }
      e := PutData(token, pairs);
    }

    lemma DataKeyed(token: string)
      requires Valid() && token in db.data
      ensures "" !in db.data[token]
    {
      hide Accesses, Lookup, Count, Index.Linked;
      KeysAre();
      ghost var i := Found(token);
      assert Placed(db, sessions[i], ks[i]);
    }

    method Put(token: string, pairs: seq<Pair>, clock: Clock)
      returns (err: Option<Error>, ghost now: int, ghost later: int)
      requires Valid()
      modifies this`db, this`sessions, this`ks, clock
      ensures Valid() && old(clock.now) <= now <= later <= clock.now
      ensures db.sequence == old(db).sequence
      ensures BoltStep(cfg, old(State()), Store.Put(token, pairs), now, later)
           == Store.Outcome(State(), Store.ReplyOf(err))
    {
      hide Valid, Lookup, Store.Touch, SetData, PutAll;
      now, later := clock.now, clock.now;
      var parts := Tokens.Split(token);
      if parts.Err? {
        return Some(parts.error), now, later;
      }
      if done {
        return Some(ProviderClosed), now, later;
      }
      NotEmpty(token);
      var saved := db;
      ghost var s, k := sessions, ks;
      var e;
      e, err, now, later := PutTx(token, pairs, clock);
      Settle(saved, s, k, e);
      if e != None {
        err := e;
      }
    }

    method DeleteTx(token: string, keys: seq<string>, clock: Clock)
      returns (e: Option<Error>, err: Option<Error>, ghost now: int, ghost later: int)
      requires Valid()
      modifies this`db, this`sessions, this`ks, clock
      ensures Valid() && e == None && old(clock.now) <= now <= later <= clock.now
      ensures db.sequence == old(db).sequence
      ensures err == Store.LazyStatus(old(sessions), token, now, later)
      ensures err.Some? ==> sessions == Store.Touch(old(sessions), token, now)
      ensures err == None ==>
        sessions == SetData(old(sessions), token, DeleteAll(Lookup(old(sessions), token).value.data, keys))
    {
      hide Valid, Lookup, Without, SetData, DeleteAll;
      var deleted;
      err, deleted, now, later := UnsafeCheck(token, clock);
      e := None;
      if err != None {
        if deleted {
          e := DestroyToken(token);
        }
        return;
      }
      PruneEntry(token, keys);
    }

    method PruneEntry(token: string, keys: seq<string>)
      requires Valid() && token in db.data
      modifies this`db, this`sessions
      ensures Valid() && sessions == SetData(old(sessions), token, DeleteAll(old(db).data[token], keys))
      ensures db.sequence == old(db).sequence
    {
      hide Agrees, Index.Linked, IdsKept, SetData;
      DataKeyed(token);
      SetDataAgrees(db, sessions, ks, token, DeleteAll(db.data[token], keys));
      Index.SetDataLinked(Table(), token, DeleteAll(db.data[token], keys));
      sessions := SetData(sessions, token, DeleteAll(db.data[token], keys));
      DeleteKeys(token, keys);
    }

    method Delete(token: string, keys: seq<string>, clock: Clock)
      returns (err: Option<Error>, ghost now: int, ghost later: int)
      requires Valid()
      modifies this`db, this`sessions, this`ks, clock
      ensures Valid() && old(clock.now) <= now <= later <= clock.now
      ensures db.sequence == old(db).sequence
      ensures BoltStep(cfg, old(State()), Store.Delete(token, keys), now, later)
           == Store.Outcome(State(), Store.ReplyOf(err))
    {
      hide Valid, Lookup, Store.Touch, SetData, DeleteAll;
      now, later := clock.now, clock.now;
      var parts := Tokens.Split(token);
      if parts.Err? {
        return Some(parts.error), now, later;
      }
      if done {
        return Some(ProviderClosed), now, later;
      }
      var saved := db;
      ghost var s, k := sessions, ks;
      var e;
      e, err, now, later := DeleteTx(token, keys, clock);
      Settle(saved, s, k, e);
      if e != None {
        err := e;
      }
    }

    // ---------------------------------------------------------------- refreshing

    method CheckId(id: string, list: seq<string>) returns (e: Option<Error>)
      ensures e == Store.CheckId(id, list)
    {
      for i := 0 to |list|
        invariant Store.CheckId(id, list) == Store.CheckId(id, list[i..])
      {
        var parts := Tokens.Split(list[i]);
        if parts.Err? {
          return Some(parts.error);
        }
        if parts.value.id != id {
          return Some(TokenIDNotMatched);
        }
      }
      e := None;
    }

    /** Refresh's transaction once the session is known to be there: the data is read out, the old entry deleted,
        and everything stored again under the new token. */
    method MoveTx(md: Metadata, id: string, newAccess: string, newRefresh: string, clock: Clock)
      returns (e: Option<Error>, ghost at: int)
      requires Valid() && db.sequence + 1 < TWO_TO_64
      requires md.access in db.metadata && db.metadata[md.access] == md
      requires newAccess != "" && md.id == id == Store.IdOf(newAccess)
      modifies this`db, this`sessions, this`ks, clock
      ensures e == None && old(clock.now) <= at == clock.now
      ensures db.sequence == old(db).sequence + 1
      ensures Lookup(old(sessions), md.access).Some?
      ensures db == Moved(old(db), md, Rotate(cfg, Lookup(old(sessions), md.access).value, newAccess, newRefresh, at))
      ensures MovedOnto(old(sessions), Lookup(old(sessions), md.access).value, newAccess, db)
      ensures Valid() <==> newAccess == md.access || Lookup(old(sessions), newAccess) == None
      ensures Valid() ==>
        sessions == Without(old(sessions), md.access)
                    + [Rotate(cfg, Lookup(old(sessions), md.access).value, newAccess, newRefresh, at)]
    {
      hide Valid, Lookup, Without, PutAll, Dropped, Added, MovedOnto, Agrees, Index.Linked, ToBytes, Store.IdOf;
      ghost var i := Found(md.access);
      DataKeyed(md.access);
      LookupWithout(sessions, md.access, newAccess);
      var pairs := GetPairs(md.access);
      at := clock.now;
      ghost var was, s, k := db, sessions, ks;
      AgreesNow();
      e := DestroyToken(md.access);
      if e != None {
        return;
      }
      var now := clock.Now();
      at := now;
      var renewed := Metadata(md.id, newAccess, newRefresh, now + cfg.access, now + cfg.refresh, 0);
      e := StoreEntry(renewed, pairs, id);
      MovedIff(was, s, k, i, Rotate(cfg, s[i], newAccess, newRefresh, at));
    }

    lemma AgreesNow()
      requires Valid()
      ensures Agrees(db, sessions, ks) && Index.Linked(Table())
    {
    }

    /** Refresh. The reply is always that of the step. The buckets take the step exactly when the target was clean;
        otherwise they are what `MovedOnto` says. */
    method Refresh(access: string, refresh: string, newAccess: string, newRefresh: string, clock: Clock)
      returns (err: Option<Error>, ghost now: int, ghost later: int)
      requires Valid() && db.sequence + 1 < TWO_TO_64
      modifies this`db, this`sessions, this`ks, clock
      ensures old(clock.now) <= now <= later <= clock.now
      ensures db.sequence <= old(db).sequence + 1
      ensures BoltStep(cfg, old(State()), Store.Refresh(access, refresh, newAccess, newRefresh), now, later).reply
           == Store.ReplyOf(err)
      ensures err == None ==>
        && access in old(db).metadata && Lookup(old(sessions), access).Some?
        && db == Moved(old(db), old(db).metadata[access],
                       Rotate(cfg, Lookup(old(sessions), access).value, newAccess, newRefresh, later))
        && MovedOnto(old(sessions), Lookup(old(sessions), access).value, newAccess, db)
      ensures Valid() <==> (err == None ==>
        Store.FreshTarget(old(sessions), Store.Refresh(access, refresh, newAccess, newRefresh)))
      ensures Valid() ==>
        BoltStep(cfg, old(State()), Store.Refresh(access, refresh, newAccess, newRefresh), now, later)
        == Store.Outcome(State(), Store.ReplyOf(err))
    {
      hide Valid, Lookup, Without, Moved, MovedOnto, Tokens.Split, PutAll, Store.Insert, ToBytes;
      now, later := clock.now, clock.now;
      var parts := Tokens.Split(access);
      if parts.Err? {
        return Some(parts.error), now, later;
      }
      var id := parts.value.id;
      err := CheckId(id, [refresh, newAccess, newRefresh]);
      if err != None {
        return;
      }
      CheckedIds(id, refresh, newAccess, newRefresh);
      if done {
        return Some(ProviderClosed), now, later;
      }
      ghost var i := Found(access);
      if access !in db.metadata {
        return Some(TokenNotExists), now, later;
      }
      var md := db.metadata[access];
      var saved := db;
      ghost var s, k := sessions, ks;
      var e;
      var at := clock.Now();
      now, later := at, at;
      if md.refreshDeadline <= at {
        e := DestroyToken(access);
        err := Some(TokenNotExists);
      } else if md.refresh != refresh {
        return Some(RefreshTokenNotMatched), now, later;
      } else {
        e, later := MoveTx(md, id, newAccess, newRefresh, clock);
        err := None;
      }
      Settle(saved, s, k, e);
      if e != None {
        err := e;
      }
    }

    lemma CheckedIds(id: string, refresh: string, newAccess: string, newRefresh: string)
      requires Store.CheckId(id, [refresh, newAccess, newRefresh]) == None
      ensures Store.IdOf(newAccess) == id && newAccess != ""
    {
      assert [refresh, newAccess, newRefresh][1..] == [newAccess, newRefresh];
      NotEmpty(newAccess);
    }

    // ---------------------------------------------------------------- cleaning and closing

    /** The timer's transaction: from the front of the cursor while the session there is dead. */
    method ClearTx(clock: Clock) returns (e: Option<Error>, ghost n: nat)
      requires Valid()
      modifies this`db, this`sessions, this`ks, clock
      ensures Valid() && e == None && old(clock.now) <= clock.now && db.sequence == old(db).sequence
      ensures n <= |old(sessions)| && sessions == old(sessions)[n..]
      ensures forall i :: 0 <= i < n ==> old(sessions)[i].Dead(clock.now)
      ensures n < |old(sessions)| ==> !old(sessions)[n].Dead(clock.now)
    {
      hide Valid, ToBytes;
      var keys := Cursor(db.lru);
      CursorWalk(keys);
      var snapshot := db.lru;
      ghost var s, k := sessions, ks;
      n := 0;
      var m, live := 0, false;
      e := None;
      while m < |keys| && !live
        invariant m == n <= |keys| == |s| && e == None
        invariant Valid() && sessions == s[n..] && ks == k[n..] && old(clock.now) <= clock.now
        invariant forall i :: 0 <= i < n ==> s[i].Dead(clock.now)
        invariant live ==> n < |s| && !s[n].Dead(clock.now)
        invariant db.sequence == old(db).sequence
        decreases |keys| - m, !live
      {
        live, e := ClearOne(keys[m], snapshot[keys[m]], clock);
        if e != None {
          return;
        }
        if !live {
          n, m := n + 1, m + 1;
        }
      }
    }

    /** One round of the timer's walk. */
    method ClearOne(key: Bytes, token: string, clock: Clock) returns (live: bool, e: Option<Error>)
      requires Valid() && |sessions| > 0 && |ks| > 0 && ks[0] < TWO_TO_64
      requires token == sessions[0].access && key == ToBytes(ks[0])
      modifies this`db, this`sessions, this`ks, clock
      ensures Valid() && e == None && old(clock.now) <= clock.now && db.sequence == old(db).sequence
      ensures live == !old(sessions)[0].Dead(clock.now)
      ensures live ==> sessions == old(sessions) && ks == old(ks)
      ensures !live ==> sessions == old(sessions)[1..] && ks == old(ks)[1..]
    {
      hide Agrees, Index.Linked, IdsKept, Without, Lookup, Index.Unfile, Decremented, ToBytes, Distinct;
      ghost var i := FoundFirst(token);
      FrontCut();
      Cut(0);
      live, e := false, None;
      if token in db.metadata {
        var md := db.metadata[token];
        var at := clock.Now();
        if !(md.refreshDeadline <= at) {
          live := true;
          return;
        }
        e := DeleteEntry(md, true);
        if e != None {
          return;
        }
        assert db.lru - {key} == db.lru;
      }
      // A stale key goes here; a token's own key went with it.
      db := db.(lru := db.lru - {key});
      sessions, ks := Without(sessions, token), ks[..0] + ks[1..];
    }

    /** What the timer does. On a list sorted by refresh deadline, exactly the live sessions remain. */
    method DoClear(clock: Clock) returns (ghost n: nat)
      requires Valid()
      modifies this`db, this`sessions, this`ks, clock
      ensures Valid() && old(clock.now) <= clock.now && db.sequence == old(db).sequence
      ensures n <= |old(sessions)| && sessions == old(sessions)[n..]
      ensures Sorted(old(sessions)) ==> sessions == Live(old(sessions), clock.now)
      ensures State() == Runs.Cleaned(old(State()), (set i | 0 <= i < n :: old(sessions)[i].access), clock.now)
    {
      hide Valid, Live, DropDead, Sorted;
      DistinctNow();
      var saved := db;
      ghost var s, k := sessions, ks;
      var e;
      e, n := ClearTx(clock);
      Settle(saved, s, k, e);
      if Sorted(s) {
        LiveDeadPrefix(s, n, clock.now);
      }
      DropDeadPrefix(s, n, set i | 0 <= i < n :: s[i].access, clock.now);
    }

    lemma DistinctNow()
      requires Valid()
      ensures Distinct(sessions)
    {
      hide Agrees, Index.Linked;
      Index.LinkedDistinct(Table());
    }

    /** The worker's batch, as written: reading the first token's metadata reports no error, and that ends it. No
        bucket changes. */
    method DoCheck(m: set<string>) returns (closed: bool)
      ensures closed == done
    {
      closed := done;
    }

    method Close() returns (e: Option<Error>)
      requires Valid()
      modifies this`done
      ensures Valid() && done
      ensures forall now, later ::
        BoltStep(cfg, old(State()), Store.Close, now, later) == Store.Outcome(State(), Store.ReplyOf(e))
    {
      hide Agrees, Index.Linked, IdsKept;
      if done {
        return Some(ProviderClosed);
      }
      done := true;
      e := None;
    }

    /** Clear on an open store: every bucket is emptied and the count forgotten; the key sequence goes on. */
    method Clear()
      requires Valid() && !done
      modifies this`db, this`sessions, this`ks
      ensures Valid() && sessions == [] && db == EMPTY.(sequence := old(db).sequence)
    {
      hide Agrees, Index.Linked;
      SequenceFits();
      EmptyAgrees(db.sequence);
      Index.NothingLinked();
      db := db.(count := None);
      db := db.(metadata := map[]);
      db := db.(data := map[]);
      db := db.(ids := map[]);
      db := db.(lru := map[]);
      sessions, ks := [], [];
    }

    lemma SequenceFits()
      requires Valid()
      ensures db.sequence < TWO_TO_64
    {
      hide Index.Linked, IdsKept, Placed, Accesses;
    }
  }
}
