/** The in-memory provider: a token map, an id index of slices edited in place, and a list in order of
    creation or refresh, kept in step by hand. Every method is a lock section (with what surrounds it). */
module MemoryProviders {
  import opened Basics
  import opened Sessions
  import opened Clocks
  import opened Slices
  import opened TokenValues
  import Index
  import Runs
  import Store
  import Tokens

  /** The records stand for the sessions, position by position. */
  ghost predicate Mirrors(ts: seq<TokenValue>, s: seq<Session>)
    reads ts
  {
    |ts| == |s| && forall i :: 0 <= i < |ts| ==> ts[i].Model() == s[i]
  }

  /** The records' byte arrays hold the values they should, and are all in `held`. */
  ghost predicate AllHold(ts: seq<TokenValue>, held: set<array?<byte>>)
    reads ts, set t, k | t in ts && k in t.data :: t.data[k]
  {
    forall t :: t in ts ==> t.Holds() && t.Owned() <= held
  }

  /** The token map holds exactly the listed records, each under the access token of its session. */
  ghost predicate Matched(tokens: map<string, TokenValue>, ts: seq<TokenValue>, s: seq<Session>) {
    && |ts| == |s|
    && tokens.Keys == Accesses(s)
    && (forall i :: 0 <= i < |s| ==> s[i].access in tokens && tokens[s[i].access] == ts[i])
  }

  /** A listed record, its position and its session. */
  lemma PositionOfRecord(ts: seq<TokenValue>, s: seq<Session>, t: TokenValue) returns (i: nat)
    requires Mirrors(ts, s) && t in ts && Distinct(s)
    ensures i < |ts| && ts[i] == t && s[i] == t.Model()
    ensures Lookup(s, t.access) == Some(t.Model())
    ensures RemoveFirst(ts, t) == ts[..i] + ts[i + 1..]
    ensures Without(s, t.access) == s[..i] + s[i + 1..]
  {
    i :| 0 <= i < |ts| && ts[i] == t;
    WithoutAt(s, i);
    forall j | 0 <= j < i
      ensures ts[j] != t
    {
      assert s[j].access != s[i].access;
    }
    RemoveFirstAt(ts, i);
  }

  /** Taking one record out of the list and the token map keeps what ties them to the sessions. */
  lemma RemoveRecord(ts: seq<TokenValue>, s: seq<Session>, tokens: map<string, TokenValue>, t: TokenValue)
    requires Mirrors(ts, s) && Matched(tokens, ts, s) && t in ts && Distinct(s)
    ensures Mirrors(RemoveFirst(ts, t), Without(s, t.access))
    ensures Matched(tokens - {t.access}, RemoveFirst(ts, t), Without(s, t.access))
    ensures Lookup(s, t.access) == Some(t.Model())
    ensures t !in RemoveFirst(ts, t)
    ensures forall u :: u in RemoveFirst(ts, t) ==> u in ts
  {
    hide RemoveFirst, Without, Lookup, Accesses;
    var i := PositionOfRecord(ts, s, t);
    forall j | 0 <= j < |ts| && j != i
      ensures ts[j] != t
    {
      assert s[j].access != s[i].access;
    }
    AccessesWithout(s, t.access);
  }

  lemma AllHoldFewer(us: seq<TokenValue>, ts: seq<TokenValue>, held: set<array?<byte>>)
    requires AllHold(us, held) && forall t :: t in ts ==> t in us
    ensures AllHold(ts, held)
  {
  }

  lemma AppendedMatched(ts: seq<TokenValue>, s: seq<Session>, tokens: map<string, TokenValue>, t: TokenValue,
                        x: Session)
    requires Matched(tokens, ts, s) && Distinct(s + [x])
    ensures Matched(tokens[x.access := t], ts + [t], s + [x])
  {
    hide Accesses;
    AccessesAppend(s, x);
    assert forall i :: 0 <= i < |s| ==> (s + [x])[i].access != (s + [x])[|s|].access;
  }

  /** Changing one session's data changes one position of the list. */
  lemma SetDataRecord(ts: seq<TokenValue>, s: seq<Session>, tokens: map<string, TokenValue>, t: TokenValue,
                      data: map<string, Bytes>)
    requires Mirrors(ts, s) && Matched(tokens, ts, s) && t in ts && Distinct(s)
    ensures Matched(tokens, ts, SetData(s, t.access, data))
    ensures |SetData(s, t.access, data)| == |s|
    ensures forall i :: 0 <= i < |ts| ==>
      SetData(s, t.access, data)[i] == if ts[i] == t then s[i].(data := data) else ts[i].Model()
  {
    hide SetData, Accesses;
    SetDataAt(s, t.access, data);
    AccessesSetData(s, t.access, data);
    forall i | 0 <= i < |ts| && ts[i] != t
      ensures ts[i].access != t.access
    {
      var j :| 0 <= j < |ts| && ts[j] == t;
      assert s[i].access != s[j].access;
    }
  }

  /** The keys of a map, in some order. */
  method Listing(keys: set<string>) returns (r: seq<string>)
    ensures NoDup(r) && (set k | k in r) == keys
  {
    r := [];
    var rest := keys;
    while rest != {}
      invariant NoDup(r) && rest <= keys
      invariant forall k :: k in r <==> k in keys && k !in rest
      decreases rest
    {
      var k :| k in rest;
      rest := rest - {k};
      r := r + [k];
    }
  }

  lemma RestOfList<T>(xs: seq<T>, x: T)
    ensures forall y :: y in RemoveFirst(xs, x) ==> y in xs
  {
    if xs != [] {
      RestOfList(xs[1..], x);
      assert xs == [xs[0]] + xs[1..];
    }
  }

  /** What the token map finds is what the list holds. */
  lemma TokenFound(ts: seq<TokenValue>, s: seq<Session>, tokens: map<string, TokenValue>, token: string)
    requires Mirrors(ts, s) && Matched(tokens, ts, s) && Distinct(s)
    ensures token in tokens <==> Lookup(s, token).Some?
    ensures token in tokens ==> tokens[token] in ts && Lookup(s, token) == Some(tokens[token].Model())
  {
    hide Lookup, Accesses;
    AccessesLookup(s, token);
    if token in tokens {
      var i := PositionOf(s, token);
    }
  }

  lemma CutFront(s: seq<Session>, n: nat, t: int)
    requires Distinct(s) && n <= |s| && forall i :: 0 <= i < n ==> s[i].Dead(t)
    ensures DropDead(s, (set i | 0 <= i < n :: s[i].access), t) == s[n..]
  {
    hide DropDead;
    DropDeadPrefix(s, n, (set i | 0 <= i < n :: s[i].access), t);
  }

  lemma DeadLater(s: seq<Session>, t: int, u: int)
    requires t <= u
    ensures forall token :: DeadAt(s, token, t) ==> DeadAt(s, token, u)
  {
  }

  lemma DropAllFound(was: Index.Table, victims: seq<string>, token: string, t: int)
    requires Index.Linked(was) && token !in victims
    ensures DeadAt(Index.DropAll(was, victims).sessions, token, t) <==> DeadAt(was.sessions, token, t)
  {
    hide Index.Linked, Lookup, Index.DropAll;
    Index.LinkedDistinct(was);
    Index.DropAllLinked(was, victims);
    Index.WithoutAllLookup(was.sessions, victims, token);
  }

  /** What a batch dropped, as one cleaning step. */
  lemma VictimsDropped(was: Index.Table, victims: seq<string>, t: int)
    requires Index.Linked(was)
    requires forall token :: token in victims ==> DeadAt(was.sessions, token, t)
    ensures Index.DropAll(was, victims).sessions == DropDead(was.sessions, (set token | token in victims), t)
  {
    hide Index.Linked, Index.DropAll, Lookup;
    Index.LinkedDistinct(was);
    Index.DropAllLinked(was, victims);
    forall x | x in was.sessions && x.access in victims
      ensures x.Dead(t)
    {
      Index.LookupOfMember(was.sessions, x);
    }
    Index.WithoutAllIsDropDead(was.sessions, victims, t);
  }

  class MemoryProvider {
    const cfg: Config
    var tokens: map<string, TokenValue>
    var ids: map<string, Slice>
    var lru: seq<TokenValue>
    var done: bool

    /** The stored sessions, and the tokens filed under each id, as values. */
    ghost var sessions: seq<Session>
    ghost var filed: map<string, seq<string>>

    ghost function Table(): Index.Table
      reads `sessions, `filed
    {
      Index.Table(sessions, filed)
    }

    ghost function Bufs(): set<array<string>>
      reads `ids
    {
      set id | id in ids :: ids[id].buf
    }

    /** Everything a call may write to. */
    ghost function Footprint(): set<object>
      reads `ids, `lru
    {
      {this as object} + (set t: TokenValue | t in lru :: t as object) + (set id | id in ids :: ids[id].buf as object)
    }

    /** Every byte array the provider has allocated for stored values. */
    ghost var held: set<array?<byte>>

    /** Those in use. */
    ghost function Arrays(): set<array?<byte>>
      reads `lru, lru
    {
      set t, k | t in lru && k in t.data :: t.data[k]
    }

    ghost function State(): Store.State
      reads `done, `sessions
    {
      if done then Store.Closed else Store.Open(sessions)
    }

    /** The slices show the index, each in a backing array of its own. */
    ghost predicate IdsMatch()
      reads `ids, `filed, Bufs()
    {
      && ids.Keys == filed.Keys
      && (forall id :: id in ids ==> InBounds(ids[id]) && Elements(ids[id]) == filed[id])
      && (forall a, b :: a in ids && b in ids && a != b ==> ids[a].buf != ids[b].buf)
    }

    /** The slices and the list hold what `filed` and `sessions` say. This survives every call. */
    ghost predicate Represents()
      reads this, Bufs(), lru, Arrays()
    {
      IdsMatch() && Mirrors(lru, sessions) && AllHold(lru, held)
    }

    ghost predicate Valid()
      reads this, Bufs(), lru, Arrays()
    {
      && Represents() && Matched(tokens, lru, sessions)
      && Index.Linked(Table())
      && (done ==> sessions == [] && filed == map[])
    }

    constructor (cfg: Config)
      ensures Valid() && fresh(Bufs()) && held == {} && this.cfg == cfg
      ensures !done && sessions == [] && filed == map[]
    {
      this.cfg := cfg;
      tokens, ids, lru, done := map[], map[], [], false;
      sessions, filed, held := [], map[], {};
    }

    // ---------------------------------------------------------------- removing one session

    /** Takes `token` out of the slice of `id`, in place. */
    method RemoveFromIds(id: string, token: string, keepEmpty: bool)
      requires IdsMatch()
      modifies this`ids, this`filed, Bufs()
      ensures IdsMatch() && Bufs() <= old(Bufs())
      ensures filed == Index.Unfile(old(filed), id, token, keepEmpty)
    {
      hide IdsMatch, RemoveFirst;
      IdsFacts(id);
      if id !in ids {
        return;
      }
      var strs := ids[id];
      var i := Find(strs, token);
      if i == strs.len {
        assert Elements(strs)[..i] == Elements(strs);
        return;
      }
      RemoveFirstAt(Elements(strs), i);
      assert Elements(strs)[i] in Elements(strs);
      if strs.len == 1 && !keepEmpty {
        DropIds(id);
      } else {
        ShortenIds(id, i);
      }
    }

    lemma IdsFacts(id: string)
      requires IdsMatch()
      ensures id in ids <==> id in filed
      ensures id in ids ==> InBounds(ids[id]) && Elements(ids[id]) == filed[id]
    {
    }

    method DropIds(id: string)
      requires IdsMatch() && id in ids
      modifies this`ids, this`filed
      ensures IdsMatch() && Bufs() <= old(Bufs()) && filed == old(filed) - {id}
    {
      ids := ids - {id};
      filed := filed - {id};
    }

    /** Closes the gap at position `i` in the backing array of `id`. */
    method ShortenIds(id: string, i: nat)
      requires IdsMatch() && id in ids && i < ids[id].len
      modifies this`ids, this`filed, Bufs()
      ensures IdsMatch() && Bufs() <= old(Bufs())
      ensures i < |old(filed)[id]|
      ensures filed == old(filed)[id := old(filed)[id][..i] + old(filed)[id][i + 1..]]
    {
      filed := filed[id := filed[id][..i] + filed[id][i + 1..]];
      var shorter := CloseGap(ids[id], i);
      ids := ids[id := shorter];
    }

    /** The same, for what is known of any records: editing a slice touches no session. */
    method Unfile(id: string, token: string, keepEmpty: bool,
                  ghost us: seq<TokenValue>, ghost ts: seq<TokenValue>, ghost s: seq<Session>)
      requires IdsMatch() && AllHold(us, held) && Mirrors(ts, s)
      modifies this`ids, this`filed, Bufs()
      ensures IdsMatch() && Bufs() <= old(Bufs())
      ensures filed == Index.Unfile(old(filed), id, token, keepEmpty)
      ensures AllHold(us, held) && Mirrors(ts, s)
    {
      RemoveFromIds(id, token, keepEmpty);
    }

    /** Takes a record out of its id's slice and out of the list, which leaves the sessions `left`. The token map is
        left to the caller. The timer's own copy of this code keeps a slice that becomes empty. */
    method UnsafePop(t: TokenValue, keepEmpty: bool, ghost left: seq<Session>) returns (token: string)
      requires IdsMatch() && AllHold(lru, held) && Mirrors(RemoveFirst(lru, t), left)
      modifies this`ids, this`lru, this`filed, this`sessions, Bufs()
      ensures token == t.access
      ensures IdsMatch() && AllHold(old(lru), held) && Mirrors(lru, sessions) && Bufs() <= old(Bufs())
      ensures t.Model() == old(t.Model())
      ensures lru == RemoveFirst(old(lru), t) && sessions == left
      ensures filed == Index.Unfile(old(filed), t.id, token, keepEmpty)
    {
      Unfile(t.id, t.access, keepEmpty, lru, RemoveFirst(lru, t), left);
      assert t.Model() == old(t.Model());
      lru := RemoveFirst(lru, t);
      sessions := left;
      token := t.access;
    }

    /** Takes a stored record out of all three structures. */
    method Discard(t: TokenValue)
      requires Valid() && t in lru
      modifies this`tokens, this`ids, this`lru, this`filed, this`sessions, Bufs()
      ensures Valid() && Bufs() <= old(Bufs())
      ensures lru == RemoveFirst(old(lru), t) && t !in lru && AllHold(old(lru), held)
      ensures tokens == old(tokens) - {t.access}
      ensures Lookup(old(sessions), t.access) == Some(t.Model()) && t.Model() == old(t.Model())
      ensures Table() == Index.Removed(old(Table()), t.Model(), false)
    {
      hide Index.Linked, Index.Unfile, Lookup, Without, RemoveFirst, Accesses;
      hide IdsMatch, AllHold, Mirrors;
      Index.LinkedDistinct(Table());
      RemoveRecord(lru, sessions, tokens, t);
      assert t.Model() in sessions;
      Index.RemoveLinked(Table(), t.Model(), false);
      var token := UnsafePop(t, false, Without(sessions, t.access));
      Forget(token, old(lru));
      AllHoldFewer(old(lru), lru, held);
    }

    method Forget(token: string, ghost us: seq<TokenValue>)
      requires IdsMatch() && AllHold(us, held) && Mirrors(lru, sessions)
      modifies this`tokens
      ensures IdsMatch() && AllHold(us, held) && Mirrors(lru, sessions)
      ensures tokens == old(tokens) - {token}
    {
      tokens := tokens - {token};
    }

    method Evict(t: TokenValue)
      requires Valid() && t in lru
      modifies this`tokens, this`ids, this`lru, this`filed, this`sessions, Bufs()
      ensures Valid() && Bufs() <= old(Bufs())
      ensures lru == RemoveFirst(old(lru), t) && tokens == old(tokens) - {t.access}
      ensures t.Model() == old(t.Model()) && Table() == Index.Drop(old(Table()), t.access)
      ensures t !in lru && t.Holds() && t.Owned() <= held
    {
      hide Index.Linked, Index.Unfile, Lookup, Without, RemoveFirst;
      Discard(t);
    }

    lemma Dropped(token: string)
      requires Valid()
      ensures Index.Drop(Table(), token).sessions == Without(sessions, token)
    {
      hide Index.Linked, Index.Drop, Without;
      Index.DropLinked(Table(), token);
    }

    method UnsafeDestroyByToken(token: string)
      requires Valid()
      modifies this`tokens, this`ids, this`lru, this`filed, this`sessions, Bufs()
      ensures Valid() && Bufs() <= old(Bufs())
      ensures Table() == Index.Drop(old(Table()), token)
      ensures forall t :: t in lru ==> t in old(lru)
    {
      hide Index.Linked;
      Index.LinkedDistinct(Table());
      TokenFound(lru, sessions, tokens, token);
      if token in tokens {
        RestOfList(lru, tokens[token]);
        Evict(tokens[token]);
      }
    }

    // ---------------------------------------------------------------- adding one session

    /** Appends `token` to the slice of `id`, into the backing array when it has room. */
    method AppendToIds(id: string, token: string)
      requires IdsMatch()
      modifies this`ids, this`filed, Bufs()
      ensures IdsMatch() && fresh(Bufs() - old(Bufs()))
      ensures filed == Index.File(old(filed), id, token)
    {
      hide IdsMatch, Index.File;
      IdsFacts(id);
      if id in ids {
        LengthenIds(id, token);
      } else {
        StartIds(id, token);
      }
    }

    method LengthenIds(id: string, token: string)
      requires IdsMatch() && id in ids
      modifies this`ids, this`filed, Bufs()
      ensures IdsMatch() && fresh(Bufs() - old(Bufs()))
      ensures filed == Index.File(old(filed), id, token)
    {
      filed := filed[id := filed[id] + [token]];
      var longer := Append(ids[id], token);
      ids := ids[id := longer];
    }

    method StartIds(id: string, token: string)
      requires IdsMatch() && id !in ids
      modifies this`ids, this`filed
      ensures IdsMatch() && fresh(Bufs() - old(Bufs()))
      ensures filed == Index.File(old(filed), id, token)
    {
      filed := Index.File(filed, id, token);
      var only := Singleton(token);
      ids := ids[id := only];
    }

    method FileUnder(id: string, token: string, ghost ts: seq<TokenValue>, ghost s: seq<Session>)
      requires IdsMatch() && AllHold(ts, held) && Mirrors(ts, s)
      modifies this`ids, this`filed, Bufs()
      ensures IdsMatch() && fresh(Bufs() - old(Bufs()))
      ensures filed == Index.File(old(filed), id, token)
      ensures AllHold(ts, held) && Mirrors(ts, s)
    {
      AppendToIds(id, token);
    }

    /** Puts a record at the end of the list and into the token map. */
    method Enlist(t: TokenValue)
      requires IdsMatch() && Mirrors(lru, sessions) && AllHold(lru, held)
      requires t.Holds() && t.Owned() <= held
      modifies this`tokens, this`lru, this`sessions
      ensures IdsMatch() && Mirrors(lru, sessions) && AllHold(lru, held)
      ensures sessions == old(sessions) + [t.Model()]
      ensures lru == old(lru) + [t] && tokens == old(tokens)[t.access := t]
    {
      tokens, lru, sessions := tokens[t.access := t], lru + [t], sessions + [t.Model()];
    }

    /** Stores a record at the end of the list, under its access token and under `id`. */
    method PushBack(t: TokenValue, id: string)
      requires IdsMatch() && Mirrors(lru, sessions) && AllHold(lru, held)
      requires t.Holds() && t.Owned() <= held && t.id == id
      modifies this`tokens, this`ids, this`lru, this`filed, this`sessions, Bufs()
      ensures IdsMatch() && Mirrors(lru, sessions) && AllHold(lru, held)
      ensures fresh(Bufs() - old(Bufs()))
      ensures Table() == Index.Append(old(Table()), t.Model()) && t.Model() == old(t.Model())
      ensures lru == old(lru) + [t] && tokens == old(tokens)[t.access := t]
    {
      hide IdsMatch, Mirrors, AllHold, Index.File;
      Enlist(t);
      FileUnder(id, t.access, lru, sessions);
    }

    /** Create's lock section, for a record stamped before the lock was taken. */
    method CreateLocked(t: TokenValue) returns (e: Option<Error>)
      requires Valid() && t !in lru && t.Holds() && t.Owned() <= held && t.id == Store.IdOf(t.access)
      modifies this`tokens, this`ids, this`lru, this`filed, this`sessions, Bufs()
      ensures Valid() && fresh(Bufs() - old(Bufs()))
      ensures done ==> e == Some(ProviderClosed) && Table() == old(Table())
      ensures !done ==> e == None && Table() == Index.Insert(cfg, old(Table()), old(t.Model()))
      ensures !done ==> sessions == Store.Insert(cfg, old(sessions), old(t.Model()))
      ensures forall u :: u in lru ==> u == t || u in old(lru)
    {
      hide Index.Linked, Index.Room, Store.Insert;
      if done {
        return Some(ProviderClosed);
      }
      ghost var x := t.Model();
      Index.InsertLinked(cfg, Table(), x);
      MakeRoom(t.access, t);
      AddNew(t);
      e := None;
    }

    /** Removes what Create replaces or evicts; `t`, the record about to be stored, is untouched. */
    method MakeRoom(access: string, ghost t: TokenValue)
      requires Valid() && t.Holds() && t.Owned() <= held
      modifies this`tokens, this`ids, this`lru, this`filed, this`sessions, Bufs()
      ensures Valid() && Bufs() <= old(Bufs())
      ensures Table() == Index.Room(cfg, old(Table()), access)
      ensures forall u :: u in lru ==> u in old(lru)
      ensures t.Holds() && t.Owned() <= held && t.Model() == old(t.Model())
    {
      hide Index.Linked, Index.Drop, IdsMatch, AllHold, Mirrors, Accesses;
      UnsafeDestroyByToken(access);
      assert t.Holds() && t.Owned() <= held;
      if cfg.maxSize > 0 && |lru| >= cfg.maxSize {
        EvictFront();
      }
    }

    /** Makes room at the cap. */
    method EvictFront()
      requires Valid() && |lru| > 0
      modifies this`tokens, this`ids, this`lru, this`filed, this`sessions, Bufs()
      ensures Valid() && Bufs() <= old(Bufs())
      ensures old(sessions) != [] && Table() == Index.Drop(old(Table()), old(sessions)[0].access)
      ensures forall t :: t in lru ==> t in old(lru)
    {
      hide Index.Linked, Index.Drop;
      RestOfList(lru, lru[0]);
      Evict(lru[0]);
    }

    /** Stores a record whose token is not in use. */
    method AddNew(t: TokenValue)
      requires Valid() && t !in lru && t.Holds() && t.Owned() <= held && !done
      requires Index.Linked(Index.Append(Table(), t.Model()))
      modifies this`tokens, this`ids, this`lru, this`filed, this`sessions, Bufs()
      ensures Valid() && fresh(Bufs() - old(Bufs()))
      ensures Table() == Index.Append(old(Table()), old(t.Model()))
      ensures lru == old(lru) + [t]
    {
      hide Index.Linked;
      ghost var x := t.Model();
      Index.LinkedDistinct(Index.Append(Table(), x));
      AppendedMatched(lru, sessions, tokens, t, x);
      PushBack(t, t.id);
    }

    /** Create a session: stamped first, stored under the lock. */
    method Create(access: string, refresh: string, pairs: seq<PairBytes>, clock: Clock)
      returns (e: Option<Error>, ghost op: Store.Op)
      requires Valid()
      modifies this`tokens, this`ids, this`lru, this`filed, this`sessions, this`held, Bufs(), clock
      ensures Valid() && fresh(Bufs() - old(Bufs()))
      ensures forall t :: t in lru && t !in old(lru) ==> fresh(t)
      ensures forall a :: a in held && a !in old(held) && a != null ==> fresh(a)
      ensures op.Create? && op == Store.Create(access, refresh, old(PairsOf(pairs)), op.stamp, op.checked)
      ensures old(clock.now) <= op.stamp <= op.checked <= clock.now
      ensures Store.LazyStep(cfg, old(State()), op, clock.now, clock.now) == Store.Outcome(State(), Store.ReplyOf(e))
    {
      hide Valid, Index.Insert, Store.Insert;
      op := Store.Create(access, refresh, PairsOf(pairs), clock.now, clock.now);
      var parts := Tokens.Split(access);
      if parts.Err? {
        return Some(parts.error), op;
      }
      var other := Tokens.Split(refresh);
      if other.Err? {
        return Some(other.error), op;
      }
      ghost var stamp, checked;
      var t, dead;
      t, dead, stamp, checked := NewRecord(parts.value.id, access, refresh, pairs, clock);
      op := Store.Create(access, refresh, old(PairsOf(pairs)), stamp, checked);
      if dead {
        return None, op;
      }
      e := CreateLocked(t);
    }

    /** What happens before the lock: the record is stamped and filled, and shared with nobody. */
    method NewRecord(id: string, access: string, refresh: string, pairs: seq<PairBytes>, clock: Clock)
      returns (t: TokenValue, dead: bool, ghost stamp: int, ghost checked: int)
      requires Valid()
      modifies this`held, clock
      ensures Valid() && t !in lru && t.Holds() && t.Owned() <= held
      ensures fresh(t)
      ensures forall a :: a in held && a !in old(held) && a != null ==> fresh(a)
      ensures old(clock.now) <= stamp <= checked == clock.now
      ensures
        var x := Make(cfg, id, access, refresh, old(PairsOf(pairs)), stamp);
        (dead <==> x.Dead(checked)) && (!dead ==> t.Model() == x)
    {
      hide Index.Linked, PairsOf, BytesOf, PutAll;
      t, dead, stamp, checked := Prepare(cfg, id, access, refresh, pairs, clock);
      Own(t);
    }

    /** The arrays of a new record are the provider's from now on. */
    method Own(t: TokenValue)
      requires Valid() && t !in lru
      modifies this`held
      ensures Valid() && held == old(held) + t.Owned()
    {
      hide Index.Linked;
      held := held + t.Owned();
    }

    // ---------------------------------------------------------------- removing sessions by id or by token

    /** Destroy a session by id: the index entry, then each token it listed. */
    method Destroy(id: string) returns (e: Option<Error>)
      requires Valid()
      modifies this`tokens, this`ids, this`lru, this`filed, this`sessions
      ensures Valid() && Bufs() <= old(Bufs())
      ensures forall t :: t in lru ==> t in old(lru)
      ensures !done ==> Table() == Index.DropId(old(Table()), id)
      ensures forall now, later ::
        Store.LazyStep(cfg, old(State()), Store.Destroy(id), now, later) == Store.Outcome(State(), Store.ReplyOf(e))
    {
      hide Valid, Index.WithoutAll;
      if done {
        return Some(ProviderClosed);
      }
      IdDropped(id);
      if id in ids {
        DropListed(id);
      } else {
        NotFiled(id);
      }
      e := None;
    }

    method DropListed(id: string)
      requires Valid() && id in ids && !done
      modifies this`tokens, this`ids, this`lru, this`filed, this`sessions
      ensures Valid() && Bufs() <= old(Bufs())
      ensures forall t :: t in lru ==> t in old(lru)
      ensures Table() == Index.DropId(old(Table()), id)
    {
      hide Index.Linked, Index.WithoutAll, IdsMatch, Mirrors, AllHold, Matched;
      IdsFacts(id);
      Index.DropIdLinked(Table(), id);
      ghost var was := Table();
      var strs := TakeIds(id);
      RemoveListed(strs, id, was);
    }

    lemma IdDropped(id: string)
      requires Valid()
      ensures Index.DropId(Table(), id).sessions == WithoutId(sessions, id)
      ensures ids.Keys == filed.Keys
    {
      hide Index.Linked, Index.DropId;
      Index.DropIdLinked(Table(), id);
    }

    lemma NotFiled(id: string)
      requires id !in filed
      ensures Index.DropId(Table(), id) == Table()
    {
      assert filed - {id} == filed;
    }

    /** Takes the slice of `id` out of the index. */
    method TakeIds(id: string) returns (strs: Slice)
      requires IdsMatch() && Mirrors(lru, sessions) && AllHold(lru, held) && id in ids
      modifies this`ids, this`filed
      ensures IdsMatch() && Mirrors(lru, sessions) && AllHold(lru, held)
      ensures filed == old(filed) - {id} && Bufs() <= old(Bufs())
      ensures InBounds(strs) && Elements(strs) == old(filed)[id]
    {
      strs := ids[id];
      ids := ids - {id};
      filed := filed - {id};
    }

    /** Destroy's loop over the tokens of a slice that has left the index. */
    method RemoveListed(strs: Slice, id: string, ghost was: Index.Table)
      requires IdsMatch() && Mirrors(lru, sessions) && AllHold(lru, held) && Matched(tokens, lru, sessions)
      requires Index.Linked(was) && sessions == was.sessions
      requires InBounds(strs) && Elements(strs) == Index.Filed(was.ids, id)
      modifies this`tokens, this`lru, this`sessions
      ensures IdsMatch() && Mirrors(lru, sessions) && AllHold(lru, held) && Matched(tokens, lru, sessions)
      ensures sessions == Index.WithoutAll(was.sessions, Elements(strs))
      ensures forall t :: t in lru ==> t in old(lru)
    {
      hide Index.Linked;
      ghost var all := Elements(strs);
      for i := 0 to strs.len
        invariant Elements(strs) == all
        invariant IdsMatch() && Mirrors(lru, sessions) && AllHold(lru, held) && Matched(tokens, lru, sessions)
        invariant sessions == Index.WithoutAll(was.sessions, all[..i])
        invariant forall t :: t in lru ==> t in old(lru)
      {
        var token := strs.buf[i];
        Index.WithoutAllNext(was, id, i);
        RemoveOne(token);
      }
      assert all[..strs.len] == all;
    }

    /** One round of it: the token is found, because the index lists stored tokens only. */
    method RemoveOne(token: string)
      requires IdsMatch() && Mirrors(lru, sessions) && AllHold(lru, held) && Matched(tokens, lru, sessions)
      requires Distinct(sessions) && Lookup(sessions, token).Some?
      modifies this`tokens, this`lru, this`sessions
      ensures IdsMatch() && Mirrors(lru, sessions) && AllHold(lru, held) && Matched(tokens, lru, sessions)
      ensures sessions == Without(old(sessions), token)
      ensures forall t :: t in lru ==> t in old(lru)
    {
      hide Lookup, Without, RemoveFirst, Accesses;
      TokenFound(lru, sessions, tokens, token);
      var t := tokens[token];
      RestOfList(lru, t);
      RemoveRecord(lru, sessions, tokens, t);
      ghost var rest, s := RemoveFirst(lru, t), Without(sessions, token);
      AllHoldFewer(lru, rest, held);
      lru := RemoveFirst(lru, t);
      sessions := s;
      tokens := tokens - {token};
      assert Mirrors(rest, s);
    }

    /** Destroy a session by token. */
    method DestroyByToken(token: string) returns (e: Option<Error>)
      requires Valid()
      modifies this`tokens, this`ids, this`lru, this`filed, this`sessions, Bufs()
      ensures Valid() && Bufs() <= old(Bufs())
      ensures forall t :: t in lru ==> t in old(lru)
      ensures forall now, later ::
        Store.LazyStep(cfg, old(State()), Store.DestroyByToken(token), now, later)
        == Store.Outcome(State(), Store.ReplyOf(e))
    {
      hide Index.Linked, Index.Drop;
      var parts := Tokens.Split(token);
      if parts.Err? {
        return Some(parts.error);
      }
      if done {
        return Some(ProviderClosed);
      }
      Index.DropLinked(Table(), token);
      UnsafeDestroyByToken(token);
      e := None;
    }

    // ---------------------------------------------------------------- reading

    /** The test Check, Get and Keys make under the read lock. A dead session is reported, not removed. */
    method Peek(token: string, clock: Clock)
      returns (e: Option<Error>, deleted: bool, ghost now: int, ghost later: int)
      requires Valid()
      modifies clock
      ensures Valid() && old(clock.now) <= now <= later <= clock.now
      ensures e == Store.LazyStatus(sessions, token, now, later)
      ensures deleted <==> Lookup(sessions, token).Some? && Lookup(sessions, token).value.Dead(now)
      ensures e == None ==> token in tokens && tokens[token] in lru
      ensures e == None ==> Lookup(sessions, token) == Some(tokens[token].Model())
    {
      hide Index.Linked, IdsMatch, AllHold, Mirrors, Matched, Lookup;
      now, later, deleted := clock.now, clock.now, false;
      Index.LinkedDistinct(Table());
      TokenFound(lru, sessions, tokens, token);
      if token !in tokens {
        return Some(TokenNotExists), deleted, now, later;
      }
      e, deleted, now, later := Status(tokens[token], clock);
    }

    /** The deadline tests, refresh deadline first. */
    method Status(t: TokenValue, clock: Clock)
      returns (e: Option<Error>, deleted: bool, ghost now: int, ghost later: int)
      requires Valid() && t in lru
      modifies clock
      ensures Valid() && t.Model() == old(t.Model())
      ensures old(clock.now) <= now <= later <= clock.now
      ensures deleted == t.Model().Dead(now)
      ensures e == if deleted then Some(TokenNotExists)
                   else if t.Model().Expired(later) then Some(TokenExpired) else None
    {
      hide Index.Linked;
      deleted := t.IsDeleted(clock);
      now, later := clock.now, clock.now;
      if deleted {
        return Some(TokenNotExists), deleted, now, later;
      }
      var expired := t.IsExpired(clock);
      later := clock.now;
      e := if expired then Some(TokenExpired) else None;
    }

    /** Check: `post` says that the token goes to the worker after the lock is released. */
    method Check(token: string, clock: Clock)
      returns (e: Option<Error>, post: bool, ghost now: int, ghost later: int)
      requires Valid()
      modifies clock
      ensures Valid() && old(clock.now) <= now <= later <= clock.now
      ensures Store.LazyStep(cfg, old(State()), Store.Check(token), now, later)
           == Store.Outcome(State(), Store.ReplyOf(e))
      ensures post <==> Store.Posts(State(), token, now)
    {
      hide Valid, Lookup;
      now, later, post := clock.now, clock.now, false;
      var parts := Tokens.Split(token);
      if parts.Err? {
        return Some(parts.error), post, now, later;
      }
      if done {
        return Some(ProviderClosed), post, now, later;
      }
      e, post, now, later := Peek(token, clock);
    }

    /** Get: the values are copies the caller may overwrite. */
    method Get(token: string, keys: seq<string>, clock: Clock)
      returns (vals: array<Slot>, e: Option<Error>, post: bool, ghost now: int, ghost later: int, ghost got: seq<Value>)
      requires Valid()
      modifies clock
      ensures Valid() && old(clock.now) <= now <= later <= clock.now
      ensures fresh(vals) && forall i :: 0 <= i < vals.Length && vals[i].bytes != null ==> fresh(vals[i].bytes)
      ensures |got| == vals.Length && forall i :: 0 <= i < |got| ==> got[i] == ValueOfSlot(vals[i])
      ensures Store.LazyStep(cfg, old(State()), Store.Get(token, keys), now, later)
           == Store.Outcome(State(), if e == None then Store.Values(got) else Store.Failed(e.value))
      ensures post <==> Store.Posts(State(), token, now)
    {
      hide Valid, Lookup;
      now, later, post, got := clock.now, clock.now, false, [];
      var parts := Tokens.Split(token);
      if parts.Err? {
        vals := NoValues();
        return vals, Some(parts.error), post, now, later, got;
      }
      if done {
        vals := NoValues();
        return vals, Some(ProviderClosed), post, now, later, got;
      }
      e, post, now, later := Peek(token, clock);
      if e == None {
        vals, got := CopyOut(tokens[token], keys);
      } else {
        vals := NoValues();
      }
    }

    method NoValues() returns (vals: array<Slot>)
      requires Valid()
      ensures Valid() && fresh(vals) && vals.Length == 0
    {
      vals := new Slot[0];
    }

    method CopyOut(t: TokenValue, keys: seq<string>) returns (vals: array<Slot>, ghost got: seq<Value>)
      requires Valid() && t in lru
      ensures Valid()
      ensures fresh(vals) && forall i :: 0 <= i < vals.Length && vals[i].bytes != null ==> fresh(vals[i].bytes)
      ensures |got| == vals.Length && forall i :: 0 <= i < |got| ==> got[i] == ValueOfSlot(vals[i])
      ensures got == ValuesOf(t.contents, keys)
    {
      hide Index.Linked;
      vals := t.CopyKeys(keys);
      got := ValuesOf(t.contents, keys);
    }

    /** Keys: each key of the session once, in any order. */
    method Keys(token: string, clock: Clock)
      returns (keys: seq<string>, e: Option<Error>, post: bool, ghost now: int, ghost later: int)
      requires Valid()
      modifies clock
      ensures Valid() && old(clock.now) <= now <= later <= clock.now
      ensures NoDup(keys)
      ensures Store.LazyStep(cfg, old(State()), Store.Keys(token), now, later)
           == Store.Outcome(State(), if e == None then Store.KeySet(set k | k in keys) else Store.Failed(e.value))
      ensures post <==> Store.Posts(State(), token, now)
    {
      hide Valid, Lookup;
      now, later, post, keys := clock.now, clock.now, false, [];
      var parts := Tokens.Split(token);
      if parts.Err? {
        return keys, Some(parts.error), post, now, later;
      }
      if done {
        return keys, Some(ProviderClosed), post, now, later;
      }
      e, post, now, later := Peek(token, clock);
      if e == None {
        keys := ListKeys(tokens[token]);
      }
    }

    method ListKeys(t: TokenValue) returns (keys: seq<string>)
      requires Valid() && t in lru
      ensures Valid() && NoDup(keys) && (set k | k in keys) == t.contents.Keys
    {
      assert t.Holds();
      keys := Listing(t.data.Keys);
    }

    // ---------------------------------------------------------------- writing

    /** Looks a token up for writing; a dead session is removed on the way. */
    method UnsafeGet(token: string, clock: Clock)
      returns (t: TokenValue?, e: Option<Error>, ghost now: int, ghost later: int)
      requires Valid() && !done
      modifies this`tokens, this`ids, this`lru, this`filed, this`sessions, Bufs(), clock
      ensures Valid() && Bufs() <= old(Bufs()) && old(clock.now) <= now <= later <= clock.now
      ensures forall u :: u in lru ==> u in old(lru)
      ensures e == Store.LazyStatus(old(sessions), token, now, later)
      ensures sessions == Store.Touch(old(sessions), token, now)
      ensures e == None ==> Table() == old(Table()) && lru == old(lru) && t != null && t in lru
      ensures e == None ==> Lookup(sessions, token) == Some(t.Model())
    {
      hide Index.Linked, Valid;
      ghost var was := Table();
      var deleted;
      e, deleted, now, later := Peek(token, clock);
      assert Table() == was;
      Dropped(token);
      if deleted {
        UnsafeDestroyByToken(token);
        t := null;
      } else if e == None {
        t := tokens[token];
      } else {
        t := null;
      }
    }

    /** Put: the pairs in turn, each value copied. */
    method Put(token: string, pairs: seq<PairBytes>, clock: Clock)
      returns (e: Option<Error>, ghost now: int, ghost later: int)
      requires Valid()
      modifies this`tokens, this`ids, this`lru, this`filed, this`sessions, this`held, lru, Bufs(), clock
      ensures Valid() && Bufs() <= old(Bufs()) && old(clock.now) <= now <= later <= clock.now
      ensures forall t :: t in lru ==> t in old(lru)
      ensures forall a :: a in held && a !in old(held) && a != null ==> fresh(a)
      ensures Store.LazyStep(cfg, old(State()), Store.Put(token, old(PairsOf(pairs))), now, later)
           == Store.Outcome(State(), Store.ReplyOf(e))
    {
      hide Valid, Lookup, Store.Touch;
      now, later := clock.now, clock.now;
      var parts := Tokens.Split(token);
      if parts.Err? {
        return Some(parts.error), now, later;
      }
      if done {
        return Some(ProviderClosed), now, later;
      }
      ghost var model := PairsOf(pairs);
      var t;
      t, e, now, later := UnsafeGet(token, clock);
      TouchKeeps(old(sessions), token, now);
      if e == None {
        assert PairsOf(pairs) == model;
        StorePairs(t, pairs);
      }
    }

    lemma TouchKeeps(s: seq<Session>, token: string, now: int)
      ensures Lookup(s, token).Some? && !Lookup(s, token).value.Dead(now) ==> Store.Touch(s, token, now) == s
    {
    }

    method StorePairs(t: TokenValue, pairs: seq<PairBytes>)
      requires Valid() && t in lru
      modifies t, this`sessions, this`held
      ensures Valid()
      ensures Table() == Index.SetData(old(Table()), old(t.access), PutAll(old(t.contents), old(PairsOf(pairs))))
      ensures forall a :: a in held && a !in old(held) && a != null ==> fresh(a)
    {
      hide Index.Linked, Sessions.SetData, IdsMatch, AllHold;
      ghost var data := PutAll(t.contents, PairsOf(pairs));
      Index.SetDataLinked(Table(), t.access, data);
      Index.LinkedDistinct(Table());
      SetDataRecord(lru, sessions, tokens, t, data);
      FillRecord(t, pairs, Sessions.SetData(sessions, t.access, data));
    }

    /** Writing one record touches no other. */
    method FillRecord(t: TokenValue, pairs: seq<PairBytes>, ghost s: seq<Session>)
      requires IdsMatch() && AllHold(lru, held) && t in lru
      modifies t`data, t`contents, this`sessions, this`held
      ensures IdsMatch() && AllHold(lru, held) && sessions == s
      ensures t.contents == PutAll(old(t.contents), old(PairsOf(pairs)))
      ensures t.Model() == old(t.Model()).(data := t.contents)
      ensures forall u :: u in lru && u != t ==> u.Model() == old(u.Model())
      ensures forall a :: a in held && a !in old(held) && a != null ==> fresh(a)
    {
      hide PutAll, PairsOf;
      FillData(t, pairs);
      sessions, held := s, held + t.Owned();
    }

    method FillData(t: TokenValue, pairs: seq<PairBytes>)
      requires IdsMatch() && AllHold(lru, held) && t in lru
      modifies t`data, t`contents
      ensures IdsMatch() && t.Holds() && forall u :: u in lru && u != t ==> u.Holds() && u.Owned() <= held
      ensures t.contents == PutAll(old(t.contents), old(PairsOf(pairs)))
      ensures t.Model() == old(t.Model()).(data := t.contents)
      ensures forall u :: u in lru && u != t ==> u.Model() == old(u.Model())
      ensures forall a :: a in t.Owned() && a !in held && a != null ==> fresh(a)
    {
      hide PutAll, PairsOf, BytesOf;
      SetPairs(t, pairs);
    }

    /** Delete keys. */
    method Delete(token: string, keys: seq<string>, clock: Clock)
      returns (e: Option<Error>, ghost now: int, ghost later: int)
      requires Valid()
      modifies this`tokens, this`ids, this`lru, this`filed, this`sessions, lru, Bufs(), clock
      ensures Valid() && Bufs() <= old(Bufs()) && old(clock.now) <= now <= later <= clock.now
      ensures forall t :: t in lru ==> t in old(lru)
      ensures Store.LazyStep(cfg, old(State()), Store.Delete(token, keys), now, later)
           == Store.Outcome(State(), Store.ReplyOf(e))
    {
      hide Valid, Lookup, Store.Touch;
      now, later := clock.now, clock.now;
      var parts := Tokens.Split(token);
      if parts.Err? {
        return Some(parts.error), now, later;
      }
      if done {
        return Some(ProviderClosed), now, later;
      }
      var t;
      t, e, now, later := UnsafeGet(token, clock);
      TouchKeeps(old(sessions), token, now);
      if e == None {
        RemoveKeys(t, keys);
      }
    }

    method RemoveKeys(t: TokenValue, keys: seq<string>)
      requires Valid() && t in lru
      modifies t`data, t`contents, this`sessions
      ensures Valid()
      ensures Table() == Index.SetData(old(Table()), old(t.access), DeleteAll(old(t.contents), keys))
    {
      hide Index.Linked, Sessions.SetData, IdsMatch, AllHold;
      ghost var data := DeleteAll(t.contents, keys);
      Index.SetDataLinked(Table(), t.access, data);
      Index.LinkedDistinct(Table());
      SetDataRecord(lru, sessions, tokens, t, data);
      PruneRecord(t, keys, Sessions.SetData(sessions, t.access, data));
    }

    method PruneRecord(t: TokenValue, keys: seq<string>, ghost s: seq<Session>)
      requires IdsMatch() && AllHold(lru, held) && t in lru
      modifies t`data, t`contents, this`sessions
      ensures IdsMatch() && AllHold(lru, held) && sessions == s
      ensures t.contents == DeleteAll(old(t.contents), keys)
      ensures t.Model() == old(t.Model()).(data := t.contents)
      ensures forall u :: u in lru && u != t ==> u.Model() == old(u.Model())
    {
      sessions := s;
      DeleteKeys(t, keys);
    }

    // ---------------------------------------------------------------- refreshing

    /** The first token that does not split, or that belongs to another id. */
    method CheckId(id: string, list: seq<string>) returns (e: Option<Error>)
      requires Valid()
      ensures Valid() && e == Store.CheckId(id, list)
    {
      hide Index.Linked;
      for i := 0 to |list|
        invariant Store.CheckId(id, list) == Store.CheckId(id, list[i..])
      {
        var parts := Tokens.Split(list[i]);
        if parts.Err? {
          return Some(parts.error);
        }
        if parts.value.id != id {
          return Some(TokenIDNotMatched);
        }
      }
      e := None;
    }

    /** Refresh: the session's record leaves under its old token and comes back at the end under its new one, which the
        token map then finds it under. The three structures stay in step exactly when the new token was unused or is the
        one replaced; otherwise the list and the id's slice hold the new token twice. */
    method Refresh(access: string, refresh: string, newAccess: string, newRefresh: string, clock: Clock)
      returns (e: Option<Error>, ghost now: int, ghost later: int)
      requires Valid()
      modifies this`tokens, this`ids, this`lru, this`filed, this`sessions, lru, Bufs(), clock
      ensures fresh(Bufs() - old(Bufs())) && old(clock.now) <= now <= later <= clock.now
      ensures forall t :: t in lru ==> t in old(lru)
      ensures Store.LazyStep(cfg, old(State()), Store.Refresh(access, refresh, newAccess, newRefresh), now, later)
           == Store.Outcome(State(), Store.ReplyOf(e))
      ensures e == None ==>
        && Represents() && access in old(tokens) && Lookup(old(sessions), access).Some?
        && Rotated(old(lru), old(tokens), access, newAccess)
        && Table() == Index.Append(Index.Drop(old(Table()), access),
                                   Rotate(cfg, Lookup(old(sessions), access).value, newAccess, newRefresh, later))
      ensures Valid() <==> (e == None ==>
        Store.FreshTarget(old(sessions), Store.Refresh(access, refresh, newAccess, newRefresh)))
    {
      hide Valid, Represents, Lookup, Without, Index.Drop, Index.Append, RemoveFirst, Tokens.Split, PutAll;
      hide Store.Insert;
      now, later := clock.now, clock.now;
      var parts := Tokens.Split(access);
      if parts.Err? {
        return Some(parts.error), now, later;
      }
      var id := parts.value.id;
      e := CheckId(id, [refresh, newAccess, newRefresh]);
      if e != None {
        return;
      }
      CheckedIds(id, refresh, newAccess, newRefresh);
      if done {
        return Some(ProviderClosed), now, later;
      }
      Found(access);
      if access !in tokens {
        return Some(TokenNotExists), now, later;
      }
      var t := tokens[access];
      var deleted := TestDeleted(t, clock);
      now, later := clock.now, clock.now;
      Dropped(access);
      if deleted {
        UnsafeDestroyByToken(access);
        return Some(TokenNotExists), now, later;
      }
      if t.refresh != refresh {
        return Some(RefreshTokenNotMatched), now, later;
      }
      later := Move(t, id, newAccess, newRefresh, clock);
      e := None;
    }

    /** List and token map after the record of `access` has moved to the end, under `newAccess`. */
    ghost predicate Rotated(list: seq<TokenValue>, found: map<string, TokenValue>, access: string, newAccess: string)
      requires access in found
      reads `lru, `tokens
    {
      lru == RemoveFirst(list, found[access]) + [found[access]]
      && tokens == (found - {access})[newAccess := found[access]]
    }

    lemma CheckedIds(id: string, refresh: string, newAccess: string, newRefresh: string)
      requires Store.CheckId(id, [refresh, newAccess, newRefresh]) == None
      ensures Store.IdOf(newAccess) == id
    {
      assert [refresh, newAccess, newRefresh][1..] == [newAccess, newRefresh];
    }

    /** What Valid says about one token. */
    lemma Found(token: string)
      requires Valid()
      ensures token in tokens <==> Lookup(sessions, token).Some?
      ensures token in tokens ==> tokens[token] in lru && tokens[token].access == token
      ensures token in tokens ==> Lookup(sessions, token) == Some(tokens[token].Model())
      ensures token in tokens ==> tokens[token].id == Store.IdOf(token)
    {
      hide Index.FiledUnderOwnId, Index.OnlyStoredFiled, Index.NoneFiledTwice;
      TokenFound(lru, sessions, tokens, token);
      if token in tokens {
        Index.LinkedId(Table(), token);
      }
    }

    method TestDeleted(t: TokenValue, clock: Clock) returns (deleted: bool)
      requires Valid() && t in lru
      modifies clock
      ensures Valid() && t.Model() == old(t.Model()) && old(clock.now) <= clock.now
      ensures deleted == t.Model().Dead(clock.now)
    {
      hide Index.Linked;
      deleted := t.IsDeleted(clock);
    }

    /** The old entry out, the same record back in at the end under its new tokens. */
    method Move(t: TokenValue, id: string, newAccess: string, newRefresh: string, clock: Clock)
      returns (ghost at: int)
      requires Valid() && t in lru && !done && id == t.id == Store.IdOf(newAccess)
      modifies this`tokens, this`ids, this`lru, this`filed, this`sessions, t, Bufs(), clock
      ensures fresh(Bufs() - old(Bufs())) && old(clock.now) <= at == clock.now
      ensures forall u :: u in lru ==> u in old(lru)
      ensures sessions == Without(old(sessions), old(t.access))
                          + [Rotate(cfg, old(t.Model()), newAccess, newRefresh, at)]
      ensures Table() == Index.Append(Index.Drop(old(Table()), old(t.access)),
                                      Rotate(cfg, old(t.Model()), newAccess, newRefresh, at))
      ensures lru == RemoveFirst(old(lru), t) + [t]
      ensures tokens == (old(tokens) - {old(t.access)})[newAccess := t]
      ensures Represents()
      ensures Valid() <==> newAccess == old(t.access) || Lookup(old(sessions), newAccess) == None
    {
      hide Valid, Represents, Index.Linked, Index.Drop, Lookup, Without;
      ghost var access, was := t.access, Table();
      FoundRecord(t);
      RestOfList(lru, t);
      Dropped(access);
      LinkedNow();
      Evict(t);
      at := Renew(t, newAccess, newRefresh, clock);
      RefreshedLinked(was, access, t.Model());
      Reenter(t, id);
    }

    lemma LinkedNow()
      requires Valid()
      ensures Index.Linked(Table())
    {
    }

    lemma FoundRecord(t: TokenValue)
      requires Valid() && t in lru
      ensures Lookup(sessions, t.access) == Some(t.Model())
    {
      hide Index.Linked, Lookup;
      Index.LinkedDistinct(Table());
      var i := PositionOfRecord(lru, sessions, t);
    }

    lemma RefreshedLinked(was: Index.Table, access: string, y: Session)
      requires Index.Linked(was) && Lookup(was.sessions, access).Some? && y.id == Store.IdOf(y.access)
      ensures Index.Linked(Index.Append(Index.Drop(was, access), y))
         <==> y.access == access || Lookup(was.sessions, y.access) == None
    {
      hide Index.Linked, Lookup;
      Index.RefreshLinkedIffFresh(was, access, y);
    }

    /** New tokens and deadlines for a record that is out of the list. */
    method Renew(t: TokenValue, access: string, refresh: string, clock: Clock) returns (ghost at: int)
      requires Valid() && t !in lru && t.Holds() && t.Owned() <= held
      modifies t, clock
      ensures Valid() && t.Holds() && t.Owned() <= held
      ensures old(clock.now) <= at == clock.now
      ensures t.Model() == Rotate(cfg, old(t.Model()), access, refresh, at)
    {
      hide Index.Linked;
      at := t.Refresh(access, refresh, cfg.access, cfg.refresh, clock);
    }

    /** Puts a record back; what ties the structures together survives if the index agreement does. */
    method Reenter(t: TokenValue, id: string)
      requires Valid() && t !in lru && t.Holds() && t.Owned() <= held && t.id == id && !done
      modifies this`tokens, this`ids, this`lru, this`filed, this`sessions, Bufs()
      ensures fresh(Bufs() - old(Bufs())) && Table() == Index.Append(old(Table()), old(t.Model()))
      ensures lru == old(lru) + [t] && tokens == old(tokens)[t.access := t]
      ensures Represents() && (Valid() <==> Index.Linked(Table()))
    {
      hide Index.Linked, IdsMatch, AllHold, Mirrors, Accesses;
      ghost var x := t.Model();
      if Index.Linked(Index.Append(Table(), x)) {
        Index.LinkedDistinct(Index.Append(Table(), x));
        AppendedMatched(lru, sessions, tokens, t, x);
      }
      PushBack(t, id);
    }

    /** Close: afterwards every call fails. */
    method Close() returns (e: Option<Error>)
      requires Valid()
      modifies this`tokens, this`ids, this`lru, this`filed, this`sessions, this`done
      ensures Valid() && done
      ensures Bufs() <= old(Bufs()) && forall t :: t in lru ==> t in old(lru)
      ensures forall now, later ::
        Store.LazyStep(cfg, old(State()), Store.Close, now, later) == Store.Outcome(State(), Store.ReplyOf(e))
    {
      hide Valid;
      if done {
        return Some(ProviderClosed);
      }
      tokens, ids, lru, sessions, filed, done := map[], map[], [], [], map[], true;
      EmptyIsValid();
      e := None;
    }

    lemma EmptyIsValid()
      requires tokens == map[] && ids == map[] && lru == [] && sessions == [] && filed == map[]
      ensures Valid()
    {
      hide Index.Linked;
      Index.NothingLinked();
    }

    // ---------------------------------------------------------------- cleaning

    /** The timer's pass: from the front while the session there is dead. Needs no order; when the list is sorted
        by refresh deadline, what remains is exactly what is live at the last reading. */
    method UnsafeClear(clock: Clock) returns (ghost n: nat)
      requires Valid()
      modifies this`tokens, this`ids, this`lru, this`filed, this`sessions, Bufs(), clock
      ensures Valid() && Bufs() <= old(Bufs()) && old(clock.now) <= clock.now
      ensures forall t :: t in lru ==> t in old(lru)
      ensures TickOutcome(old(sessions), n, clock.now)
      ensures Table() == Index.ClearFirst(old(Table()), n) && sessions == old(sessions)[n..]
      ensures !done && Sorted(old(sessions)) ==> sessions == Live(old(sessions), clock.now)
      ensures State() == Runs.Cleaned(old(State()), (set i | 0 <= i < n :: old(sessions)[i].access), clock.now)
    {
      hide Valid, Index.ClearFront, Index.ClearFirst, Live, DropDead, Sorted, Distinct;
      n := 0;
      ghost var s, t := sessions, Table();
      DistinctNow();
      Index.ClearNone(t);
      if !done {
        while true
          invariant Valid() && !done && Bufs() <= old(Bufs()) && old(clock.now) <= clock.now
          invariant forall u :: u in lru ==> u in old(lru)
          invariant n <= |s| && sessions == s[n..] && Table() == Index.ClearFirst(t, n)
          invariant forall i :: 0 <= i < n ==> s[i].Dead(clock.now)
          decreases |s| - n
        {
          FrontNow();
          if |lru| == 0 {
            break;
          }
          var ele := lru[0];
          var dead := TestDeleted(ele, clock);
          if !dead {
            break;
          }
          ClearOne(ele);
          Index.ClearFirstNext(t, n);
          n := n + 1;
        }
        FrontNow();
        PassedAll(s, n, clock.now);
      }
      CutFront(s, n, clock.now);
    }

    lemma FrontNow()
      requires Valid()
      ensures |lru| == |sessions| && (lru != [] ==> lru[0].Model() == sessions[0])
    {
    }

    lemma PassedAll(s: seq<Session>, n: nat, t: int)
      requires TickOutcome(s, n, t)
      ensures Sorted(s) ==> Live(s, t) == s[n..]
    {
      hide Live;
      if Sorted(s) {
        LiveDeadPrefix(s, n, t);
      }
    }

    lemma DistinctNow()
      requires Valid()
      ensures Distinct(sessions) && |lru| == |sessions| && (done ==> sessions == [])
      ensures forall i :: 0 <= i < |lru| ==> lru[i].Model() == sessions[i]
    {
    }

    /** One round of the timer's loop, for the record at the front: its slice is shortened, even to nothing, the record
        leaves the list, and whatever the token map has under its token is forgotten. */
    method ClearRound(t: TokenValue)
      requires Represents() && |lru| > 0 && t == lru[0]
      modifies this`tokens, this`ids, this`lru, this`filed, this`sessions, Bufs()
      ensures Represents() && Bufs() <= old(Bufs())
      ensures lru == old(lru)[1..] && |old(sessions)| > 0 && sessions == old(sessions)[1..]
      ensures tokens == old(tokens) - {t.access} && t.Model() == old(t.Model())
      ensures filed == Index.Unfile(old(filed), t.id, t.access, true)
    {
      hide Index.Unfile, IdsMatch, AllHold;
      ghost var us := lru;
      var token := UnsafePop(t, true, sessions[1..]);
      Forget(token, us);
      AllHoldFewer(us, lru, held);
    }

    method ClearOne(t: TokenValue)
      requires Valid() && |lru| > 0 && t == lru[0] && !done
      modifies this`tokens, this`ids, this`lru, this`filed, this`sessions, Bufs()
      ensures Valid() && Bufs() <= old(Bufs())
      ensures forall u :: u in lru ==> u in old(lru)
      ensures |old(sessions)| > 0 && sessions == old(sessions)[1..]
      ensures Table() == Index.ClearFront(old(Table()))
    {
      hide Represents, Without, Lookup, Index.Unfile, Index.Linked, Matched;
      FrontRemoved(t);
      ClearRound(t);
    }

    /** What Valid says about removing the front. */
    lemma FrontRemoved(t: TokenValue)
      requires Valid() && |lru| > 0 && t == lru[0]
      ensures |sessions| > 0 && t.Model() == sessions[0] && Without(sessions, t.access) == sessions[1..]
      ensures Matched(tokens - {t.access}, lru[1..], sessions[1..])
      ensures Index.Linked(Index.Removed(Table(), sessions[0], true))
    {
      hide Index.Linked, Without, Lookup, Accesses, Index.Unfile;
      Index.LinkedDistinct(Table());
      RemoveRecord(lru, sessions, tokens, t);
      WithoutAt(sessions, 0);
      Index.RemoveLinked(Table(), sessions[0], true);
    }

    /** A refresh onto the token of a session that is dead but still at the front of the list. To a client the token is
        free. The timer's next round forgets the token together with the dead record: the refreshed session, however
        live, is still in the list and in its id's slice, but no call finds it any more. */
    method RefreshThenClear(access: string, refresh: string, newAccess: string, newRefresh: string, clock: Clock)
      returns (e: Option<Error>, ghost later: int)
      requires Valid() && !done && |sessions| > 0 && sessions[0].access == newAccess && newAccess != access
      requires sessions[0].Dead(clock.now)
      modifies this`tokens, this`ids, this`lru, this`filed, this`sessions, lru, Bufs(), clock
      ensures e == None ==> access !in tokens && newAccess !in tokens
      ensures e == None ==>
        && Represents() && Lookup(old(sessions), access).Some? && sessions != []
        && sessions[|sessions| - 1]
           == Rotate(cfg, Lookup(old(sessions), access).value, newAccess, newRefresh, later)
        && newAccess in Index.Filed(filed, Lookup(old(sessions), access).value.id)
    {
      hide Valid, Represents, Lookup, Without, Index.Linked, Store.LazyStep, Index.Append, Index.Drop, RemoveFirst;
      ghost var now, was, us := 0, Table(), lru;
      LinkedNow();
      DistinctNow();
      e, now, later := Refresh(access, refresh, newAccess, newRefresh, clock);
      if e == None {
        ghost var x := Lookup(was.sessions, access).value;
        Accepted(cfg, was.sessions, Store.Refresh(access, refresh, newAccess, newRefresh), now, later);
        Clash(was, x, Rotate(cfg, x, newAccess, newRefresh, later));
        FrontKept();
        ClearRound(lru[0]);
      }
    }

    lemma FrontKept()
      requires Represents()
      ensures |lru| == |sessions| && (lru != [] ==> lru[0].Model() == sessions[0])
    {
    }

    /** A refresh that succeeds has passed the id checks. */
    lemma Accepted(cfg: Config, s: seq<Session>, op: Store.Op, now: int, later: int)
      requires op.Refresh? && Store.LazyStep(cfg, Store.Open(s), op, now, later).reply == Store.Done
      ensures Store.IdOf(op.newAccess) == Store.IdOf(op.access)
    {
      hide Lookup, Tokens.Split;
      Store.AcceptedIds(op);
    }

    /** Table and index after such a refresh: the dead session is still in front, its token is filed twice, and once
        even after the timer has taken it out. */
    lemma Clash(was: Index.Table, x: Session, y: Session)
      requires Index.Linked(was) && was.sessions != [] && Lookup(was.sessions, x.access) == Some(x)
      requires was.sessions[0].access == y.access != x.access && y.id == x.id
      requires Store.IdOf(y.access) == Store.IdOf(x.access)
      ensures
        var mid, z := Index.Append(Index.Drop(was, x.access), y), was.sessions[0];
        && |mid.sessions| >= 2 && mid.sessions[0] == z && mid.sessions[|mid.sessions| - 1] == y
        && y.access in Index.Filed(Index.Unfile(mid.ids, z.id, z.access, true), x.id)
    {
      hide Lookup, Without, Index.Linked, Store.IdOf, RemoveFirst;
      Index.LinkedDistinct(was);
      Index.DropLinked(was, x.access);
      var z := was.sessions[0];
      LookupAt(was.sessions, 0);
      Index.LinkedId(was, z.access);
      Index.LinkedId(was, x.access);
      FrontOfRest(was.sessions, x.access);
      Index.LinkedFiled(was, z.access);
      Index.LinkedNoDup(was);
      Index.UnfileFiled(was.ids, x.id, x.access, false, x.id);
      var list := Index.Filed(Index.Drop(was, x.access).ids, x.id);
      assert z.access in list;
      StillListed(list, z.access);
    }

    lemma FrontOfRest(s: seq<Session>, token: string)
      requires s != [] && s[0].access != token
      ensures Without(s, token) != [] && Without(s, token)[0] == s[0]
    {
    }

    lemma {:induction false} StillListed(list: seq<string>, token: string)
      requires token in list
      ensures token in RemoveFirst(list + [token], token)
    {
      var twice := list + [token];
      if list[0] == token {
        assert twice[1..][|list| - 1] == token;
      } else {
        assert twice[1..] == list[1..] + [token];
        assert list == [list[0]] + list[1..];
        StillListed(list[1..], token);
      }
    }

    /** The worker's batch: each token that is stored and dead goes, by way of the same removal as any other. */
    method UnsafeCheck(m: set<string>, clock: Clock) returns (closed: bool, ghost victims: seq<string>)
      requires Valid()
      modifies this`tokens, this`ids, this`lru, this`filed, this`sessions, Bufs(), clock
      ensures Valid() && Bufs() <= old(Bufs()) && old(clock.now) <= clock.now
      ensures closed == done
      ensures Table() == Index.DropAll(old(Table()), victims)
      ensures forall t :: t in lru ==> t in old(lru)
      ensures BatchOutcome(old(sessions), m, victims, old(clock.now), clock.now)
      ensures State() == Runs.Cleaned(old(State()), (set token | token in victims), clock.now)
    {
      hide Valid, Lookup, Index.DropAll, Index.Linked, DropDead, DeadAt;
      victims := [];
      ghost var was := Table();
      LinkedNow();
      Index.DropNone(was);
      if !done {
        var rest := m;
        while rest != {}
          invariant Valid() && !done && Bufs() <= old(Bufs()) && old(clock.now) <= clock.now && rest <= m
          invariant forall u :: u in lru ==> u in old(lru)
          invariant Table() == Index.DropAll(was, victims)
          invariant forall tok :: tok in victims ==> tok in m - rest && DeadAt(was.sessions, tok, clock.now)
          invariant forall tok :: tok in m - rest && tok !in victims ==> !DeadAt(was.sessions, tok, old(clock.now))
          decreases rest
        {
          var token :| token in rest;
          rest := rest - {token};
          ghost var before := clock.now;
          var dead := CheckOne(token, clock);
          DeadLater(was.sessions, before, clock.now);
          DropAllFound(was, victims, token, clock.now);
          DropAllFound(was, victims, token, old(clock.now));
          DeadLater(was.sessions, old(clock.now), clock.now);
          if dead {
            Index.DropAllSnoc(was, victims, token);
            victims := victims + [token];
          }
        }
      }
      closed := done;
      NoneWhenClosed();
      VictimsDropped(was, victims, clock.now);
    }

    lemma NoneWhenClosed()
      requires Valid()
      ensures done ==> forall token, t :: !DeadAt(sessions, token, t)
    {
    }

    method CheckOne(token: string, clock: Clock) returns (dead: bool)
      requires Valid() && !done
      modifies this`tokens, this`ids, this`lru, this`filed, this`sessions, Bufs(), clock
      ensures Valid() && Bufs() <= old(Bufs()) && old(clock.now) <= clock.now
      ensures forall t :: t in lru ==> t in old(lru)
      ensures dead <==> DeadAt(old(sessions), token, clock.now)
      ensures Table() == if dead then Index.Drop(old(Table()), token) else old(Table())
    {
      hide Valid, Lookup, Index.Drop;
      Found(token);
      dead := false;
      if token in tokens {
        dead := TestDeleted(tokens[token], clock);
        if dead {
          UnsafeDestroyByToken(token);
        }
      }
    }

    // ---------------------------------------------------------------- aliasing

    /** Whatever happens to memory the provider does not own, to a caller's arrays or to those Get returned, the
        stored sessions stay as they are. Arrays enter `held` only when Create or Put has just allocated them. */
    twostate lemma CallerCannotReach()
      requires old(Valid())
      requires unchanged(this) && unchanged(lru)
      requires forall b :: b in Bufs() ==> b[..] == old(b[..])
      requires forall a :: a in held && a != null ==> a[..] == old(a[..])
      ensures Valid() && State() == old(State())
    {
      hide Index.Linked;
      assert forall t :: t in lru ==> old(t.Holds()) && t.Owned() <= held;
    }
  }
}
