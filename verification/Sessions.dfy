/** A session as a value, and the ordered list of sessions every back end keeps. */
module Sessions {
  import opened Basics

  datatype Pair = Pair(key: string, value: Bytes)

  /** A looked-up value: `Exists: false`, or the bytes. */
  datatype Value = Absent | Present(bytes: Bytes)

  datatype Config = Config(access: int, refresh: int, maxSize: int)

  datatype Session = Session(
    id: string,
    access: string,
    refresh: string,
    accessDeadline: int,
    refreshDeadline: int,
    data: map<string, Bytes>)
  {
    /** Past its access deadline: readable again only after a refresh. */
    predicate Expired(t: int) { accessDeadline <= t }

    /** Past its refresh deadline: gone, as far as any client can tell. */
    predicate Dead(t: int) { refreshDeadline <= t }
  }

  function Make(cfg: Config, id: string, access: string, refresh: string, pairs: seq<Pair>, stamp: int): Session {
    Session(id, access, refresh, stamp + cfg.access, stamp + cfg.refresh, PutAll(map[], pairs))
  }

  function Rotate(cfg: Config, x: Session, access: string, refresh: string, stamp: int): Session {
    Session(x.id, access, refresh, stamp + cfg.access, stamp + cfg.refresh, x.data)
  }

  function PutAll(data: map<string, Bytes>, pairs: seq<Pair>): map<string, Bytes>
    decreases |pairs|
  {
    if pairs == [] then data else PutAll(data[pairs[0].key := pairs[0].value], pairs[1..])
  }

  function DeleteAll(data: map<string, Bytes>, keys: seq<string>): map<string, Bytes> {
    map k | k in data && k !in keys :: data[k]
  }

  lemma DeleteAllSnoc(data: map<string, Bytes>, keys: seq<string>, key: string)
    ensures DeleteAll(data, keys + [key]) == DeleteAll(data, keys) - {key}
  {
  }

  function ValueOf(data: map<string, Bytes>, key: string): Value {
    if key in data then Present(data[key]) else Absent
  }

  function ValuesOf(data: map<string, Bytes>, keys: seq<string>): seq<Value> {
    seq(|keys|, i requires 0 <= i < |keys| => ValueOf(data, keys[i]))
  }

  lemma {:induction false} PutAllSnoc(data: map<string, Bytes>, pairs: seq<Pair>, p: Pair)
    ensures PutAll(data, pairs + [p]) == PutAll(data, pairs)[p.key := p.value]
    decreases |pairs|
  {
    if pairs == [] {
      assert pairs + [p] == [p];
    } else {
      assert (pairs + [p])[1..] == pairs[1..] + [p];
      PutAllSnoc(data[pairs[0].key := pairs[0].value], pairs[1..], p);
    }
  }

  /** Putting pairs on top of stored data merges the two. */
  lemma {:induction false} PutAllMerges(data: map<string, Bytes>, pairs: seq<Pair>)
    ensures PutAll(data, pairs) == data + PutAll(map[], pairs)
    decreases |pairs|
  {
    if pairs != [] {
      var init, last := pairs[..|pairs| - 1], pairs[|pairs| - 1];
      assert pairs == init + [last];
      PutAllSnoc(data, init, last);
      PutAllSnoc(map[], init, last);
      PutAllMerges(data, init);
    }
  }

  /** The value of the last pair for `key`, if one is listed. */
  function LastFor(pairs: seq<Pair>, key: string): Option<Bytes> {
    if pairs == [] then None
    else if pairs[|pairs| - 1].key == key then Some(pairs[|pairs| - 1].value)
    else LastFor(pairs[..|pairs| - 1], key)
  }

  /** Reading a key after a put: the last pair for it wins, and a key that is not listed is untouched. */
  lemma {:induction false} GetAfterPut(data: map<string, Bytes>, pairs: seq<Pair>, key: string)
    ensures ValueOf(PutAll(data, pairs), key)
         == match LastFor(pairs, key)
            case Some(v) => Present(v)
            case None => ValueOf(data, key)
  {
    if pairs != [] {
      var init, last := pairs[..|pairs| - 1], pairs[|pairs| - 1];
      assert pairs == init + [last];
      PutAllSnoc(data, init, last);
      GetAfterPut(data, init, key);
    }
  }

  // ---------------------------------------------------------------- lists of sessions

  /** The first session stored under `token`. */
  function Lookup(s: seq<Session>, token: string): (r: Option<Session>)
    ensures r.Some? ==> r.value in s && r.value.access == token
    ensures r == None <==> forall i :: 0 <= i < |s| ==> s[i].access != token
  {
    if s == [] then None
    else if s[0].access == token then Some(s[0])
    else Lookup(s[1..], token)
  }

  /** The access tokens of the list. */
  function Accesses(s: seq<Session>): set<string> {
    if s == [] then {} else {s[0].access} + Accesses(s[1..])
  }

  function Without(s: seq<Session>, token: string): seq<Session> {
    if s == [] then []
    else (if s[0].access == token then [] else [s[0]]) + Without(s[1..], token)
  }

  function WithoutId(s: seq<Session>, id: string): seq<Session> {
    if s == [] then []
    else (if s[0].id == id then [] else [s[0]]) + WithoutId(s[1..], id)
  }

  /** The sessions that are not dead at `t`, in order. */
  function Live(s: seq<Session>, t: int): seq<Session> {
    if s == [] then []
    else (if s[0].Dead(t) then [] else [s[0]]) + Live(s[1..], t)
  }

  /** What cleaning does: some of the dead are dropped, by token. */
  function DropDead(s: seq<Session>, victims: set<string>, t: int): seq<Session> {
    if s == [] then []
    else (if s[0].access in victims && s[0].Dead(t) then [] else [s[0]]) + DropDead(s[1..], victims, t)
  }

  function SetData(s: seq<Session>, token: string, data: map<string, Bytes>): seq<Session> {
    if s == [] then []
    else [if s[0].access == token then s[0].(data := data) else s[0]] + SetData(s[1..], token, data)
  }

  ghost predicate Distinct(s: seq<Session>) {
    forall i, j :: 0 <= i < j < |s| ==> s[i].access != s[j].access
  }

  ghost predicate Sorted(s: seq<Session>) {
    forall i, j :: 0 <= i < j < |s| ==> s[i].refreshDeadline <= s[j].refreshDeadline
  }

  /** No stored deadline is later than that of a session stamped at `stamp`. */
  ghost predicate StampedBy(cfg: Config, s: seq<Session>, stamp: int) {
    forall i :: 0 <= i < |s| ==> s[i].refreshDeadline <= stamp + cfg.refresh
  }

  ghost predicate WithinCap(cfg: Config, s: seq<Session>) {
    cfg.maxSize > 0 ==> |s| <= cfg.maxSize
  }

  /** What every call keeps, whatever order stamps are taken in. */
  ghost predicate Kept(cfg: Config, s: seq<Session>) {
    Distinct(s) && WithinCap(cfg, s)
  }

  /** What a store keeps when stamps are taken in list order. */
  ghost predicate Ordered(cfg: Config, s: seq<Session>, stamp: int) {
    Kept(cfg, s) && Sorted(s) && StampedBy(cfg, s, stamp)
  }

  /** A session is stored under `token` and past its refresh deadline. */
  predicate DeadAt(s: seq<Session>, token: string, t: int) {
    Lookup(s, token).Some? && Lookup(s, token).value.Dead(t)
  }

  /** What a pass of `unsafeCheck` over `batch` that lasts from `start` to `end` removes. */
  ghost predicate BatchOutcome(s: seq<Session>, batch: set<string>, victims: seq<string>, start: int, end: int) {
    && (forall token :: token in victims ==> token in batch && DeadAt(s, token, end))
    && (forall token :: token in batch && token !in victims ==> !DeadAt(s, token, start))
  }

  /** How far `unsafeClear` gets by `end`: through dead sessions, up to one that is not dead at its last reading. */
  ghost predicate TickOutcome(s: seq<Session>, n: nat, end: int) {
    && n <= |s|
    && (forall i :: 0 <= i < n ==> s[i].Dead(end))
    && (n < |s| ==> !s[n].Dead(end))
  }

  // ---------------------------------------------------------------- membership

  lemma {:induction false} WithoutMembers(s: seq<Session>, token: string)
    ensures forall x :: x in Without(s, token) <==> x in s && x.access != token
  {
    if s != [] {
      assert s == [s[0]] + s[1..];
      WithoutMembers(s[1..], token);
    }
  }

  lemma {:induction false} WithoutIdMembers(s: seq<Session>, id: string)
    ensures forall x :: x in WithoutId(s, id) <==> x in s && x.id != id
  {
    if s != [] {
      assert s == [s[0]] + s[1..];
      WithoutIdMembers(s[1..], id);
    }
  }

  lemma {:induction false} LiveMembers(s: seq<Session>, t: int)
    ensures forall x :: x in Live(s, t) <==> x in s && !x.Dead(t)
  {
    if s != [] {
      assert s == [s[0]] + s[1..];
      LiveMembers(s[1..], t);
    }
  }

  lemma {:induction false} DropDeadMembers(s: seq<Session>, victims: set<string>, t: int)
    ensures forall x :: x in DropDead(s, victims, t) <==> x in s && !(x.access in victims && x.Dead(t))
  {
    if s != [] {
      assert s == [s[0]] + s[1..];
      DropDeadMembers(s[1..], victims, t);
    }
  }

  lemma {:induction false} AccessesWithout(s: seq<Session>, token: string)
    ensures Accesses(Without(s, token)) == Accesses(s) - {token}
  {
    if s != [] {
      AccessesWithout(s[1..], token);
      if s[0].access != token {
        assert Without(s, token)[1..] == Without(s[1..], token);
      } else {
        assert Without(s, token) == Without(s[1..], token);
      }
    }
  }

  lemma {:induction false} AccessesAppend(s: seq<Session>, x: Session)
    ensures Accesses(s + [x]) == Accesses(s) + {x.access}
  {
    if s == [] {
      assert s + [x] == [x];
    } else {
      assert (s + [x])[1..] == s[1..] + [x];
      AccessesAppend(s[1..], x);
    }
  }

  lemma {:induction false} AccessesSetData(s: seq<Session>, token: string, data: map<string, Bytes>)
    ensures Accesses(SetData(s, token, data)) == Accesses(s)
  {
    if s != [] {
      AccessesSetData(s[1..], token, data);
      assert SetData(s, token, data)[1..] == SetData(s[1..], token, data);
    }
  }

  /** One token a session. */
  lemma {:induction false} AccessesSize(s: seq<Session>)
    requires Distinct(s)
    ensures |Accesses(s)| == |s|
  {
    if s != [] {
      AccessesSize(s[1..]);
      AccessesLookup(s[1..], s[0].access);
    }
  }

  lemma {:induction false} AccessesLookup(s: seq<Session>, token: string)
    ensures token in Accesses(s) <==> Lookup(s, token).Some?
  {
    if s != [] {
      AccessesLookup(s[1..], token);
    }
  }

  lemma {:induction false} WithoutNone(s: seq<Session>, token: string)
    requires Lookup(s, token) == None
    ensures Without(s, token) == s
  {
    if s != [] {
      assert s[0].access != token;
      WithoutNone(s[1..], token);
    }
  }

  lemma {:induction false} LookupAt(s: seq<Session>, i: nat)
    requires i < |s| && Distinct(s)
    ensures Lookup(s, s[i].access) == Some(s[i])
  {
    if i > 0 {
      LookupAt(s[1..], i - 1);
    }
  }

  lemma {:induction false} WithoutConcat(a: seq<Session>, b: seq<Session>, token: string)
    ensures Without(a + b, token) == Without(a, token) + Without(b, token)
  {
    if a == [] {
      assert a + b == b;
    } else {
      assert (a + b)[1..] == a[1..] + b;
      WithoutConcat(a[1..], b, token);
    }
  }

  lemma OthersDiffer(s: seq<Session>, i: nat)
    requires i < |s| && Distinct(s)
    ensures Lookup(s[..i], s[i].access) == None && Lookup(s[i + 1..], s[i].access) == None
  {
    hide Lookup;
    var a, b := s[..i], s[i + 1..];
    assert forall j :: 0 <= j < |a| ==> a[j] == s[j];
    assert forall j :: 0 <= j < |b| ==> b[j] == s[i + 1 + j];
  }

  lemma CutOut(a: seq<Session>, x: Session, b: seq<Session>)
    requires Lookup(a, x.access) == None && Lookup(b, x.access) == None
    ensures Without(a + ([x] + b), x.access) == a + b
  {
    hide Without, Lookup;
    WithoutConcat(a, [x] + b, x.access);
    WithoutCons(x, b, x.access);
    WithoutNone(a, x.access);
    WithoutNone(b, x.access);
    assert [] + b == b;
  }

  /** In a list without repeated tokens, dropping a token is cutting out its one position. */
  lemma WithoutAt(s: seq<Session>, i: nat)
    requires i < |s| && Distinct(s)
    ensures Without(s, s[i].access) == s[..i] + s[i + 1..]
    ensures Lookup(s, s[i].access) == Some(s[i])
  {
    hide Without, Lookup, Distinct;
    LookupAt(s, i);
    OthersDiffer(s, i);
    CutOut(s[..i], s[i], s[i + 1..]);
    assert s == s[..i] + ([s[i]] + s[i + 1..]);
  }

  lemma PositionOf(s: seq<Session>, token: string) returns (i: nat)
    requires Lookup(s, token).Some?
    ensures i < |s| && s[i] == Lookup(s, token).value
  {
    i :| 0 <= i < |s| && s[i] == Lookup(s, token).value;
  }

  lemma {:induction false} LookupAppend(s: seq<Session>, x: Session, token: string)
    ensures Lookup(s + [x], token)
         == if Lookup(s, token).Some? then Lookup(s, token) else if x.access == token then Some(x) else None
  {
    if s == [] {
      assert s + [x] == [x];
    } else {
      assert (s + [x])[1..] == s[1..] + [x];
      LookupAppend(s[1..], x, token);
    }
  }

  lemma {:induction false} LookupWithout(s: seq<Session>, gone: string, token: string)
    ensures Lookup(Without(s, gone), token) == if token == gone then None else Lookup(s, token)
  {
    if s != [] {
      LookupWithout(s[1..], gone, token);
      var rest := Without(s[1..], gone);
      if s[0].access == gone {
        assert Without(s, gone) == rest;
      } else {
        assert Without(s, gone)[1..] == rest;
      }
    }
  }

  lemma {:induction false} LookupSetData(s: seq<Session>, token: string, data: map<string, Bytes>, other: string)
    ensures Lookup(SetData(s, token, data), other)
         == match Lookup(s, other)
            case None => None
            case Some(x) => Some(if other == token then x.(data := data) else x)
  {
    if s != [] {
      assert SetData(s, token, data)[1..] == SetData(s[1..], token, data);
      LookupSetData(s[1..], token, data, other);
    }
  }

  lemma {:induction false} SetDataAt(s: seq<Session>, token: string, data: map<string, Bytes>)
    ensures |SetData(s, token, data)| == |s|
    ensures forall i :: 0 <= i < |s| ==>
      SetData(s, token, data)[i] == if s[i].access == token then s[i].(data := data) else s[i]
  {
    if s != [] {
      SetDataAt(s[1..], token, data);
    }
  }

  // ---------------------------------------------------------------- removal keeps tokens apart and the length

  lemma {:induction false} WithoutSize(s: seq<Session>, token: string)
    ensures |Without(s, token)| <= |s|
  {
    if s != [] {
      WithoutSize(s[1..], token);
    }
  }

  lemma WithoutDistinct(s: seq<Session>, token: string)
    requires Distinct(s)
    ensures Distinct(Without(s, token))
    ensures |Without(s, token)| == |s| - (if Lookup(s, token).Some? then 1 else 0)
  {
    hide Without, Lookup;
    if Lookup(s, token).Some? {
      var i := PositionOf(s, token);
      WithoutAt(s, i);
    } else {
      WithoutNone(s, token);
    }
  }

  lemma WithoutKept(cfg: Config, s: seq<Session>, token: string)
    requires Kept(cfg, s)
    ensures Kept(cfg, Without(s, token))
    ensures |Without(s, token)| == |s| - (if Lookup(s, token).Some? then 1 else 0)
  {
    hide Without, Lookup, Distinct;
    WithoutDistinct(s, token);
  }

  lemma {:induction false} WithoutIdSize(s: seq<Session>, id: string)
    ensures |WithoutId(s, id)| <= |s|
  {
    if s != [] {
      WithoutIdSize(s[1..], id);
    }
  }

  lemma WithoutIdKept(cfg: Config, s: seq<Session>, id: string)
    requires Kept(cfg, s)
    ensures Kept(cfg, WithoutId(s, id))
  {
    hide WithoutId;
    WithoutIdDistinct(s, id);
    WithoutIdSize(s, id);
  }

  lemma {:induction false} DropDeadKept(cfg: Config, s: seq<Session>, victims: set<string>, t: int)
    requires Kept(cfg, s)
    ensures Kept(cfg, DropDead(s, victims, t)) && |DropDead(s, victims, t)| <= |s|
  {
    if s != [] {
      DropDeadKept(cfg, s[1..], victims, t);
      DropDeadMembers(s[1..], victims, t);
    }
  }

  lemma SetDataKept(cfg: Config, s: seq<Session>, token: string, data: map<string, Bytes>)
    requires Kept(cfg, s)
    ensures Kept(cfg, SetData(s, token, data))
  {
    SetDataAt(s, token, data);
  }

  lemma AppendKept(cfg: Config, s: seq<Session>, x: Session)
    requires Kept(cfg, s) && Lookup(s, x.access) == None
    requires cfg.maxSize > 0 ==> |s| < cfg.maxSize
    ensures Kept(cfg, s + [x])
  {
  }

  // ---------------------------------------------------------------- removal keeps the order

  lemma {:induction false} WithoutOrdered(cfg: Config, s: seq<Session>, token: string, stamp: int)
    requires Ordered(cfg, s, stamp)
    ensures Ordered(cfg, Without(s, token), stamp)
    ensures |Without(s, token)| == |s| - (if Lookup(s, token).Some? then 1 else 0)
  {
    hide Without, Lookup;
    if Lookup(s, token).Some? {
      var i := PositionOf(s, token);
      WithoutAt(s, i);
    } else {
      WithoutNone(s, token);
    }
  }

  /** A session in front of a later part of an ordered list. */
  lemma ConsOrdered(cfg: Config, s: seq<Session>, rest: seq<Session>, stamp: int)
    requires s != [] && Ordered(cfg, s, stamp) && |rest| < |s|
    requires Ordered(cfg, rest, stamp) && forall y :: y in rest ==> y in s[1..]
    ensures Ordered(cfg, [s[0]] + rest, stamp)
  {
    forall j | 0 <= j < |rest|
      ensures s[0].access != rest[j].access && s[0].refreshDeadline <= rest[j].refreshDeadline
    {
      assert rest[j] in s[1..];
      var i :| 0 <= i < |s[1..]| && s[1..][i] == rest[j];
      assert s[i + 1] == rest[j];
    }
  }

  lemma {:induction false} WithoutIdOrdered(cfg: Config, s: seq<Session>, id: string, stamp: int)
    requires Ordered(cfg, s, stamp)
    ensures Ordered(cfg, WithoutId(s, id), stamp)
    ensures |WithoutId(s, id)| <= |s|
  {
    hide Ordered;
    if s != [] {
      TailOrdered(cfg, s, stamp);
      WithoutIdOrdered(cfg, s[1..], id, stamp);
      WithoutIdMembers(s[1..], id);
      if s[0].id == id {
        assert WithoutId(s, id) == WithoutId(s[1..], id);
      } else {
        ConsOrdered(cfg, s, WithoutId(s[1..], id), stamp);
      }
    }
  }

  lemma TailOrdered(cfg: Config, s: seq<Session>, stamp: int)
    requires s != [] && Ordered(cfg, s, stamp)
    ensures Ordered(cfg, s[1..], stamp)
  {
  }

  lemma {:induction false} DropDeadOrdered(cfg: Config, s: seq<Session>, victims: set<string>, t: int, stamp: int)
    requires Ordered(cfg, s, stamp)
    ensures Ordered(cfg, DropDead(s, victims, t), stamp)
    ensures |DropDead(s, victims, t)| <= |s|
  {
    hide Ordered;
    if s != [] {
      TailOrdered(cfg, s, stamp);
      DropDeadOrdered(cfg, s[1..], victims, t, stamp);
      DropDeadMembers(s[1..], victims, t);
      if s[0].access in victims && s[0].Dead(t) {
        assert DropDead(s, victims, t) == DropDead(s[1..], victims, t);
      } else {
        ConsOrdered(cfg, s, DropDead(s[1..], victims, t), stamp);
      }
    }
  }

  lemma SetDataOrdered(cfg: Config, s: seq<Session>, token: string, data: map<string, Bytes>, stamp: int)
    requires Ordered(cfg, s, stamp)
    ensures Ordered(cfg, SetData(s, token, data), stamp)
  {
    SetDataAt(s, token, data);
  }

  lemma AppendOrdered(cfg: Config, s: seq<Session>, x: Session, before: int, stamp: int)
    requires Ordered(cfg, s, before) && before <= stamp
    requires Lookup(s, x.access) == None
    requires x.refreshDeadline == stamp + cfg.refresh
    requires cfg.maxSize > 0 ==> |s| < cfg.maxSize
    ensures Ordered(cfg, s + [x], stamp)
  {
  }

  // ---------------------------------------------------------------- the live part commutes with every edit

  lemma {:induction false} LiveLive(s: seq<Session>, t: int, u: int)
    requires t <= u
    ensures Live(Live(s, t), u) == Live(s, u)
  {
    if s != [] {
      LiveLive(s[1..], t, u);
      if !s[0].Dead(t) {
        assert Live(s, t)[1..] == Live(s[1..], t);
      } else {
        assert Live(s, t) == Live(s[1..], t);
      }
    }
  }

  lemma {:induction false} LiveWithout(s: seq<Session>, token: string, t: int)
    ensures Live(Without(s, token), t) == Without(Live(s, t), token)
  {
    if s != [] {
      LiveWithout(s[1..], token, t);
      LiveCons(s[0], Without(s[1..], token), t);
      WithoutCons(s[0], Live(s[1..], t), token);
      assert Without(s, token) == (if s[0].access == token then [] else [s[0]]) + Without(s[1..], token);
      assert s[0].access == token ==> Without(s, token) == Without(s[1..], token);
      assert s[0].Dead(t) ==> Live(s, t) == Live(s[1..], t);
    }
  }

  lemma LiveCons(x: Session, s: seq<Session>, t: int)
    ensures Live([x] + s, t) == (if x.Dead(t) then [] else [x]) + Live(s, t)
  {
    assert ([x] + s)[1..] == s;
  }

  lemma WithoutCons(x: Session, s: seq<Session>, token: string)
    ensures Without([x] + s, token) == (if x.access == token then [] else [x]) + Without(s, token)
  {
    assert ([x] + s)[1..] == s;
  }

  lemma {:induction false} LiveWithoutId(s: seq<Session>, id: string, t: int)
    ensures Live(WithoutId(s, id), t) == WithoutId(Live(s, t), id)
  {
    if s != [] {
      LiveWithoutId(s[1..], id, t);
      LiveCons(s[0], WithoutId(s[1..], id), t);
      assert ([s[0]] + Live(s[1..], t))[1..] == Live(s[1..], t);
      assert s[0].id == id ==> WithoutId(s, id) == WithoutId(s[1..], id);
      assert s[0].Dead(t) ==> Live(s, t) == Live(s[1..], t);
    }
  }

  lemma {:induction false} LiveSetData(s: seq<Session>, token: string, data: map<string, Bytes>, t: int)
    ensures Live(SetData(s, token, data), t) == SetData(Live(s, t), token, data)
  {
    if s != [] {
      LiveSetData(s[1..], token, data, t);
      var x := if s[0].access == token then s[0].(data := data) else s[0];
      LiveCons(x, SetData(s[1..], token, data), t);
      assert ([s[0]] + Live(s[1..], t))[1..] == Live(s[1..], t);
      assert s[0].Dead(t) ==> Live(s, t) == Live(s[1..], t);
    }
  }

  lemma {:induction false} LiveAppend(s: seq<Session>, x: Session, t: int)
    ensures Live(s + [x], t) == Live(s, t) + Live([x], t)
  {
    if s == [] {
      assert s + [x] == [x];
    } else {
      assert (s + [x])[1..] == s[1..] + [x];
      LiveAppend(s[1..], x, t);
    }
  }

  lemma {:induction false} LiveDropDead(s: seq<Session>, victims: set<string>, now: int, t: int)
    requires now <= t
    ensures Live(DropDead(s, victims, now), t) == Live(s, t)
  {
    if s != [] {
      LiveDropDead(s[1..], victims, now, t);
      LiveCons(s[0], DropDead(s[1..], victims, now), t);
      assert s[0].access in victims && s[0].Dead(now) ==> DropDead(s, victims, now) == DropDead(s[1..], victims, now);
    }
  }

  lemma {:induction false} LiveLookup(s: seq<Session>, token: string, t: int)
    requires Distinct(s)
    ensures Lookup(Live(s, t), token)
         == match Lookup(s, token)
            case None => None
            case Some(x) => if x.Dead(t) then None else Some(x)
  {
    if s != [] {
      LiveLookup(s[1..], token, t);
      assert s[0].access == token ==> Lookup(s[1..], token) == None;
      if s[0].Dead(t) {
        assert Live(s, t) == Live(s[1..], t);
      } else {
        assert Live(s, t)[1..] == Live(s[1..], t);
      }
    }
  }

  lemma {:induction false} LiveSize(s: seq<Session>, t: int)
    ensures |Live(s, t)| <= |s|
    ensures |Live(s, t)| == |s| ==> Live(s, t) == s
    ensures s != [] && s[0].Dead(t) ==> |Live(s, t)| < |s| && Live(s[1..], t) == Live(s, t)
  {
    if s != [] {
      LiveSize(s[1..], t);
      assert s == [s[0]] + s[1..];
      assert s[0].Dead(t) ==> Live(s, t) == Live(s[1..], t);
    }
  }

  /** In a list sorted by deadline, a live front means every session is live. */
  lemma {:induction false} LiveFront(s: seq<Session>, t: int)
    requires Sorted(s) && (s != [] ==> !s[0].Dead(t))
    ensures Live(s, t) == s
  {
    if s != [] {
      LiveFront(s[1..], t);
      assert s == [s[0]] + s[1..];
    }
  }

  /** A prefix of dead sessions before a live one is exactly what has to go, when the list is sorted. */
  lemma {:induction false} LiveDeadPrefix(s: seq<Session>, n: nat, t: int)
    requires Sorted(s) && n <= |s|
    requires forall i :: 0 <= i < n ==> s[i].Dead(t)
    requires n < |s| ==> !s[n].Dead(t)
    ensures Live(s, t) == s[n..]
  {
    if n == 0 {
      LiveFront(s, t);
    } else {
      LiveDeadPrefix(s[1..], n - 1, t);
      assert s[1..][n - 1..] == s[n..];
    }
  }

  lemma {:induction false} DropDeadNone(s: seq<Session>, victims: set<string>, t: int)
    requires forall i :: 0 <= i < |s| ==> s[i].access !in victims
    ensures DropDead(s, victims, t) == s
  {
    if s != [] {
      DropDeadNone(s[1..], victims, t);
    }
  }

  /** Dropping a dead prefix by its tokens cuts the prefix off. */
  lemma {:induction false} DropDeadPrefix(s: seq<Session>, n: nat, victims: set<string>, t: int)
    requires Distinct(s) && n <= |s|
    requires forall i :: 0 <= i < n ==> s[i].Dead(t) && s[i].access in victims
    requires forall i :: n <= i < |s| ==> s[i].access !in victims
    ensures DropDead(s, victims, t) == s[n..]
  {
    if n == 0 {
      DropDeadNone(s, victims, t);
    } else {
      DropDeadPrefix(s[1..], n - 1, victims, t);
      assert s[1..][n - 1..] == s[n..];
    }
  }

  lemma {:induction false} WithoutIdDistinct(s: seq<Session>, id: string)
    requires Distinct(s)
    ensures Distinct(WithoutId(s, id))
  {
    if s != [] {
      WithoutIdDistinct(s[1..], id);
      WithoutIdMembers(s[1..], id);
    }
  }

  lemma {:induction false} LookupWithoutId(s: seq<Session>, id: string, token: string)
    requires Distinct(s)
    ensures Lookup(WithoutId(s, id), token)
         == match Lookup(s, token)
            case None => None
            case Some(x) => if x.id == id then None else Some(x)
  {
    if s != [] {
      LookupWithoutId(s[1..], id, token);
      assert s[0].access == token ==> Lookup(s[1..], token) == None;
      if s[0].id == id {
        assert WithoutId(s, id) == WithoutId(s[1..], id);
      } else {
        assert WithoutId(s, id)[1..] == WithoutId(s[1..], id);
      }
    }
  }
}
