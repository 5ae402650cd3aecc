/** The provider contract twice: as the back ends run it, keeping dead sessions until something cleans
    them, and as a client should see it, with a session gone the instant it dies. */
module Store {
  import opened Basics
  import opened Sessions
  import Tokens

  /** A client call. `stamp` and `checked` are the clock readings Create takes before the lock. */
  datatype Op =
    | Create(access: string, refresh: string, pairs: seq<Pair>, stamp: int, checked: int)
    | Destroy(id: string)
    | DestroyByToken(token: string)
    | Check(token: string)
    | Put(token: string, pairs: seq<Pair>)
    | Get(token: string, keys: seq<string>)
    | Keys(token: string)
    | Delete(token: string, keys: seq<string>)
    | Refresh(access: string, refresh: string, newAccess: string, newRefresh: string)
    | Close

  datatype Reply =
    | Done
    | Failed(error: Error)
    | Values(vals: seq<Value>)
    | KeySet(keys: set<string>)

  /** The reply of a call that returns nothing but an error. */
  function ReplyOf(e: Option<Error>): Reply {
    match e
    case None => Done
    case Some(err) => Failed(err)
  }

  datatype State = Open(sessions: seq<Session>) | Closed

  datatype Outcome = Outcome(state: State, reply: Reply)

  function CheckToken(token: string): Option<Error> {
    match Tokens.Split(token)
    case Err(e) => Some(e)
    case Ok(_) => None
  }

  function CheckId(id: string, tokens: seq<string>): Option<Error> {
    if tokens == [] then None
    else
      match Tokens.Split(tokens[0])
      case Err(e) => Some(e)
      case Ok(p) => if p.id != id then Some(TokenIDNotMatched) else CheckId(id, tokens[1..])
  }

  /** The errors found before the lock is taken. */
  function Reject(op: Op): Option<Error> {
    match op
    case Create(access, refresh, _, _, _) =>
      if CheckToken(access).Some? then CheckToken(access) else CheckToken(refresh)
    case Destroy(_) => None
    case Close => None
    case Refresh(access, refresh, newAccess, newRefresh) =>
      (match Tokens.Split(access)
       case Err(e) => Some(e)
       case Ok(p) => CheckId(p.id, [refresh, newAccess, newRefresh]))
    case _ => CheckToken(op.token)
  }

  /** A refresh that passes the checks before the lock names tokens of one id. */
  lemma AcceptedIds(op: Op)
    requires op.Refresh? && Reject(op) == None
    ensures IdOf(op.newAccess) == IdOf(op.access)
  {
    hide Tokens.Split;
    var tokens := [op.refresh, op.newAccess, op.newRefresh];
    assert tokens[1..] == [op.newAccess, op.newRefresh];
    assert CheckId(IdOf(op.access), tokens) == None;
  }

  function IdOf(token: string): string {
    match Tokens.Split(token)
    case Ok(p) => p.id
    case Err(_) => []
  }

  lemma SplitsAs(letter: char, last: char)
    requires letter != '.' && last != '.'
    ensures CheckToken(['u', '.', letter, '.', last]) == None && IdOf(['u', '.', letter, '.', last]) == "u"
  {
    var p := Tokens.Parts("u", [letter], [last]);
    Tokens.JoinThree(p);
    Tokens.SplitAfterJoin(p);
    assert Tokens.JoinParts(p) == ['u', '.', letter, '.', last];
  }

  /** The session a Create call builds before it takes the lock. */
  function Created(cfg: Config, op: Op): Session
    requires op.Create?
  {
    Make(cfg, IdOf(op.access), op.access, op.refresh, op.pairs, op.stamp)
  }

  /** Create's lock section: replace a session of the same token, make room at the cap, append. */
  function Insert(cfg: Config, s: seq<Session>, x: Session): seq<Session> {
    var others := Without(s, x.access);
    (if cfg.maxSize > 0 && |others| >= cfg.maxSize then others[1..] else others) + [x]
  }

  // ---------------------------------------------------------------- as the back ends run it

  /** What a token is good for, given that dead sessions may still be stored. */
  function LazyStatus(s: seq<Session>, token: string, now: int, later: int): Option<Error> {
    match Lookup(s, token)
    case None => Some(TokenNotExists)
    case Some(x) =>
      if x.Dead(now) then Some(TokenNotExists)
      else if x.Expired(later) then Some(TokenExpired)
      else None
  }

  /** A writer that meets a dead session removes it. */
  function Touch(s: seq<Session>, token: string, now: int): seq<Session> {
    match Lookup(s, token)
    case Some(x) => if x.Dead(now) then Without(s, token) else s
    case None => s
  }

  function LazyAct(cfg: Config, s: seq<Session>, op: Op, now: int, later: int): Outcome {
    match op
    case Create(_, _, _, _, _) => Outcome(Open(Insert(cfg, s, Created(cfg, op))), Done)
    case Destroy(id) => Outcome(Open(WithoutId(s, id)), Done)
    case DestroyByToken(token) => Outcome(Open(Without(s, token)), Done)
    case Check(token) =>
      (match LazyStatus(s, token, now, later)
       case Some(e) => Outcome(Open(s), Failed(e))
       case None => Outcome(Open(s), Done))
    case Put(token, pairs) =>
      (match LazyStatus(s, token, now, later)
       case Some(e) => Outcome(Open(Touch(s, token, now)), Failed(e))
       case None =>
         var data := Lookup(s, token).value.data;
         Outcome(Open(SetData(s, token, PutAll(data, pairs))), Done))
    case Get(token, keys) =>
      (match LazyStatus(s, token, now, later)
       case Some(e) => Outcome(Open(s), Failed(e))
       case None => Outcome(Open(s), Values(ValuesOf(Lookup(s, token).value.data, keys))))
    case Keys(token) =>
      (match LazyStatus(s, token, now, later)
       case Some(e) => Outcome(Open(s), Failed(e))
       case None => Outcome(Open(s), KeySet(Lookup(s, token).value.data.Keys)))
    case Delete(token, keys) =>
      (match LazyStatus(s, token, now, later)
       case Some(e) => Outcome(Open(Touch(s, token, now)), Failed(e))
       case None =>
         var data := Lookup(s, token).value.data;
         Outcome(Open(SetData(s, token, DeleteAll(data, keys))), Done))
    case Refresh(access, refresh, newAccess, newRefresh) =>
      (match Lookup(s, access)
       case None => Outcome(Open(s), Failed(TokenNotExists))
       case Some(x) =>
         if x.Dead(now) then Outcome(Open(Without(s, access)), Failed(TokenNotExists))
         else if x.refresh != refresh then Outcome(Open(s), Failed(RefreshTokenNotMatched))
         else Outcome(Open(Without(s, access) + [Rotate(cfg, x, newAccess, newRefresh, later)]), Done))
    case Close => Outcome(Closed, Done)
  }

  /** One call on a back end. `now` and `later` are the first and second clock readings under the lock. */
  function LazyStep(cfg: Config, st: State, op: Op, now: int, later: int): Outcome {
    if Reject(op).Some? then Outcome(st, Failed(Reject(op).value))
    else if op.Create? && Created(cfg, op).Dead(op.checked) then Outcome(st, Done)
    else if st.Closed? then Outcome(st, Failed(ProviderClosed))
    else LazyAct(cfg, st.sessions, op, now, later)
  }

  /** A reader hands a token to the worker when it found the session stored but dead. */
  predicate Posts(st: State, token: string, now: int) {
    CheckToken(token) == None && st.Open?
    && match Lookup(st.sessions, token)
       case None => false
       case Some(x) => x.Dead(now)
  }

  // ---------------------------------------------------------------- as a client should see it

  function EagerStatus(s: seq<Session>, token: string, later: int): Option<Error> {
    match Lookup(s, token)
    case None => Some(TokenNotExists)
    case Some(x) => if x.Expired(later) then Some(TokenExpired) else None
  }

  /** A call on a store of live sessions only: no deadness test, nothing to clean. */
  function EagerAct(cfg: Config, s: seq<Session>, op: Op, later: int): Outcome {
    match op
    case Create(_, _, _, _, _) => Outcome(Open(Insert(cfg, s, Created(cfg, op))), Done)
    case Destroy(id) => Outcome(Open(WithoutId(s, id)), Done)
    case DestroyByToken(token) => Outcome(Open(Without(s, token)), Done)
    case Refresh(access, refresh, newAccess, newRefresh) =>
      (match Lookup(s, access)
       case None => Outcome(Open(s), Failed(TokenNotExists))
       case Some(x) =>
         if x.refresh != refresh then Outcome(Open(s), Failed(RefreshTokenNotMatched))
         else Outcome(Open(Without(s, access) + [Rotate(cfg, x, newAccess, newRefresh, later)]), Done))
    case Close => Outcome(Closed, Done)
    case _ =>
      match EagerStatus(s, op.token, later)
      case Some(e) => Outcome(Open(s), Failed(e))
      case None =>
        var data := Lookup(s, op.token).value.data;
        match op
        case Put(token, pairs) => Outcome(Open(SetData(s, token, PutAll(data, pairs))), Done)
        case Get(_, keys) => Outcome(Open(s), Values(ValuesOf(data, keys)))
        case Keys(_) => Outcome(Open(s), KeySet(data.Keys))
        case Delete(token, keys) => Outcome(Open(SetData(s, token, DeleteAll(data, keys))), Done)
        case _ => Outcome(Open(s), Done)
  }

  /** One call as a client should see it: what died by `now` is already gone. */
  function EagerStep(cfg: Config, st: State, op: Op, now: int, later: int): Outcome {
    if Reject(op).Some? then Outcome(st, Failed(Reject(op).value))
    else if op.Create? && Created(cfg, op).Dead(op.checked) then Outcome(st, Done)
    else if st.Closed? then Outcome(st, Failed(ProviderClosed))
    else EagerAct(cfg, Live(st.sessions, now), op, later)
  }

  // ---------------------------------------------------------------- invariant of one call

  /** The call is a Refresh that will succeed on `s`. */
  predicate Rotates(s: seq<Session>, op: Op, now: int) {
    op.Refresh? && match Lookup(s, op.access)
                   case None => false
                   case Some(x) => !x.Dead(now) && x.refresh == op.refresh
  }

  /** A refresh is clean when its new access token is unused, or is the one it replaces. */
  predicate FreshTarget(s: seq<Session>, op: Op) {
    op.Refresh? ==> op.newAccess == op.access || Lookup(s, op.newAccess) == None
  }

  /** The stamp a call writes, if it writes one. */
  function StampOf(op: Op, later: int): Option<int> {
    match op
    case Create(_, _, _, stamp, _) => Some(stamp)
    case Refresh(_, _, _, _) => Some(later)
    case _ => None
  }

  function NextStamp(op: Op, later: int, stamp: int): int {
    match StampOf(op, later)
    case Some(t) => t
    case None => stamp
  }

  ghost predicate StateOrdered(cfg: Config, st: State, stamp: int) {
    st.Open? ==> Ordered(cfg, st.sessions, stamp)
  }

  ghost predicate StateKept(cfg: Config, st: State) {
    st.Open? ==> Kept(cfg, st.sessions)
  }

  lemma InsertKept(cfg: Config, s: seq<Session>, x: Session)
    requires Kept(cfg, s)
    ensures Kept(cfg, Insert(cfg, s, x))
  {
    hide Without, Lookup;
    var others := Without(s, x.access);
    WithoutKept(cfg, s, x.access);
    LookupWithout(s, x.access, x.access);
    if cfg.maxSize > 0 && |others| >= cfg.maxSize {
      assert forall y :: y in others[1..] ==> y in others;
      AppendKept(cfg, others[1..], x);
    } else {
      AppendKept(cfg, others, x);
    }
  }

  lemma RefreshKept(cfg: Config, s: seq<Session>, op: Op, now: int, later: int)
    requires Kept(cfg, s) && op.Refresh? && (Rotates(s, op, now) ==> FreshTarget(s, op))
    ensures StateKept(cfg, LazyAct(cfg, s, op, now, later).state)
  {
    hide Without, Lookup;
    WithoutKept(cfg, s, op.access);
    if Rotates(s, op, now) {
      LookupWithout(s, op.access, op.newAccess);
      AppendKept(cfg, Without(s, op.access),
                 Rotate(cfg, Lookup(s, op.access).value, op.newAccess, op.newRefresh, later));
    }
  }

  /** Whatever order stamps are taken in: with clean refreshes, every call keeps tokens distinct and the length
      within the cap. */
  lemma StepKept(cfg: Config, st: State, op: Op, now: int, later: int)
    requires StateKept(cfg, st)
    requires st.Open? && Rotates(st.sessions, op, now) ==> FreshTarget(st.sessions, op)
    ensures StateKept(cfg, LazyStep(cfg, st, op, now, later).state)
  {
    hide Kept, Without, WithoutId, Lookup, Insert, Created, SetData, PutAll, DeleteAll, Reject, Rotates, FreshTarget;
    if st.Open? {
      var s := st.sessions;
      match op
      case Create(_, _, _, _, _) => InsertKept(cfg, s, Created(cfg, op));
      case Destroy(id) => WithoutIdKept(cfg, s, id);
      case DestroyByToken(token) => WithoutKept(cfg, s, token);
      case Put(token, pairs) =>
        WithoutKept(cfg, s, token);
        if Lookup(s, token).Some? {
          SetDataKept(cfg, s, token, PutAll(Lookup(s, token).value.data, pairs));
        }
      case Delete(token, keys) =>
        WithoutKept(cfg, s, token);
        if Lookup(s, token).Some? {
          SetDataKept(cfg, s, token, DeleteAll(Lookup(s, token).value.data, keys));
        }
      case Refresh(_, _, _, _) => RefreshKept(cfg, s, op, now, later);
      case _ =>
    }
  }

  lemma OrderedLater(cfg: Config, s: seq<Session>, before: int, stamp: int)
    requires Ordered(cfg, s, before) && before <= stamp
    ensures Ordered(cfg, s, stamp)
  {
  }

  lemma InsertOrdered(cfg: Config, s: seq<Session>, x: Session, before: int, stamp: int)
    requires Ordered(cfg, s, before) && before <= stamp
    requires x.refreshDeadline == stamp + cfg.refresh
    ensures Ordered(cfg, Insert(cfg, s, x), stamp)
  {
    WithoutOrdered(cfg, s, x.access, before);
    LookupWithout(s, x.access, x.access);
    var others := Without(s, x.access);
    if cfg.maxSize > 0 && |others| >= cfg.maxSize {
      assert forall y :: y in others[1..] ==> y in others;
      assert Ordered(cfg, others[1..], before);
      AppendOrdered(cfg, others[1..], x, before, stamp);
    } else {
      AppendOrdered(cfg, others, x, before, stamp);
    }
  }

  lemma RotateOrdered(cfg: Config, s: seq<Session>, op: Op, now: int, later: int, before: int)
    requires Ordered(cfg, s, before) && before <= later
    requires Rotates(s, op, now) && FreshTarget(s, op)
    ensures StateOrdered(cfg, LazyAct(cfg, s, op, now, later).state, later)
  {
    WithoutOrdered(cfg, s, op.access, before);
    LookupWithout(s, op.access, op.newAccess);
    AppendOrdered(cfg, Without(s, op.access),
                  Rotate(cfg, Lookup(s, op.access).value, op.newAccess, op.newRefresh, later), before, later);
  }

  /** With stamps taken in list order and clean refreshes, every call keeps tokens distinct, the list
      sorted by refresh deadline, and its length within the cap. */
  lemma StepOrdered(cfg: Config, st: State, op: Op, now: int, later: int, stamp: int)
    requires StateOrdered(cfg, st, stamp)
    requires stamp <= NextStamp(op, later, stamp)
    requires st.Open? && Rotates(st.sessions, op, now) ==> FreshTarget(st.sessions, op)
    ensures StateOrdered(cfg, LazyStep(cfg, st, op, now, later).state, NextStamp(op, later, stamp))
  {
    var next := NextStamp(op, later, stamp);
    if st.Open? {
      var s := st.sessions;
      OrderedLater(cfg, s, stamp, next);
      match op
      case Create(_, _, _, _, _) => InsertOrdered(cfg, s, Created(cfg, op), stamp, next);
      case Destroy(id) => WithoutIdOrdered(cfg, s, id, stamp);
      case DestroyByToken(token) => WithoutOrdered(cfg, s, token, stamp);
      case Put(token, pairs) =>
        WithoutOrdered(cfg, s, token, stamp);
        if Lookup(s, token).Some? {
          SetDataOrdered(cfg, s, token, PutAll(Lookup(s, token).value.data, pairs), stamp);
        }
      case Delete(token, keys) =>
        WithoutOrdered(cfg, s, token, stamp);
        if Lookup(s, token).Some? {
          SetDataOrdered(cfg, s, token, DeleteAll(Lookup(s, token).value.data, keys), stamp);
        }
      case Refresh(access, _, _, _) =>
        WithoutOrdered(cfg, s, access, next);
        if Rotates(s, op, now) {
          RotateOrdered(cfg, s, op, now, later, stamp);
        }
      case _ =>
    }
  }

  /** A refresh that succeeds leaves one session per token exactly when its target was clean. */
  lemma RefreshDistinctIffFresh(cfg: Config, s: seq<Session>, op: Op, now: int, later: int)
    requires Distinct(s) && Rotates(s, op, now)
    ensures Distinct(LazyAct(cfg, s, op, now, later).state.sessions) <==> FreshTarget(s, op)
  {
    hide Lookup, Without;
    var i := PositionOf(s, op.access);
    WithoutAt(s, i);
    var rest := Without(s, op.access);
    LookupWithout(s, op.access, op.newAccess);
    var after := rest + [Rotate(cfg, s[i], op.newAccess, op.newRefresh, later)];
    assert LazyAct(cfg, s, op, now, later).state.sessions == after;
    assert Distinct(rest);
    if FreshTarget(s, op) {
      assert Lookup(rest, op.newAccess) == None;
    } else {
      var j := PositionOf(rest, op.newAccess);
      assert after[j].access == after[|rest|].access;
    }
  }

  /** Two live sessions of one id; refreshing the first onto the second's token stores that token twice. */
  lemma RefreshOntoUsedToken()
    ensures
      var cfg := Config(10, 20, -1);
      var s := [Session("u", "u.a.x", "u.r.x", 10, 20, map[]), Session("u", "u.b.x", "u.q.x", 10, 20, map[])];
      var op := Refresh("u.a.x", "u.r.x", "u.b.x", "u.n.x");
      Distinct(s) && !Distinct(LazyAct(cfg, s, op, 0, 0).state.sessions)
  {
    var cfg := Config(10, 20, -1);
    var s := [Session("u", "u.a.x", "u.r.x", 10, 20, map[]), Session("u", "u.b.x", "u.q.x", 10, 20, map[])];
    var op := Refresh("u.a.x", "u.r.x", "u.b.x", "u.n.x");
    assert "u.a.x"[2] != "u.b.x"[2];
    assert s[0].access == "u.a.x" && s[1].access == "u.b.x";
    assert Lookup(s, "u.a.x") == Some(s[0]);
    assert Lookup(s[1..], "u.b.x") == Some(s[1]);
    RefreshDistinctIffFresh(cfg, s, op, 0, 0);
  }

  // ---------------------------------------------------------------- one call, both ways

  /** Same state for every client from `t` on. */
  ghost predicate SameFrom(a: State, b: State, t: int) {
    if a.Open? && b.Open? then Live(a.sessions, t) == Live(b.sessions, t) else a == b
  }

  /** Storing `x` would evict a live session while a dead one stays stored. */
  predicate EvictsOutOfTurn(cfg: Config, s: seq<Session>, x: Session, now: int) {
    var others := Without(s, x.access);
    cfg.maxSize > 0 && |others| >= cfg.maxSize && !others[0].Dead(now) && Live(others, now) != others
  }

  /** The call is a Create that gets as far as the list, and evicts out of turn there. */
  predicate OutOfTurn(cfg: Config, st: State, op: Op, now: int) {
    && op.Create? && Reject(op) == None && !Created(cfg, op).Dead(op.checked)
    && st.Open? && EvictsOutOfTurn(cfg, st.sessions, Created(cfg, op), now)
  }

  /** At the cap, the list and its live part lose the same to an eviction exactly when no live session is evicted
      while a dead one stays. */
  lemma InsertSameLiveIff(cfg: Config, s: seq<Session>, x: Session, now: int)
    requires WithinCap(cfg, s)
    ensures Live(Insert(cfg, s, x), now) == Live(Insert(cfg, Live(s, now), x), now)
       <==> !EvictsOutOfTurn(cfg, s, x, now)
  {
    hide Live, Without;
    var others := Without(s, x.access);
    var live := Live(others, now);
    WithoutSize(s, x.access);
    LiveWithout(s, x.access, now);
    LiveSize(others, now);
    LiveLive(others, now, now);
    LiveAppend(live, x, now);
    if cfg.maxSize > 0 && |others| >= cfg.maxSize {
      assert others == [others[0]] + others[1..];
      LiveCons(others[0], others[1..], now);
      LiveAppend(others[1..], x, now);
    } else {
      LiveAppend(others, x, now);
    }
  }

  /** Sorted by refresh deadline, a list with anything dead in it has a dead front. */
  lemma SortedEvictsInTurn(cfg: Config, s: seq<Session>, x: Session, now: int, stamp: int)
    requires Ordered(cfg, s, stamp)
    ensures !EvictsOutOfTurn(cfg, s, x, now)
  {
    hide Live, Without;
    var others := Without(s, x.access);
    WithoutOrdered(cfg, s, x.access, stamp);
    if others != [] && !others[0].Dead(now) {
      LiveFront(others, now);
    }
  }

  /** A client can tell: right after an eviction out of turn the evicted session is not found, although it is live
      and the store of live sessions still holds it. */
  lemma OutOfTurnSeen(cfg: Config, s: seq<Session>, x: Session, now: int)
    requires Kept(cfg, s) && EvictsOutOfTurn(cfg, s, x, now)
    ensures
      var victim := Without(s, x.access)[0];
      && victim in s && !victim.Dead(now)
      && Lookup(Insert(cfg, s, x), victim.access) == None
      && Lookup(Insert(cfg, Live(s, now), x), victim.access) == Some(victim)
  {
    hide Live, Without, Lookup;
    var others := Without(s, x.access);
    var live := Live(others, now);
    var token := others[0].access;
    WithoutMembers(s, x.access);
    WithoutKept(cfg, s, x.access);
    WithoutAt(others, 0);
    assert others[..0] + others[1..] == others[1..];
    LookupWithout(others, token, token);
    LookupAppend(others[1..], x, token);
    LiveWithout(s, x.access, now);
    LiveSize(others, now);
    LiveLookup(others, token, now);
    LookupAppend(live, x, token);
  }

  lemma RefreshSame(cfg: Config, s: seq<Session>, op: Op, now: int, later: int)
    requires op.Refresh? && Distinct(s)
    ensures
      var lazy := LazyAct(cfg, s, op, now, later);
      var eager := EagerAct(cfg, Live(s, now), op, later);
      lazy.reply == eager.reply && SameFrom(lazy.state, eager.state, now)
  {
    hide Live, Without, Lookup, Distinct;
    LiveLookup(s, op.access, now);
    LiveLive(s, now, now);
    LiveWithout(s, op.access, now);
    LiveWithout(Live(s, now), op.access, now);
    match Lookup(s, op.access)
    case None =>
    case Some(x) =>
      if x.Dead(now) {
        WithoutNone(Live(s, now), op.access);
      } else if x.refresh == op.refresh {
        var y := Rotate(cfg, x, op.newAccess, op.newRefresh, later);
        LiveAppend(Without(s, op.access), y, now);
        LiveAppend(Without(Live(s, now), op.access), y, now);
      }
  }

  lemma ReadSame(cfg: Config, s: seq<Session>, op: Op, now: int, later: int)
    requires op.Check? || op.Get? || op.Keys?
    requires Distinct(s)
    ensures
      var lazy := LazyAct(cfg, s, op, now, later);
      var eager := EagerAct(cfg, Live(s, now), op, later);
      lazy.reply == eager.reply && SameFrom(lazy.state, eager.state, now)
  {
    hide Live, Without, Lookup, Distinct;
    LiveLookup(s, op.token, now);
    LiveLive(s, now, now);
  }

  lemma TouchSame(s: seq<Session>, token: string, now: int)
    requires Distinct(s)
    ensures Live(Touch(s, token, now), now) == Live(s, now)
  {
    LiveLookup(s, token, now);
    LiveWithout(s, token, now);
    if Lookup(Live(s, now), token) == None {
      WithoutNone(Live(s, now), token);
    }
  }

  lemma SetDataSame(s: seq<Session>, token: string, data: map<string, Bytes>, now: int)
    ensures Live(SetData(s, token, data), now) == Live(SetData(Live(s, now), token, data), now)
  {
    LiveLive(s, now, now);
    LiveSetData(s, token, data, now);
    LiveSetData(Live(s, now), token, data, now);
  }

  lemma WriteSame(cfg: Config, s: seq<Session>, op: Op, now: int, later: int)
    requires op.Put? || op.Delete?
    requires Distinct(s)
    ensures
      var lazy := LazyAct(cfg, s, op, now, later);
      var eager := EagerAct(cfg, Live(s, now), op, later);
      lazy.reply == eager.reply && SameFrom(lazy.state, eager.state, now)
  {
    hide Live, Without, Lookup, Distinct, SetData, PutAll, DeleteAll, Touch;
    LiveLookup(s, op.token, now);
    LiveLive(s, now, now);
    TouchSame(s, op.token, now);
    if LazyStatus(s, op.token, now, later) == None {
      var data := Lookup(s, op.token).value.data;
      SetDataSame(s, op.token, if op.Put? then PutAll(data, op.pairs) else DeleteAll(data, op.keys), now);
    }
  }

  /** One call answers the same on the lazy store and on the live part of it, and leaves the same live part unless it
      evicts out of turn. */
  lemma StepSameIff(cfg: Config, lazy: State, eager: State, op: Op, now: int, later: int)
    requires StateKept(cfg, lazy)
    requires SameFrom(lazy, eager, now)
    ensures LazyStep(cfg, lazy, op, now, later).reply == EagerStep(cfg, eager, op, now, later).reply
    ensures SameFrom(LazyStep(cfg, lazy, op, now, later).state, EagerStep(cfg, eager, op, now, later).state, now)
       <==> !OutOfTurn(cfg, lazy, op, now)
  {
    hide Live, Without, WithoutId, Lookup, Insert, Created, Distinct, EvictsOutOfTurn;
    if lazy.Open? && eager.Open? {
      var s := lazy.sessions;
      LiveLive(s, now, now);
      match op
      case Create(_, _, _, _, _) => InsertSameLiveIff(cfg, s, Created(cfg, op), now);
      case Destroy(id) =>
        LiveWithoutId(s, id, now);
        LiveWithoutId(Live(s, now), id, now);
      case DestroyByToken(token) =>
        LiveWithout(s, token, now);
        LiveWithout(Live(s, now), token, now);
      case Refresh(_, _, _, _) => RefreshSame(cfg, s, op, now, later);
      case Close =>
      case Put(_, _) => WriteSame(cfg, s, op, now, later);
      case Delete(_, _) => WriteSame(cfg, s, op, now, later);
      case _ => ReadSame(cfg, s, op, now, later);
    }
  }

  // ---------------------------------------------------------------- consequences of one call

  /** Create evicts a live session only from a list of `maxSize` live ones, and then the one created or
      refreshed longest ago. */
  lemma EvictionVictim(cfg: Config, s: seq<Session>, x: Session, y: Session, now: int, stamp: int)
    requires Ordered(cfg, s, stamp)
    requires y in s && !y.Dead(now) && y.access != x.access && y !in Insert(cfg, s, x)
    ensures cfg.maxSize > 0 && |s| == cfg.maxSize && Live(s, now) == s && s[0] == y
    ensures Lookup(s, x.access) == None
  {
    WithoutMembers(s, x.access);
    WithoutOrdered(cfg, s, x.access, stamp);
    var others := Without(s, x.access);
    assert y in others;
    assert forall i :: 1 <= i < |others| ==> others[i] == others[1..][i - 1];
    assert others[0] == y;
    WithoutNone(s, x.access);
    LiveFront(s, now);
  }

  /** Replacing the session of one token by a session at the end. */
  lemma MoveToEnd(s: seq<Session>, token: string, y: Session)
    requires Distinct(s) && Lookup(s, token).Some?
    ensures |Without(s, token) + [y]| == |s|
    ensures y.access != token ==> Lookup(Without(s, token) + [y], token) == None
    ensures y.access == token || Lookup(s, y.access) == None ==> Lookup(Without(s, token) + [y], y.access) == Some(y)
    ensures forall z :: z in s && z.access != token ==> z in Without(s, token) + [y]
  {
    hide Lookup, Without;
    var i := PositionOf(s, token);
    WithoutAt(s, i);
    var rest := Without(s, token);
    LookupAppend(rest, y, token);
    LookupWithout(s, token, token);
    LookupAppend(rest, y, y.access);
    LookupWithout(s, token, y.access);
    WithoutMembers(s, token);
  }

  /** A successful refresh keeps the number of sessions, the id and the data, moves the session to the end
      with both deadlines renewed, and leaves every other session where it was. */
  lemma RefreshRotates(cfg: Config, s: seq<Session>, op: Op, now: int, later: int)
    requires Distinct(s) && op.Refresh? && LazyAct(cfg, s, op, now, later).reply == Done
    ensures Lookup(s, op.access).Some? && Lookup(s, op.access).value.refresh == op.refresh
    ensures LazyAct(cfg, s, op, now, later).state.Open?
    ensures
      var x := Lookup(s, op.access).value;
      var y := Session(x.id, op.newAccess, op.newRefresh, later + cfg.access, later + cfg.refresh, x.data);
      var after := LazyAct(cfg, s, op, now, later).state.sessions;
      && |after| == |s|
      && after == Without(s, op.access) + [y]
      && (op.newAccess != op.access ==> Lookup(after, op.access) == None)
      && (forall z :: z in s && z.access != op.access ==> z in after)
      && (FreshTarget(s, op) ==> Lookup(after, op.newAccess) == Some(y))
  {
    hide Lookup, Without, Distinct, PutAll;
    MoveToEnd(s, op.access, Rotate(cfg, Lookup(s, op.access).value, op.newAccess, op.newRefresh, later));
  }
}
