/** What a client can rely on across calls, whatever the back end still has stored. */
module Laws {
  import opened Basics
  import opened Sessions
  import opened Store
  import Tokens

  /** The calls that are about `token`: by name, by its id, or by moving a session onto it. */
  predicate Names(op: Op, token: string, id: string) {
    match op
    case Create(access, _, _, _, _) => access == token
    case Destroy(i) => i == id
    case DestroyByToken(t) => t == token
    case Put(t, _) => t == token
    case Delete(t, _) => t == token
    case Refresh(access, _, newAccess, _) => access == token || newAccess == token
    case Close => true
    case _ => false
  }

  /** The session a Create would evict from `s`. */
  function Victim(cfg: Config, s: seq<Session>, op: Op): Option<string> {
    if op.Create? && cfg.maxSize > 0 && |Without(s, op.access)| >= cfg.maxSize
    then Some(Without(s, op.access)[0].access)
    else None
  }

  lemma FrontGone(s: seq<Session>, token: string)
    requires s != [] && Distinct(s)
    ensures Lookup(s[1..], token) == if s[0].access == token then None else Lookup(s, token)
  {
    hide Lookup, Without;
    WithoutAt(s, 0);
    assert s[..0] + s[1..] == s[1..];
    LookupWithout(s, s[0].access, token);
  }

  lemma InsertLookup(cfg: Config, s: seq<Session>, x: Session, token: string)
    requires Distinct(s)
    ensures Lookup(Insert(cfg, s, x), x.access) == Some(x)
    ensures token != x.access ==>
      var others := Without(s, x.access);
      Lookup(Insert(cfg, s, x), token)
      == if cfg.maxSize > 0 && |others| >= cfg.maxSize && others[0].access == token then None else Lookup(s, token)
  {
    hide Lookup, Without, Distinct;
    var others := Without(s, x.access);
    LookupWithout(s, x.access, x.access);
    LookupWithout(s, x.access, token);
    if cfg.maxSize > 0 && |others| >= cfg.maxSize {
      WithoutDistinct(s, x.access);
      FrontGone(others, x.access);
      FrontGone(others, token);
      LookupAppend(others[1..], x, x.access);
      LookupAppend(others[1..], x, token);
    } else {
      LookupAppend(others, x, x.access);
      LookupAppend(others, x, token);
    }
  }

  /** A call leaves alone every session it does not name, unless it is the one a Create evicts. */
  lemma Untouched(cfg: Config, s: seq<Session>, op: Op, now: int, later: int, x: Session)
    requires Distinct(s) && Lookup(s, x.access) == Some(x)
    requires !Names(op, x.access, x.id) && Victim(cfg, s, op) != Some(x.access)
    ensures
      var after := LazyStep(cfg, Open(s), op, now, later).state;
      after.Open? && Lookup(after.sessions, x.access) == Some(x)
  {
    hide Lookup, Without, WithoutId, SetData, Insert, PutAll, DeleteAll, Created, Reject;
    match op
    case Create(_, _, _, _, _) => CreateUntouched(cfg, s, op, x);
    case Destroy(id) => LookupWithoutId(s, id, x.access);
    case DestroyByToken(token) => LookupWithout(s, token, x.access);
    case Put(token, pairs) =>
      LookupWithout(s, token, x.access);
      if Lookup(s, token).Some? {
        LookupSetData(s, token, PutAll(Lookup(s, token).value.data, pairs), x.access);
      }
    case Delete(token, keys) =>
      LookupWithout(s, token, x.access);
      if Lookup(s, token).Some? {
        LookupSetData(s, token, DeleteAll(Lookup(s, token).value.data, keys), x.access);
      }
    case Refresh(access, _, newAccess, newRefresh) =>
      LookupWithout(s, access, x.access);
      if Lookup(s, access).Some? {
        var y := Rotate(cfg, Lookup(s, access).value, newAccess, newRefresh, later);
        LookupAppend(Without(s, access), y, x.access);
      }
    case _ =>
  }

  lemma CreateUntouched(cfg: Config, s: seq<Session>, op: Op, x: Session)
    requires Distinct(s) && Lookup(s, x.access) == Some(x) && op.Create? && op.access != x.access
    requires Victim(cfg, s, op) != Some(x.access)
    ensures Lookup(Insert(cfg, s, Created(cfg, op)), x.access) == Some(x)
  {
    hide Lookup, Without, Insert;
    InsertLookup(cfg, s, Created(cfg, op), x.access);
  }

  // ---------------------------------------------------------------- which calls are refused before the lock

  lemma TokenChecked(token: string)
    ensures CheckToken(token) == if Tokens.Dots(token) >= 2 then None else Some(TokenInvalid)
  {
    hide Tokens.Dots;
    Tokens.SplitAcceptsTwoDots(token);
  }

  /** The first token with fewer than two separators, or of another id, decides. */
  lemma {:induction false} CheckIdFirst(id: string, tokens: seq<string>, i: nat)
    requires i <= |tokens|
    requires forall j :: 0 <= j < i ==> Tokens.Dots(tokens[j]) >= 2 && IdOf(tokens[j]) == id
    ensures i == |tokens| ==> CheckId(id, tokens) == None
    ensures i < |tokens| && Tokens.Dots(tokens[i]) < 2 ==> CheckId(id, tokens) == Some(TokenInvalid)
    ensures i < |tokens| && Tokens.Dots(tokens[i]) >= 2 && IdOf(tokens[i]) != id ==>
      CheckId(id, tokens) == Some(TokenIDNotMatched)
  {
    hide Tokens.Dots, Tokens.Split;
    if tokens != [] {
      Tokens.SplitAcceptsTwoDots(tokens[0]);
      SplitFails(tokens[0]);
      if i > 0 {
        CheckIdFirst(id, tokens[1..], i - 1);
      }
    }
  }

  lemma SplitFails(token: string)
    ensures Tokens.Split(token).Err? ==> Tokens.Split(token).error == TokenInvalid
  {
  }

  /** The token has the shape of one, and the id of `access`. */
  predicate OfId(token: string, access: string) {
    Tokens.Dots(token) >= 2 && IdOf(token) == IdOf(access)
  }

  /** A Refresh is accepted exactly when all four of its tokens have the shape of one and the same id; otherwise the
      first that does not decides the error. */
  lemma RefreshRejected(op: Op)
    requires op.Refresh?
    ensures
      var tokens := [op.access, op.refresh, op.newAccess, op.newRefresh];
      && (Reject(op) == None <==> forall i :: 0 <= i < 4 ==> OfId(tokens[i], op.access))
      && forall i :: 0 <= i < 4 && (forall j :: 0 <= j < i ==> OfId(tokens[j], op.access))
                     && !OfId(tokens[i], op.access) ==>
           Reject(op) == Some(if Tokens.Dots(tokens[i]) < 2 then TokenInvalid else TokenIDNotMatched)
  {
    hide Tokens.Dots, Tokens.Split, CheckId;
    var tokens := [op.access, op.refresh, op.newAccess, op.newRefresh];
    var rest := [op.refresh, op.newAccess, op.newRefresh];
    assert tokens[0] == op.access && tokens[1] == rest[0] && tokens[2] == rest[1] && tokens[3] == rest[2];
    assert OfId(tokens[0], op.access) <==> Tokens.Dots(op.access) >= 2;
    Tokens.SplitAcceptsTwoDots(op.access);
    SplitFails(op.access);
    if Tokens.Split(op.access).Ok? {
      var id := IdOf(op.access);
      if !OfId(rest[0], op.access) {
        CheckIdFirst(id, rest, 0);
      } else if !OfId(rest[1], op.access) {
        CheckIdFirst(id, rest, 1);
      } else if !OfId(rest[2], op.access) {
        CheckIdFirst(id, rest, 2);
      } else {
        CheckIdFirst(id, rest, 3);
      }
    }
  }

  /** A Create is accepted exactly when both its tokens have the shape of one. */
  lemma CreateRejected(op: Op)
    requires op.Create?
    ensures Reject(op)
         == if Tokens.Dots(op.access) >= 2 && Tokens.Dots(op.refresh) >= 2 then None else Some(TokenInvalid)
  {
    hide CheckToken, Tokens.Dots;
    TokenChecked(op.access);
    TokenChecked(op.refresh);
  }

  /** Destroy and Close are never refused, and the calls about one token exactly when it has not the shape of one. */
  lemma OtherRejected(op: Op)
    requires !op.Create? && !op.Refresh?
    ensures op.Destroy? || op.Close? ==> Reject(op) == None
    ensures !op.Destroy? && !op.Close? ==>
      Reject(op) == if Tokens.Dots(op.token) >= 2 then None else Some(TokenInvalid)
  {
    hide CheckToken, Tokens.Dots;
    if !op.Destroy? && !op.Close? {
      TokenChecked(op.token);
    }
  }

  /** A refused call and a call on a closed store change nothing. Close closes. A Create whose record is dead already
      succeeds without storing it. */
  lemma NothingDone(cfg: Config, st: State, op: Op, now: int, later: int)
    ensures Reject(op).Some? ==> LazyStep(cfg, st, op, now, later) == Outcome(st, Failed(Reject(op).value))
    ensures Reject(op) == None && op.Create? && op.stamp + cfg.refresh <= op.checked ==>
      LazyStep(cfg, st, op, now, later) == Outcome(st, Done)
    ensures Reject(op) == None && st.Closed? && !(op.Create? && op.stamp + cfg.refresh <= op.checked) ==>
      LazyStep(cfg, st, op, now, later) == Outcome(Closed, Failed(ProviderClosed))
    ensures op.Close? && st.Open? ==> LazyStep(cfg, st, op, now, later) == Outcome(Closed, Done)
  {
    hide Reject, IdOf, PutAll;
    if op.Close? {
      OtherRejected(op);
    }
  }

  // ---------------------------------------------------------------- what the others answer

  predicate AboutSession(op: Op) {
    op.Check? || op.Get? || op.Keys? || op.Put? || op.Delete? || op.Refresh?
  }

  function Subject(op: Op): string
    requires AboutSession(op)
  {
    if op.Refresh? then op.access else op.token
  }

  /** The answer of a call about a live session whose tokens are good. */
  ghost predicate Succeeds(x: Session, op: Op, reply: Reply) {
    match op
    case Get(_, keys) =>
      && reply.Values? && |reply.vals| == |keys|
      && forall i :: 0 <= i < |keys| ==>
           reply.vals[i] == if keys[i] in x.data then Present(x.data[keys[i]]) else Absent
    case Keys(_) => reply.KeySet? && forall k :: k in reply.keys <==> k in x.data
    case _ => reply == Done
  }

  /** What a call about a stored session answers, by the session's two deadlines. From the refresh deadline on it does
      not exist; a Refresh asks for its refresh token, and does not mind the access deadline; the others find it expired
      from that one on. */
  lemma AnswersStored(cfg: Config, s: seq<Session>, op: Op, now: int, later: int, x: Session)
    requires AboutSession(op) && Reject(op) == None && Lookup(s, Subject(op)) == Some(x)
    ensures
      var reply := LazyStep(cfg, Open(s), op, now, later).reply;
      if x.refreshDeadline <= now then reply == Failed(TokenNotExists)
      else if op.Refresh? && x.refresh != op.refresh then reply == Failed(RefreshTokenNotMatched)
      else if !op.Refresh? && x.accessDeadline <= later then reply == Failed(TokenExpired)
      else Succeeds(x, op, reply)
  {
    hide Lookup, Reject, PutAll, DeleteAll, SetData, Without;
  }

  lemma AnswersUnknown(cfg: Config, s: seq<Session>, op: Op, now: int, later: int)
    requires AboutSession(op) && Reject(op) == None && Lookup(s, Subject(op)) == None
    ensures LazyStep(cfg, Open(s), op, now, later) == Outcome(Open(s), Failed(TokenNotExists))
  {
    hide Lookup, Reject;
  }

  /** A call about a session that fails, and a read, change nothing; but a writer that meets a dead session removes
      it. */
  lemma FailureKeeps(cfg: Config, s: seq<Session>, op: Op, now: int, later: int)
    requires AboutSession(op) && Reject(op) == None
    requires LazyStep(cfg, Open(s), op, now, later).reply.Failed? || op.Check? || op.Get? || op.Keys?
    ensures
      var writes := op.Put? || op.Delete? || op.Refresh?;
      LazyStep(cfg, Open(s), op, now, later).state
      == Open(if writes && DeadAt(s, Subject(op), now) then Without(s, Subject(op)) else s)
  {
    hide Lookup, Reject, PutAll, DeleteAll, SetData, Without;
  }

  /** Destroy succeeds, and leaves exactly the sessions of other ids; DestroyByToken exactly those of other tokens. */
  lemma DestroyAnswers(cfg: Config, s: seq<Session>, op: Op, now: int, later: int)
    requires (op.Destroy? || op.DestroyByToken?) && Reject(op) == None
    ensures LazyStep(cfg, Open(s), op, now, later).reply == Done && LazyStep(cfg, Open(s), op, now, later).state.Open?
    ensures forall x :: x in LazyStep(cfg, Open(s), op, now, later).state.sessions <==>
      x in s && if op.Destroy? then x.id != op.id else x.access != op.token
  {
    hide Reject, Without, WithoutId;
    if op.Destroy? {
      WithoutIdMembers(s, op.id);
    } else {
      WithoutMembers(s, op.token);
    }
  }

  /** A reader hands a token to the worker exactly when the session stored under it is past its refresh deadline. */
  lemma PostsIff(s: seq<Session>, token: string, now: int)
    ensures Posts(Open(s), token, now) <==>
      Tokens.Dots(token) >= 2 && exists x :: Lookup(s, token) == Some(x) && x.refreshDeadline <= now
    ensures !Posts(Closed, token, now)
  {
    hide Lookup, Tokens.Dots, CheckToken;
    TokenChecked(token);
  }

  // ---------------------------------------------------------------- across calls

  lemma {:induction false} PutAllKeys(data: map<string, Bytes>, pairs: seq<Pair>)
    ensures forall k :: k in PutAll(data, pairs) <==> k in data || exists i :: 0 <= i < |pairs| && pairs[i].key == k
    decreases |pairs|
  {
    if pairs != [] {
      PutAllKeys(data[pairs[0].key := pairs[0].value], pairs[1..]);
      assert forall i :: 1 <= i < |pairs| ==> pairs[i] == pairs[1..][i - 1];
    }
  }

  /** What a session just created answers, by its stamp and the two durations. */
  lemma CreateThen(cfg: Config, s: seq<Session>, op: Op, now: int, later: int, next: Op, t: int, u: int)
    requires Distinct(s) && op.Create? && Reject(op) == None && op.checked < op.stamp + cfg.refresh
    requires AboutSession(next) && Reject(next) == None && Subject(next) == op.access
    ensures
      var reply := LazyStep(cfg, LazyStep(cfg, Open(s), op, now, later).state, next, t, u).reply;
      if op.stamp + cfg.refresh <= t then reply == Failed(TokenNotExists)
      else if next.Refresh? && op.refresh != next.refresh then reply == Failed(RefreshTokenNotMatched)
      else if !next.Refresh? && op.stamp + cfg.access <= u then reply == Failed(TokenExpired)
      else match next
           case Get(_, keys) => reply == Values(ValuesOf(PutAll(map[], op.pairs), keys))
           case Keys(_) => reply == KeySet(set i | 0 <= i < |op.pairs| :: op.pairs[i].key)
           case _ => reply == Done
  {
    hide Lookup, Insert, PutAll, IdOf, Reject, LazyAct;
    var x := Created(cfg, op);
    InsertLookup(cfg, s, x, op.access);
    CreateDone(cfg, s, op, now, later);
    AnswersStored(cfg, Insert(cfg, s, x), next, t, u, x);
    if next.Get? {
      ValuesAre(x.data, next.keys, LazyStep(cfg, Open(Insert(cfg, s, x)), next, t, u).reply);
    }
    PutAllKeys(map[], op.pairs);
  }

  lemma CreateDone(cfg: Config, s: seq<Session>, op: Op, now: int, later: int)
    requires op.Create? && Reject(op) == None && op.checked < op.stamp + cfg.refresh
    ensures LazyStep(cfg, Open(s), op, now, later) == Outcome(Open(Insert(cfg, s, Created(cfg, op))), Done)
  {
    hide Reject, Insert, IdOf, PutAll;
  }

  lemma ValuesAre(data: map<string, Bytes>, keys: seq<string>, reply: Reply)
    ensures reply.Values? && |reply.vals| == |keys|
            && (forall i :: 0 <= i < |keys| ==>
                  reply.vals[i] == if keys[i] in data then Present(data[keys[i]]) else Absent) ==>
      reply == Values(ValuesOf(data, keys))
  {
    if reply.Values? && |reply.vals| == |keys|
       && forall i :: 0 <= i < |keys| ==>
            reply.vals[i] == if keys[i] in data then Present(data[keys[i]]) else Absent {
      assert reply.vals == ValuesOf(data, keys);
    }
  }

  /** A check: nothing wrong, then expired, then not existing. */
  lemma CreateThenCheck(cfg: Config, s: seq<Session>, op: Op, now: int, later: int, t: int, u: int)
    requires Distinct(s) && op.Create? && Reject(op) == None && op.checked < op.stamp + cfg.refresh
    ensures
      LazyStep(cfg, LazyStep(cfg, Open(s), op, now, later).state, Check(op.access), t, u).reply
      == if op.stamp + cfg.refresh <= t then Failed(TokenNotExists)
         else if op.stamp + cfg.access <= u then Failed(TokenExpired)
         else Done
  {
    hide LazyStep, CheckToken;
    CreateThen(cfg, s, op, now, later, Check(op.access), t, u);
  }

  /** A session just created is found, answers with the pairs it was given, and outlives its stamp by exactly the
      two durations. */
  lemma CreateThenGet(cfg: Config, s: seq<Session>, op: Op, now: int, later: int, keys: seq<string>, t: int, u: int)
    requires Distinct(s) && op.Create? && Reject(op) == None && op.checked < op.stamp + cfg.refresh
    ensures
      var after := LazyStep(cfg, Open(s), op, now, later).state;
      LazyStep(cfg, after, Get(op.access, keys), t, u).reply
      == if op.stamp + cfg.refresh <= t then Failed(TokenNotExists)
         else if op.stamp + cfg.access <= u then Failed(TokenExpired)
         else Values(ValuesOf(PutAll(map[], op.pairs), keys))
  {
    hide Lookup, Insert, PutAll, IdOf;
    InsertLookup(cfg, s, Created(cfg, op), op.access);
  }

  /** After a put that succeeded, a get answers each key with the last value put for it, or with what it held. */
  lemma PutThenGet(cfg: Config, s: seq<Session>, token: string, pairs: seq<Pair>, now: int, later: int,
                   keys: seq<string>, t: int, u: int)
    requires LazyStep(cfg, Open(s), Put(token, pairs), now, later).reply == Done
    ensures Lookup(s, token).Some?
    ensures
      var x := Lookup(s, token).value;
      var after := LazyStep(cfg, Open(s), Put(token, pairs), now, later).state;
      var reply := LazyStep(cfg, after, Get(token, keys), t, u).reply;
      !x.Dead(t) && !x.Expired(u) ==>
        && reply.Values? && |reply.vals| == |keys|
        && forall i :: 0 <= i < |keys| ==>
          reply.vals[i] == match LastFor(pairs, keys[i])
                           case Some(v) => Present(v)
                           case None => ValueOf(x.data, keys[i])
  {
    hide Lookup, SetData, PutAll, LastFor;
    if Lookup(s, token).Some? {
      var x := Lookup(s, token).value;
      LookupSetData(s, token, PutAll(x.data, pairs), token);
      forall i | 0 <= i < |keys|
        ensures ValueOf(PutAll(x.data, pairs), keys[i])
             == match LastFor(pairs, keys[i]) case Some(v) => Present(v) case None => ValueOf(x.data, keys[i])
      {
        GetAfterPut(x.data, pairs, keys[i]);
      }
    }
  }

  /** After a delete that succeeded, the deleted keys are absent and the others are as they were. */
  lemma DeleteThenGet(cfg: Config, s: seq<Session>, token: string, deleted: seq<string>, now: int, later: int,
                      keys: seq<string>, t: int, u: int)
    requires LazyStep(cfg, Open(s), Delete(token, deleted), now, later).reply == Done
    ensures Lookup(s, token).Some?
    ensures
      var x := Lookup(s, token).value;
      var after := LazyStep(cfg, Open(s), Delete(token, deleted), now, later).state;
      var reply := LazyStep(cfg, after, Get(token, keys), t, u).reply;
      !x.Dead(t) && !x.Expired(u) ==>
        && reply.Values? && |reply.vals| == |keys|
        && forall i :: 0 <= i < |keys| ==>
          reply.vals[i] == if keys[i] in deleted then Absent else ValueOf(x.data, keys[i])
  {
    hide Lookup, SetData;
    if Lookup(s, token).Some? {
      LookupSetData(s, token, DeleteAll(Lookup(s, token).value.data, deleted), token);
    }
  }
}
