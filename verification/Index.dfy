/** The session list together with the user-id index: the lock sections of the memory store, as functions. */
module Index {
  import opened Basics
  import opened Sessions
  import Store

  /** The list in order of creation or refresh, and the tokens filed under each user id. */
  datatype Table = Table(sessions: seq<Session>, ids: map<string, seq<string>>)

  function Filed(ids: map<string, seq<string>>, id: string): seq<string> {
    if id in ids then ids[id] else []
  }

  /** Take `token` out of its id's list; `unsafePop` drops a list that becomes empty, `unsafeClear` keeps it. */
  function Unfile(ids: map<string, seq<string>>, id: string, token: string, keepEmpty: bool): map<string, seq<string>> {
    if token !in Filed(ids, id) then ids
    else if |ids[id]| == 1 && !keepEmpty then ids - {id}
    else ids[id := RemoveFirst(ids[id], token)]
  }

  function File(ids: map<string, seq<string>>, id: string, token: string): map<string, seq<string>> {
    ids[id := Filed(ids, id) + [token]]
  }

  /** The table without one session and its index entry. */
  function Removed(t: Table, x: Session, keepEmpty: bool): Table {
    Table(Without(t.sessions, x.access), Unfile(t.ids, x.id, x.access, keepEmpty))
  }

  function Drop(t: Table, token: string): Table {
    match Lookup(t.sessions, token)
    case None => t
    case Some(x) => Removed(t, x, false)
  }

  function Append(t: Table, x: Session): Table {
    Table(t.sessions + [x], File(t.ids, x.id, x.access))
  }

  /** The table without `token`, and without its front session if it is still at the cap. */
  function Room(cfg: Config, t: Table, token: string): Table {
    var others := Drop(t, token);
    if cfg.maxSize > 0 && |others.sessions| >= cfg.maxSize then Drop(others, others.sessions[0].access)
    else others
  }

  function Insert(cfg: Config, t: Table, x: Session): Table {
    Append(Room(cfg, t, x.access), x)
  }

  function DropId(t: Table, id: string): Table {
    Table(WithoutAll(t.sessions, Filed(t.ids, id)), t.ids - {id})
  }

  function WithoutAll(s: seq<Session>, tokens: seq<string>): seq<Session>
    decreases |tokens|
  {
    if tokens == [] then s else WithoutAll(Without(s, tokens[0]), tokens[1..])
  }

  function DropAll(t: Table, tokens: seq<string>): Table
    decreases |tokens|
  {
    if tokens == [] then t else DropAll(Drop(t, tokens[0]), tokens[1..])
  }

  /** `unsafeClear` once round: the front session leaves, its id keeps a list even if that is now empty. */
  function ClearFront(t: Table): Table
    requires t.sessions != []
  {
    Removed(t, t.sessions[0], true)
  }

  /** `n` rounds of it. */
  function ClearFirst(t: Table, n: nat): Table
    decreases n
  {
    if n == 0 || t.sessions == [] then t else ClearFirst(ClearFront(t), n - 1)
  }

  function SetData(t: Table, token: string, data: map<string, Bytes>): Table {
    t.(sessions := Sessions.SetData(t.sessions, token, data))
  }

  // ---------------------------------------------------------------- agreement of list and index

  ghost predicate FiledUnderOwnId(s: seq<Session>, ids: map<string, seq<string>>) {
    forall token :: Lookup(s, token).Some? ==>
      Lookup(s, token).value.id == Store.IdOf(token) && token in Filed(ids, Lookup(s, token).value.id)
  }

  ghost predicate OnlyStoredFiled(s: seq<Session>, ids: map<string, seq<string>>) {
    forall id, token :: id in ids && token in ids[id] ==> Lookup(s, token).Some? && Lookup(s, token).value.id == id
  }

  ghost predicate NoneFiledTwice(ids: map<string, seq<string>>) {
    forall id :: id in ids ==> NoDup(ids[id])
  }

  /** One session per token, and `ids[id]` lists, each once, exactly the stored tokens whose id is `id`.
      A list may be empty. */
  ghost predicate Linked(t: Table) {
    && Distinct(t.sessions)
    && FiledUnderOwnId(t.sessions, t.ids)
    && OnlyStoredFiled(t.sessions, t.ids)
    && NoneFiledTwice(t.ids)
  }

  lemma NothingLinked()
    ensures Linked(Table([], map[]))
  {
  }

  lemma LinkedDistinct(t: Table)
    requires Linked(t)
    ensures Distinct(t.sessions)
  {
  }

  lemma LinkedId(t: Table, token: string)
    requires Linked(t) && Lookup(t.sessions, token).Some?
    ensures Lookup(t.sessions, token).value.id == Store.IdOf(token)
  {
  }

  lemma LinkedFiled(t: Table, token: string)
    requires Linked(t) && Lookup(t.sessions, token).Some?
    ensures token in Filed(t.ids, Lookup(t.sessions, token).value.id)
  {
  }

  lemma LinkedNoDup(t: Table)
    requires Linked(t)
    ensures NoneFiledTwice(t.ids)
  {
  }

  lemma UnfileFiled(ids: map<string, seq<string>>, id: string, token: string, keepEmpty: bool, other: string)
    requires NoneFiledTwice(ids)
    ensures NoneFiledTwice(Unfile(ids, id, token, keepEmpty))
    ensures forall tok :: tok in Filed(Unfile(ids, id, token, keepEmpty), other)
                     <==> tok in Filed(ids, other) && !(other == id && tok == token)
  {
    if token in Filed(ids, id) {
      RemoveFirstKeepsRest(ids[id], token);
    }
  }

  lemma UnfileFiledAll(ids: map<string, seq<string>>, id: string, token: string, keepEmpty: bool)
    requires NoneFiledTwice(ids)
    ensures NoneFiledTwice(Unfile(ids, id, token, keepEmpty))
    ensures forall other, tok :: tok in Filed(Unfile(ids, id, token, keepEmpty), other)
                            <==> tok in Filed(ids, other) && !(other == id && tok == token)
  {
    forall other, tok
      ensures tok in Filed(Unfile(ids, id, token, keepEmpty), other)
         <==> tok in Filed(ids, other) && !(other == id && tok == token)
    {
      UnfileFiled(ids, id, token, keepEmpty, other);
    }
    UnfileFiled(ids, id, token, keepEmpty, id);
  }

  /** Removing a session and its index entry together, by either route, keeps the two in agreement. */
  lemma RemoveLinked(t: Table, x: Session, keepEmpty: bool)
    requires Linked(t) && x in t.sessions
    ensures Linked(Removed(t, x, keepEmpty))
  {
    hide Lookup, Without, Unfile;
    var i :| 0 <= i < |t.sessions| && t.sessions[i] == x;
    WithoutAt(t.sessions, i);
    var s, ids := Without(t.sessions, x.access), Unfile(t.ids, x.id, x.access, keepEmpty);
    UnfileFiledAll(t.ids, x.id, x.access, keepEmpty);
    forall token
      ensures Lookup(s, token) == if token == x.access then None else Lookup(t.sessions, token)
    {
      LookupWithout(t.sessions, x.access, token);
    }
    forall id, token | id in ids && token in ids[id]
      ensures Lookup(s, token).Some? && Lookup(s, token).value.id == id
    {
      assert token in Filed(ids, id);
      assert token in Filed(t.ids, id);
    }
  }

  lemma DropLinked(t: Table, token: string)
    requires Linked(t)
    ensures Linked(Drop(t, token))
    ensures Drop(t, token).sessions == Without(t.sessions, token)
  {
    match Lookup(t.sessions, token)
    case None => WithoutNone(t.sessions, token);
    case Some(x) => RemoveLinked(t, x, false);
  }

  lemma {:induction false} DropAllLinked(t: Table, tokens: seq<string>)
    requires Linked(t)
    ensures Linked(DropAll(t, tokens))
    ensures DropAll(t, tokens).sessions == WithoutAll(t.sessions, tokens)
    decreases |tokens|
  {
    if tokens != [] {
      DropLinked(t, tokens[0]);
      DropAllLinked(Drop(t, tokens[0]), tokens[1..]);
    }
  }

  lemma FiledAfter(ids: map<string, seq<string>>, id: string, token: string)
    requires token !in Filed(ids, id) && NoneFiledTwice(ids)
    ensures NoneFiledTwice(File(ids, id, token))
    ensures forall other, tok :: tok in Filed(File(ids, id, token), other)
                            <==> tok in Filed(ids, other) || (other == id && tok == token)
  {
    var ids' := File(ids, id, token);
    forall other | other in ids'
      ensures NoDup(ids'[other])
    {
      if other == id {
        assert ids'[id] == Filed(ids, id) + [token];
      }
    }
  }

  lemma LookupAfter(s: seq<Session>, x: Session)
    requires Lookup(s, x.access) == None
    ensures forall token ::
      Lookup(s + [x], token) == if token == x.access then Some(x) else Lookup(s, token)
  {
    hide Lookup;
    forall token
      ensures Lookup(s + [x], token) == if token == x.access then Some(x) else Lookup(s, token)
    {
      LookupAppend(s, x, token);
    }
  }

  lemma AppendLinked(t: Table, x: Session)
    requires Linked(t) && x.id == Store.IdOf(x.access)
    requires Lookup(t.sessions, x.access) == None
    ensures Linked(Append(t, x))
  {
    hide Lookup, File, NoneFiledTwice;
    var s, ids := t.sessions + [x], File(t.ids, x.id, x.access);
    assert x.access !in Filed(t.ids, x.id);
    FiledAfter(t.ids, x.id, x.access);
    LookupAfter(t.sessions, x);
    forall id, token | id in ids && token in ids[id]
      ensures Lookup(s, token).Some? && Lookup(s, token).value.id == id
    {
      assert token in Filed(ids, id);
      assert token in Filed(t.ids, id) || token == x.access;
    }
    assert Distinct(s);
  }

  /** Appending a session files its token; this keeps the agreement exactly when the token is not stored yet. */
  lemma AppendLinkedIffUnused(t: Table, x: Session)
    requires Linked(t) && x.id == Store.IdOf(x.access)
    ensures Linked(Append(t, x)) <==> Lookup(t.sessions, x.access) == None
  {
    if Lookup(t.sessions, x.access).Some? {
      var i := PositionOf(t.sessions, x.access);
      var s := t.sessions + [x];
      assert s[i].access == s[|t.sessions|].access;
      assert !Distinct(s);
    } else {
      AppendLinked(t, x);
    }
  }

  lemma InsertLinked(cfg: Config, t: Table, x: Session)
    requires Linked(t) && x.id == Store.IdOf(x.access)
    ensures Linked(Insert(cfg, t, x))
    ensures Insert(cfg, t, x).sessions == Store.Insert(cfg, t.sessions, x)
  {
    hide Linked, Lookup, Without, Drop;
    var others := Drop(t, x.access);
    DropLinked(t, x.access);
    LookupWithout(t.sessions, x.access, x.access);
    if cfg.maxSize > 0 && |others.sessions| >= cfg.maxSize {
      var first := others.sessions[0].access;
      DropLinked(others, first);
      WithoutAt(others.sessions, 0);
      LookupWithout(others.sessions, first, x.access);
      AppendLinkedIffUnused(Drop(others, first), x);
    } else {
      AppendLinkedIffUnused(others, x);
    }
  }

  /** Refresh's lock section keeps the agreement exactly when the new token is unused or the one replaced. */
  lemma RefreshLinkedIffFresh(t: Table, token: string, y: Session)
    requires Linked(t) && Lookup(t.sessions, token).Some?
    requires y.id == Store.IdOf(y.access)
    ensures Linked(Append(Drop(t, token), y)) <==> y.access == token || Lookup(t.sessions, y.access) == None
  {
    DropLinked(t, token);
    LookupWithout(t.sessions, token, y.access);
    AppendLinkedIffUnused(Drop(t, token), y);
  }

  lemma ClearFrontLinked(t: Table)
    requires Linked(t) && t.sessions != []
    ensures Linked(ClearFront(t)) && ClearFront(t).sessions == t.sessions[1..]
  {
    RemoveLinked(t, t.sessions[0], true);
    WithoutAt(t.sessions, 0);
    assert t.sessions[..0] + t.sessions[1..] == t.sessions[1..];
  }

  lemma {:induction false} ClearFirstLinked(t: Table, n: nat)
    requires Linked(t) && n <= |t.sessions|
    ensures Linked(ClearFirst(t, n)) && ClearFirst(t, n).sessions == t.sessions[n..]
    decreases n
  {
    if n > 0 {
      ClearFrontLinked(t);
      ClearFirstLinked(ClearFront(t), n - 1);
    }
  }

  lemma SetDataLinked(t: Table, token: string, data: map<string, Bytes>)
    requires Linked(t)
    ensures Linked(SetData(t, token, data))
  {
    SetDataAt(t.sessions, token, data);
    forall other
      ensures Lookup(SetData(t, token, data).sessions, other)
           == match Lookup(t.sessions, other)
              case None => None
              case Some(x) => Some(if other == token then x.(data := data) else x)
    {
      LookupSetData(t.sessions, token, data, other);
    }
  }

  lemma {:induction false} WithoutAllMembers(s: seq<Session>, tokens: seq<string>)
    ensures forall x :: x in WithoutAll(s, tokens) <==> x in s && x.access !in tokens
    decreases |tokens|
  {
    if tokens != [] {
      WithoutMembers(s, tokens[0]);
      WithoutAllMembers(Without(s, tokens[0]), tokens[1..]);
      assert tokens == [tokens[0]] + tokens[1..];
    }
  }

  lemma {:induction false} WithoutAllSize(s: seq<Session>, tokens: seq<string>)
    ensures |WithoutAll(s, tokens)| <= |s|
    decreases |tokens|
  {
    if tokens != [] {
      WithoutSize(s, tokens[0]);
      WithoutAllSize(Without(s, tokens[0]), tokens[1..]);
    }
  }

  lemma {:induction false} WithoutAllCons(x: Session, s: seq<Session>, tokens: seq<string>)
    ensures WithoutAll([x] + s, tokens) == (if x.access in tokens then [] else [x]) + WithoutAll(s, tokens)
    decreases |tokens|
  {
    if tokens != [] {
      WithoutCons(x, s, tokens[0]);
      assert tokens == [tokens[0]] + tokens[1..];
      if x.access == tokens[0] {
        assert Without([x] + s, tokens[0]) == Without(s, tokens[0]);
      } else {
        WithoutAllCons(x, Without(s, tokens[0]), tokens[1..]);
      }
    }
  }

  lemma {:induction false} WithoutAllOfNone(tokens: seq<string>)
    ensures WithoutAll([], tokens) == []
    decreases |tokens|
  {
    if tokens != [] {
      WithoutAllOfNone(tokens[1..]);
    }
  }

  lemma {:induction false} WithoutAllIsWithoutId(s: seq<Session>, tokens: seq<string>, id: string)
    requires forall x :: x in s ==> (x.access in tokens <==> x.id == id)
    ensures WithoutAll(s, tokens) == WithoutId(s, id)
  {
    if s == [] {
      WithoutAllOfNone(tokens);
    } else {
      assert s == [s[0]] + s[1..];
      WithoutAllCons(s[0], s[1..], tokens);
      WithoutAllIsWithoutId(s[1..], tokens, id);
    }
  }

  lemma LookupOfMember(s: seq<Session>, x: Session)
    requires Distinct(s) && x in s
    ensures Lookup(s, x.access) == Some(x)
  {
    var i :| 0 <= i < |s| && s[i] == x;
    WithoutAt(s, i);
  }

  /** Destroying by id through the index removes exactly the sessions of that id, and never looks up a token
      that is not stored. */
  lemma DropIdLinked(t: Table, id: string)
    requires Linked(t)
    ensures Linked(DropId(t, id))
    ensures DropId(t, id).sessions == WithoutId(t.sessions, id)
    ensures forall token :: token in Filed(t.ids, id) ==> Lookup(t.sessions, token).Some?
  {
    var tokens := Filed(t.ids, id);
    forall x | x in t.sessions
      ensures x.access in tokens <==> x.id == id
    {
      LookupOfMember(t.sessions, x);
    }
    WithoutAllIsWithoutId(t.sessions, tokens, id);
    WithoutIdDistinct(t.sessions, id);
    var s, ids := DropId(t, id).sessions, t.ids - {id};
    forall token
      ensures Lookup(s, token)
           == match Lookup(t.sessions, token)
              case None => None
              case Some(x) => if x.id == id then None else Some(x)
    {
      LookupWithoutId(t.sessions, id, token);
    }
    forall other | other != id
      ensures Filed(ids, other) == Filed(t.ids, other)
    {
    }
  }

  lemma {:induction false} WithoutAllSnoc(s: seq<Session>, tokens: seq<string>, token: string)
    ensures WithoutAll(s, tokens + [token]) == Without(WithoutAll(s, tokens), token)
    decreases |tokens|
  {
    if tokens == [] {
      assert tokens + [token] == [token];
      assert WithoutAll(Without(s, token), [token][1..]) == Without(s, token);
    } else {
      assert (tokens + [token])[1..] == tokens[1..] + [token];
      WithoutAllSnoc(Without(s, tokens[0]), tokens[1..], token);
    }
  }

  lemma {:induction false} WithoutAllLookup(s: seq<Session>, tokens: seq<string>, token: string)
    requires Distinct(s)
    ensures Distinct(WithoutAll(s, tokens))
    ensures token !in tokens ==> Lookup(WithoutAll(s, tokens), token) == Lookup(s, token)
    decreases |tokens|
  {
    hide Distinct, Without, Lookup;
    if tokens != [] {
      LookupWithout(s, tokens[0], token);
      WithoutDistinct(s, tokens[0]);
      WithoutAllLookup(Without(s, tokens[0]), tokens[1..], token);
      assert tokens == [tokens[0]] + tokens[1..];
    }
  }

  /** One step of Destroy's loop: the next listed token is still stored, and its removal is the next prefix. */
  lemma WithoutAllNext(t: Table, id: string, i: nat)
    requires Linked(t) && i < |Filed(t.ids, id)|
    ensures
      var tokens := Filed(t.ids, id);
      var s := WithoutAll(t.sessions, tokens[..i]);
      && Distinct(s) && Lookup(s, tokens[i]).Some?
      && WithoutAll(t.sessions, tokens[..i + 1]) == Without(s, tokens[i])
  {
    hide Without, Lookup, WithoutAll;
    var tokens := Filed(t.ids, id);
    assert tokens[i] !in tokens[..i];
    WithoutAllLookup(t.sessions, tokens[..i], tokens[i]);
    assert tokens[..i + 1] == tokens[..i] + [tokens[i]];
    WithoutAllSnoc(t.sessions, tokens[..i], tokens[i]);
    assert tokens[i] in t.ids[id];
  }

  lemma ClearNone(t: Table)
    ensures ClearFirst(t, 0) == t
  {
  }

  lemma DropNone(t: Table)
    ensures DropAll(t, []) == t
  {
  }

  /** One more round of the timer's loop. */
  lemma {:induction false} ClearFirstNext(t: Table, n: nat)
    requires ClearFirst(t, n).sessions != []
    ensures ClearFirst(t, n + 1) == ClearFront(ClearFirst(t, n))
    decreases n
  {
    if n > 0 && t.sessions != [] {
      ClearFirstNext(ClearFront(t), n - 1);
    }
  }

  lemma {:induction false} DropAllSnoc(t: Table, tokens: seq<string>, token: string)
    ensures DropAll(t, tokens + [token]) == Drop(DropAll(t, tokens), token)
    decreases |tokens|
  {
    if tokens == [] {
      assert tokens + [token] == [token];
      assert DropAll(Drop(t, token), [token][1..]) == Drop(t, token);
    } else {
      assert (tokens + [token])[1..] == tokens[1..] + [token];
      DropAllSnoc(Drop(t, tokens[0]), tokens[1..], token);
    }
  }

  lemma {:induction false} WithoutAllIsDropDead(s: seq<Session>, tokens: seq<string>, t: int)
    requires forall x :: x in s && x.access in tokens ==> x.Dead(t)
    ensures WithoutAll(s, tokens) == DropDead(s, (set token | token in tokens), t)
  {
    if s == [] {
      WithoutAllOfNone(tokens);
    } else {
      assert s == [s[0]] + s[1..];
      WithoutAllCons(s[0], s[1..], tokens);
      WithoutAllIsDropDead(s[1..], tokens, t);
    }
  }

  lemma NothingFiled(t: Table, id: string)
    requires id !in t.ids
    ensures DropId(t, id).sessions == t.sessions
  {
  }

  lemma DropSorted(t: Table, token: string)
    requires Linked(t) && Sorted(t.sessions)
    ensures Sorted(Drop(t, token).sessions)
  {
    hide Linked, Lookup, Without;
    LinkedDistinct(t);
    DropLinked(t, token);
    if Lookup(t.sessions, token).Some? {
      var i := PositionOf(t.sessions, token);
      WithoutAt(t.sessions, i);
    } else {
      WithoutNone(t.sessions, token);
    }
  }

  lemma RoomSorted(cfg: Config, t: Table, token: string)
    requires Linked(t) && Sorted(t.sessions)
    ensures Sorted(Room(cfg, t, token).sessions)
  {
    hide Linked, Drop, Sorted;
    var others := Drop(t, token);
    DropLinked(t, token);
    DropSorted(t, token);
    if cfg.maxSize > 0 && |others.sessions| >= cfg.maxSize {
      DropSorted(others, others.sessions[0].access);
    }
  }
}
