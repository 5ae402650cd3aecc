/** Refreshing onto a token that is still stored. To a client the token of a dead session is free; to the timer, which
    takes sessions out by token, it is not. */
module Clashes {
  import opened Basics
  import opened Sessions
  import opened Workers
  import Index
  import Runs
  import Store
  import Tokens

  /** The sessions after `n` rounds of the timer. */
  function Rounds(s: seq<Session>, n: nat): seq<Session>
    decreases n
  {
    if n == 0 || s == [] then s else Rounds(Without(s, s[0].access), n - 1)
  }

  lemma {:induction false} ClearFirstRounds(t: Index.Table, n: nat)
    ensures Index.ClearFirst(t, n).sessions == Rounds(t.sessions, n)
    decreases n
  {
    if n > 0 && t.sessions != [] {
      ClearFirstRounds(Index.ClearFront(t), n - 1);
    }
  }

  // ---------------------------------------------------------------- what the rounds keep and what they lose

  lemma {:induction false} RoundsMembers(s: seq<Session>, n: nat)
    ensures forall z :: z in Rounds(s, n) ==> z in s
    decreases n
  {
    if n > 0 && s != [] {
      WithoutMembers(s, s[0].access);
      RoundsMembers(Without(s, s[0].access), n - 1);
    }
  }

  /** Where a session of another token is after a removal. */
  lemma {:induction false} WithoutIndex(s: seq<Session>, token: string, i: nat) returns (j: nat)
    requires i < |s| && s[i].access != token
    ensures j <= i && j < |Without(s, token)| && Without(s, token)[j] == s[i]
    ensures s[0].access == token ==> j < i
  {
    if i == 0 {
      j := 0;
    } else {
      j := WithoutIndex(s[1..], token, i - 1);
      if s[0].access == token {
        assert Without(s, token) == Without(s[1..], token);
      } else {
        assert Without(s, token)[1..] == Without(s[1..], token);
        j := j + 1;
      }
    }
  }

  /** Rounds that reach position `i` lose every session of its token. */
  lemma {:induction false} RoundsForget(s: seq<Session>, n: nat, i: nat)
    requires i < n && i < |s|
    ensures forall z :: z in Rounds(s, n) ==> z.access != s[i].access
    decreases n
  {
    hide Without;
    var rest := Without(s, s[0].access);
    WithoutMembers(s, s[0].access);
    if s[i].access == s[0].access {
      RoundsMembers(rest, n - 1);
    } else {
      var j := WithoutIndex(s, s[0].access, i);
      RoundsForget(rest, n - 1, j);
    }
  }

  lemma FrontCut(s: seq<Session>)
    requires s != [] && Distinct(s)
    ensures Without(s, s[0].access) == s[1..] && Distinct(s[1..])
  {
    hide Without;
    WithoutAt(s, 0);
    assert s[..0] + s[1..] == s[1..];
  }

  lemma {:induction false} RoundsOfDistinct(s: seq<Session>, n: nat)
    requires Distinct(s) && n <= |s|
    ensures Rounds(s, n) == s[n..]
    decreases n
  {
    hide Without, Distinct;
    if n > 0 {
      FrontCut(s);
      RoundsOfDistinct(s[1..], n - 1);
    }
  }

  lemma {:induction false} LiveSkip(s: seq<Session>, n: nat, t: int)
    requires n <= |s| && forall i :: 0 <= i < n ==> s[i].Dead(t)
    ensures Live(s[n..], t) == Live(s, t)
  {
    if n > 0 {
      LiveSkip(s[1..], n - 1, t);
      assert s[1..][n - 1..] == s[n..];
    }
  }

  lemma {:induction false} NoneLive(s: seq<Session>, t: int)
    requires forall z :: z in s ==> z.Dead(t)
    ensures Live(s, t) == []
  {
    if s != [] {
      assert s[0] in s;
      NoneLive(s[1..], t);
    }
  }

  /** One round. */
  lemma RoundRest(s: seq<Session>, y: Session)
    requires s != [] && Distinct(s)
    ensures Without(s + [y], s[0].access) == s[1..] + (if y.access == s[0].access then [] else [y])
    ensures Distinct(s[1..])
  {
    hide Without, Distinct;
    FrontCut(s);
    WithoutConcat(s, [y], s[0].access);
    WithoutOne(y, s[0].access);
  }

  lemma WithoutOne(y: Session, token: string)
    ensures Without([y], token) == if y.access == token then [] else [y]
  {
  }

  /** A dead front does not matter. */
  lemma LiveRest(s: seq<Session>, y: Session, t: int)
    requires s != [] && s[0].Dead(t)
    ensures Live(s + [y], t) == Live(s[1..] + [y], t)
    ensures y.Dead(t) ==> Live(s[1..] + [y], t) == Live(s[1..], t)
  {
    hide Live;
    assert s + [y] == [s[0]] + (s[1..] + [y]);
    LiveCons(s[0], s[1..] + [y], t);
    LiveAppend(s[1..], y, t);
    if y.Dead(t) {
      NoneLive([y], t);
    }
  }

  /** Sessions of distinct tokens, and one more at the end. Rounds through dead ones lose no live session as long as the
      last one is dead or shares its token with none of those in front of it that go. */
  lemma {:induction false} RoundsKeepLive(s: seq<Session>, y: Session, n: nat, t: int)
    requires Distinct(s) && n <= |s| && forall i :: 0 <= i < n ==> s[i].Dead(t)
    requires y.Dead(t) || forall i :: 0 <= i < n ==> s[i].access != y.access
    ensures Live(Rounds(s + [y], n), t) == Live(s + [y], t)
    decreases n
  {
    hide Without, Live, Distinct;
    if n > 0 {
      assert (s + [y])[0] == s[0];
      RoundRest(s, y);
      LiveRest(s, y, t);
      if y.access == s[0].access {
        assert s[1..] + [] == s[1..];
        RoundsOfDistinct(s[1..], n - 1);
        LiveSkip(s[1..], n - 1, t);
      } else {
        RoundsKeepLive(s[1..], y, n - 1, t);
      }
    }
  }

  /** How many sessions at the front are dead. */
  function DeadPrefix(s: seq<Session>, t: int): (n: nat)
    ensures TickOutcome(s, n, t)
  {
    if s == [] || !s[0].Dead(t) then 0 else 1 + DeadPrefix(s[1..], t)
  }

  // ---------------------------------------------------------------- when a refresh is safe from the timer

  /** No pass of the timer, at any time, takes a live session. */
  ghost predicate SafeFromTimer(s: seq<Session>) {
    forall n: nat, t :: TickOutcome(s, n, t) ==> Live(Rounds(s, n), t) == Live(s, t)
  }

  /** Position `i` holds the token of the last session, which outlives every session up to there. */
  ghost predicate Exposed(s: seq<Session>, i: nat) {
    && i < |s| - 1 && s[i].access == s[|s| - 1].access
    && forall j :: 0 <= j <= i ==> s[j].refreshDeadline < s[|s| - 1].refreshDeadline
  }

  /** Distinct sessions and one more at the end are safe from the timer exactly when no other session holds the last
      one's token in a place where the timer comes by while the last one lives. */
  lemma SafeIff(s: seq<Session>, y: Session)
    requires Distinct(s)
    ensures SafeFromTimer(s + [y]) <==> forall i: nat :: !Exposed(s + [y], i)
  {
    hide Live, Rounds, Distinct;
    var a := s + [y];
    if i: nat :| Exposed(a, i) {
      Unsafe(a, i);
    } else {
      forall n: nat, t | TickOutcome(a, n, t)
        ensures Live(Rounds(a, n), t) == Live(a, t)
      {
        Safe(s, y, n, t);
      }
    }
  }

  lemma Unsafe(a: seq<Session>, i: nat)
    requires Exposed(a, i)
    ensures !SafeFromTimer(a)
  {
    hide Live, Rounds;
    var y := a[|a| - 1];
    var t := y.refreshDeadline - 1;
    var n := DeadPrefix(a, t);
    assert TickOutcome(a, n, t);
    assert n <= i ==> a[n].Dead(t);
    RoundsForget(a, n, i);
    LiveMembers(a, t);
    LiveMembers(Rounds(a, n), t);
    assert y in a && y in Live(a, t) && y !in Live(Rounds(a, n), t);
  }

  lemma Safe(s: seq<Session>, y: Session, n: nat, t: int)
    requires Distinct(s) && TickOutcome(s + [y], n, t)
    requires forall i: nat :: !Exposed(s + [y], i)
    ensures Live(Rounds(s + [y], n), t) == Live(s + [y], t)
  {
    hide Live, Rounds, Distinct;
    var a := s + [y];
    assert forall i :: 0 <= i < |s| ==> a[i] == s[i];
    if n == |a| {
      assert a[|s|] == y;
      RoundsMembers(a, n);
      NoneLive(a, t);
      NoneLive(Rounds(a, n), t);
    } else {
      if i: nat :| i < n && s[i].access == y.access {
        assert !Exposed(a, i);
        var j :| 0 <= j <= i && a[j].refreshDeadline >= y.refreshDeadline;
        assert a[j].Dead(t);
      }
      RoundsKeepLive(s, y, n, t);
    }
  }

  /** What a Refresh that succeeds leaves is safe from the timer when its target was clean among all stored sessions,
      dead ones included; otherwise exactly when the refreshed session is not exposed. */
  lemma RefreshSafeIff(cfg: Config, s: seq<Session>, op: Store.Op, now: int, later: int)
    requires Distinct(s) && Store.Rotates(s, op, now)
    ensures Store.LazyAct(cfg, s, op, now, later).state.Open?
    ensures
      var after := Store.LazyAct(cfg, s, op, now, later).state.sessions;
      && (SafeFromTimer(after) <==> forall i: nat :: !Exposed(after, i))
      && (Store.FreshTarget(s, op) ==> SafeFromTimer(after))
  {
    hide Lookup, Without, Distinct, SafeFromTimer;
    var y := Rotate(cfg, Lookup(s, op.access).value, op.newAccess, op.newRefresh, later);
    var rest := Without(s, op.access);
    WithoutDistinct(s, op.access);
    SafeIff(rest, y);
    if Store.FreshTarget(s, op) {
      LookupWithout(s, op.access, op.newAccess);
      assert forall i :: 0 <= i < |rest| ==> (rest + [y])[i] == rest[i] && rest[i].access != op.newAccess;
    }
  }

  /** On a list sorted by deadline, with every deadline before the renewed one, that is exactly when the target was
      clean. */
  lemma RefreshSafeIffFresh(cfg: Config, s: seq<Session>, op: Store.Op, now: int, later: int)
    requires Distinct(s) && Sorted(s) && Store.Rotates(s, op, now)
    requires forall i :: 0 <= i < |s| ==> s[i].refreshDeadline < later + cfg.refresh
    ensures Store.LazyAct(cfg, s, op, now, later).state.Open?
    ensures SafeFromTimer(Store.LazyAct(cfg, s, op, now, later).state.sessions) <==> Store.FreshTarget(s, op)
  {
    hide Lookup, Without, Distinct, SafeFromTimer, Sorted;
    RefreshSafeIff(cfg, s, op, now, later);
    if !Store.FreshTarget(s, op) {
      TargetPlace(cfg, s, op, now, later);
    }
  }

  /** A target in use, on a sorted list, exposes the refreshed session if it dies first. */
  lemma TargetPlace(cfg: Config, s: seq<Session>, op: Store.Op, now: int, later: int)
    requires Distinct(s) && Sorted(s) && Store.Rotates(s, op, now) && !Store.FreshTarget(s, op)
    requires Lookup(s, op.newAccess).value.refreshDeadline < later + cfg.refresh
    ensures exists i: nat :: Exposed(Store.LazyAct(cfg, s, op, now, later).state.sessions, i)
  {
    hide Lookup, Without, Distinct, Sorted;
    var y := Rotate(cfg, Lookup(s, op.access).value, op.newAccess, op.newRefresh, later);
    var rest := Without(s, op.access);
    LookupWithout(s, op.access, op.newAccess);
    var i := PositionOf(rest, op.newAccess);
    WithoutSorted(s, op.access);
    SortedTo(rest, i);
    assert (rest + [y])[|rest|] == y && forall j :: 0 <= j <= i ==> (rest + [y])[j] == rest[j];
    assert Store.LazyAct(cfg, s, op, now, later).state.sessions == rest + [y];
    assert Exposed(rest + [y], i);
  }

  /** So a refresh onto the token of a dead session is never safe there, although to a client, who sees live sessions
      only, the token is free. */
  lemma DeadTargetUnsafe(cfg: Config, s: seq<Session>, op: Store.Op, now: int, later: int)
    requires Distinct(s) && Sorted(s) && Store.Rotates(s, op, now)
    requires op.newAccess != op.access && DeadAt(s, op.newAccess, now) && now <= later && cfg.refresh > 0
    ensures Store.FreshTarget(Live(s, now), op) && Store.LazyAct(cfg, s, op, now, later).state.Open?
    ensures !SafeFromTimer(Store.LazyAct(cfg, s, op, now, later).state.sessions)
  {
    hide Lookup, Distinct, SafeFromTimer, Live, Sorted;
    LiveLookup(s, op.newAccess, now);
    RefreshSafeIff(cfg, s, op, now, later);
    TargetPlace(cfg, s, op, now, later);
  }

  lemma SortedTo(s: seq<Session>, i: nat)
    requires Sorted(s) && i < |s|
    ensures forall j :: 0 <= j <= i ==> s[j].refreshDeadline <= s[i].refreshDeadline
  {
  }

  lemma WithoutSorted(s: seq<Session>, token: string)
    requires Distinct(s) && Sorted(s)
    ensures Sorted(Without(s, token))
  {
    hide Lookup, Without;
    if Lookup(s, token).Some? {
      var i := PositionOf(s, token);
      WithoutAt(s, i);
    } else {
      WithoutNone(s, token);
    }
  }

  // ---------------------------------------------------------------- a failing run

  const TEN: Config := Config(10, 10, -1)

  function Dying(): Session { Runs.MadeAt('a', 0) }

  function Living(): Session { Runs.MadeAt('b', 5) }

  /** Two sessions of one id, and the clock at a moment between their deadlines. */
  function TwoStored(): seq<Action> {
    [StampAt('a', 0), Insert(Runs.CreateAt('a', 0)), Advance(5), StampAt('b', 5), Insert(Runs.CreateAt('b', 5))]
    + [Advance(12)]
  }

  function Onto(): Action {
    Refresh(Living().access, Living().refresh, Dying().access, ['u', '.', 'c', '.', 'y'], 12)
  }

  function Renewed(): Session {
    Session("u", Dying().access, ['u', '.', 'c', '.', 'y'], 22, 22, map[])
  }

  lemma ReachesTwo() returns (s: System)
    ensures Reaches(TEN, 1, Start(0), TwoStored(), s) && CleanRun(TEN, Start(0), TwoStored())
    ensures s.table.sessions == [Dying(), Living()] && Index.Linked(s.table) && s.now == 12 && !s.closed
  {
    hide Index.Insert, Reaches, CleanRun, Next, Enabled, Index.Linked, Store.IdOf, Store.CheckToken;
    var a, b := Runs.CreateAt('a', 0), Runs.CreateAt('b', 5);
    var s1 := Start(0).(stamped := multiset{a});
    var s2 := Start(0).(table := Index.Insert(TEN, Start(0).table, Dying()));
    var s3 := s2.(now := 5);
    var s4 := s3.(stamped := multiset{b});
    var s5 := s3.(table := Index.Insert(TEN, s4.table, Living()));
    assert multiset{a} - multiset{a} == multiset{} && multiset{b} - multiset{b} == multiset{};
    StampNow(TEN, Start(0), 'a');
    InsertNow(TEN, s1, 'a', 0);
    AdvanceNow(TEN, s2, 5);
    StampNow(TEN, s3, 'b');
    InsertNow(TEN, s4, 'b', 5);
    AdvanceNow(TEN, s5, 12);
    s := s5.(now := 12);
    TwoReached(s1, s2, s3, s4, s5, s);
    TwoInserted();
  }

  lemma TwoReached(s1: System, s2: System, s3: System, s4: System, s5: System, s: System)
    requires Enabled(TEN, 1, Start(0), StampAt('a', 0)) && s1 == Next(TEN, Start(0), StampAt('a', 0))
    requires Enabled(TEN, 1, s1, Insert(Runs.CreateAt('a', 0))) && s2 == Next(TEN, s1, Insert(Runs.CreateAt('a', 0)))
    requires Enabled(TEN, 1, s2, Advance(5)) && s3 == Next(TEN, s2, Advance(5))
    requires Enabled(TEN, 1, s3, StampAt('b', 5)) && s4 == Next(TEN, s3, StampAt('b', 5))
    requires Enabled(TEN, 1, s4, Insert(Runs.CreateAt('b', 5))) && s5 == Next(TEN, s4, Insert(Runs.CreateAt('b', 5)))
    requires Enabled(TEN, 1, s5, Advance(12)) && s == Next(TEN, s5, Advance(12))
    ensures Reaches(TEN, 1, Start(0), TwoStored(), s) && CleanRun(TEN, Start(0), TwoStored())
  {
    hide Enabled, Next, Reaches, CleanRun;
    var acts :=
      [StampAt('a', 0), Insert(Runs.CreateAt('a', 0)), Advance(5), StampAt('b', 5), Insert(Runs.CreateAt('b', 5))];
    ReachesFive(TEN, acts, Start(0), s1, s2, s3, s4, s5);
    ReachesSnoc(TEN, 1, Start(0), acts, s5, Advance(12));
  }

  lemma TwoInserted()
    ensures
      var t := Index.Insert(TEN, Index.Insert(TEN, Index.Table([], map[]), Dying()), Living());
      t.sessions == [Dying(), Living()] && Index.Linked(t)
  {
    hide Index.Insert, Index.Linked, Store.IdOf;
    var empty := Index.Table([], map[]);
    Store.SplitsAs('a', 'x');
    Store.SplitsAs('b', 'x');
    Index.NothingLinked();
    Index.InsertLinked(TEN, empty, Dying());
    Index.InsertLinked(TEN, Index.Insert(TEN, empty, Dying()), Living());
    assert Dying().access[2] != Living().access[2];
    assert Store.Insert(TEN, [], Dying()) == [Dying()];
    WithoutNone([Dying()], Living().access);
    assert [Dying()] + [Living()] == [Dying(), Living()];
  }

  lemma OntoEnabled(s: System)
    requires s.now == 12 && !s.closed
    ensures Enabled(TEN, 1, s, Onto())
  {
    hide Store.IdOf, Tokens.Split;
    Store.SplitsAs('a', 'x');
    Store.SplitsAs('b', 'x');
    Store.SplitsAs('b', 'y');
    Store.SplitsAs('c', 'y');
    RefreshAccepted(Onto().access, Onto().refresh, Onto().newAccess, Onto().newRefresh);
  }

  lemma RefreshAccepted(access: string, refresh: string, newAccess: string, newRefresh: string)
    requires Store.CheckToken(access) == None && Store.IdOf(access) == "u"
    requires Store.CheckToken(refresh) == None && Store.IdOf(refresh) == "u"
    requires Store.CheckToken(newAccess) == None && Store.IdOf(newAccess) == "u"
    requires Store.CheckToken(newRefresh) == None && Store.IdOf(newRefresh) == "u"
    ensures Store.Reject(Store.Refresh(access, refresh, newAccess, newRefresh)) == None
  {
    hide Tokens.Split, Store.CheckId;
    AllOfId("u", [refresh, newAccess, newRefresh]);
  }

  lemma {:induction false} AllOfId(id: string, tokens: seq<string>)
    requires forall i :: 0 <= i < |tokens| ==> Store.CheckToken(tokens[i]) == None && Store.IdOf(tokens[i]) == id
    ensures Store.CheckId(id, tokens) == None
  {
    hide Tokens.Split;
    if tokens != [] {
      AllOfId(id, tokens[1..]);
    }
  }

  lemma OntoTable(s: System)
    requires s.table.sessions == [Dying(), Living()] && Index.Linked(s.table) && s.now == 12
    ensures NextTable(TEN, s, Onto()).sessions == [Dying(), Renewed()]
    ensures Store.FreshTarget(Live(s.table.sessions, 12),
                              Store.Refresh(Onto().access, Onto().refresh, Onto().newAccess, Onto().newRefresh))
  {
    hide Index.Linked, Index.Drop;
    assert Dying().access[2] != Living().access[2];
    Index.DropLinked(s.table, Living().access);
    assert Lookup([Dying(), Living()], Living().access) == Some(Living());
    assert Without([Dying(), Living()], Living().access) == [Dying()];
    LiveCons(Dying(), [Living()], 12);
    assert [Dying()] + [Living()] == [Dying(), Living()];
    LiveCons(Living(), [], 12);
    assert [Living()] + [] == [Living()];
  }

  /** A run from the empty store: a live session is refreshed onto the token of one that has died and is still stored,
      and the timer's next round takes it. To a client the token was free, and no Create has evicted anything. */
  lemma TimerTakesLive() returns (s: System, mid: System)
    ensures Reaches(TEN, 1, Start(0), TwoStored(), s) && CleanRun(TEN, Start(0), TwoStored())
    ensures Enabled(TEN, 1, s, Onto()) && mid == Next(TEN, s, Onto())
    ensures Store.FreshTarget(Live(s.table.sessions, 12),
                              Store.Refresh(Onto().access, Onto().refresh, Onto().newAccess, Onto().newRefresh))
    ensures Enabled(TEN, 1, mid, Tick(1, 12))
    ensures Live(mid.table.sessions, 12) == [Renewed()]
    ensures Live(Next(TEN, mid, Tick(1, 12)).table.sessions, 12) == []
  {
    hide Reaches, CleanRun, Next, NextTable, Index.Linked, Store.Reject, Store.FreshTarget, Live;
    s := ReachesTwo();
    OntoEnabled(s);
    OntoTable(s);
    mid := Next(TEN, s, Onto());
    NextParts(TEN, s, Onto());
    TickTakes(mid);
  }

  lemma TickTakes(mid: System)
    requires mid.table.sessions == [Dying(), Renewed()] && !mid.closed && mid.now <= 12
    ensures Enabled(TEN, 1, mid, Tick(1, 12))
    ensures Live(mid.table.sessions, 12) == [Renewed()]
    ensures Live(Next(TEN, mid, Tick(1, 12)).table.sessions, 12) == []
  {
    hide Index.ClearFirst;
    ClearFirstRounds(mid.table, 1);
    LiveCons(Dying(), [Renewed()], 12);
    assert [Dying()] + [Renewed()] == [Dying(), Renewed()];
    LiveCons(Renewed(), [], 12);
    assert [Renewed()] + [] == [Renewed()];
    assert Without([Dying(), Renewed()], Dying().access) == [];
  }
}
