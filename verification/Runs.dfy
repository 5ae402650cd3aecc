/** Whole runs: client calls interleaved with cleaning, on the lazy store and as clients should see them. */
module Runs {
  import opened Basics
  import opened Sessions
  import opened Store

  /** A client call, or a cleaning step that drops those of `victims` that are dead at `at`. The timer, the
      batched worker and any cleaning a back end adds are all of the second kind. */
  datatype Event =
    | Call(op: Op, now: int, later: int)
    | Clean(victims: set<string>, at: int)

  datatype Run = Run(state: State, replies: seq<Reply>)

  function Cleaned(st: State, victims: set<string>, at: int): State {
    match st
    case Open(s) => Open(DropDead(s, victims, at))
    case Closed => Closed
  }

  function After(cfg: Config, st: State, ev: Event): State {
    match ev
    case Call(op, now, later) => LazyStep(cfg, st, op, now, later).state
    case Clean(victims, at) => Cleaned(st, victims, at)
  }

  function LazyRun(cfg: Config, st: State, evs: seq<Event>): Run
    decreases |evs|
  {
    if evs == [] then Run(st, [])
    else
      var rest := LazyRun(cfg, After(cfg, st, evs[0]), evs[1..]);
      match evs[0]
      case Call(op, now, later) => Run(rest.state, [LazyStep(cfg, st, op, now, later).reply] + rest.replies)
      case Clean(_, _) => rest
  }

  /** The same client calls on a store that holds live sessions only and is never cleaned. */
  function EagerRun(cfg: Config, st: State, evs: seq<Event>): Run
    decreases |evs|
  {
    if evs == [] then Run(st, [])
    else
      match evs[0]
      case Clean(_, _) => EagerRun(cfg, st, evs[1..])
      case Call(op, now, later) =>
        var out := EagerStep(cfg, st, op, now, later);
        var rest := EagerRun(cfg, out.state, evs[1..]);
        Run(rest.state, [out.reply] + rest.replies)
  }

  /** The replies of one event: a call's one, or none. */
  function Replies(cfg: Config, st: State, ev: Event): seq<Reply> {
    match ev
    case Call(op, now, later) => [LazyStep(cfg, st, op, now, later).reply]
    case Clean(_, _) => []
  }

  lemma RunCons(cfg: Config, st: State, ev: Event, rest: seq<Event>)
    ensures LazyRun(cfg, st, [ev] + rest)
         == Run(LazyRun(cfg, After(cfg, st, ev), rest).state,
                Replies(cfg, st, ev) + LazyRun(cfg, After(cfg, st, ev), rest).replies)
    ensures ev.Call? ==>
      var out := EagerStep(cfg, st, ev.op, ev.now, ev.later);
      EagerRun(cfg, st, [ev] + rest).replies == [out.reply] + EagerRun(cfg, out.state, rest).replies
  {
    hide LazyStep, EagerStep;
    assert ([ev] + rest)[1..] == rest;
    assert [] + LazyRun(cfg, After(cfg, st, ev), rest).replies == LazyRun(cfg, After(cfg, st, ev), rest).replies;
  }

  function Calls(evs: seq<Event>): seq<Event> {
    if evs == [] then []
    else (if evs[0].Call? then [evs[0]] else []) + Calls(evs[1..])
  }

  function At(ev: Event): int { if ev.Call? then ev.now else ev.at }

  function Stamped(ev: Event, stamp: int): int {
    if ev.Call? then NextStamp(ev.op, ev.later, stamp) else stamp
  }

  /** Lock sections happen in order of time. Nothing is said of when Creates take their stamps. */
  ghost predicate Clocked(evs: seq<Event>, now: int)
    decreases |evs|
  {
    evs != [] ==> now <= At(evs[0]) && Clocked(evs[1..], At(evs[0]))
  }

  /** The same, and stamps are taken in the order in which sessions are inserted. */
  ghost predicate Timed(evs: seq<Event>, now: int, stamp: int)
    decreases |evs|
  {
    evs != [] ==>
      && now <= At(evs[0]) && stamp <= Stamped(evs[0], stamp)
      && Timed(evs[1..], At(evs[0]), Stamped(evs[0], stamp))
  }

  ghost predicate CleanTarget(st: State, ev: Event) {
    ev.Call? && st.Open? && Rotates(st.sessions, ev.op, ev.now) ==> FreshTarget(st.sessions, ev.op)
  }

  /** Every refresh that succeeds has a clean target at that moment: a token that is not stored, not even under a dead
      session, or the one it replaces. The module Clashes says what becomes of the others. */
  ghost predicate RunFresh(cfg: Config, st: State, evs: seq<Event>)
    decreases |evs|
  {
    evs != [] ==>
      && CleanTarget(st, evs[0])
      && RunFresh(cfg, After(cfg, st, evs[0]), evs[1..])
  }

  /** No Create evicts a live session while a dead one is stored. */
  ghost predicate InTurn(cfg: Config, st: State, evs: seq<Event>)
    decreases |evs|
  {
    evs != [] ==>
      && !(evs[0].Call? && OutOfTurn(cfg, st, evs[0].op, evs[0].now))
      && InTurn(cfg, After(cfg, st, evs[0]), evs[1..])
  }

  /** No call refreshes onto an access token that was handed out before, other than its own. This can be read
      off the calls alone. */
  ghost predicate NeverReissued(evs: seq<Event>, issued: set<string>)
    decreases |evs|
  {
    evs != [] ==>
      && (evs[0].Call? && evs[0].op.Refresh? ==>
            evs[0].op.newAccess == evs[0].op.access || evs[0].op.newAccess !in issued)
      && NeverReissued(evs[1..], issued + IssuedBy(evs[0]))
  }

  function IssuedBy(ev: Event): set<string> {
    match ev
    case Call(Create(access, _, _, _, _), _, _) => {access}
    case Call(Refresh(_, _, newAccess, _), _, _) => {newAccess}
    case _ => {}
  }

  // ---------------------------------------------------------------- what every event keeps

  lemma EventOrdered(cfg: Config, st: State, ev: Event, stamp: int)
    requires StateOrdered(cfg, st, stamp) && stamp <= Stamped(ev, stamp)
    requires CleanTarget(st, ev)
    ensures StateOrdered(cfg, After(cfg, st, ev), Stamped(ev, stamp))
  {
    match ev
    case Call(op, now, later) => StepOrdered(cfg, st, op, now, later, stamp);
    case Clean(victims, at) =>
      if st.Open? {
        DropDeadOrdered(cfg, st.sessions, victims, at, stamp);
      }
  }

  lemma EventKept(cfg: Config, st: State, ev: Event)
    requires StateKept(cfg, st) && CleanTarget(st, ev)
    ensures StateKept(cfg, After(cfg, st, ev))
  {
    match ev
    case Call(op, now, later) => StepKept(cfg, st, op, now, later);
    case Clean(victims, at) =>
      if st.Open? {
        DropDeadKept(cfg, st.sessions, victims, at);
      }
  }

  /** Every state a run reaches has distinct tokens and is within the cap, whatever order stamps are taken in. */
  lemma {:induction false} RunKept(cfg: Config, st: State, evs: seq<Event>)
    requires StateKept(cfg, st) && RunFresh(cfg, st, evs)
    ensures StateKept(cfg, LazyRun(cfg, st, evs).state)
    decreases |evs|
  {
    hide StateKept, CleanTarget;
    if evs != [] {
      EventKept(cfg, st, evs[0]);
      RunKept(cfg, After(cfg, st, evs[0]), evs[1..]);
    }
  }

  function LastStamp(evs: seq<Event>, stamp: int): int
    decreases |evs|
  {
    if evs == [] then stamp else LastStamp(evs[1..], Stamped(evs[0], stamp))
  }

  /** Every state a timed run reaches has distinct tokens, is sorted by refresh deadline and is within the cap. */
  lemma {:induction false} RunOrdered(cfg: Config, st: State, evs: seq<Event>, now: int, stamp: int)
    requires StateOrdered(cfg, st, stamp)
    requires Timed(evs, now, stamp) && RunFresh(cfg, st, evs)
    ensures StateOrdered(cfg, LazyRun(cfg, st, evs).state, LastStamp(evs, stamp))
    decreases |evs|
  {
    if evs != [] {
      EventOrdered(cfg, st, evs[0], stamp);
      RunOrdered(cfg, After(cfg, st, evs[0]), evs[1..], At(evs[0]), Stamped(evs[0], stamp));
    }
  }

  lemma SameLater(a: State, b: State, t: int, u: int)
    requires SameFrom(a, b, t) && t <= u
    ensures SameFrom(a, b, u)
  {
    if a.Open? && b.Open? {
      LiveLive(a.sessions, t, u);
      LiveLive(b.sessions, t, u);
    }
  }

  /** What the eager store does at an event: cleaning is not for it. */
  function EagerAfter(cfg: Config, st: State, ev: Event): State {
    match ev
    case Call(op, now, later) => EagerStep(cfg, st, op, now, later).state
    case Clean(_, _) => st
  }

  /** After every event of the run the two stores have the same live sessions, in the same order. */
  ghost predicate Tracks(cfg: Config, lazy: State, eager: State, evs: seq<Event>)
    decreases |evs|
  {
    evs != [] ==>
      && SameFrom(After(cfg, lazy, evs[0]), EagerAfter(cfg, eager, evs[0]), At(evs[0]))
      && Tracks(cfg, After(cfg, lazy, evs[0]), EagerAfter(cfg, eager, evs[0]), evs[1..])
  }

  lemma EventSameIff(cfg: Config, lazy: State, eager: State, ev: Event, now: int)
    requires StateKept(cfg, lazy) && SameFrom(lazy, eager, now) && now <= At(ev)
    ensures SameFrom(After(cfg, lazy, ev), EagerAfter(cfg, eager, ev), At(ev))
       <==> !(ev.Call? && OutOfTurn(cfg, lazy, ev.op, ev.now))
    ensures ev.Call? ==>
      LazyStep(cfg, lazy, ev.op, ev.now, ev.later).reply == EagerStep(cfg, eager, ev.op, ev.now, ev.later).reply
  {
    hide LazyStep, EagerStep, OutOfTurn, StateKept;
    SameLater(lazy, eager, now, At(ev));
    match ev
    case Call(op, t, later) => StepSameIff(cfg, lazy, eager, op, t, later);
    case Clean(victims, at) =>
      if lazy.Open? && eager.Open? {
        LiveDropDead(lazy.sessions, victims, at, at);
      }
  }

  /** The lazy store and the store of live sessions stay the same for clients throughout a run exactly when no Create
      evicts out of turn, and then they give the same replies. */
  lemma {:induction false} RunSameIff(cfg: Config, lazy: State, eager: State, evs: seq<Event>, now: int)
    requires StateKept(cfg, lazy) && SameFrom(lazy, eager, now)
    requires Clocked(evs, now) && RunFresh(cfg, lazy, evs)
    ensures Tracks(cfg, lazy, eager, evs) <==> InTurn(cfg, lazy, evs)
    ensures InTurn(cfg, lazy, evs) ==> LazyRun(cfg, lazy, evs).replies == EagerRun(cfg, eager, evs).replies
    decreases |evs|
  {
    hide LazyStep, EagerStep, OutOfTurn, StateKept, SameFrom, CleanTarget;
    if evs != [] {
      EventKept(cfg, lazy, evs[0]);
      EventSameIff(cfg, lazy, eager, evs[0], now);
      if !(evs[0].Call? && OutOfTurn(cfg, lazy, evs[0].op, evs[0].now)) {
        RunSameIff(cfg, After(cfg, lazy, evs[0]), EagerAfter(cfg, eager, evs[0]), evs[1..], At(evs[0]));
      }
    }
  }

  /** Lazy cleaning is invisible, whatever is cleaned and whenever and whatever order stamps are taken in. In a run of
      clean refreshes, as long as no Create evicts out of turn, every reply is that of a store from which sessions
      vanish the instant they die and which evicts its oldest live session at the cap; and both stores stay the same for
      clients no longer than that. */
  lemma LazinessInvisible(cfg: Config, evs: seq<Event>, now: int)
    requires Clocked(evs, now) && RunFresh(cfg, Open([]), evs)
    ensures Tracks(cfg, Open([]), Open([]), evs) <==> InTurn(cfg, Open([]), evs)
    ensures InTurn(cfg, Open([]), evs) ==>
      LazyRun(cfg, Open([]), evs).replies == EagerRun(cfg, Open([]), evs).replies
  {
    RunSameIff(cfg, Open([]), Open([]), evs, now);
  }

  /** Without a cap no Create evicts, so cleaning is always invisible. */
  lemma {:induction false} UncappedInTurn(cfg: Config, st: State, evs: seq<Event>)
    requires cfg.maxSize <= 0
    ensures InTurn(cfg, st, evs)
    decreases |evs|
  {
    hide LazyStep;
    if evs != [] {
      UncappedInTurn(cfg, After(cfg, st, evs[0]), evs[1..]);
    }
  }

  /** With stamps taken in list order the list is sorted, and every Create evicts in turn. */
  lemma {:induction false} TimedInTurn(cfg: Config, st: State, evs: seq<Event>, now: int, stamp: int)
    requires StateOrdered(cfg, st, stamp)
    requires Timed(evs, now, stamp) && RunFresh(cfg, st, evs)
    ensures Clocked(evs, now) && InTurn(cfg, st, evs)
    decreases |evs|
  {
    hide LazyStep, Ordered, EvictsOutOfTurn, CleanTarget;
    if evs != [] {
      EventOrdered(cfg, st, evs[0], stamp);
      if evs[0].Call? && evs[0].op.Create? && st.Open? {
        SortedEvictsInTurn(cfg, st.sessions, Created(cfg, evs[0].op), evs[0].now, stamp);
      }
      TimedInTurn(cfg, After(cfg, st, evs[0]), evs[1..], At(evs[0]), Stamped(evs[0], stamp));
    }
  }

  // ---------------------------------------------------------------- what overlapping Creates cost at a cap

  function CreateAt(letter: char, stamp: int): Op {
    Create(['u', '.', letter, '.', 'x'], ['u', '.', letter, '.', 'y'], [], stamp, stamp)
  }

  function MadeAt(letter: char, stamp: int): Session {
    Session("u", ['u', '.', letter, '.', 'x'], ['u', '.', letter, '.', 'y'], stamp + 10, stamp + 10, map[])
  }

  /** Two Creates that overlap fill a store of two, the one stamped later in front; once the other is dead, a third
      Create evicts the live one, and the next call can tell. */
  function OverlapRun(): seq<Event> {
    [Call(CreateAt('b', 5), 5, 5), Call(CreateAt('a', 0), 5, 5), Call(CreateAt('c', 12), 12, 12),
     Call(Check(MadeAt('b', 5).access), 12, 12)]
  }

  lemma CreateActs(cfg: Config, s: seq<Session>, letter: char, stamp: int, now: int)
    requires letter != '.' && cfg.access == cfg.refresh == 10
    ensures
      var op, x := CreateAt(letter, stamp), MadeAt(letter, stamp);
      && LazyStep(cfg, Open(s), op, now, now) == Outcome(Open(Insert(cfg, s, x)), Done)
      && EagerStep(cfg, Open(s), op, now, now) == Outcome(Open(Insert(cfg, Live(s, now), x)), Done)
  {
    hide Insert, Live, CheckToken, IdOf;
    SplitsAs(letter, 'x');
    SplitsAs(letter, 'y');
  }

  lemma InsertShort(cfg: Config, s: seq<Session>, x: Session)
    requires cfg.maxSize == 2 && |s| <= 2 && forall i :: 0 <= i < |s| ==> s[i].access != x.access
    ensures Insert(cfg, s, x) == (if |s| == 2 then s[1..] else s) + [x]
  {
    hide Lookup;
    WithoutNone(s, x.access);
  }

  /** What the two stores hold along that run. */
  lemma OverlapSteps(x: Session, y: Session, z: Session)
    requires x == MadeAt('a', 0) && y == MadeAt('b', 5) && z == MadeAt('c', 12)
    ensures
      var cfg := Config(10, 10, 2);
      && LazyStep(cfg, Open([]), CreateAt('b', 5), 5, 5) == Outcome(Open([y]), Done)
      && LazyStep(cfg, Open([y]), CreateAt('a', 0), 5, 5) == Outcome(Open([y, x]), Done)
      && LazyStep(cfg, Open([y, x]), CreateAt('c', 12), 12, 12) == Outcome(Open([x, z]), Done)
      && EagerStep(cfg, Open([]), CreateAt('b', 5), 5, 5) == Outcome(Open([y]), Done)
      && EagerStep(cfg, Open([y]), CreateAt('a', 0), 5, 5) == Outcome(Open([y, x]), Done)
      && EagerStep(cfg, Open([y, x]), CreateAt('c', 12), 12, 12) == Outcome(Open([y, z]), Done)
  {
    hide Insert, LazyStep, EagerStep, Live;
    var cfg := Config(10, 10, 2);
    assert x.access[2] != y.access[2] && x.access[2] != z.access[2] && y.access[2] != z.access[2];
    InsertShort(cfg, [], y);
    InsertShort(cfg, [y], x);
    InsertShort(cfg, [y, x], z);
    InsertShort(cfg, [y], z);
    assert [] + [y] == [y] && [y] + [x] == [y, x] && [y, x][1..] + [z] == [x, z] && [y] + [z] == [y, z];
    CreateActs(cfg, [], 'b', 5, 5);
    CreateActs(cfg, [y], 'a', 0, 5);
    CreateActs(cfg, [y, x], 'c', 12, 12);
    OverlapLive(x, y);
  }

  lemma OverlapLive(x: Session, y: Session)
    requires x == MadeAt('a', 0) && y == MadeAt('b', 5)
    ensures Live([], 5) == [] && Live([y], 5) == [y] && Live([y, x], 12) == [y]
  {
    LiveCons(y, [], 5);
    LiveCons(y, [x], 12);
    LiveCons(x, [], 12);
    assert [y] + [] == [y] && [y] + [x] == [y, x] && [x] + [] == [x];
  }

  /** From the empty store, with the clock running forward: the lazy store has lost the live session, the store of live
      sessions has not. */
  lemma CapShows()
    ensures
      var cfg := Config(10, 10, 2);
      && Clocked(OverlapRun(), 0) && RunFresh(cfg, Open([]), OverlapRun())
      && LazyRun(cfg, Open([]), OverlapRun()).replies == [Done, Done, Done, Failed(TokenNotExists)]
      && EagerRun(cfg, Open([]), OverlapRun()).replies == [Done, Done, Done, Done]
  {
    hide LazyStep, EagerStep, LazyRun, EagerRun;
    var cfg := Config(10, 10, 2);
    var x, y, z := MadeAt('a', 0), MadeAt('b', 5), MadeAt('c', 12);
    OverlapSteps(x, y, z);
    CheckBoth(cfg, x, y, z);
    var a, b := Call(CreateAt('b', 5), 5, 5), Call(CreateAt('a', 0), 5, 5);
    var c, d := Call(CreateAt('c', 12), 12, 12), Call(Check(y.access), 12, 12);
    assert OverlapRun() == [a] + ([b] + ([c] + ([d] + [])));
    RunCons(cfg, Open([]), a, [b] + ([c] + ([d] + [])));
    RunCons(cfg, Open([y]), b, [c] + ([d] + []));
    RunCons(cfg, Open([y, x]), c, [d] + []);
    RunCons(cfg, Open([x, z]), d, []);
    RunCons(cfg, Open([y, z]), d, []);
    NoneLeft(cfg, LazyStep(cfg, Open([x, z]), d.op, 12, 12).state);
    NoneLeft(cfg, EagerStep(cfg, Open([y, z]), d.op, 12, 12).state);
    NoRefreshFresh(cfg, Open([]), OverlapRun());
  }

  lemma NoneLeft(cfg: Config, st: State)
    ensures LazyRun(cfg, st, []).replies == [] && EagerRun(cfg, st, []).replies == []
  {
  }

  lemma {:induction false} NoRefreshFresh(cfg: Config, st: State, evs: seq<Event>)
    requires forall i :: 0 <= i < |evs| ==> evs[i].Call? ==> !evs[i].op.Refresh?
    ensures RunFresh(cfg, st, evs)
    decreases |evs|
  {
    hide LazyStep;
    if evs != [] {
      assert forall i :: 0 <= i < |evs[1..]| ==> evs[1..][i] == evs[i + 1];
      NoRefreshFresh(cfg, After(cfg, st, evs[0]), evs[1..]);
    }
  }

  lemma CheckBoth(cfg: Config, x: Session, y: Session, z: Session)
    requires x == MadeAt('a', 0) && y == MadeAt('b', 5) && z == MadeAt('c', 12)
    ensures LazyStep(cfg, Open([x, z]), Check(y.access), 12, 12).reply == Failed(TokenNotExists)
    ensures EagerStep(cfg, Open([y, z]), Check(y.access), 12, 12).reply == Done
  {
    hide CheckToken;
    SplitsAs('b', 'x');
    assert x.access[2] != y.access[2] && z.access[2] != y.access[2];
    assert Lookup([x, z], y.access) == None;
    LiveCons(y, [z], 12);
    LiveCons(z, [], 12);
    assert Lookup([y, z], y.access) == Some(y);
  }

  // ---------------------------------------------------------------- two back ends

  lemma {:induction false} EagerIgnoresCleaning(cfg: Config, st: State, evs: seq<Event>)
    ensures EagerRun(cfg, st, evs) == EagerRun(cfg, st, Calls(evs))
    decreases |evs|
  {
    if evs != [] {
      match evs[0]
      case Call(op, now, later) =>
        assert Calls(evs)[1..] == Calls(evs[1..]);
        EagerIgnoresCleaning(cfg, EagerStep(cfg, st, op, now, later).state, evs[1..]);
      case Clean(_, _) =>
        assert Calls(evs) == Calls(evs[1..]);
        EagerIgnoresCleaning(cfg, st, evs[1..]);
    }
  }

  // ---------------------------------------------------------------- tokens handed out

  ghost predicate StoredWithin(st: State, issued: set<string>) {
    st.Open? ==> forall x :: x in st.sessions ==> x.access in issued
  }

  lemma {:induction false} SetDataMembers(s: seq<Session>, token: string, data: map<string, Bytes>)
    ensures forall y :: y in SetData(s, token, data) ==>
      exists x :: x in s && x.access == y.access && x.refresh == y.refresh && x.id == y.id
  {
    SetDataAt(s, token, data);
    forall y | y in SetData(s, token, data)
      ensures exists x :: x in s && x.access == y.access && x.refresh == y.refresh && x.id == y.id
    {
      var i :| 0 <= i < |s| && SetData(s, token, data)[i] == y;
      assert s[i] in s;
    }
  }

  /** Where a stored session comes from: it was there before under the same tokens, or the call issued it. */
  ghost predicate ComesFrom(s: seq<Session>, op: Op, y: Session) {
    || (exists x :: x in s && x.access == y.access && x.refresh == y.refresh && x.id == y.id)
    || (op.Create? && y.access == op.access && y.refresh == op.refresh)
    || (op.Refresh? && y.access == op.newAccess && y.refresh == op.newRefresh)
  }

  lemma StepOrigins(cfg: Config, s: seq<Session>, op: Op, now: int, later: int)
    ensures
      var after := LazyStep(cfg, Open(s), op, now, later).state;
      after.Open? ==> forall y :: y in after.sessions ==> ComesFrom(s, op, y)
  {
    hide Without, WithoutId, SetData, PutAll, DeleteAll, Lookup, Reject;
    match op
    case Create(access, _, _, _, _) =>
      WithoutMembers(s, access);
      var others := Without(s, access);
      assert others != [] ==> forall y :: y in others[1..] ==> y in others;
    case Destroy(id) => WithoutIdMembers(s, id);
    case DestroyByToken(token) => WithoutMembers(s, token);
    case Put(token, pairs) =>
      WithoutMembers(s, token);
      if Lookup(s, token).Some? {
        SetDataMembers(s, token, PutAll(Lookup(s, token).value.data, pairs));
      }
    case Delete(token, keys) =>
      WithoutMembers(s, token);
      if Lookup(s, token).Some? {
        SetDataMembers(s, token, DeleteAll(Lookup(s, token).value.data, keys));
      }
    case Refresh(access, _, _, _) => WithoutMembers(s, access);
    case _ =>
  }

  lemma {:induction false} NeverReissuedIsFresh(cfg: Config, st: State, evs: seq<Event>, issued: set<string>)
    requires StoredWithin(st, issued) && NeverReissued(evs, issued)
    ensures RunFresh(cfg, st, evs)
    decreases |evs|
  {
    if evs != [] {
      var ev := evs[0];
      var next := After(cfg, st, ev);
      assert StoredWithin(next, issued + IssuedBy(ev)) by {
        if st.Open? {
          match ev
          case Call(op, now, later) => StepOrigins(cfg, st.sessions, op, now, later);
          case Clean(victims, at) => DropDeadMembers(st.sessions, victims, at);
        }
      }
      NeverReissuedIsFresh(cfg, next, evs[1..], issued + IssuedBy(ev));
    }
  }

  /** Two back ends that get the same calls at the same times give the same replies, however differently they
      clean, provided no refresh reuses an access token handed out before and neither evicts out of turn. */
  lemma BackendsAgree(cfg: Config, evs1: seq<Event>, evs2: seq<Event>, now: int)
    requires Calls(evs1) == Calls(evs2)
    requires Clocked(evs1, now) && Clocked(evs2, now)
    requires NeverReissued(evs1, {}) && NeverReissued(evs2, {})
    requires InTurn(cfg, Open([]), evs1) && InTurn(cfg, Open([]), evs2)
    ensures LazyRun(cfg, Open([]), evs1).replies == LazyRun(cfg, Open([]), evs2).replies
  {
    NeverReissuedIsFresh(cfg, Open([]), evs1, {});
    NeverReissuedIsFresh(cfg, Open([]), evs2, {});
    LazinessInvisible(cfg, evs1, now);
    LazinessInvisible(cfg, evs2, now);
    EagerIgnoresCleaning(cfg, Open([]), evs1);
    EagerIgnoresCleaning(cfg, Open([]), evs2);
  }

  // ---------------------------------------------------------------- a token pair is spent once

  predicate Issues(ev: Event, access: string, refresh: string) {
    match ev
    case Call(Create(a, r, _, _, _), _, _) => a == access && r == refresh
    case Call(Refresh(_, _, a, r), _, _) => a == access && r == refresh
    case _ => false
  }

  ghost predicate NoPair(st: State, access: string, refresh: string) {
    st.Open? ==> forall x :: x in st.sessions ==> !(x.access == access && x.refresh == refresh)
  }

  lemma {:induction false} NoPairStays(cfg: Config, st: State, evs: seq<Event>, access: string, refresh: string)
    requires NoPair(st, access, refresh)
    requires forall i :: 0 <= i < |evs| ==> !Issues(evs[i], access, refresh)
    ensures NoPair(LazyRun(cfg, st, evs).state, access, refresh)
    decreases |evs|
  {
    if evs != [] {
      var next := After(cfg, st, evs[0]);
      assert NoPair(next, access, refresh) by {
        if st.Open? {
          match evs[0]
          case Call(op, now, later) => StepOrigins(cfg, st.sessions, op, now, later);
          case Clean(victims, at) => DropDeadMembers(st.sessions, victims, at);
        }
      }
      NoPairStays(cfg, next, evs[1..], access, refresh);
    }
  }

  lemma SpentNow(cfg: Config, s: seq<Session>, op: Op, now: int, later: int)
    requires op.Refresh? && !(op.newAccess == op.access && op.newRefresh == op.refresh)
    requires LazyStep(cfg, Open(s), op, now, later).reply == Done
    ensures NoPair(LazyStep(cfg, Open(s), op, now, later).state, op.access, op.refresh)
  {
    hide Without, Lookup;
    WithoutMembers(s, op.access);
  }

  lemma CannotSpend(cfg: Config, st: State, op: Op, now: int, later: int)
    requires op.Refresh? && NoPair(st, op.access, op.refresh)
    ensures LazyStep(cfg, st, op, now, later).reply != Done
  {
    hide Without, Lookup;
  }

  /** A token pair refreshes once: after a success, the same pair fails for as long as no call issues it again. */
  lemma RefreshOnce(cfg: Config, st: State, first: Event, between: seq<Event>, second: Event)
    requires st.Open?
    requires first.Call? && first.op.Refresh? && second.Call? && second.op.Refresh?
    requires second.op.access == first.op.access && second.op.refresh == first.op.refresh
    requires LazyStep(cfg, st, first.op, first.now, first.later).reply == Done
    requires !Issues(first, first.op.access, first.op.refresh)
    requires forall i :: 0 <= i < |between| ==> !Issues(between[i], first.op.access, first.op.refresh)
    ensures
      var spent := LazyRun(cfg, After(cfg, st, first), between).state;
      LazyStep(cfg, spent, second.op, second.now, second.later).reply != Done
  {
    hide LazyRun, LazyStep, Lookup;
    var access, refresh := first.op.access, first.op.refresh;
    var spent := After(cfg, st, first);
    SpentNow(cfg, st.sessions, first.op, first.now, first.later);
    NoPairStays(cfg, spent, between, access, refresh);
    CannotSpend(cfg, LazyRun(cfg, spent, between).state, second.op, second.now, second.later);
  }
}
