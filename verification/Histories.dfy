/** The concurrent system as a run: every reachable state holds what a run of the lazy store holds, so the theorems
    about runs are about overlapping calls, too. */
module Histories {
  import opened Basics
  import opened Sessions
  import opened Workers
  import Index
  import Runs
  import Store

  function StateOf(s: System): Store.State {
    if s.closed then Store.Closed else Store.Open(s.table.sessions)
  }

  /** What an action is to the store: a call at the moment of its lock section, a cleaning step, or nothing. A Create
      that finds its record dead never takes the lock, but it is a call all the same. */
  function EventsOf(s: System, a: Action): seq<Runs.Event> {
    match a
    case GiveUp(op) => [Runs.Call(op, s.now, s.now)]
    case Insert(op) => [Runs.Call(op, s.now, s.now)]
    case Read(op, later) => [Runs.Call(op, s.now, later)]
    case Put(token, pairs, later) => [Runs.Call(Store.Put(token, pairs), s.now, later)]
    case Delete(token, keys, later) => [Runs.Call(Store.Delete(token, keys), s.now, later)]
    case Refresh(access, refresh, newAccess, newRefresh, later) =>
      [Runs.Call(Store.Refresh(access, refresh, newAccess, newRefresh), s.now, later)]
    case Destroy(id) => [Runs.Call(Store.Destroy(id), s.now, s.now)]
    case DestroyByToken(token) => [Runs.Call(Store.DestroyByToken(token), s.now, s.now)]
    case Batch(victims, later) => if s.closed then [] else [Runs.Clean((set token | token in victims), later)]
    case Tick(n, later) => [Runs.Clean(Front(s.table.sessions, n), later)]
    case Close => [Runs.Call(Store.Close, s.now, s.now)]
    case _ => []
  }

  function History(cfg: Config, s: System, acts: seq<Action>): seq<Runs.Event>
    decreases |acts|
  {
    if acts == [] then [] else EventsOf(s, acts[0]) + History(cfg, Next(cfg, s, acts[0]), acts[1..])
  }

  /** The actions that are a client's call at its lock section. */
  predicate IsCall(a: Action) {
    a.GiveUp? || a.Insert? || a.Read? || a.Put? || a.Delete? || a.Refresh? || a.Destroy? || a.DestroyByToken?
    || a.Close?
  }

  function CallsIn(acts: seq<Action>): nat {
    if acts == [] then 0 else (if IsCall(acts[0]) then 1 else 0) + CallsIn(acts[1..])
  }

  /** The history leaves out no call. */
  lemma {:induction false} EveryCall(cfg: Config, s: System, acts: seq<Action>)
    ensures |Runs.Calls(History(cfg, s, acts))| == CallsIn(acts)
    decreases |acts|
  {
    hide Next;
    if acts != [] {
      var evs, rest := EventsOf(s, acts[0]), History(cfg, Next(cfg, s, acts[0]), acts[1..]);
      EveryCall(cfg, Next(cfg, s, acts[0]), acts[1..]);
      if evs == [] {
        assert evs + rest == rest;
      } else {
        assert (evs + rest)[1..] == rest && (evs + rest)[0] == evs[0];
      }
    }
  }

  // ---------------------------------------------------------------- one action

  /** The events have the effect of the action on the store, happen no earlier than it begins and no later than it ends,
      and are clean if it is. */
  ghost predicate Matches(cfg: Config, s: System, a: Action) {
    var evs, next := EventsOf(s, a), Next(cfg, s, a);
    && |evs| <= 1
    && (evs == [] ==> StateOf(next) == StateOf(s))
    && (evs != [] ==>
          && Runs.After(cfg, StateOf(s), evs[0]) == StateOf(next)
          && s.now <= Runs.At(evs[0]) <= next.now
          && Runs.CleanTarget(StateOf(s), evs[0]))
  }

  lemma WriteMatches(cfg: Config, s: System, a: Action)
    requires Index.Linked(s.table) && (a.Put? || a.Delete?) && !s.closed && Store.CheckToken(a.token) == None
    ensures Store.LazyStep(cfg, Store.Open(s.table.sessions),
                           if a.Put? then Store.Put(a.token, a.pairs) else Store.Delete(a.token, a.keys),
                           s.now, a.later).state
         == Store.Open(NextTable(cfg, s, a).sessions)
  {
    hide Index.Linked, Lookup, Without, Sessions.SetData, PutAll, DeleteAll, Index.Drop, Store.CheckToken;
    Index.DropLinked(s.table, a.token);
  }

  lemma RefreshMatches(cfg: Config, s: System, a: Action)
    requires Index.Linked(s.table) && a.Refresh? && !s.closed
    requires Store.Reject(Store.Refresh(a.access, a.refresh, a.newAccess, a.newRefresh)) == None
    ensures Store.LazyStep(cfg, Store.Open(s.table.sessions),
                           Store.Refresh(a.access, a.refresh, a.newAccess, a.newRefresh), s.now, a.later).state
         == Store.Open(NextTable(cfg, s, a).sessions)
  {
    hide Index.Linked, Lookup, Without, Index.Drop, Store.Reject, Index.File;
    Index.DropLinked(s.table, a.access);
  }

  lemma InsertMatches(cfg: Config, s: System, op: Store.Op)
    requires Index.Linked(s.table) && op.Create? && Store.Reject(op) == None
    ensures !Store.Created(cfg, op).Dead(op.checked) ==>
      Store.LazyStep(cfg, StateOf(s), op, s.now, s.now).state
      == if s.closed then Store.Closed else Store.Open(NextTable(cfg, s, Insert(op)).sessions)
    ensures Store.Created(cfg, op).Dead(op.checked) ==>
      Store.LazyStep(cfg, StateOf(s), op, s.now, s.now).state == StateOf(s)
  {
    hide Index.Linked, Index.Insert, Store.Insert, Store.Reject, Store.IdOf, PutAll;
    Index.InsertLinked(cfg, s.table, Store.Created(cfg, op));
  }

  lemma DestroyMatches(cfg: Config, s: System, a: Action)
    requires Index.Linked(s.table) && (a.Destroy? || (a.DestroyByToken? && Store.CheckToken(a.token) == None))
    ensures Store.LazyStep(cfg, Store.Open(s.table.sessions),
                           if a.Destroy? then Store.Destroy(a.id) else Store.DestroyByToken(a.token),
                           s.now, s.now).state
         == Store.Open(NextTable(cfg, s, a).sessions)
  {
    hide Index.Linked, Index.DropId, Index.Drop, WithoutId, Without, Store.CheckToken;
    if a.Destroy? {
      Index.DropIdLinked(s.table, a.id);
    } else {
      Index.DropLinked(s.table, a.token);
    }
  }

  lemma ReadMatches(cfg: Config, st: Store.State, op: Store.Op, now: int, later: int)
    requires op.Check? || op.Get? || op.Keys?
    ensures Store.LazyStep(cfg, st, op, now, later).state == st
  {
    hide Lookup, Store.CheckToken;
  }

  lemma ActionMatches(cfg: Config, batch: int, s: System, a: Action)
    requires Inv(cfg, batch, s) && Enabled(cfg, batch, s, a) && CleanAction(s, a)
    ensures Matches(cfg, s, a)
  {
    hide Next, Index.Linked, Accounted, Store.LazyStep, Store.Reject, Store.CheckToken, Store.Created, DropDead;
    hide Index.Drop, Index.DropAll, Index.DropId, Index.ClearFirst, Inserted, Lookup, BatchOutcome, TickOutcome, Front;
    hide Store.FreshTarget;
    NextParts(cfg, s, a);
    match a
    case GiveUp(op) => InsertMatches(cfg, s, op);
    case Insert(op) => InsertMatches(cfg, s, op);
    case Read(op, later) => ReadMatches(cfg, StateOf(s), op, s.now, later);
    case Put(_, _, _) => WriteMatches(cfg, s, a);
    case Delete(_, _, _) => WriteMatches(cfg, s, a);
    case Refresh(_, _, _, _, _) => RefreshMatches(cfg, s, a);
    case Destroy(_) => DestroyMatches(cfg, s, a);
    case DestroyByToken(_) => DestroyMatches(cfg, s, a);
    case Batch(victims, later) =>
      if !s.closed {
        BatchDrops(s, victims, later);
      }
    case Tick(n, later) => TickDrops(s, n, later);
    case Close => CloseMatches(cfg, StateOf(s), s.now);
    case _ =>
  }

  lemma CloseMatches(cfg: Config, st: Store.State, now: int)
    ensures Store.LazyStep(cfg, st, Store.Close, now, now).state == Store.Closed
  {
  }

  // ---------------------------------------------------------------- whole runs

  /** The state reached by clean refreshes is that of its history, a run of the lazy store whose lock sections are in
      order of time, whatever order the Creates in it took their stamps in. */
  lemma {:induction false} IsRun(cfg: Config, batch: int, s: System, acts: seq<Action>, end: System)
    requires Inv(cfg, batch, s) && Reaches(cfg, batch, s, acts, end) && CleanRun(cfg, s, acts)
    ensures Runs.LazyRun(cfg, StateOf(s), History(cfg, s, acts)).state == StateOf(end)
    ensures Runs.Clocked(History(cfg, s, acts), s.now) && Runs.RunFresh(cfg, StateOf(s), History(cfg, s, acts))
    decreases |acts|
  {
    hide Inv, Enabled, Next, CleanAction, StateOf, EventsOf, Runs.CleanTarget, Runs.LazyRun;
    if acts == [] {
      NoEvents(cfg, StateOf(s), s.now);
    } else {
      var next, evs := Next(cfg, s, acts[0]), EventsOf(s, acts[0]);
      ActionMatches(cfg, batch, s, acts[0]);
      StepInvIff(cfg, batch, s, acts[0]);
      ClockForward(cfg, batch, s, acts[0]);
      IsRun(cfg, batch, next, acts[1..], end);
      var rest := History(cfg, next, acts[1..]);
      if evs == [] {
        assert evs + rest == rest;
        Earlier(rest, next.now, s.now);
      } else {
        assert evs + rest == [evs[0]] + rest;
        Runs.RunCons(cfg, StateOf(s), evs[0], rest);
        assert ([evs[0]] + rest)[1..] == rest;
        Earlier(rest, next.now, Runs.At(evs[0]));
      }
    }
  }

  lemma NoEvents(cfg: Config, st: Store.State, now: int)
    ensures Runs.LazyRun(cfg, st, []).state == st && Runs.Clocked([], now) && Runs.RunFresh(cfg, st, [])
  {
  }

  lemma Earlier(evs: seq<Runs.Event>, now: int, earlier: int)
    requires Runs.Clocked(evs, now) && earlier <= now
    ensures Runs.Clocked(evs, earlier)
  {
  }

  /** Overlapping calls and cleaning, from the empty store: the replies are those of the store of live sessions, without
      a cap always, and under a cap as long as no Create evicts out of turn. */
  lemma ConcurrentSeesLive(cfg: Config, batch: int, now: int, acts: seq<Action>, end: System)
    requires Reaches(cfg, batch, Start(now), acts, end) && CleanRun(cfg, Start(now), acts)
    ensures
      var h := History(cfg, Start(now), acts);
      && Runs.LazyRun(cfg, Store.Open([]), h).state == StateOf(end) && |Runs.Calls(h)| == CallsIn(acts)
      && (Runs.Tracks(cfg, Store.Open([]), Store.Open([]), h) <==> Runs.InTurn(cfg, Store.Open([]), h))
      && (cfg.maxSize <= 0 || Runs.InTurn(cfg, Store.Open([]), h) ==>
            Runs.LazyRun(cfg, Store.Open([]), h).replies == Runs.EagerRun(cfg, Store.Open([]), h).replies)
  {
    hide Inv, Reaches, CleanRun, History, CallsIn, Runs.Calls, Runs.LazyRun, Runs.EagerRun, Runs.InTurn, Runs.Tracks;
    var h := History(cfg, Start(now), acts);
    StartInv(cfg, batch, now);
    IsRun(cfg, batch, Start(now), acts, end);
    EveryCall(cfg, Start(now), acts);
    Runs.LazinessInvisible(cfg, h, now);
    if cfg.maxSize <= 0 {
      Runs.UncappedInTurn(cfg, Store.Open([]), h);
    }
  }
}
