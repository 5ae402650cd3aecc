/** The memory provider as a concurrent system: lock sections, the clock, readers that post dead tokens to the
    channel, the worker that gathers them into batches, the timer, and Close. Create stamps its record before it
    takes the lock, so stamps need not be taken in list order here, and Refresh may be asked to move a session onto
    a token that is already stored. */
module Workers {
  import opened Basics
  import opened Sessions
  import Index
  import Runs
  import Store

  /** What the worker goroutine is doing: waiting for a first token, gathering more, about to take the lock, or
      returned. */
  datatype Phase = Reading | Merging | Ready | Gone

  datatype System = System(
    table: Index.Table,
    closed: bool,
    now: int,
    stamped: multiset<Store.Op>,  // Creates that have stamped and tested their record, before the lock
    posting: multiset<string>,    // tokens whose readers are at the channel
    queue: seq<string>,           // the channel
    phase: Phase,
    batch: set<string>,           // the worker's set
    posted: multiset<string>,     // history: every token sent
    received: multiset<string>,   // history: tokens received since the last batch
    handled: multiset<string>)    // history: tokens of batches that ran

  datatype Action =
    | Advance(t: int)
    | Stamp(access: string, refresh: string, pairs: seq<Pair>, checked: int)
    | GiveUp(op: Store.Op)
    | Insert(op: Store.Op)
    | Read(op: Store.Op, later: int)
    | Put(token: string, pairs: seq<Pair>, later: int)
    | Delete(token: string, keys: seq<string>, later: int)
    | Refresh(access: string, refresh: string, newAccess: string, newRefresh: string, later: int)
    | Destroy(id: string)
    | DestroyByToken(token: string)
    | Send(token: string)
    | Handoff(token: string)
    | Abandon(token: string)
    | Receive
    | StopMerging
    | Batch(victims: seq<string>, later: int)
    | Tick(n: nat, later: int)
    | Quit
    | Close

  /** The option: channel capacity, and, no less than one, the size of the worker's set. */
  function Capacity(batch: int): nat { if batch > 0 then batch else 0 }

  function Limit(batch: int): nat { if batch < 1 then 1 else batch }

  predicate Stored(s: seq<Session>, token: string) { Lookup(s, token).Some? }

  /** The worker can take one more token. */
  predicate Receiving(batch: int, s: System) {
    s.phase == Reading || (s.phase == Merging && |s.batch| < Limit(batch))
  }

  ghost predicate Enabled(cfg: Config, batch: int, s: System, a: Action) {
    match a
    case Advance(t) => s.now <= t
    case Stamp(access, refresh, _, checked) =>
      Store.CheckToken(access) == None && Store.CheckToken(refresh) == None && s.now <= checked
    case GiveUp(op) => op in s.stamped && op.Create? && Store.Created(cfg, op).Dead(op.checked)
    case Insert(op) => op in s.stamped && op.Create? && !Store.Created(cfg, op).Dead(op.checked)
    case Read(op, later) =>
      !s.closed && s.now <= later && (op.Check? || op.Get? || op.Keys?) && Store.Reject(op) == None
    case Put(token, _, later) => !s.closed && s.now <= later && Store.CheckToken(token) == None
    case Delete(token, _, later) => !s.closed && s.now <= later && Store.CheckToken(token) == None
    case Refresh(access, refresh, newAccess, newRefresh, later) =>
      !s.closed && s.now <= later && Store.Reject(Store.Refresh(access, refresh, newAccess, newRefresh)) == None
    case Destroy(_) => !s.closed
    case DestroyByToken(token) => !s.closed && Store.CheckToken(token) == None
    case Send(token) => token in s.posting && |s.queue| < Capacity(batch)
    case Handoff(token) => token in s.posting && Capacity(batch) == 0 && Receiving(batch, s)
    case Abandon(token) => token in s.posting && s.closed
    case Receive => s.queue != [] && Receiving(batch, s)
    case StopMerging => s.phase == Merging && (|s.batch| >= Limit(batch) || s.queue == [])
    case Batch(victims, later) =>
      && s.phase == Ready && s.now <= later
      && (!s.closed ==> BatchOutcome(s.table.sessions, s.batch, victims, s.now, later))
    case Tick(n, later) => !s.closed && s.now <= later && TickOutcome(s.table.sessions, n, later)
    case Quit => s.closed && (s.phase == Reading || s.phase == Merging)
    case Close => !s.closed
  }

  function Touched(t: Index.Table, token: string, now: int): Index.Table {
    if DeadAt(t.sessions, token, now) then Index.Drop(t, token) else t
  }

  function Inserted(cfg: Config, t: Index.Table, op: Store.Op): Index.Table {
    if op.Create? then Index.Insert(cfg, t, Store.Created(cfg, op)) else t
  }

  /** A reader that finds its token's session dead. */
  predicate FoundDead(s: System, op: Store.Op) {
    (op.Check? || op.Get? || op.Keys?) && DeadAt(s.table.sessions, op.token, s.now)
  }

  function Take(s: System, token: string): System {
    s.(phase := Merging, batch := s.batch + {token}, received := s.received + multiset{token})
  }

  /** What the action makes of the sessions and their index. */
  function NextTable(cfg: Config, s: System, a: Action): Index.Table {
    match a
    case Insert(op) => if s.closed then s.table else Inserted(cfg, s.table, op)
    case Put(token, pairs, later) =>
      (match Store.LazyStatus(s.table.sessions, token, s.now, later)
       case Some(_) => Touched(s.table, token, s.now)
       case None =>
         Index.SetData(s.table, token, PutAll(Lookup(s.table.sessions, token).value.data, pairs)))
    case Delete(token, keys, later) =>
      (match Store.LazyStatus(s.table.sessions, token, s.now, later)
       case Some(_) => Touched(s.table, token, s.now)
       case None =>
         Index.SetData(s.table, token, DeleteAll(Lookup(s.table.sessions, token).value.data, keys)))
    case Refresh(access, refresh, newAccess, newRefresh, later) =>
      (match Lookup(s.table.sessions, access)
       case None => s.table
       case Some(x) =>
         if x.Dead(s.now) then Index.Drop(s.table, access)
         else if x.refresh != refresh then s.table
         else Index.Append(Index.Drop(s.table, access), Rotate(cfg, x, newAccess, newRefresh, later)))
    case Destroy(id) => Index.DropId(s.table, id)
    case DestroyByToken(token) => Index.Drop(s.table, token)
    case Batch(victims, _) => if s.closed then s.table else Index.DropAll(s.table, victims)
    case Tick(n, _) => Index.ClearFirst(s.table, n)
    case Close => Index.Table([], map[])
    case _ => s.table
  }

  /** The last reading of the clock. */
  function NextNow(s: System, a: Action): int {
    match a
    case Advance(t) => t
    case Stamp(_, _, _, checked) => checked
    case Read(_, later) => later
    case Put(_, _, later) => later
    case Delete(_, _, later) => later
    case Refresh(_, _, _, _, later) => later
    case Batch(_, later) => later
    case Tick(_, later) => later
    case _ => s.now
  }

  function Next(cfg: Config, s: System, a: Action): System {
    var t := s.(table := NextTable(cfg, s, a), now := NextNow(s, a));
    match a
    case Stamp(access, refresh, pairs, checked) =>
      t.(stamped := s.stamped + multiset{Store.Create(access, refresh, pairs, s.now, checked)})
    case GiveUp(op) => t.(stamped := s.stamped - multiset{op})
    case Insert(op) => t.(stamped := s.stamped - multiset{op})
    case Read(op, _) => if FoundDead(s, op) then t.(posting := s.posting + multiset{op.token}) else t
    case Send(token) =>
      t.(posting := s.posting - multiset{token}, queue := s.queue + [token], posted := s.posted + multiset{token})
    case Handoff(token) =>
      Take(t.(posting := s.posting - multiset{token}, posted := s.posted + multiset{token}), token)
    case Abandon(token) => t.(posting := s.posting - multiset{token})
    case Receive => if s.queue == [] then t else Take(t.(queue := s.queue[1..]), s.queue[0])
    case StopMerging => t.(phase := Ready)
    case Batch(_, _) =>
      if s.closed then t.(phase := Gone)
      else t.(phase := Reading, batch := {}, received := multiset{}, handled := s.handled + s.received)
    case Quit => t.(phase := Gone)
    case Close => t.(closed := true)
    case _ => t
  }

  // ---------------------------------------------------------------- what every step keeps

  /** The bookkeeping of the channel and the worker. */
  ghost predicate Accounted(batch: int, s: System) {
    && |s.queue| <= Capacity(batch) && |s.batch| <= Limit(batch)
    && (s.phase == Reading ==> s.batch == {})
    && s.posted == multiset(s.queue) + s.received + s.handled
    && (forall token :: token in s.batch <==> token in s.received)
  }

  /** List and index agree, the list is within the cap, and no posted token is lost. */
  ghost predicate Inv(cfg: Config, batch: int, s: System) {
    && Index.Linked(s.table) && WithinCap(cfg, s.table.sessions)
    && (s.closed ==> s.table == Index.Table([], map[]))
    && (forall op :: op in s.stamped ==> op.Create? && Store.Reject(op) == None)
    && Accounted(batch, s)
  }

  /** The action is not a Refresh that succeeds onto a token stored for another session. */
  predicate CleanAction(s: System, a: Action) {
    a.Refresh? ==>
      var op := Store.Refresh(a.access, a.refresh, a.newAccess, a.newRefresh);
      Store.Rotates(s.table.sessions, op, s.now) ==> Store.FreshTarget(s.table.sessions, op)
  }

  function Start(now: int): System {
    System(Index.Table([], map[]), false, now, multiset{}, multiset{}, [], Reading, {},
           multiset{}, multiset{}, multiset{})
  }

  lemma StartInv(cfg: Config, batch: int, now: int)
    ensures Inv(cfg, batch, Start(now))
  {
  }

  lemma NextParts(cfg: Config, s: System, a: Action)
    ensures Next(cfg, s, a).table == NextTable(cfg, s, a) && Next(cfg, s, a).now == NextNow(s, a)
    ensures Next(cfg, s, a).closed == (s.closed || a.Close?)
    ensures a.Stamp? || a.GiveUp? || a.Insert? || Next(cfg, s, a).stamped == s.stamped
  {
    hide NextTable, NextNow, FoundDead;
  }

  lemma TouchedLinked(t: Index.Table, token: string, now: int)
    requires Index.Linked(t)
    ensures Index.Linked(Touched(t, token, now))
  {
    hide Index.Linked;
    Index.DropLinked(t, token);
  }

  /** The two writers of one session's data. */
  lemma WriteLinked(s: System, token: string, data: map<string, Bytes>)
    requires Index.Linked(s.table)
    ensures Index.Linked(Touched(s.table, token, s.now)) && Index.Linked(Index.SetData(s.table, token, data))
  {
    hide Index.Linked, Index.SetData, Touched;
    TouchedLinked(s.table, token, s.now);
    Index.SetDataLinked(s.table, token, data);
  }

  /** A Refresh keeps the agreement exactly when it is clean. */
  lemma RefreshLinkedIff(cfg: Config, s: System, a: Action)
    requires Index.Linked(s.table) && a.Refresh? && Store.IdOf(a.newAccess) == Store.IdOf(a.access)
    ensures Index.Linked(NextTable(cfg, s, a)) <==> CleanAction(s, a)
  {
    hide Index.Linked, Lookup, Index.Drop, Index.Append, Store.IdOf;
    Index.DropLinked(s.table, a.access);
    if Stored(s.table.sessions, a.access) {
      var x := Lookup(s.table.sessions, a.access).value;
      Index.LinkedId(s.table, a.access);
      Index.RefreshLinkedIffFresh(s.table, a.access, Rotate(cfg, x, a.newAccess, a.newRefresh, a.later));
    }
  }

  lemma PutLinked(cfg: Config, s: System, a: Action)
    requires Index.Linked(s.table) && (a.Put? || a.Delete?)
    ensures Index.Linked(NextTable(cfg, s, a))
  {
    hide Index.Linked, Index.SetData, Touched, Lookup, PutAll, DeleteAll, Store.LazyStatus;
    StatusStored(s.table.sessions, a.token, s.now, a.later);
    if Stored(s.table.sessions, a.token) {
      var data := Lookup(s.table.sessions, a.token).value.data;
      WriteLinked(s, a.token, if a.Put? then PutAll(data, a.pairs) else DeleteAll(data, a.keys));
    } else {
      WriteLinked(s, a.token, map[]);
    }
  }

  lemma StatusStored(s: seq<Session>, token: string, now: int, later: int)
    ensures Store.LazyStatus(s, token, now, later) == None ==> Stored(s, token)
  {
  }

  /** What the lemmas about the table need of an enabled action. */
  ghost predicate Applies(s: System, a: Action) {
    match a
    case Insert(op) => op.Create?
    case Refresh(access, _, newAccess, _, _) => Store.IdOf(newAccess) == Store.IdOf(access)
    case Tick(n, _) => n <= |s.table.sessions|
    case _ => true
  }

  lemma EnabledApplies(cfg: Config, batch: int, s: System, a: Action)
    requires Enabled(cfg, batch, s, a)
    ensures Applies(s, a)
  {
    hide Store.Reject, Store.IdOf, Store.CheckToken, BatchOutcome, Receiving, Store.Created;
    if a.Refresh? {
      Store.AcceptedIds(Store.Refresh(a.access, a.refresh, a.newAccess, a.newRefresh));
    }
  }

  lemma TableLinkedIff(cfg: Config, s: System, a: Action)
    requires Index.Linked(s.table) && Applies(s, a)
    ensures Index.Linked(NextTable(cfg, s, a)) <==> CleanAction(s, a)
  {
    hide NextTable, Index.Linked, Lookup, Store.Rotates, Store.FreshTarget, Store.IdOf;
    if a.Put? || a.Delete? {
      PutLinked(cfg, s, a);
    } else if a.Refresh? {
      RefreshLinkedIff(cfg, s, a);
    } else {
      RestLinked(cfg, s, a);
    }
  }

  lemma RestLinked(cfg: Config, s: System, a: Action)
    requires Index.Linked(s.table) && Applies(s, a) && !(a.Put? || a.Delete? || a.Refresh?)
    ensures Index.Linked(NextTable(cfg, s, a))
  {
    hide Index.Linked, Index.Drop, Index.DropAll, Index.DropId, Index.Insert, Index.ClearFirst, PutAll, Store.IdOf;
    match a
    case Insert(op) => Index.InsertLinked(cfg, s.table, Store.Created(cfg, op));
    case Destroy(id) => Index.DropIdLinked(s.table, id);
    case DestroyByToken(token) => Index.DropLinked(s.table, token);
    case Batch(victims, _) => Index.DropAllLinked(s.table, victims);
    case Tick(n, _) => Index.ClearFirstLinked(s.table, n);
    case Close => Index.NothingLinked();
    case _ =>
  }

  /** Every step, a Refresh onto a stored token included, keeps the length within the cap. */
  lemma StepCap(cfg: Config, batch: int, s: System, a: Action)
    requires Inv(cfg, batch, s) && Enabled(cfg, batch, s, a)
    ensures WithinCap(cfg, Next(cfg, s, a).table.sessions)
  {
    hide Next, NextTable, Enabled, Index.Linked, Accounted;
    EnabledApplies(cfg, batch, s, a);
    NextParts(cfg, s, a);
    if a.Put? || a.Delete? || a.Refresh? {
      WriteCap(cfg, s, a);
    } else {
      RestCap(cfg, s, a);
    }
  }

  lemma WriteCap(cfg: Config, s: System, a: Action)
    requires Index.Linked(s.table) && WithinCap(cfg, s.table.sessions) && (a.Put? || a.Delete? || a.Refresh?)
    ensures WithinCap(cfg, NextTable(cfg, s, a).sessions)
  {
    hide Index.Linked, Lookup, Without, Sessions.SetData, Index.Drop, PutAll, DeleteAll, Distinct;
    var token := if a.Refresh? then a.access else a.token;
    Index.LinkedDistinct(s.table);
    Index.DropLinked(s.table, token);
    WithoutKept(cfg, s.table.sessions, token);
    if (a.Put? || a.Delete?) && Stored(s.table.sessions, token) {
      var data := Lookup(s.table.sessions, token).value.data;
      SetDataAt(s.table.sessions, token, if a.Put? then PutAll(data, a.pairs) else DeleteAll(data, a.keys));
    }
  }

  lemma RestCap(cfg: Config, s: System, a: Action)
    requires Index.Linked(s.table) && WithinCap(cfg, s.table.sessions) && Applies(s, a)
    requires !(a.Put? || a.Delete? || a.Refresh?)
    ensures WithinCap(cfg, NextTable(cfg, s, a).sessions)
  {
    hide Index.Linked, Index.Drop, Index.DropAll, Index.DropId, Index.Insert, Index.ClearFirst;
    hide PutAll, Store.IdOf, Distinct, Without, WithoutId, Index.WithoutAll, Store.Insert;
    var list := s.table.sessions;
    Index.LinkedDistinct(s.table);
    match a
    case Insert(op) =>
      Index.InsertLinked(cfg, s.table, Store.Created(cfg, op));
      Store.InsertKept(cfg, list, Store.Created(cfg, op));
    case Destroy(id) =>
      Index.DropIdLinked(s.table, id);
      WithoutIdSize(list, id);
    case DestroyByToken(token) =>
      Index.DropLinked(s.table, token);
      WithoutSize(list, token);
    case Batch(victims, _) =>
      Index.DropAllLinked(s.table, victims);
      Index.WithoutAllSize(list, victims);
    case Tick(n, _) => Index.ClearFirstLinked(s.table, n);
    case _ =>
  }

  lemma TakeAccounted(batch: int, s: System, token: string)
    requires |s.queue| <= Capacity(batch) && |s.batch| < Limit(batch)
    requires forall tok :: tok in s.batch <==> tok in s.received
    requires s.posted == multiset(s.queue) + s.received + multiset{token} + s.handled
    ensures Accounted(batch, Take(s, token))
  {
  }

  lemma QueueAccounted(queue: seq<string>, token: string)
    ensures multiset(queue + [token]) == multiset(queue) + multiset{token}
    ensures queue != [] ==> multiset(queue) == multiset(queue[1..]) + multiset{queue[0]}
  {
    if queue != [] {
      assert queue == [queue[0]] + queue[1..];
    }
  }

  lemma SendAccounted(cfg: Config, batch: int, s: System, token: string)
    requires Accounted(batch, s) && |s.queue| < Capacity(batch)
    ensures Accounted(batch, Next(cfg, s, Send(token)))
  {
    hide Accounted, NextTable, Capacity;
    SentAccounted(batch, s, Next(cfg, s, Send(token)), token);
  }

  lemma SentAccounted(batch: int, s: System, t: System, token: string)
    requires Accounted(batch, s) && |s.queue| < Capacity(batch)
    requires t.queue == s.queue + [token] && t.posted == s.posted + multiset{token}
    requires t.phase == s.phase && t.batch == s.batch && t.received == s.received && t.handled == s.handled
    ensures Accounted(batch, t)
  {
    QueueAccounted(s.queue, token);
    OneMore(multiset(s.queue), s.received, s.handled, token);
  }

  lemma OneMore(queue: multiset<string>, received: multiset<string>, handled: multiset<string>, token: string)
    ensures queue + received + handled + multiset{token} == queue + multiset{token} + received + handled
  {
  }

  lemma HandoffAccounted(cfg: Config, batch: int, s: System, token: string)
    requires Accounted(batch, s) && Receiving(batch, s)
    ensures Accounted(batch, Next(cfg, s, Handoff(token)))
  {
    hide Take;
    TakeAccounted(batch, s.(posting := s.posting - multiset{token}, posted := s.posted + multiset{token}), token);
  }

  lemma ReceiveAccounted(cfg: Config, batch: int, s: System)
    requires Accounted(batch, s) && s.queue != [] && Receiving(batch, s)
    ensures Accounted(batch, Next(cfg, s, Receive))
  {
    hide Take;
    QueueAccounted(s.queue, s.queue[0]);
    TakeAccounted(batch, s.(queue := s.queue[1..]), s.queue[0]);
  }

  lemma BatchAccounted(cfg: Config, batch: int, s: System, victims: seq<string>, later: int)
    requires Accounted(batch, s)
    ensures Accounted(batch, Next(cfg, s, Batch(victims, later)))
  {
    hide Accounted, NextTable;
    RanAccounted(batch, s, Next(cfg, s, Batch(victims, later)));
  }

  lemma RanAccounted(batch: int, s: System, t: System)
    requires Accounted(batch, s) && t.queue == s.queue && t.posted == s.posted
    requires
      || (t.phase == Gone && t.batch == s.batch && t.received == s.received && t.handled == s.handled)
      || (t.batch == {} && t.received == multiset{} && t.handled == s.handled + s.received)
    ensures Accounted(batch, t)
  {
  }

  /** The other actions leave channel and worker alone, but for the worker's phase. */
  lemma RestBooks(cfg: Config, s: System, a: Action)
    requires !(a.Send? || a.Handoff? || a.Receive? || a.Batch?)
    ensures
      var n := Next(cfg, s, a);
      && n == s.(table := n.table, closed := n.closed, now := n.now, stamped := n.stamped, posting := n.posting,
                 phase := n.phase)
      && (n.phase == s.phase || n.phase == Ready || n.phase == Gone)
  {
    hide NextTable, NextNow, FoundDead;
    match a
    case Stamp(_, _, _, _) =>
    case GiveUp(_) =>
    case Insert(_) =>
    case Read(_, _) =>
    case Abandon(_) =>
    case StopMerging =>
    case Quit =>
    case Close =>
    case _ =>
  }

  lemma PhaseAccounted(batch: int, s: System, n: System)
    requires Accounted(batch, s)
    requires n == s.(table := n.table, closed := n.closed, now := n.now, stamped := n.stamped, posting := n.posting,
                     phase := n.phase)
    requires n.phase == s.phase || n.phase == Ready || n.phase == Gone
    ensures Accounted(batch, n)
  {
  }

  lemma StepAccounted(cfg: Config, batch: int, s: System, a: Action)
    requires Accounted(batch, s) && Enabled(cfg, batch, s, a)
    ensures Accounted(batch, Next(cfg, s, a))
  {
    hide Next, Accounted, Store.Reject, Store.CheckToken, Store.Created, BatchOutcome, TickOutcome, Receiving;
    match a
    case Send(token) => SendAccounted(cfg, batch, s, token);
    case Handoff(token) => HandoffAccounted(cfg, batch, s, token);
    case Receive => ReceiveAccounted(cfg, batch, s);
    case Batch(victims, later) => BatchAccounted(cfg, batch, s, victims, later);
    case _ =>
      RestBooks(cfg, s, a);
      PhaseAccounted(batch, s, Next(cfg, s, a));
  }

  /** A step of any goroutine keeps list and index in agreement, the length within the cap, the worker's set within
      max(batch, 1), and every posted token in the channel, among those received since the last batch, or handled,
      exactly when it is not a Refresh that succeeds onto a token stored for another session. */
  lemma StepInvIff(cfg: Config, batch: int, s: System, a: Action)
    requires Inv(cfg, batch, s) && Enabled(cfg, batch, s, a)
    ensures Inv(cfg, batch, Next(cfg, s, a)) <==> CleanAction(s, a)
  {
    hide Next, NextTable, NextNow, Enabled, Index.Linked, Accounted, CleanAction, WithinCap, Store.Reject;
    EnabledApplies(cfg, batch, s, a);
    TableLinkedIff(cfg, s, a);
    NextParts(cfg, s, a);
    StepCap(cfg, batch, s, a);
    StepAccounted(cfg, batch, s, a);
    StepStamped(cfg, batch, s, a);
    StepClosed(cfg, batch, s, a);
  }

  lemma StepStamped(cfg: Config, batch: int, s: System, a: Action)
    requires Enabled(cfg, batch, s, a)
    requires forall op :: op in s.stamped ==> op.Create? && Store.Reject(op) == None
    ensures forall op :: op in Next(cfg, s, a).stamped ==> op.Create? && Store.Reject(op) == None
  {
    hide Next, Enabled, Store.CheckToken, Store.CheckId;
    NextParts(cfg, s, a);
    if a.Stamp? || a.GiveUp? || a.Insert? {
      StampedNext(cfg, batch, s, a);
    }
  }

  lemma StampedNext(cfg: Config, batch: int, s: System, a: Action)
    requires Enabled(cfg, batch, s, a) && (a.Stamp? || a.GiveUp? || a.Insert?)
    ensures forall op :: op in Next(cfg, s, a).stamped ==>
      op in s.stamped || (op.Create? && Store.Reject(op) == None)
  {
    hide NextTable, Store.CheckToken, Store.CheckId, Store.Created;
  }

  lemma StepClosed(cfg: Config, batch: int, s: System, a: Action)
    requires Enabled(cfg, batch, s, a) && (s.closed ==> s.table == Index.Table([], map[]))
    ensures s.closed || a.Close? ==> NextTable(cfg, s, a) == Index.Table([], map[])
  {
    hide Store.Reject, Store.CheckToken, Store.Created, BatchOutcome, TickOutcome;
  }

  /** A run of the system: each action is enabled where it is taken. */
  ghost predicate Reaches(cfg: Config, batch: int, s: System, acts: seq<Action>, end: System)
    decreases |acts|
  {
    if acts == [] then s == end
    else Enabled(cfg, batch, s, acts[0]) && Reaches(cfg, batch, Next(cfg, s, acts[0]), acts[1..], end)
  }

  /** No Refresh of the run succeeds onto a token stored for another session. */
  ghost predicate CleanRun(cfg: Config, s: System, acts: seq<Action>)
    decreases |acts|
  {
    acts != [] ==> CleanAction(s, acts[0]) && CleanRun(cfg, Next(cfg, s, acts[0]), acts[1..])
  }

  /** One action more. */
  lemma {:induction false} ReachesSnoc(cfg: Config, batch: int, s: System, acts: seq<Action>, mid: System, a: Action)
    requires Reaches(cfg, batch, s, acts, mid) && Enabled(cfg, batch, mid, a)
    ensures Reaches(cfg, batch, s, acts + [a], Next(cfg, mid, a))
    ensures CleanRun(cfg, s, acts) && CleanAction(mid, a) ==> CleanRun(cfg, s, acts + [a])
    decreases |acts|
  {
    hide Enabled, Next, CleanAction;
    if acts == [] {
      assert acts + [a] == [a];
    } else {
      assert (acts + [a])[1..] == acts[1..] + [a];
      ReachesSnoc(cfg, batch, Next(cfg, s, acts[0]), acts[1..], mid, a);
    }
  }

  lemma {:induction false} RunKeepsInv(cfg: Config, batch: int, s: System, acts: seq<Action>, end: System)
    requires Inv(cfg, batch, s) && Reaches(cfg, batch, s, acts, end) && CleanRun(cfg, s, acts)
    ensures Inv(cfg, batch, end)
    decreases |acts|
  {
    hide Inv, Enabled, Next, CleanAction;
    if acts != [] {
      StepInvIff(cfg, batch, s, acts[0]);
      RunKeepsInv(cfg, batch, Next(cfg, s, acts[0]), acts[1..], end);
    }
  }

  /** So it holds in every state reached from the start by clean refreshes; in particular the list is within the cap,
      the channel within its capacity, the worker's set within max(batch, 1), and no posted token is lost. */
  lemma RunInv(cfg: Config, batch: int, now: int, acts: seq<Action>, end: System)
    requires Reaches(cfg, batch, Start(now), acts, end) && CleanRun(cfg, Start(now), acts)
    ensures Inv(cfg, batch, end)
    ensures cfg.maxSize > 0 ==> |end.table.sessions| <= cfg.maxSize
    ensures |end.queue| <= (if batch > 0 then batch else 0) && |end.batch| <= (if batch > 1 then batch else 1)
    ensures forall token :: token in end.posted ==>
      token in end.queue || token in end.batch || token in end.handled
  {
    hide Reaches, CleanRun, Index.Linked;
    StartInv(cfg, batch, now);
    RunKeepsInv(cfg, batch, Start(now), acts, end);
    forall token | token in end.posted
      ensures token in end.queue || token in end.batch || token in end.handled
    {
      PostedNotLost(cfg, batch, end, token);
    }
  }

  // ---------------------------------------------------------------- cleaning never takes a live session

  /** The steps of the worker, the timer, the readers and the clock. */
  predicate Background(a: Action) {
    a.Advance? || a.Stamp? || a.GiveUp? || a.Read? || a.Send? || a.Handoff? || a.Abandon? || a.Receive?
    || a.StopMerging? || a.Batch? || a.Tick? || a.Quit?
  }

  /** A batch is one cleaning step. */
  lemma BatchDrops(s: System, victims: seq<string>, later: int)
    requires Index.Linked(s.table) && BatchOutcome(s.table.sessions, s.batch, victims, s.now, later)
    ensures Index.DropAll(s.table, victims).sessions
         == DropDead(s.table.sessions, (set token | token in victims), later)
  {
    hide Index.Linked, Index.DropAll, Lookup;
    Index.LinkedDistinct(s.table);
    Index.DropAllLinked(s.table, victims);
    forall x | x in s.table.sessions && x.access in victims
      ensures x.Dead(later)
    {
      Index.LookupOfMember(s.table.sessions, x);
    }
    Index.WithoutAllIsDropDead(s.table.sessions, victims, later);
  }

  /** The tokens of the first `n` sessions. */
  function Front(s: seq<Session>, n: nat): set<string> {
    set i | 0 <= i < n && i < |s| :: s[i].access
  }

  /** So is a tick of the timer. */
  lemma TickDrops(s: System, n: nat, later: int)
    requires Index.Linked(s.table) && TickOutcome(s.table.sessions, n, later)
    ensures Index.ClearFirst(s.table, n).sessions == DropDead(s.table.sessions, Front(s.table.sessions, n), later)
  {
    hide Index.Linked, Index.ClearFirst, DropDead;
    Index.ClearFirstLinked(s.table, n);
    Index.LinkedDistinct(s.table);
    DropDeadPrefix(s.table.sessions, n, Front(s.table.sessions, n), later);
  }

  /** In any reachable state, whatever order stamps were taken in, no step of the worker, the timer or a reader
      removes, adds or changes a session that is live when the step ends. */
  lemma BackgroundKeepsLive(cfg: Config, batch: int, s: System, a: Action)
    requires Inv(cfg, batch, s) && Enabled(cfg, batch, s, a) && Background(a)
    ensures Live(Next(cfg, s, a).table.sessions, Next(cfg, s, a).now) == Live(s.table.sessions, Next(cfg, s, a).now)
  {
    hide Next, Index.Linked, Index.DropAll, Index.ClearFirst, Live, DropDead, Accounted, BatchOutcome, TickOutcome;
    hide Store.Reject, Store.CheckToken, Store.Created, Front;
    NextParts(cfg, s, a);
    var list := s.table.sessions;
    match a
    case Batch(victims, later) =>
      if !s.closed {
        BatchDrops(s, victims, later);
        LiveDropDead(list, (set token | token in victims), later, later);
      }
    case Tick(n, later) =>
      TickDrops(s, n, later);
      LiveDropDead(list, Front(list, n), later, later);
    case _ =>
  }

  lemma ClockForward(cfg: Config, batch: int, s: System, a: Action)
    requires Enabled(cfg, batch, s, a)
    ensures s.now <= Next(cfg, s, a).now
  {
    hide Next, NextTable, Store.Reject, Store.CheckToken, Store.Created, BatchOutcome, TickOutcome, Receiving;
    NextParts(cfg, s, a);
  }

  /** Through any run of worker, timer and readers, a session that is live at its end stays stored. */
  lemma {:induction false} BackgroundRunKeeps(cfg: Config, batch: int, s: System, acts: seq<Action>, end: System,
                                            x: Session)
    requires Inv(cfg, batch, s) && Reaches(cfg, batch, s, acts, end)
    requires forall a :: a in acts ==> Background(a)
    requires x in s.table.sessions && !x.Dead(end.now)
    ensures Inv(cfg, batch, end) && s.now <= end.now && x in end.table.sessions
    decreases |acts|
  {
    hide Inv, Enabled, Next, Background, Live;
    if acts != [] {
      var next := Next(cfg, s, acts[0]);
      BackgroundClean(s, acts[0]);
      StepInvIff(cfg, batch, s, acts[0]);
      ClockForward(cfg, batch, s, acts[0]);
      RunForward(cfg, batch, next, acts[1..], end);
      BackgroundKeepsLive(cfg, batch, s, acts[0]);
      LiveMembers(s.table.sessions, next.now);
      LiveMembers(next.table.sessions, next.now);
      BackgroundRunKeeps(cfg, batch, next, acts[1..], end, x);
    }
  }

  lemma BackgroundClean(s: System, a: Action)
    requires Background(a)
    ensures CleanAction(s, a)
  {
  }

  lemma {:induction false} RunForward(cfg: Config, batch: int, s: System, acts: seq<Action>, end: System)
    requires Reaches(cfg, batch, s, acts, end)
    ensures s.now <= end.now
    decreases |acts|
  {
    hide Enabled, Next;
    if acts != [] {
      ClockForward(cfg, batch, s, acts[0]);
      RunForward(cfg, batch, Next(cfg, s, acts[0]), acts[1..], end);
    }
  }

  /** A token found dead and posted, and created again at any later time, is still stored once the worker has run its
      batches, the one that holds the posted token among them, for as long as the new session lives. */
  lemma RecreatedKept(cfg: Config, batch: int, s: System, read: Action, before: seq<Action>, mid: System, op: Store.Op,
                      after: seq<Action>, end: System)
    requires Inv(cfg, batch, s) && read.Read? && Enabled(cfg, batch, s, read)
    requires DeadAt(s.table.sessions, read.op.token, s.now)
    requires Reaches(cfg, batch, Next(cfg, s, read), before, mid) && CleanRun(cfg, Next(cfg, s, read), before)
    requires op.Create? && op.access == read.op.token && !mid.closed && Enabled(cfg, batch, mid, Insert(op))
    requires Reaches(cfg, batch, Next(cfg, mid, Insert(op)), after, end) && forall a :: a in after ==> Background(a)
    requires !Store.Created(cfg, op).Dead(end.now)
    ensures read.op.token in Next(cfg, s, read).posting
    ensures Inv(cfg, batch, end) && Lookup(end.table.sessions, op.access) == Some(Store.Created(cfg, op))
  {
    hide Inv, Reaches, CleanRun, Lookup, Inserted, Store.Reject;
    StepInvIff(cfg, batch, s, read);
    RunKeepsInv(cfg, batch, Next(cfg, s, read), before, mid);
    StepInvIff(cfg, batch, mid, Insert(op));
    JustInserted(cfg, batch, mid, op);
    BackgroundRunKeeps(cfg, batch, Next(cfg, mid, Insert(op)), after, end, Store.Created(cfg, op));
    StoredOnce(cfg, batch, end, Store.Created(cfg, op));
  }

  lemma JustInserted(cfg: Config, batch: int, s: System, op: Store.Op)
    requires Inv(cfg, batch, s) && op in s.stamped && op.Create? && !s.closed
    ensures Store.Created(cfg, op) in Next(cfg, s, Insert(op)).table.sessions
  {
    hide Index.Linked, Accounted, Store.IdOf, Store.Reject;
    Index.InsertLinked(cfg, s.table, Store.Created(cfg, op));
  }

  lemma StoredOnce(cfg: Config, batch: int, s: System, x: Session)
    requires Inv(cfg, batch, s) && x in s.table.sessions
    ensures Lookup(s.table.sessions, x.access) == Some(x)
  {
    hide Index.Linked, Accounted, Lookup;
    Index.LinkedDistinct(s.table);
    Index.LookupOfMember(s.table.sessions, x);
  }

  /** A batch removes every session of its set that was dead when it took the lock. */
  lemma BatchRemovesDead(cfg: Config, batch: int, s: System, token: string, victims: seq<string>, later: int)
    requires Inv(cfg, batch, s) && Enabled(cfg, batch, s, Batch(victims, later)) && token in s.batch && !s.closed
    requires DeadAt(s.table.sessions, token, s.now)
    ensures Lookup(Next(cfg, s, Batch(victims, later)).table.sessions, token) == None
  {
    hide Index.Linked, Index.DropAll, Index.WithoutAll, Lookup, Accounted;
    Index.DropAllLinked(s.table, victims);
    Index.WithoutAllMembers(s.table.sessions, victims);
    assert token in victims;
    NotLookedUp(Index.WithoutAll(s.table.sessions, victims), token);
  }

  lemma NotLookedUp(s: seq<Session>, token: string)
    requires forall x :: x in s ==> x.access != token
    ensures Lookup(s, token) == None
  {
  }

  /** Until the worker sees Close, a posted token is in the channel, in the worker's set, or handled. */
  lemma PostedNotLost(cfg: Config, batch: int, s: System, token: string)
    requires Inv(cfg, batch, s) && token in s.posted
    ensures token in s.queue || token in s.batch || token in s.handled
  {
    hide Index.Linked;
    assert token in multiset(s.queue) ==> token in s.queue;
  }

  // ---------------------------------------------------------------- what overlapping Creates cost

  /** A session at the end keeps the list sorted exactly when its deadline is not before the last one's. */
  lemma AppendSortedIff(s: seq<Session>, x: Session)
    requires Sorted(s)
    ensures Sorted(s + [x]) <==> s == [] || s[|s| - 1].refreshDeadline <= x.refreshDeadline
  {
    var t := s + [x];
    assert t[|s|] == x;
    assert s != [] ==> t[|s| - 1] == s[|s| - 1];
  }

  /** Storing a stamped record keeps the list sorted exactly when no record stamped later is at its end already. */
  lemma InsertSortedIff(cfg: Config, batch: int, s: System, op: Store.Op)
    requires Inv(cfg, batch, s) && op in s.stamped && op.Create? && !s.closed && Sorted(s.table.sessions)
    ensures
      var room := Index.Room(cfg, s.table, op.access).sessions;
      Sorted(Next(cfg, s, Insert(op)).table.sessions) <==>
      room == [] || room[|room| - 1].refreshDeadline <= op.stamp + cfg.refresh
  {
    hide Index.Linked, Lookup, Accounted, Index.Room, Index.File, Sorted, Store.Reject, PutAll, Store.IdOf;
    Index.RoomSorted(cfg, s.table, op.access);
    AppendSortedIff(Index.Room(cfg, s.table, op.access).sessions, Store.Created(cfg, op));
  }

  function StampAt(letter: char, at: int): Action {
    Stamp(['u', '.', letter, '.', 'x'], ['u', '.', letter, '.', 'y'], [], at)
  }

  /** Two Creates that overlap: the one stamped first takes the lock second. */
  function OverlapActions(): seq<Action> {
    [StampAt('a', 0), Advance(5), StampAt('b', 5), Insert(Runs.CreateAt('b', 5)), Insert(Runs.CreateAt('a', 0))]
  }

  /** Stamping and testing a record at once. */
  lemma StampNow(cfg: Config, s: System, letter: char)
    requires letter != '.'
    ensures Enabled(cfg, 1, s, StampAt(letter, s.now))
    ensures Next(cfg, s, StampAt(letter, s.now)) == s.(stamped := s.stamped + multiset{Runs.CreateAt(letter, s.now)})
  {
    hide Store.CheckToken;
    Store.SplitsAs(letter, 'x');
    Store.SplitsAs(letter, 'y');
  }

  lemma AdvanceNow(cfg: Config, s: System, at: int)
    requires s.now <= at
    ensures Enabled(cfg, 1, s, Advance(at)) && Next(cfg, s, Advance(at)) == s.(now := at)
  {
  }

  /** Storing it, in a store whose deadlines are ten apart. */
  lemma InsertNow(cfg: Config, s: System, letter: char, at: int)
    requires letter != '.' && cfg.access == cfg.refresh == 10
    requires Runs.CreateAt(letter, at) in s.stamped && !s.closed
    ensures Enabled(cfg, 1, s, Insert(Runs.CreateAt(letter, at)))
    ensures
      Next(cfg, s, Insert(Runs.CreateAt(letter, at)))
      == s.(stamped := s.stamped - multiset{Runs.CreateAt(letter, at)},
            table := Index.Insert(cfg, s.table, Runs.MadeAt(letter, at)))
  {
    hide Index.Insert, Store.CheckToken, Store.IdOf;
    Store.SplitsAs(letter, 'x');
  }

  /** From the empty store they leave the list unsorted. */
  lemma OverlapUnsorted() returns (end: System)
    ensures Reaches(Config(10, 10, -1), 1, Start(0), OverlapActions(), end)
    ensures CleanRun(Config(10, 10, -1), Start(0), OverlapActions())
    ensures !Sorted(end.table.sessions)
  {
    hide Index.Insert, Sorted, Reaches, CleanRun, Store.CheckToken, Store.IdOf, Next, Enabled;
    var cfg := Config(10, 10, -1);
    var a, b := Runs.CreateAt('a', 0), Runs.CreateAt('b', 5);
    var x, y := Runs.MadeAt('a', 0), Runs.MadeAt('b', 5);
    var s1 := Start(0).(stamped := multiset{a});
    var s2 := s1.(now := 5);
    var s3 := s2.(stamped := multiset{a, b});
    var s4 := s3.(stamped := multiset{a}, table := Index.Insert(cfg, s3.table, y));
    end := s4.(stamped := multiset{}, table := Index.Insert(cfg, s4.table, x));
    StampNow(cfg, Start(0), 'a');
    AdvanceNow(cfg, s1, 5);
    StampNow(cfg, s2, 'b');
    assert multiset{a, b} - multiset{b} == multiset{a} && multiset{a} - multiset{a} == multiset{};
    InsertNow(cfg, s3, 'b', 5);
    InsertNow(cfg, s4, 'a', 0);
    assert x.access[2] != y.access[2];
    Store.SplitsAs('a', 'x');
    Store.SplitsAs('b', 'x');
    InsertedUnsorted(cfg, x, y);
    ReachesFive(cfg, OverlapActions(), Start(0), s1, s2, s3, s4, end);
  }

  lemma InsertedUnsorted(cfg: Config, x: Session, y: Session)
    requires cfg.maxSize <= 0 && x.access != y.access && x.refreshDeadline < y.refreshDeadline
    requires x.id == Store.IdOf(x.access) && y.id == Store.IdOf(y.access)
    ensures !Sorted(Index.Insert(cfg, Index.Insert(cfg, Index.Table([], map[]), y), x).sessions)
  {
    hide Index.Linked, Index.Insert, Store.IdOf;
    var empty := Index.Table([], map[]);
    Index.NothingLinked();
    Index.InsertLinked(cfg, empty, y);
    Index.InsertLinked(cfg, Index.Insert(cfg, empty, y), x);
    assert Store.Insert(cfg, [], y) == [y];
    var s := Store.Insert(cfg, [y], x);
    WithoutNone([y], x.access);
    assert [y] + [x] == [y, x];
    assert s == [y, x];
    assert s[0].refreshDeadline > s[1].refreshDeadline;
  }

  /** Five actions in a row. */
  lemma ReachesFive(cfg: Config, acts: seq<Action>, s: System, s1: System, s2: System, s3: System, s4: System,
                    end: System)
    requires |acts| == 5 && forall a :: a in acts ==> !a.Refresh?
    requires Enabled(cfg, 1, s, acts[0]) && s1 == Next(cfg, s, acts[0])
    requires Enabled(cfg, 1, s1, acts[1]) && s2 == Next(cfg, s1, acts[1])
    requires Enabled(cfg, 1, s2, acts[2]) && s3 == Next(cfg, s2, acts[2])
    requires Enabled(cfg, 1, s3, acts[3]) && s4 == Next(cfg, s3, acts[3])
    requires Enabled(cfg, 1, s4, acts[4]) && end == Next(cfg, s4, acts[4])
    ensures Reaches(cfg, 1, s, acts, end) && CleanRun(cfg, s, acts)
  {
    hide Enabled, Next;
    ReachesSnoc(cfg, 1, s, [], s, acts[0]);
    ReachesSnoc(cfg, 1, s, [acts[0]], s1, acts[1]);
    ReachesSnoc(cfg, 1, s, [acts[0]] + [acts[1]], s2, acts[2]);
    ReachesSnoc(cfg, 1, s, [acts[0]] + [acts[1]] + [acts[2]], s3, acts[3]);
    ReachesSnoc(cfg, 1, s, [acts[0]] + [acts[1]] + [acts[2]] + [acts[3]], s4, acts[4]);
    assert [] + [acts[0]] == [acts[0]];
    assert [acts[0]] + [acts[1]] + [acts[2]] + [acts[3]] + [acts[4]] == acts;
  }
}
