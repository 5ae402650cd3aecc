/** Both providers under the same clients: a sequence of requests is served call by call, and what happened is a run in
    the sense of Runs. This is where the theorems about runs become theorems about the two classes. */
module Drivers {
  import opened Basics
  import opened Clocks
  import opened MemoryProviders
  import opened Runs
  import opened Sessions
  import opened Store
  import opened TokenValues
  import BigEndian
  import BoltBuckets
  import BoltProviders
  import Index

  /** A client call, the timer, or a batch of the worker. The clock readings in a requested Create do not matter: the
      call takes its own. */
  datatype Request = Do(op: Op) | Tick | Batch(tokens: set<string>)

  /** The event is one that serves the request. */
  predicate Serves(req: Request, ev: Event) {
    match req
    case Do(op) =>
      && ev.Call?
      && ev.op == (if op.Create? && ev.op.Create? then op.(stamp := ev.op.stamp, checked := ev.op.checked) else op)
    case _ => ev.Clean?
  }

  predicate Follows(reqs: seq<Request>, evs: seq<Event>) {
    |evs| == |reqs| && forall i :: 0 <= i < |reqs| ==> Serves(reqs[i], evs[i])
  }

  /** The tokens a request hands out. */
  function Issued(req: Request): set<string> {
    match req
    case Do(Create(access, _, _, _, _)) => {access}
    case Do(Refresh(_, _, newAccess, _)) => {newAccess}
    case _ => {}
  }

  /** The request does not refresh onto an access token handed out before, other than its own. */
  predicate NotReused(req: Request, issued: set<string>) {
    req.Do? && req.op.Refresh? ==> req.op.newAccess == req.op.access || req.op.newAccess !in issued
  }

  ghost predicate NeverReused(reqs: seq<Request>, issued: set<string>)
    decreases |reqs|
  {
    reqs != [] ==> NotReused(reqs[0], issued) && NeverReused(reqs[1..], issued + Issued(reqs[0]))
  }

  /** The readings of an event lie between `start` and `end`. */
  predicate Within(ev: Event, start: int, end: int) {
    && start <= At(ev) <= end
    && (ev.Call? && StampOf(ev.op, ev.later).Some? ==> start <= StampOf(ev.op, ev.later).value <= end)
  }

  /** What happened is what the step says, reply included. Cleaning has no reply. */
  ghost predicate Happened(cfg: Config, before: State, after: State, ev: Event, reply: Option<Reply>) {
    match ev
    case Call(op, now, later) => reply.Some? && LazyStep(cfg, before, op, now, later) == Outcome(after, reply.value)
    case Clean(victims, at) => reply == None && after == Cleaned(before, victims, at)
  }

  // ---------------------------------------------------------------- runs, one event at a time

  lemma TimedCons(ev: Event, rest: seq<Event>, start: int, end: int, stamp: int)
    requires Within(ev, start, end) && stamp <= start
    requires forall st :: st <= end ==> Timed(rest, end, st)
    ensures Timed([ev] + rest, start, stamp)
  {
    assert ([ev] + rest)[1..] == rest;
    assert Timed(rest, end, Stamped(ev, stamp));
  }

  lemma HappenedFirst(cfg: Config, before: State, after: State, ev: Event, reply: Option<Reply>, rest: seq<Event>)
    requires Happened(cfg, before, after, ev, reply)
    ensures LazyRun(cfg, before, [ev] + rest).state == LazyRun(cfg, after, rest).state
    ensures LazyRun(cfg, before, [ev] + rest).replies
         == (if reply.Some? then [reply.value] else []) + LazyRun(cfg, after, rest).replies
  {
    hide LazyStep, LazyRun;
    RunCons(cfg, before, ev, rest);
  }

  lemma FollowsCons(req: Request, reqs: seq<Request>, ev: Event, evs: seq<Event>)
    requires Serves(req, ev) && Follows(reqs, evs)
    ensures Follows([req] + reqs, [ev] + evs)
  {
  }

  lemma HappenedWithin(cfg: Config, before: State, after: State, req: Request, ev: Event, reply: Option<Reply>,
                       issued: set<string>)
    requires Happened(cfg, before, after, ev, reply) && Serves(req, ev) && StoredWithin(before, issued)
    ensures StoredWithin(after, issued + Issued(req))
  {
    hide LazyStep;
    if before.Open? {
      match ev
      case Call(op, now, later) => StepOrigins(cfg, before.sessions, op, now, later);
      case Clean(victims, at) => DropDeadMembers(before.sessions, victims, at);
    } else {
      ClosedStays(cfg, ev);
    }
  }

  lemma ClosedStays(cfg: Config, ev: Event)
    ensures After(cfg, Closed, ev) == Closed
  {
  }

  /** A refresh onto a token that was never handed out has a clean target. */
  lemma TargetClean(st: State, req: Request, issued: set<string>)
    requires StoredWithin(st, issued) && NotReused(req, issued)
    ensures req.Do? && st.Open? ==> FreshTarget(st.sessions, req.op)
  {
    hide Lookup;
  }

  lemma {:induction false} FollowersNeverReissue(reqs: seq<Request>, evs: seq<Event>, issued: set<string>)
    requires Follows(reqs, evs) && NeverReused(reqs, issued)
    ensures NeverReissued(evs, issued)
    decreases |reqs|
  {
    if reqs != [] {
      assert Serves(reqs[0], evs[0]);
      assert Follows(reqs[1..], evs[1..]) by {
        forall i | 0 <= i < |reqs| - 1
          ensures Serves(reqs[1..][i], evs[1..][i])
        {
          assert Serves(reqs[i + 1], evs[i + 1]);
        }
      }
      assert IssuedBy(evs[0]) == Issued(reqs[0]);
      FollowersNeverReissue(reqs[1..], evs[1..], issued + Issued(reqs[0]));
    }
  }

  // ---------------------------------------------------------------- the memory provider

  /** Byte arrays for a caller's pairs. */
  method Pack(p: MemoryProvider, pairs: seq<Pair>) returns (sent: seq<PairBytes>)
    requires p.Valid()
    ensures p.Valid() && PairsOf(sent) == pairs
  {
    hide Index.Linked;
    sent := ToPairBytes(pairs);
  }

  /** The values behind an answer of Get. */
  method Unpack(p: MemoryProvider, vals: array<Slot>, ghost got: seq<Value>) returns (r: seq<Value>)
    requires p.Valid() && |got| == vals.Length && forall i :: 0 <= i < |got| ==> got[i] == ValueOfSlot(vals[i])
    ensures p.Valid() && r == got
  {
    hide Index.Linked;
    r := [];
    for i := 0 to vals.Length
      invariant |r| == i && forall j :: 0 <= j < i ==> r[j] == got[j]
    {
      r := r + [ValueOfSlot(vals[i])];
    }
  }

  method CreateOn(p: MemoryProvider, op: Op, clock: Clock) returns (reply: Option<Reply>, ghost ev: Event)
    requires p.Valid() && op.Create?
    modifies p, p.Bufs(), clock
    ensures p.Valid() && fresh(p.Bufs() - old(p.Bufs())) && forall t :: t in p.lru && t !in old(p.lru) ==> fresh(t)
    ensures Serves(Do(op), ev) && Within(ev, old(clock.now), clock.now) && old(clock.now) <= clock.now
    ensures Happened(p.cfg, old(p.State()), p.State(), ev, reply)
  {
    hide MemoryProvider.Valid, LazyStep;
    var sent := Pack(p, op.pairs);
    var e;
    ghost var done;
    e, done := p.Create(op.access, op.refresh, sent, clock);
    reply, ev := Some(ReplyOf(e)), Call(done, clock.now, clock.now);
  }

  method PutOn(p: MemoryProvider, op: Op, clock: Clock) returns (reply: Option<Reply>, ghost ev: Event)
    requires p.Valid() && op.Put?
    modifies p, p.lru, p.Bufs(), clock
    ensures p.Valid() && p.Bufs() <= old(p.Bufs()) && forall t :: t in p.lru ==> t in old(p.lru)
    ensures Serves(Do(op), ev) && Within(ev, old(clock.now), clock.now)
    ensures Happened(p.cfg, old(p.State()), p.State(), ev, reply)
  {
    hide MemoryProvider.Valid, LazyStep;
    var sent := Pack(p, op.pairs);
    var e;
    ghost var now, later;
    e, now, later := p.Put(op.token, sent, clock);
    reply, ev := Some(ReplyOf(e)), Call(op, now, later);
  }

  method ReadOn(p: MemoryProvider, op: Op, clock: Clock) returns (reply: Option<Reply>, ghost ev: Event)
    requires p.Valid() && (op.Check? || op.Get? || op.Keys?)
    modifies clock
    ensures p.Valid()
    ensures Serves(Do(op), ev) && Within(ev, old(clock.now), clock.now)
    ensures Happened(p.cfg, old(p.State()), p.State(), ev, reply)
  {
    hide MemoryProvider.Valid, LazyStep;
    ghost var now, later;
    var e, post;
    match op {
      case Check(token) =>
        e, post, now, later := p.Check(token, clock);
        reply := Some(ReplyOf(e));
      case Get(token, keys) =>
        ghost var got;
        var vals;
        vals, e, post, now, later, got := p.Get(token, keys, clock);
        var shown := Unpack(p, vals, got);
        reply := Some(if e == None then Values(shown) else Failed(e.value));
      case Keys(token) =>
        var keys;
        keys, e, post, now, later := p.Keys(token, clock);
        reply := Some(if e == None then KeySet(set k | k in keys) else Failed(e.value));
    }
    ev := Call(op, now, later);
  }

  method RemoveOn(p: MemoryProvider, op: Op, clock: Clock) returns (reply: Option<Reply>, ghost ev: Event)
    requires p.Valid() && (op.Destroy? || op.DestroyByToken? || op.Delete? || op.Close?)
    modifies p, p.lru, p.Bufs(), clock
    ensures p.Valid() && p.Bufs() <= old(p.Bufs()) && forall t :: t in p.lru ==> t in old(p.lru)
    ensures Serves(Do(op), ev) && Within(ev, old(clock.now), clock.now)
    ensures Happened(p.cfg, old(p.State()), p.State(), ev, reply)
  {
    hide MemoryProvider.Valid, LazyStep;
    ghost var now, later := clock.now, clock.now;
    var e;
    match op {
      case Destroy(id) => e := p.Destroy(id);
      case DestroyByToken(token) => e := p.DestroyByToken(token);
      case Delete(token, keys) => e, now, later := p.Delete(token, keys, clock);
      case Close => e := p.Close();
    }
    reply, ev := Some(ReplyOf(e)), Call(op, now, later);
  }

  method RefreshOn(p: MemoryProvider, op: Op, clock: Clock) returns (reply: Option<Reply>, ghost ev: Event)
    requires p.Valid() && op.Refresh? && (p.State().Open? ==> FreshTarget(p.sessions, op))
    modifies p, p.lru, p.Bufs(), clock
    ensures p.Valid() && fresh(p.Bufs() - old(p.Bufs())) && forall t :: t in p.lru ==> t in old(p.lru)
    ensures Serves(Do(op), ev) && Within(ev, old(clock.now), clock.now)
    ensures Happened(p.cfg, old(p.State()), p.State(), ev, reply)
  {
    hide MemoryProvider.Valid, LazyStep, FreshTarget;
    var e;
    ghost var now, later;
    e, now, later := p.Refresh(op.access, op.refresh, op.newAccess, op.newRefresh, clock);
    ClosedFails(p.cfg, op, now, later);
    reply, ev := Some(ReplyOf(e)), Call(op, now, later);
  }

  lemma ClosedFails(cfg: Config, op: Op, now: int, later: int)
    requires op.Refresh?
    ensures LazyStep(cfg, Closed, op, now, later).reply != Done
  {
  }

  method CleanOn(p: MemoryProvider, req: Request, clock: Clock) returns (reply: Option<Reply>, ghost ev: Event)
    requires p.Valid() && !req.Do?
    modifies p, p.Bufs(), clock
    ensures p.Valid() && p.Bufs() <= old(p.Bufs()) && forall t :: t in p.lru ==> t in old(p.lru)
    ensures Serves(req, ev) && Within(ev, old(clock.now), clock.now)
    ensures Happened(p.cfg, old(p.State()), p.State(), ev, reply)
  {
    hide MemoryProvider.Valid, Cleaned, BatchOutcome;
    reply := None;
    match req {
      case Tick =>
        ghost var s := p.sessions;
        ghost var n := p.UnsafeClear(clock);
        assert n <= |s|;
        ev := Clean((set i | 0 <= i < n :: s[i].access), clock.now);
      case Batch(m) =>
        ghost var victims;
        var closed;
        closed, victims := p.UnsafeCheck(m, clock);
        ev := Clean((set token | token in victims), clock.now);
    }
  }

  /** Serves one request. */
  method ServeMemory(p: MemoryProvider, req: Request, clock: Clock) returns (reply: Option<Reply>, ghost ev: Event)
    requires p.Valid() && (req.Do? && p.State().Open? ==> FreshTarget(p.sessions, req.op))
    modifies p.Footprint(), clock
    ensures p.Valid() && fresh(p.Footprint() - old(p.Footprint()))
    ensures Serves(req, ev) && Within(ev, old(clock.now), clock.now)
    ensures Happened(p.cfg, old(p.State()), p.State(), ev, reply)
  {
    hide MemoryProvider.Valid, Happened, Serves, Within, FreshTarget;
    forall i | 0 <= i < |p.lru|
      ensures p.lru[i] in p.Footprint()
    {
      assert p.lru[i] in p.lru;
    }
    if !req.Do? {
      reply, ev := CleanOn(p, req, clock);
    } else if req.op.Create? {
      reply, ev := CreateOn(p, req.op, clock);
    } else if req.op.Put? {
      reply, ev := PutOn(p, req.op, clock);
    } else if req.op.Refresh? {
      reply, ev := RefreshOn(p, req.op, clock);
    } else if req.op.Check? || req.op.Get? || req.op.Keys? {
      reply, ev := ReadOn(p, req.op, clock);
    } else {
      reply, ev := RemoveOn(p, req.op, clock);
    }
  }

  /** Serves the requests one after the other. What happened is a run of the lazy store, with its clock readings and
      stamps in order. */
  method DriveMemory(p: MemoryProvider, reqs: seq<Request>, clock: Clock, ghost issued: set<string>)
    returns (replies: seq<Reply>, ghost evs: seq<Event>)
    requires p.Valid() && StoredWithin(p.State(), issued) && NeverReused(reqs, issued)
    modifies p.Footprint(), clock
    ensures p.Valid() && Follows(reqs, evs)
    ensures forall stamp :: stamp <= old(clock.now) ==> Timed(evs, old(clock.now), stamp)
    ensures LazyRun(p.cfg, old(p.State()), evs) == Run(p.State(), replies)
    decreases |reqs|
  {
    hide MemoryProvider.Valid, Happened, Serves, Within, FreshTarget, NotReused, StoredWithin, LazyRun, Follows, Timed;
    if |reqs| == 0 {
      replies, evs := [], [];
      NothingHappened(p.cfg, p.State(), clock.now);
      return;
    }
    ghost var before, start := p.State(), clock.now;
    TargetClean(before, reqs[0], issued);
    var reply;
    ghost var ev;
    reply, ev := ServeMemory(p, reqs[0], clock);
    ghost var mid, end := p.State(), clock.now;
    HappenedWithin(p.cfg, before, mid, reqs[0], ev, reply, issued);
    replies, evs := DriveMemory(p, reqs[1..], clock, issued + Issued(reqs[0]));
    forall stamp | stamp <= start
      ensures Timed([ev] + evs, start, stamp)
    {
      TimedCons(ev, evs, start, end, stamp);
    }
    HappenedFirst(p.cfg, before, mid, ev, reply, evs);
    FollowsCons(reqs[0], reqs[1..], ev, evs);
    assert reqs == [reqs[0]] + reqs[1..];
    replies := (if reply.Some? then [reply.value] else []) + replies;
    evs := [ev] + evs;
  }

  lemma NothingHappened(cfg: Config, st: State, now: int)
    ensures Follows([], []) && LazyRun(cfg, st, []) == Run(st, [])
    ensures forall stamp :: Timed([], now, stamp)
  {
  }

  // ---------------------------------------------------------------- the bolt provider

  predicate KeyedRequest(req: Request) { req.Do? ==> BoltProviders.Keyed(req.op) }

  lemma ServedKeyed(cfg: Config, st: State, req: Request, ev: Event)
    requires KeyedRequest(req) && Serves(req, ev) && ev.Call?
    ensures BoltProviders.BoltStep(cfg, st, ev.op, ev.now, ev.later) == LazyStep(cfg, st, ev.op, ev.now, ev.later)
  {
    hide LazyStep;
  }

  method ReadBolt(p: BoltProviders.Provider, op: Op, clock: Clock) returns (reply: Option<Reply>, ghost ev: Event)
    requires p.Valid() && (op.Check? || op.Get? || op.Keys?)
    modifies clock
    ensures p.Valid() && Serves(Do(op), ev) && Within(ev, old(clock.now), clock.now)
    ensures Happened(p.cfg, old(p.State()), p.State(), ev, reply)
  {
    hide BoltProviders.Provider.Valid, LazyStep;
    ghost var now, later;
    var e, post;
    match op {
      case Check(token) =>
        e, post, now, later := p.Check(token, clock);
        reply := Some(ReplyOf(e));
      case Get(token, keys) =>
        var vals;
        vals, e, post, now, later := p.Get(token, keys, clock);
        reply := Some(if e == None then Values(vals) else Failed(e.value));
      case Keys(token) =>
        var keys;
        keys, e, post, now, later := p.Keys(token, clock);
        reply := Some(if e == None then KeySet(set k | k in keys) else Failed(e.value));
    }
    ev := Call(op, now, later);
    ServedKeyed(p.cfg, p.State(), Do(op), ev);
  }

  method CreateBolt(p: BoltProviders.Provider, op: Op, clock: Clock) returns (reply: Option<Reply>, ghost ev: Event)
    requires p.Valid() && p.db.sequence + 1 < BigEndian.TWO_TO_64 && KeyedRequest(Do(op)) && op.Create?
    modifies p, clock
    ensures p.Valid() && p.db.sequence <= old(p.db.sequence) + 1
    ensures Serves(Do(op), ev) && Within(ev, old(clock.now), clock.now)
    ensures Happened(p.cfg, old(p.State()), p.State(), ev, reply)
  {
    hide BoltProviders.Provider.Valid, LazyStep, KeyedRequest, BoltProviders.BoltStep;
    ghost var before := p.State();
    var e;
    ghost var done;
    e, done := p.Create(op.access, op.refresh, op.pairs, clock);
    ev := Call(done, clock.now, clock.now);
    ServedKeyed(p.cfg, before, Do(op), ev);
    reply := Some(ReplyOf(e));
  }

  method RefreshBolt(p: BoltProviders.Provider, op: Op, clock: Clock) returns (reply: Option<Reply>, ghost ev: Event)
    requires p.Valid() && p.db.sequence + 1 < BigEndian.TWO_TO_64
    requires op.Refresh? && (p.State().Open? ==> FreshTarget(p.sessions, op))
    modifies p, clock
    ensures p.Valid() && p.db.sequence <= old(p.db.sequence) + 1
    ensures Serves(Do(op), ev) && Within(ev, old(clock.now), clock.now)
    ensures Happened(p.cfg, old(p.State()), p.State(), ev, reply)
  {
    hide BoltProviders.Provider.Valid, LazyStep, FreshTarget, BoltProviders.BoltStep, Lookup;
    hide BoltBuckets.Moved, BoltBuckets.MovedOnto, Rotate;
    ghost var before := p.State();
    var e;
    ghost var now, later;
    e, now, later := p.Refresh(op.access, op.refresh, op.newAccess, op.newRefresh, clock);
    ev := Call(op, now, later);
    ServedKeyed(p.cfg, before, Do(op), ev);
    ClosedFails(p.cfg, op, now, later);
    reply := Some(ReplyOf(e));
  }

  method EditBolt(p: BoltProviders.Provider, op: Op, clock: Clock) returns (reply: Option<Reply>, ghost ev: Event)
    requires p.Valid() && KeyedRequest(Do(op))
    requires op.Put? || op.Destroy? || op.DestroyByToken? || op.Delete? || op.Close?
    modifies p, clock
    ensures p.Valid() && p.db.sequence == old(p.db.sequence)
    ensures Serves(Do(op), ev) && Within(ev, old(clock.now), clock.now)
    ensures Happened(p.cfg, old(p.State()), p.State(), ev, reply)
  {
    hide BoltProviders.Provider.Valid, LazyStep, KeyedRequest;
    ghost var before := p.State();
    ghost var now, later := clock.now, clock.now;
    var e;
    match op {
      case Put(token, pairs) => e, now, later := p.Put(token, pairs, clock);
      case Destroy(id) => e := p.Destroy(id);
      case DestroyByToken(token) => e := p.DestroyByToken(token);
      case Delete(token, keys) => e, now, later := p.Delete(token, keys, clock);
      case Close => e := p.Close();
    }
    ev := Call(op, now, later);
    ServedKeyed(p.cfg, before, Do(op), ev);
    reply := Some(ReplyOf(e));
  }

  method CleanBolt(p: BoltProviders.Provider, req: Request, clock: Clock)
    returns (reply: Option<Reply>, ghost ev: Event)
    requires p.Valid() && !req.Do?
    modifies p, clock
    ensures p.Valid() && p.db.sequence == old(p.db.sequence)
    ensures Serves(req, ev) && Within(ev, old(clock.now), clock.now)
    ensures Happened(p.cfg, old(p.State()), p.State(), ev, reply)
  {
    hide BoltProviders.Provider.Valid, DropDead;
    reply := None;
    match req {
      case Tick =>
        ghost var s := p.sessions;
        ghost var n := p.DoClear(clock);
        ev := Clean((set i | 0 <= i < n :: s[i].access), clock.now);
      case Batch(m) =>
        var closed := p.DoCheck(m);
        ev := Clean({}, clock.now);
        DropDeadNone(p.sessions, {}, clock.now);
    }
  }

  method ServeBolt(p: BoltProviders.Provider, req: Request, clock: Clock)
    returns (reply: Option<Reply>, ghost ev: Event)
    requires p.Valid() && p.db.sequence + 1 < BigEndian.TWO_TO_64 && KeyedRequest(req)
    requires req.Do? && p.State().Open? ==> FreshTarget(p.sessions, req.op)
    modifies p, clock
    ensures p.Valid() && p.db.sequence <= old(p.db.sequence) + 1
    ensures Serves(req, ev) && Within(ev, old(clock.now), clock.now)
    ensures Happened(p.cfg, old(p.State()), p.State(), ev, reply)
  {
    hide BoltProviders.Provider.Valid, Happened, Serves, Within, FreshTarget, KeyedRequest;
    if !req.Do? {
      reply, ev := CleanBolt(p, req, clock);
    } else if req.op.Create? {
      reply, ev := CreateBolt(p, req.op, clock);
    } else if req.op.Refresh? {
      reply, ev := RefreshBolt(p, req.op, clock);
    } else if req.op.Check? || req.op.Get? || req.op.Keys? {
      reply, ev := ReadBolt(p, req.op, clock);
    } else {
      reply, ev := EditBolt(p, req.op, clock);
    }
  }

  /** The same for bolt, for ids and data keys it can store and a key sequence with room for every request. */
  method DriveBolt(p: BoltProviders.Provider, reqs: seq<Request>, clock: Clock, ghost issued: set<string>)
    returns (replies: seq<Reply>, ghost evs: seq<Event>)
    requires p.Valid() && StoredWithin(p.State(), issued) && NeverReused(reqs, issued)
    requires p.db.sequence + |reqs| < BigEndian.TWO_TO_64 && forall req :: req in reqs ==> KeyedRequest(req)
    modifies p, clock
    ensures p.Valid() && Follows(reqs, evs)
    ensures forall stamp :: stamp <= old(clock.now) ==> Timed(evs, old(clock.now), stamp)
    ensures LazyRun(p.cfg, old(p.State()), evs) == Run(p.State(), replies)
    decreases |reqs|
  {
    hide BoltProviders.Provider.Valid, Happened, Serves, Within, FreshTarget, NotReused, StoredWithin, KeyedRequest;
    hide LazyRun, Follows, Timed;
    if |reqs| == 0 {
      replies, evs := [], [];
      NothingHappened(p.cfg, p.State(), clock.now);
      return;
    }
    ghost var before, start := p.State(), clock.now;
    TargetClean(before, reqs[0], issued);
    var reply;
    ghost var ev;
    reply, ev := ServeBolt(p, reqs[0], clock);
    ghost var mid, end := p.State(), clock.now;
    HappenedWithin(p.cfg, before, mid, reqs[0], ev, reply, issued);
    replies, evs := DriveBolt(p, reqs[1..], clock, issued + Issued(reqs[0]));
    forall stamp | stamp <= start
      ensures Timed([ev] + evs, start, stamp)
    {
      TimedCons(ev, evs, start, end, stamp);
    }
    HappenedFirst(p.cfg, before, mid, ev, reply, evs);
    FollowsCons(reqs[0], reqs[1..], ev, evs);
    assert reqs == [reqs[0]] + reqs[1..];
    replies := (if reply.Some? then [reply.value] else []) + replies;
    evs := [ev] + evs;
  }

  // ---------------------------------------------------------------- what clients of either see

  /** A provider's run is the run of the store of live sessions. */
  lemma DrivenSeesLive(cfg: Config, reqs: seq<Request>, evs: seq<Event>, now: int)
    requires Follows(reqs, evs) && NeverReused(reqs, {})
    requires Timed(evs, now, now)
    ensures Clocked(evs, now) && NeverReissued(evs, {}) && InTurn(cfg, Open([]), evs)
    ensures LazyRun(cfg, Open([]), evs).replies == EagerRun(cfg, Open([]), evs).replies
  {
    FollowersNeverReissue(reqs, evs, {});
    NeverReissuedIsFresh(cfg, Open([]), evs, {});
    TimedInTurn(cfg, Open([]), evs, now, now);
    LazinessInvisible(cfg, evs, now);
  }

  // ---------------------------------------------------------------- readings that were made

  /** The call reads the clock under the lock: it names a stored session. */
  predicate Reads(st: State, op: Op) {
    && st.Open? && Reject(op) == None
    && (op.Check? || op.Put? || op.Get? || op.Keys? || op.Delete? || op.Refresh?)
    && Lookup(st.sessions, if op.Refresh? then op.access else op.token).Some?
  }

  /** And once more: the session is not dead, and a Refresh names its refresh token. */
  predicate ReadsAgain(st: State, op: Op, now: int) {
    && Reads(st, op)
    && var x := Lookup(st.sessions, if op.Refresh? then op.access else op.token).value;
       !x.Dead(now) && (op.Refresh? ==> x.refresh == op.refresh)
  }

  /** The same request, and the same readings wherever one was made. */
  predicate SameReadings(st: State, ev: Event, other: Event) {
    match ev
    case Clean(victims, at) => other.Clean? && other.victims == victims && (victims != {} ==> other.at == at)
    case Call(op, now, later) =>
      && other.Call?
      && other.op == (if op.Create? && other.op.Create? && Reject(op).Some?
                      then op.(stamp := other.op.stamp, checked := other.op.checked) else op)
      && (Reads(st, op) ==> other.now == now) && (ReadsAgain(st, op, now) ==> other.later == later)
  }

  ghost predicate SameRun(cfg: Config, st: State, evs: seq<Event>, others: seq<Event>)
    decreases |evs|
  {
    && |evs| == |others|
    && (evs != [] ==>
          && SameReadings(st, evs[0], others[0])
          && SameRun(cfg, After(cfg, st, evs[0]), evs[1..], others[1..]))
  }

  lemma SameEvent(cfg: Config, st: State, ev: Event, other: Event)
    requires SameReadings(st, ev, other)
    ensures After(cfg, st, other) == After(cfg, st, ev) && Replies(cfg, st, other) == Replies(cfg, st, ev)
  {
    hide Lookup, Without, SetData, PutAll, DeleteAll, CheckToken, CheckId, DropDead, Insert;
    if ev.Clean? {
      if st.Open? && ev.victims == {} {
        DropDeadNone(st.sessions, {}, ev.at);
        DropDeadNone(st.sessions, {}, other.at);
      }
    } else {
      SameCall(cfg, st, ev, other);
    }
  }

  lemma SameCall(cfg: Config, st: State, ev: Event, other: Event)
    requires ev.Call? && SameReadings(st, ev, other)
    ensures LazyStep(cfg, st, other.op, other.now, other.later) == LazyStep(cfg, st, ev.op, ev.now, ev.later)
  {
    hide Lookup, Without, SetData, PutAll, DeleteAll, CheckToken, CheckId, Insert;
  }

  /** What was not read does not matter. */
  lemma {:induction false} SameRunSame(cfg: Config, st: State, evs: seq<Event>, others: seq<Event>)
    requires SameRun(cfg, st, evs, others)
    ensures LazyRun(cfg, st, others) == LazyRun(cfg, st, evs)
    decreases |evs|
  {
    hide LazyRun, SameReadings, After, Replies;
    if evs != [] {
      SameEvent(cfg, st, evs[0], others[0]);
      SameRunSame(cfg, After(cfg, st, evs[0]), evs[1..], others[1..]);
      RunCons(cfg, st, evs[0], evs[1..]);
      RunCons(cfg, st, others[0], others[1..]);
      assert evs == [evs[0]] + evs[1..] && others == [others[0]] + others[1..];
    } else {
      assert others == [];
    }
  }

  lemma {:induction false} SameRunFollows(cfg: Config, st: State, reqs: seq<Request>, evs: seq<Event>,
                                         others: seq<Event>)
    requires SameRun(cfg, st, evs, others) && Follows(reqs, evs)
    ensures Follows(reqs, others)
    decreases |evs|
  {
    hide Serves, After, SameReadings;
    if evs != [] {
      var tail := reqs[1..];
      forall i | 0 <= i < |tail|
        ensures Serves(tail[i], evs[1..][i])
      {
        assert Serves(reqs[i + 1], evs[i + 1]);
      }
      SameRunFollows(cfg, After(cfg, st, evs[0]), tail, evs[1..], others[1..]);
      ServesSame(st, reqs[0], evs[0], others[0]);
      assert forall i :: 1 <= i < |reqs| ==> reqs[i] == tail[i - 1] && others[i] == others[1..][i - 1];
    }
  }

  lemma ServesSame(st: State, req: Request, ev: Event, other: Event)
    requires Serves(req, ev) && SameReadings(st, ev, other)
    ensures Serves(req, other)
  {
    hide Reject, Reads, ReadsAgain;
  }

  /** The two runs fit one timeline: with the readings that were made left as they are and the other instants chosen
      well, both are in order, and the calls in them are the same at the same times. */
  ghost predicate OneTimeline(cfg: Config, evs1: seq<Event>, evs2: seq<Event>, now: int) {
    exists t1, t2 ::
      && SameRun(cfg, Open([]), evs1, t1) && Timed(t1, now, now)
      && SameRun(cfg, Open([]), evs2, t2) && Timed(t2, now, now)
      && Calls(t1) == Calls(t2)
  }

  lemma TimelineAgrees(cfg: Config, reqs1: seq<Request>, reqs2: seq<Request>, evs1: seq<Event>, evs2: seq<Event>,
                       now: int)
    requires Follows(reqs1, evs1) && NeverReused(reqs1, {}) && Follows(reqs2, evs2) && NeverReused(reqs2, {})
    requires OneTimeline(cfg, evs1, evs2, now)
    ensures LazyRun(cfg, Open([]), evs1).replies == LazyRun(cfg, Open([]), evs2).replies
  {
    hide LazyRun, Follows, NeverReused, Timed, SameRun, Calls, InTurn, NeverReissued, Clocked, EagerRun;
    var t1, t2 :|
      && SameRun(cfg, Open([]), evs1, t1) && Timed(t1, now, now)
      && SameRun(cfg, Open([]), evs2, t2) && Timed(t2, now, now)
      && Calls(t1) == Calls(t2);
    SameRunSame(cfg, Open([]), evs1, t1);
    SameRunSame(cfg, Open([]), evs2, t2);
    SameRunFollows(cfg, Open([]), reqs1, evs1, t1);
    SameRunFollows(cfg, Open([]), reqs2, evs2, t2);
    DrivenSeesLive(cfg, reqs1, t1, now);
    DrivenSeesLive(cfg, reqs2, t2, now);
    BackendsAgree(cfg, t1, t2, now);
  }

  /** A memory and a bolt provider, both just opened, under two lists of requests that may clean at different times:
      each gives the replies of the store of live sessions, and both the same replies if the two runs fit one timeline,
      which makes their calls the same. */
  method DriveBoth(mem: MemoryProvider, bolt: BoltProviders.Provider, reqs1: seq<Request>, reqs2: seq<Request>,
                   clock1: Clock, clock2: Clock)
    returns (replies1: seq<Reply>, replies2: seq<Reply>, ghost evs1: seq<Event>, ghost evs2: seq<Event>)
    requires mem.Valid() && mem.State() == Open([]) && bolt.Valid() && bolt.State() == Open([]) && mem.cfg == bolt.cfg
    requires NeverReused(reqs1, {}) && NeverReused(reqs2, {})
    requires bolt.db.sequence + |reqs2| < BigEndian.TWO_TO_64 && forall req :: req in reqs2 ==> KeyedRequest(req)
    modifies mem.Footprint(), bolt, clock1, clock2
    ensures Follows(reqs1, evs1) && Follows(reqs2, evs2)
    ensures replies1 == EagerRun(mem.cfg, Open([]), evs1).replies
    ensures replies2 == EagerRun(mem.cfg, Open([]), evs2).replies
    ensures forall now :: OneTimeline(mem.cfg, evs1, evs2, now) ==> replies1 == replies2
  {
    hide MemoryProvider.Valid, BoltProviders.Provider.Valid, LazyRun, EagerRun, Follows, Timed, NeverReused;
    hide OneTimeline;
    ghost var now1 := clock1.now;
    replies1, evs1 := DriveMemory(mem, reqs1, clock1, {});
    assert bolt.Valid() && bolt.State() == Open([]);
    ghost var now2 := clock2.now;
    replies2, evs2 := DriveBolt(bolt, reqs2, clock2, {});
    DrivenSeesLive(mem.cfg, reqs1, evs1, now1);
    DrivenSeesLive(mem.cfg, reqs2, evs2, now2);
    forall now | OneTimeline(mem.cfg, evs1, evs2, now)
      ensures replies1 == replies2
    {
      TimelineAgrees(mem.cfg, reqs1, reqs2, evs1, evs2, now);
    }
  }
}
