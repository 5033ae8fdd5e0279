/**
 `get_or_insert_with_lock` on one cache key, called by any number of processes
 whose Redis commands interleave.  Both the cached value and the lock expire.
 */
module StampedeCache {
  import opened Options

  datatype Config = Config(maxRetries: nat, ttl: nat, lease: nat)

  datatype Cached = Cached(value: int, until: int)

  datatype Held = Held(owner: nat, until: int)

  datatype Result = Ok(value: int) | Err

  /**
   The command a process performs next.  `lease` is the deadline of the lock it
   holds, if any; `Done` keeps what the call returned.
   */
  datatype Pc =
    | FastPath
    | NullCheck
    | TryLock(attempt: nat)
    | DoubleCheck(deadline: int)
    | Poll(round: nat)
    | Recompute(lease: Option<int>)
    | Populate(value: int, lease: Option<int>)
    | Done(result: Result)

  /** `releases`: guards dropped whose spawned release has not run.  `computed`: results of successful fallbacks. */
  datatype World = World(
    now: int,
    cache: Option<Cached>,
    nullUntil: int,
    lock: Option<Held>,
    pcs: map<nat, Pc>,
    releases: set<nat>,
    computed: seq<int>)

  /**
   How a command fares: normally; with an error; or not at all, which a read
   takes for a miss, a write for success, and the lock for "no Redis client".
   */
  datatype Luck = Fine | Failed | Skipped

  /** `Abandon`: the caller drops its future between two commands, which drops a guard in scope and yields no value. */
  datatype Event =
    | Tick(elapsed: nat)
    | Call(process: nat)
    | Advance(process: nat, luck: Luck, fallback: Option<int>)
    | Abandon(process: nat)
    | RunRelease(process: nat)
    | LoseRelease(process: nat)
    | Invalidate
    | SetNull(until: int)

  function Alive(w: World): Option<int> {
    if w.cache.Some? && w.now < w.cache.value.until then Some(w.cache.value.value) else None
  }

  function LockedBy(w: World): Option<nat> {
    if w.lock.Some? && w.now < w.lock.value.until then Some(w.lock.value.owner) else None
  }

  function Goto(w: World, p: nat, pc: Pc): World {
    w.(pcs := w.pcs[p := pc])
  }

  /** Returning with a guard in scope drops it, which spawns a release. */
  function Return(w: World, p: nat, result: Result, lease: Option<int>): World {
    Goto(w, p, Done(result)).(releases := if lease.Some? then w.releases + {p} else w.releases)
  }

  /** A GET: None is an error that the caller propagates. */
  function Get(w: World, luck: Luck): Option<Option<int>> {
    match luck
    case Fine => Some(Alive(w))
    case Skipped => Some(None)
    case Failed => None
  }

  function Move(cfg: Config, w: World, p: nat, luck: Luck, fallback: Option<int>): World
    requires p in w.pcs
  {
    match w.pcs[p]
    case FastPath =>
      (match Get(w, luck)
       case None => Return(w, p, Err, None)
       case Some(Some(v)) => Return(w, p, Ok(v), None)
       case Some(None) => Goto(w, p, NullCheck))
    case NullCheck =>
      if luck.Failed? || (luck.Fine? && w.now < w.nullUntil) then Return(w, p, Err, None)
      else Goto(w, p, TryLock(0))
    case TryLock(attempt) =>
      if luck.Failed? then Goto(w, p, Recompute(None))
      else if luck.Skipped? || attempt >= cfg.maxRetries then Goto(w, p, Poll(0))
      else if LockedBy(w).Some? then Goto(w, p, TryLock(attempt + 1))
      else
        var deadline := w.now + cfg.lease;
        Goto(w, p, DoubleCheck(deadline)).(lock := Some(Held(p, deadline)))
    case DoubleCheck(deadline) =>
      (match Get(w, luck)
       case None => Return(w, p, Err, Some(deadline))
       case Some(Some(v)) => Return(w, p, Ok(v), Some(deadline))
       case Some(None) => Goto(w, p, Recompute(Some(deadline))))
    case Poll(round) =>
      if round >= cfg.maxRetries then Goto(w, p, Recompute(None))
      else
        (match Get(w, luck)
         case None => Return(w, p, Err, None)
         case Some(Some(v)) => Return(w, p, Ok(v), None)
         case Some(None) => Goto(w, p, Poll(round + 1)))
    case Recompute(lease) =>
      if fallback.None? then Return(w, p, Err, lease)
      else Goto(w, p, Populate(fallback.value, lease)).(computed := w.computed + [fallback.value])
    case Populate(value, lease) =>
      var stored := if luck.Fine? && cfg.ttl > 0 then Some(Cached(value, w.now + cfg.ttl)) else w.cache;
      Return(w, p, Ok(value), lease).(cache := stored)
    case Done(_) => w
  }

  function Step(cfg: Config, w: World, e: Event): World {
    match e
    case Tick(elapsed) => w.(now := w.now + elapsed)
    case Call(p) => if p in w.pcs then w else Goto(w, p, FastPath)
    case Advance(p, luck, fallback) => if p in w.pcs then Move(cfg, w, p, luck, fallback) else w
    case Abandon(p) => if p in w.pcs && !w.pcs[p].Done? then Return(w, p, Err, LeaseOf(w, p)) else w
    case RunRelease(p) =>
      if p in w.releases
      then w.(releases := w.releases - {p}, lock := if LockedBy(w) == Some(p) then None else w.lock)
      else w
    case LoseRelease(p) => w.(releases := w.releases - {p})
    case Invalidate => w.(cache := None, nullUntil := w.now)
    case SetNull(until) => w.(nullUntil := until)
  }

  function Run(cfg: Config, w: World, events: seq<Event>): World
    decreases |events|
  {
    if events == [] then w else Run(cfg, Step(cfg, w, events[0]), events[1..])
  }

  function Idle(now: int, cache: Option<Cached>): World {
    World(now, cache, now, None, map[], {}, [])
  }

  // ------------------------------------------------------------- lock holding

  /** The deadline of the lock a process works under, from acquisition to return. */
  function LeaseOf(w: World, p: nat): Option<int> {
    if p !in w.pcs then None
    else
      match w.pcs[p]
      case DoubleCheck(deadline) => Some(deadline)
      case Recompute(lease) => lease
      case Populate(_, lease) => lease
      case _ => None
  }

  predicate Holding(w: World, p: nat) {
    LeaseOf(w, p).Some?
  }

  /** A process whose lease is still running owns the lock; a pending release belongs to a finished call. */
  ghost predicate LeaseInv(w: World) {
    && (forall p :: Holding(w, p) && w.now < LeaseOf(w, p).value ==> w.lock == Some(Held(p, LeaseOf(w, p).value)))
    && (forall p :: p in w.releases ==> p in w.pcs && w.pcs[p].Done?)
  }

  // ---------------------------------------------------------------- calm runs

  /**
   The promise of a single computation assumes a reliable Redis, no expiry of the
   cached value or of the lease of a process at work, no invalidation, a poll that
   ends before its rounds run out, and no call abandoned with a value not yet stored.
   */
  datatype Disturbance = RedisFault | PollExhausted | Invalidation | CacheExpiry | LeaseExpiry | Abandoned

  /** The assumptions an event breaks. */
  ghost function Disturbs(cfg: Config, w: World, e: Event): set<Disturbance> {
    (if e.Advance? && !e.luck.Fine? then {RedisFault} else {})
    + (if e.Advance? && e.process in w.pcs && w.pcs[e.process].Poll? && w.pcs[e.process].round >= cfg.maxRetries
       then {PollExhausted} else {})
    + (if e.Invalidate? then {Invalidation} else {})
    + (if e.Abandon? && e.process in w.pcs && w.pcs[e.process].Populate? then {Abandoned} else {})
    + (if e.Tick? && Alive(w).Some? && w.now + e.elapsed >= w.cache.value.until then {CacheExpiry} else {})
    + (if e.Tick? && exists p :: Holding(w, p) && w.now + e.elapsed >= LeaseOf(w, p).value then {LeaseExpiry} else {})
  }

  ghost predicate DisturbedOnlyBy(cfg: Config, w: World, events: seq<Event>, kinds: set<Disturbance>)
    decreases |events|
  {
    events == []
    || (Disturbs(cfg, w, events[0]) <= kinds && DisturbedOnlyBy(cfg, Step(cfg, w, events[0]), events[1..], kinds))
  }

  ghost predicate Calm(cfg: Config, w: World, e: Event) {
    && (e.Advance? ==> e.luck.Fine?)
    && (e.Advance? && e.process in w.pcs && w.pcs[e.process].Poll? ==>
          w.pcs[e.process].round < cfg.maxRetries)
    && !e.Invalidate?
    && (e.Abandon? && e.process in w.pcs ==> !w.pcs[e.process].Populate?)
    && (e.Tick? ==>
          && (Alive(w).Some? ==> w.now + e.elapsed < w.cache.value.until)
          && (forall p :: Holding(w, p) ==> w.now + e.elapsed < LeaseOf(w, p).value))
  }

  ghost predicate AllCalm(cfg: Config, w: World, events: seq<Event>)
    decreases |events|
  {
    events == [] || (Calm(cfg, w, events[0]) && AllCalm(cfg, Step(cfg, w, events[0]), events[1..]))
  }

  predicate Computing(pc: Pc) {
    pc.Recompute? || pc.Populate?
  }

  ghost predicate OnlyAnswer(w: World, x: int) {
    && (forall p :: p in w.pcs && w.pcs[p].Done? && w.pcs[p].result.Ok? ==> w.pcs[p].result.value == x)
    && (w.computed == [] || w.computed == [x])
  }

  ghost predicate NobodyAnswered(w: World) {
    forall p :: p in w.pcs && w.pcs[p].Done? ==> w.pcs[p].result.Err?
  }

  /** Nothing computed yet; computed and about to be stored by `p`; or stored. */
  ghost predicate CalmAnswers(w: World) {
    match Alive(w)
    case Some(x) =>
      OnlyAnswer(w, x) && (forall p :: p in w.pcs ==> !Computing(w.pcs[p]))
    case None =>
      && NobodyAnswered(w)
      && (w.computed == [] ==> forall p :: p in w.pcs ==> !w.pcs[p].Populate?)
      && (w.computed != [] ==>
            exists p :: p in w.pcs && w.pcs[p].Populate? && w.computed == [w.pcs[p].value])
  }

  ghost predicate CalmLeases(w: World) {
    && (forall p :: Holding(w, p) ==> w.now < LeaseOf(w, p).value)
    && (forall p :: p in w.pcs && Computing(w.pcs[p]) ==> w.pcs[p].lease.Some?)
  }

  ghost predicate CalmInv(w: World) {
    LeaseInv(w) && CalmLeases(w) && CalmAnswers(w)
  }
}

module StampedeCacheTheorems {
  import opened Options
  import opened StampedeCache

  lemma OthersUnmoved(cfg: Config, w: World, e: Event, q: nat)
    requires e.Advance? && e.process in w.pcs && q != e.process
    ensures var w' := Step(cfg, w, e);
            (q in w'.pcs <==> q in w.pcs) && (q in w.pcs ==> w'.pcs[q] == w.pcs[q]) && LeaseOf(w', q) == LeaseOf(w, q)
  {
  }

  lemma OutsideKeepsLeases(cfg: Config, w: World, e: Event, q: nat)
    requires !e.Advance? && !e.Abandon?
    ensures LeaseOf(Step(cfg, w, e), q) == LeaseOf(w, q)
  {
  }

  /** An abandoned call is over; the lock it held is still to be released. */
  lemma AbandonedMove(cfg: Config, w: World, e: Event)
    requires e.Abandon?
    ensures var w', p := Step(cfg, w, e), e.process;
            && w'.now == w.now && w'.cache == w.cache && w'.lock == w.lock && w'.computed == w.computed
            && (forall q :: q != p ==>
                  (q in w'.pcs <==> q in w.pcs) && (q in w.pcs ==> w'.pcs[q] == w.pcs[q]) && LeaseOf(w', q) == LeaseOf(w, q))
            && (p in w.pcs && !w.pcs[p].Done? ==> p in w'.pcs && w'.pcs[p] == Done(Err) && w'.releases <= w.releases + {p})
            && (p !in w.pcs || w.pcs[p].Done? ==> w' == w)
            && LeaseOf(w', p).None?
  {
  }

  lemma AbandonKeepsLeaseInv(cfg: Config, w: World, e: Event)
    requires LeaseInv(w) && e.Abandon?
    ensures LeaseInv(Step(cfg, w, e))
  {
    AbandonedMove(cfg, w, e);
    hide Step;
    hide LeaseOf;
  }

  /** A move either takes a free lock or leaves the lock alone, and never prolongs a lease. */
  lemma MoveAndLock(cfg: Config, w: World, e: Event)
    requires e.Advance? && e.process in w.pcs
    ensures var w', p := Step(cfg, w, e), e.process;
            && w'.now == w.now && p in w'.pcs
            && (|| (w'.lock == w.lock && (LeaseOf(w', p).None? || LeaseOf(w', p) == LeaseOf(w, p)))
                || (LockedBy(w).None? && w'.lock == Some(Held(p, w.now + cfg.lease)) && LeaseOf(w', p) == Some(w.now + cfg.lease)))
            && (w'.releases == w.releases || w'.releases == w.releases + {p})
            && (p in w'.releases && p !in w.releases ==> w'.pcs[p].Done?)
            && (w.pcs[p].Done? ==> w' == w)
  {
  }

  lemma AdvanceKeepsLeaseInv(cfg: Config, w: World, e: Event)
    requires LeaseInv(w) && e.Advance? && e.process in w.pcs
    ensures LeaseInv(Step(cfg, w, e))
  {
    forall q | q != e.process { OthersUnmoved(cfg, w, e, q); }
    MoveAndLock(cfg, w, e);
    hide Step;
    hide LeaseOf;
  }

  lemma StepKeepsLeaseInv(cfg: Config, w: World, e: Event)
    requires LeaseInv(w)
    ensures LeaseInv(Step(cfg, w, e))
  {
    if e.Advance? {
      if e.process in w.pcs {
        hide *;
        AdvanceKeepsLeaseInv(cfg, w, e);
      }
    } else if e.Abandon? {
      AbandonKeepsLeaseInv(cfg, w, e);
    } else {
      forall q { OutsideKeepsLeases(cfg, w, e, q); }
    }
  }

  lemma {:induction false} RunKeepsLeaseInv(cfg: Config, w: World, events: seq<Event>)
    requires LeaseInv(w)
    ensures LeaseInv(Run(cfg, w, events))
    decreases |events|
  {
    if events != [] {
      StepKeepsLeaseInv(cfg, w, events[0]);
      hide Step;
      hide LeaseInv;
      RunKeepsLeaseInv(cfg, Step(cfg, w, events[0]), events[1..]);
    }
  }

  /**
   With errors, lost releases, invalidations and expiries at any moment: when two
   processes are both between acquiring the lock and returning, the lease of one
   of them has run out.
   */
  lemma LockedRecomputesOverlapOnlyAfterExpiry(cfg: Config, start: int, cache: Option<Cached>, events: seq<Event>, p: nat, q: nat)
    requires p != q
    requires var w := Run(cfg, Idle(start, cache), events); Holding(w, p) && Holding(w, q)
    ensures var w := Run(cfg, Idle(start, cache), events);
            LeaseOf(w, p).value <= w.now || LeaseOf(w, q).value <= w.now
  {
    RunKeepsLeaseInv(cfg, Idle(start, cache), events);
  }

  lemma TickKeepsCalmInv(cfg: Config, w: World, e: Event)
    requires CalmInv(w) && Calm(cfg, w, e) && e.Tick?
    ensures CalmInv(Step(cfg, w, e))
  {
    var w' := Step(cfg, w, e);
    forall q { OutsideKeepsLeases(cfg, w, e, q); }
    assert Alive(w') == Alive(w);
  }

  lemma OutsideKeepsCalmInv(cfg: Config, w: World, e: Event)
    requires CalmInv(w) && Calm(cfg, w, e) && !e.Tick? && !e.Advance? && !e.Abandon?
    ensures CalmInv(Step(cfg, w, e))
  {
    var w' := Step(cfg, w, e);
    StepKeepsLeaseInv(cfg, w, e);
    hide LeaseInv;
    forall q { OutsideKeepsLeases(cfg, w, e, q); }
    assert Alive(w') == Alive(w);
    ComputedSurvives(w, w');
  }

  lemma AbandonKeepsCalmInv(cfg: Config, w: World, e: Event)
    requires CalmInv(w) && Calm(cfg, w, e) && e.Abandon?
    ensures CalmInv(Step(cfg, w, e))
  {
    var w' := Step(cfg, w, e);
    AbandonKeepsLeaseInv(cfg, w, e);
    AbandonedMove(cfg, w, e);
    hide LeaseInv;
    hide Step;
    assert Alive(w') == Alive(w);
    ComputedSurvives(w, w');
    assert CalmLeases(w') by { hide CalmAnswers; hide Alive; }
    assert CalmAnswers(w') by { hide CalmLeases; hide LeaseOf; }
  }

  lemma ComputedSurvives(w: World, w': World)
    requires CalmAnswers(w) && w'.computed == w.computed
    requires forall p :: p in w.pcs && w.pcs[p].Populate? ==> p in w'.pcs && w'.pcs[p] == w.pcs[p]
    ensures Alive(w).None? && w.computed != [] ==>
              exists p :: p in w'.pcs && w'.pcs[p].Populate? && w'.computed == [w'.pcs[p].value]
  {
    if Alive(w).None? && w.computed != [] {
      var p :| p in w.pcs && w.pcs[p].Populate? && w.computed == [w.pcs[p].value];
      assert p in w'.pcs && w'.pcs[p] == w.pcs[p];
    }
  }

  /** In a calm state at most one process holds the lock, hence at most one computes. */
  lemma OnlyOneComputes(w: World, p: nat, q: nat)
    requires LeaseInv(w) && CalmLeases(w)
    requires p in w.pcs && Computing(w.pcs[p]) && q in w.pcs && Computing(w.pcs[q])
    ensures p == q
  {
    assert Holding(w, p) && Holding(w, q);
  }

  lemma AdvanceKeepsCalmLeases(cfg: Config, w: World, e: Event)
    requires cfg.lease > 0
    requires CalmLeases(w) && Calm(cfg, w, e) && e.Advance? && e.process in w.pcs
    ensures CalmLeases(Step(cfg, w, e))
  {
    forall q | q != e.process { OthersUnmoved(cfg, w, e, q); }
    assert w.pcs[e.process].Recompute? || w.pcs[e.process].Populate? ==> Computing(w.pcs[e.process]);
    assert w.pcs[e.process].DoubleCheck? ==> Holding(w, e.process);
    assert w.pcs[e.process].Recompute? ==> Holding(w, e.process);
  }

  lemma RecomputeKeepsCalmAnswers(cfg: Config, w: World, e: Event)
    requires CalmInv(w) && e.Advance? && e.process in w.pcs && w.pcs[e.process].Recompute?
    ensures CalmAnswers(Step(cfg, w, e))
  {
    var w', p := Step(cfg, w, e), e.process;
    forall q | q in w.pcs && Computing(w.pcs[q]) ensures q == p {
      OnlyOneComputes(w, p, q);
    }
    hide LeaseInv;
    hide CalmLeases;
    forall q | q != p { OthersUnmoved(cfg, w, e, q); }
    assert w.computed == [];
    if e.fallback.Some? {
      assert w'.pcs[p].Populate? && w'.computed == [w'.pcs[p].value];
    }
  }

  lemma PopulateKeepsCalmAnswers(cfg: Config, w: World, e: Event)
    requires cfg.ttl > 0
    requires CalmInv(w) && e.Advance? && e.luck.Fine? && e.process in w.pcs && w.pcs[e.process].Populate?
    ensures CalmAnswers(Step(cfg, w, e))
  {
    var w', p := Step(cfg, w, e), e.process;
    forall q | q in w.pcs && Computing(w.pcs[q]) ensures q == p {
      OnlyOneComputes(w, p, q);
    }
    hide LeaseInv;
    hide CalmLeases;
    forall q | q != p { OthersUnmoved(cfg, w, e, q); }
    assert w.computed == [w.pcs[p].value];
    assert Alive(w') == Some(w.pcs[p].value);
    assert OnlyAnswer(w', w.pcs[p].value);
  }

  /** Before it computes, a process can only read: it returns the cached value, or goes on because there is none. */
  lemma ReadingMove(cfg: Config, w: World, e: Event)
    requires Calm(cfg, w, e) && e.Advance? && e.process in w.pcs && !Computing(w.pcs[e.process])
    ensures var w', p := Step(cfg, w, e), e.process;
            && w'.now == w.now && w'.cache == w.cache && w'.computed == w.computed && p in w'.pcs
            && !w'.pcs[p].Populate?
            && (w'.pcs[p].Recompute? ==> Alive(w).None?)
            && (w'.pcs[p].Done? && w'.pcs[p] != w.pcs[p] && w'.pcs[p].result.Ok? ==>
                  Alive(w) == Some(w'.pcs[p].result.value))
  {
  }

  lemma OtherMovesKeepCalmAnswers(cfg: Config, w: World, e: Event)
    requires CalmAnswers(w) && Calm(cfg, w, e) && e.Advance? && e.process in w.pcs && !Computing(w.pcs[e.process])
    ensures CalmAnswers(Step(cfg, w, e))
  {
    var w', p := Step(cfg, w, e), e.process;
    forall q | q != p { OthersUnmoved(cfg, w, e, q); }
    ReadingMove(cfg, w, e);
    hide Step;
    assert Alive(w') == Alive(w);
    ComputedSurvives(w, w');
  }

  lemma AdvanceKeepsCalmAnswers(cfg: Config, w: World, e: Event)
    requires cfg.ttl > 0
    requires CalmInv(w) && Calm(cfg, w, e) && e.Advance? && e.process in w.pcs
    ensures CalmAnswers(Step(cfg, w, e))
  {
    hide Step;
    hide CalmAnswers;
    hide LeaseInv;
    hide CalmLeases;
    if w.pcs[e.process].Recompute? {
      RecomputeKeepsCalmAnswers(cfg, w, e);
    } else if w.pcs[e.process].Populate? {
      PopulateKeepsCalmAnswers(cfg, w, e);
    } else {
      OtherMovesKeepCalmAnswers(cfg, w, e);
    }
  }

  lemma StepKeepsCalmInv(cfg: Config, w: World, e: Event)
    requires cfg.ttl > 0 && cfg.lease > 0
    requires CalmInv(w) && Calm(cfg, w, e)
    ensures CalmInv(Step(cfg, w, e))
  {
    if e.Tick? {
      TickKeepsCalmInv(cfg, w, e);
    } else if e.Advance? && e.process in w.pcs {
      StepKeepsLeaseInv(cfg, w, e);
      AdvanceKeepsCalmLeases(cfg, w, e);
      AdvanceKeepsCalmAnswers(cfg, w, e);
      hide Step;
      hide LeaseInv;
      hide CalmLeases;
      hide CalmAnswers;
    } else if e.Abandon? {
      AbandonKeepsCalmInv(cfg, w, e);
    } else if !e.Advance? {
      OutsideKeepsCalmInv(cfg, w, e);
    }
  }

  lemma {:induction false} RunKeepsCalmInv(cfg: Config, w: World, events: seq<Event>)
    requires cfg.ttl > 0 && cfg.lease > 0
    requires CalmInv(w) && AllCalm(cfg, w, events)
    ensures CalmInv(Run(cfg, w, events))
    decreases |events|
  {
    if events != [] {
      StepKeepsCalmInv(cfg, w, events[0]);
      hide Step;
      hide CalmInv;
      hide Calm;
      RunKeepsCalmInv(cfg, Step(cfg, w, events[0]), events[1..]);
    }
  }

  /**
   Stampede protection: in a calm run the fallback succeeds at most once, and all
   callers that return Ok return one and the same value, the computed one or the
   one that was cached before.
   */
  lemma FallbackSucceedsAtMostOnce(cfg: Config, start: int, cache: Option<Cached>, events: seq<Event>)
    requires cfg.ttl > 0 && cfg.lease > 0
    requires AllCalm(cfg, Idle(start, cache), events)
    ensures var w := Run(cfg, Idle(start, cache), events);
            |w.computed| <= 1 && exists x :: OnlyAnswer(w, x)
    ensures var w0, w := Idle(start, cache), Run(cfg, Idle(start, cache), events);
            Alive(w0).Some? ==> w.computed == [] && OnlyAnswer(w, Alive(w0).value)
  {
    var w0 := Idle(start, cache);
    RunKeepsCalmInv(cfg, w0, events);
    var w := Run(cfg, w0, events);
    if Alive(w).Some? {
      assert OnlyAnswer(w, Alive(w).value);
    } else if w.computed == [] {
      assert OnlyAnswer(w, 0);
    } else {
      assert OnlyAnswer(w, w.computed[0]);
    }
    if Alive(w0).Some? {
      CachedValueStays(cfg, w0, events, Alive(w0).value);
    }
  }

  lemma {:induction false} CachedValueStays(cfg: Config, w: World, events: seq<Event>, x: int)
    requires cfg.ttl > 0 && cfg.lease > 0
    requires CalmInv(w) && AllCalm(cfg, w, events) && Alive(w) == Some(x) && w.computed == []
    ensures var w' := Run(cfg, w, events);
            w'.computed == [] && Alive(w') == Some(x) && OnlyAnswer(w', x)
    decreases |events|
  {
    if events != [] {
      StepKeepsCalmInv(cfg, w, events[0]);
      StepKeepsCached(cfg, w, events[0], x);
      hide Step;
      hide CalmInv;
      hide Calm;
      CachedValueStays(cfg, Step(cfg, w, events[0]), events[1..], x);
    }
  }

  lemma StepKeepsCached(cfg: Config, w: World, e: Event, x: int)
    requires CalmInv(w) && Calm(cfg, w, e) && Alive(w) == Some(x) && w.computed == []
    ensures var w' := Step(cfg, w, e); Alive(w') == Some(x) && w'.computed == []
  {
  }

  // --------------------------------------- every condition of the calm is needed

  lemma CalmIsUndisturbed(cfg: Config, w: World, e: Event)
    ensures Calm(cfg, w, e) <==> Disturbs(cfg, w, e) == {}
  {
  }

  lemma {:induction false} UndisturbedRunIsCalm(cfg: Config, w: World, events: seq<Event>)
    requires DisturbedOnlyBy(cfg, w, events, {})
    ensures AllCalm(cfg, w, events)
    decreases |events|
  {
    if events != [] {
      CalmIsUndisturbed(cfg, w, events[0]);
      UndisturbedRunIsCalm(cfg, Step(cfg, w, events[0]), events[1..]);
    }
  }

  lemma {:induction false} FewerKindsToo(cfg: Config, w: World, events: seq<Event>, fewer: set<Disturbance>, kinds: set<Disturbance>)
    requires DisturbedOnlyBy(cfg, w, events, fewer) && fewer <= kinds
    ensures DisturbedOnlyBy(cfg, w, events, kinds)
    decreases |events|
  {
    if events != [] {
      FewerKindsToo(cfg, Step(cfg, w, events[0]), events[1..], fewer, kinds);
    }
  }

  /** One event in front of a run. */
  lemma Do(cfg: Config, w: World, e: Event, rest: seq<Event>, kinds: set<Disturbance>) returns (w': World)
    requires Disturbs(cfg, w, e) <= kinds
    ensures w' == Step(cfg, w, e)
    ensures DisturbedOnlyBy(cfg, w, [e] + rest, kinds) <==> DisturbedOnlyBy(cfg, w', rest, kinds)
    ensures Run(cfg, w, [e] + rest) == Run(cfg, w', rest)
  {
    w' := Step(cfg, w, e);
    assert ([e] + rest)[1..] == rest;
    hide Step;
    hide Disturbs;
  }

  function Go(p: nat): Event {
    Advance(p, Fine, None)
  }

  function Repeat(e: Event, n: nat, rest: seq<Event>): seq<Event> {
    if n == 0 then rest else [e] + Repeat(e, n - 1, rest)
  }

  /** Nothing cached, no null marker, and nobody holds the lock. */
  predicate Open(w: World) {
    Alive(w).None? && w.nullUntil <= w.now && LockedBy(w).None?
  }

  /** The call, the cache and the null marker. */
  function Entering(p: nat, rest: seq<Event>): seq<Event> {
    [Call(p)] + ([Go(p)] + ([Go(p)] + rest))
  }

  lemma EnteringReachesLock(cfg: Config, w: World, p: nat, rest: seq<Event>, kinds: set<Disturbance>) returns (w': World)
    requires Alive(w).None? && w.nullUntil <= w.now && p !in w.pcs
    ensures DisturbedOnlyBy(cfg, w, Entering(p, rest), kinds) <==> DisturbedOnlyBy(cfg, w', rest, kinds)
    ensures Run(cfg, w, Entering(p, rest)) == Run(cfg, w', rest)
    ensures w' == Goto(w, p, TryLock(0))
  {
    var s1 := Do(cfg, w, Call(p), [Go(p)] + ([Go(p)] + rest), kinds);
    var s2 := Do(cfg, s1, Go(p), [Go(p)] + rest, kinds);
    assert s2 == Goto(w, p, NullCheck);
    w' := Do(cfg, s2, Go(p), rest, kinds);
    assert w' == Goto(w, p, TryLock(0));
  }

  function Approach(p: nat, rest: seq<Event>): seq<Event> {
    Entering(p, [Go(p)] + ([Go(p)] + rest))
  }

  /** What a caller that finds everything open works under; without attempts it goes straight past the lock. */
  function LeaseFor(cfg: Config, now: int): Option<int> {
    if cfg.maxRetries > 0 then Some(now + cfg.lease) else None
  }

  lemma ApproachReachesRecompute(cfg: Config, w: World, p: nat, rest: seq<Event>, kinds: set<Disturbance>) returns (w': World)
    requires Open(w) && p !in w.pcs && (cfg.maxRetries == 0 ==> PollExhausted in kinds)
    ensures DisturbedOnlyBy(cfg, w, Approach(p, rest), kinds) <==> DisturbedOnlyBy(cfg, w', rest, kinds)
    ensures Run(cfg, w, Approach(p, rest)) == Run(cfg, w', rest)
    ensures w' == w.(pcs := w.pcs[p := Recompute(LeaseFor(cfg, w.now))],
                     lock := if cfg.maxRetries > 0 then Some(Held(p, w.now + cfg.lease)) else w.lock)
  {
    var s3 := EnteringReachesLock(cfg, w, p, [Go(p)] + ([Go(p)] + rest), kinds);
    hide Step;
    hide Disturbs;
    hide Run;
    hide DisturbedOnlyBy;
    w' := LockOrPass(cfg, s3, p, rest, kinds);
    assert w'.pcs == w.pcs[p := Recompute(LeaseFor(cfg, w.now))];
  }

  /** From the lock, taken or passed, to the fallback. */
  lemma LockOrPass(cfg: Config, w: World, p: nat, rest: seq<Event>, kinds: set<Disturbance>) returns (w': World)
    requires Open(w) && p in w.pcs && w.pcs[p] == TryLock(0) && (cfg.maxRetries == 0 ==> PollExhausted in kinds)
    ensures DisturbedOnlyBy(cfg, w, [Go(p)] + ([Go(p)] + rest), kinds) <==> DisturbedOnlyBy(cfg, w', rest, kinds)
    ensures Run(cfg, w, [Go(p)] + ([Go(p)] + rest)) == Run(cfg, w', rest)
    ensures w' == w.(pcs := w.pcs[p := Recompute(LeaseFor(cfg, w.now))],
                     lock := if cfg.maxRetries > 0 then Some(Held(p, w.now + cfg.lease)) else w.lock)
  {
    var s4 := Do(cfg, w, Go(p), [Go(p)] + rest, kinds);
    assert s4.pcs[p] == if cfg.maxRetries > 0 then DoubleCheck(w.now + cfg.lease) else Poll(0);
    w' := Do(cfg, s4, Go(p), rest, kinds);
  }

  function Finish(p: nat, value: int, luck: Luck, rest: seq<Event>): seq<Event> {
    [Advance(p, Fine, Some(value))] + ([Advance(p, luck, None)] + rest)
  }

  lemma FinishStores(cfg: Config, w: World, p: nat, value: int, luck: Luck, rest: seq<Event>, kinds: set<Disturbance>) returns (w': World)
    requires p in w.pcs && w.pcs[p].Recompute? && cfg.ttl > 0 && (!luck.Fine? ==> RedisFault in kinds)
    ensures DisturbedOnlyBy(cfg, w, Finish(p, value, luck, rest), kinds) <==> DisturbedOnlyBy(cfg, w', rest, kinds)
    ensures Run(cfg, w, Finish(p, value, luck, rest)) == Run(cfg, w', rest)
    ensures w' == w.(pcs := w.pcs[p := Done(Ok(value))],
                     computed := w.computed + [value],
                     cache := if luck.Fine? then Some(Cached(value, w.now + cfg.ttl)) else w.cache,
                     releases := if w.pcs[p].lease.Some? then w.releases + {p} else w.releases)
  {
    var r1 := [Advance(p, luck, None)] + rest;
    var s1 := Do(cfg, w, Advance(p, Fine, Some(value)), r1, kinds);
    w' := Do(cfg, s1, Advance(p, luck, None), rest, kinds);
    assert w'.pcs == w.pcs[p := Done(Ok(value))];
  }

  /** A complete call and its release. */
  function Whole(p: nat, value: int, luck: Luck, rest: seq<Event>): seq<Event> {
    Approach(p, Finish(p, value, luck, [RunRelease(p)] + rest))
  }

  lemma WholeCall(cfg: Config, w: World, p: nat, value: int, luck: Luck, rest: seq<Event>, kinds: set<Disturbance>) returns (w': World)
    requires Open(w) && p !in w.pcs && cfg.maxRetries > 0 && cfg.ttl > 0 && cfg.lease > 0 && w.releases == {}
    requires !luck.Fine? ==> RedisFault in kinds
    ensures DisturbedOnlyBy(cfg, w, Whole(p, value, luck, rest), kinds) <==> DisturbedOnlyBy(cfg, w', rest, kinds)
    ensures Run(cfg, w, Whole(p, value, luck, rest)) == Run(cfg, w', rest)
    ensures w' == w.(pcs := w.pcs[p := Done(Ok(value))], lock := None, computed := w.computed + [value],
                     cache := if luck.Fine? then Some(Cached(value, w.now + cfg.ttl)) else w.cache)
  {
    var r1 := [RunRelease(p)] + rest;
    var s1 := ApproachReachesRecompute(cfg, w, p, Finish(p, value, luck, r1), kinds);
    hide Approach;
    hide Finish;
    hide Run;
    hide DisturbedOnlyBy;
    var s2 := FinishStores(cfg, s1, p, value, luck, r1, kinds);
    w' := ReleaseFrees(cfg, s2, p, rest, kinds);
    assert w'.pcs == w.pcs[p := Done(Ok(value))];
  }

  lemma ReleaseFrees(cfg: Config, w: World, p: nat, rest: seq<Event>, kinds: set<Disturbance>) returns (w': World)
    requires w.releases == {p} && LockedBy(w) == Some(p)
    ensures DisturbedOnlyBy(cfg, w, [RunRelease(p)] + rest, kinds) <==> DisturbedOnlyBy(cfg, w', rest, kinds)
    ensures Run(cfg, w, [RunRelease(p)] + rest) == Run(cfg, w', rest)
    ensures w' == w.(releases := {}, lock := None)
  {
    w' := Do(cfg, w, RunRelease(p), rest, kinds);
    assert {p} - {p} == {};
  }

  /** A second whole call after one that computed 7 ends a run that computed twice. */
  lemma SecondWholeCall(cfg: Config, w: World, kinds: set<Disturbance>)
    requires Open(w) && 1 !in w.pcs && w.computed == [7] && w.releases == {}
    requires cfg.maxRetries > 0 && cfg.ttl > 0 && cfg.lease > 0
    ensures DisturbedOnlyBy(cfg, w, Whole(1, 8, Fine, []), kinds)
    ensures |Run(cfg, w, Whole(1, 8, Fine, [])).computed| == 2
  {
    var w' := WholeCall(cfg, w, 1, 8, Fine, [], kinds);
    assert w'.computed == [7, 8];
  }

  // -- the waiter that gives up

  lemma {:induction false} TriesRunOut(cfg: Config, w: World, p: nat, attempt: nat, rest: seq<Event>, kinds: set<Disturbance>) returns (w': World)
    requires p in w.pcs && w.pcs[p] == TryLock(attempt) && attempt <= cfg.maxRetries
    requires attempt < cfg.maxRetries ==> LockedBy(w).Some?
    ensures var run := Repeat(Go(p), cfg.maxRetries - attempt + 1, rest);
            && (DisturbedOnlyBy(cfg, w, run, kinds) <==> DisturbedOnlyBy(cfg, w', rest, kinds))
            && Run(cfg, w, run) == Run(cfg, w', rest)
    ensures w' == Goto(w, p, Poll(0))
    decreases cfg.maxRetries - attempt
  {
    var n := cfg.maxRetries - attempt;
    var s1 := Do(cfg, w, Go(p), Repeat(Go(p), n, rest), kinds);
    if n == 0 {
      w' := s1;
    } else {
      assert s1 == Goto(w, p, TryLock(attempt + 1));
      w' := TriesRunOut(cfg, s1, p, attempt + 1, rest, kinds);
      assert w'.pcs == w.pcs[p := Poll(0)];
    }
  }

  lemma {:induction false} PollsRunOut(cfg: Config, w: World, p: nat, round: nat, rest: seq<Event>, kinds: set<Disturbance>) returns (w': World)
    requires p in w.pcs && w.pcs[p] == Poll(round) && round <= cfg.maxRetries && Alive(w).None? && PollExhausted in kinds
    ensures var run := Repeat(Go(p), cfg.maxRetries - round + 1, rest);
            && (DisturbedOnlyBy(cfg, w, run, kinds) <==> DisturbedOnlyBy(cfg, w', rest, kinds))
            && Run(cfg, w, run) == Run(cfg, w', rest)
    ensures w' == Goto(w, p, Recompute(None))
    decreases cfg.maxRetries - round
  {
    var n := cfg.maxRetries - round;
    var s1 := Do(cfg, w, Go(p), Repeat(Go(p), n, rest), kinds);
    if n == 0 {
      w' := s1;
    } else {
      assert s1 == Goto(w, p, Poll(round + 1));
      w' := PollsRunOut(cfg, s1, p, round + 1, rest, kinds);
      assert w'.pcs == w.pcs[p := Recompute(None)];
    }
  }

  function Waiting(cfg: Config, p: nat, rest: seq<Event>): seq<Event> {
    Entering(p, Repeat(Go(p), cfg.maxRetries + 1, Repeat(Go(p), cfg.maxRetries + 1, rest)))
  }

  lemma WaiterGivesUp(cfg: Config, w: World, p: nat, rest: seq<Event>, kinds: set<Disturbance>) returns (w': World)
    requires Alive(w).None? && w.nullUntil <= w.now && p !in w.pcs && PollExhausted in kinds
    requires cfg.maxRetries > 0 ==> LockedBy(w).Some?
    ensures DisturbedOnlyBy(cfg, w, Waiting(cfg, p, rest), kinds) <==> DisturbedOnlyBy(cfg, w', rest, kinds)
    ensures Run(cfg, w, Waiting(cfg, p, rest)) == Run(cfg, w', rest)
    ensures w' == Goto(w, p, Recompute(None))
  {
    hide *;
    var r4 := Repeat(Go(p), cfg.maxRetries + 1, rest);
    var r3 := Repeat(Go(p), cfg.maxRetries + 1, r4);
    WaitingIsEnteringFirst(cfg, p, rest);
    var s3 := EnteringReachesLock(cfg, w, p, r3, kinds);
    GotoMovesOne(w, p, TryLock(0), Poll(0));
    var s4 := TriesRunOut(cfg, s3, p, 0, r4, kinds);
    GotoMovesOne(w, p, Poll(0), Recompute(None));
    w' := PollsRunOut(cfg, s4, p, 0, rest, kinds);
  }

  lemma WaitingIsEnteringFirst(cfg: Config, p: nat, rest: seq<Event>)
    ensures Waiting(cfg, p, rest) == Entering(p, Repeat(Go(p), cfg.maxRetries + 1, Repeat(Go(p), cfg.maxRetries + 1, rest)))
  {
    hide Entering;
    hide Repeat;
  }

  lemma GotoMovesOne(w: World, p: nat, pc: Pc, next: Pc)
    ensures var w' := Goto(w, p, pc);
            && Alive(w') == Alive(w) && LockedBy(w') == LockedBy(w) && p in w'.pcs && w'.pcs[p] == pc
            && Goto(w', p, next) == Goto(w, p, next)
  {
    assert w.pcs[p := pc][p := next] == w.pcs[p := next];
  }

  function ExhaustedRun(cfg: Config, x: int, y: int): seq<Event> {
    Approach(0, Waiting(cfg, 1, Finish(1, y, Fine, Finish(0, x, Fine, []))))
  }

  /**
   Without the last condition: under every configuration a caller that runs out of polls
   computes beside the lock holder; both return, each with its own value.
   */
  lemma ExhaustedPollComputesTwice(cfg: Config, start: int, x: int, y: int)
    requires cfg.ttl > 0 && cfg.lease > 0
    ensures DisturbedOnlyBy(cfg, Idle(start, None), ExhaustedRun(cfg, x, y), {PollExhausted})
    ensures var w := Run(cfg, Idle(start, None), ExhaustedRun(cfg, x, y));
            w.computed == [y, x] && w.pcs == map[0 := Done(Ok(x)), 1 := Done(Ok(y))]
  {
    var kinds := {PollExhausted};
    var r3 := Finish(0, x, Fine, []);
    var r2 := Finish(1, y, Fine, r3);
    var s1 := ApproachReachesRecompute(cfg, Idle(start, None), 0, Waiting(cfg, 1, r2), kinds);
    assert ExhaustedRun(cfg, x, y) == Approach(0, Waiting(cfg, 1, r2));
    hide ExhaustedRun;
    hide Approach;
    hide Waiting;
    hide Finish;
    hide Step;
    hide Disturbs;
    var s2 := WaiterGivesUp(cfg, s1, 1, r2, kinds);
    var s3 := FinishStores(cfg, s2, 1, y, Fine, r3, kinds);
    hide Goto;
    var s4 := FinishStores(cfg, s3, 0, x, Fine, [], kinds);
    assert s4.computed == [y, x];
  }

  lemma FaultComputesTwice(cfg: Config) returns (events: seq<Event>)
    requires cfg.maxRetries > 0 && cfg.ttl > 0 && cfg.lease > 0
    ensures DisturbedOnlyBy(cfg, Idle(0, None), events, {RedisFault}) && |Run(cfg, Idle(0, None), events).computed| == 2
  {
    var second := Whole(1, 8, Fine, []);
    events := Whole(0, 7, Skipped, second);
    var w := WholeCall(cfg, Idle(0, None), 0, 7, Skipped, second, {RedisFault});
    SecondWholeCall(cfg, w, {RedisFault});
  }

  lemma InvalidationComputesTwice(cfg: Config) returns (events: seq<Event>)
    requires cfg.maxRetries > 0 && cfg.ttl > 0 && cfg.lease > 0
    ensures DisturbedOnlyBy(cfg, Idle(0, None), events, {Invalidation}) && |Run(cfg, Idle(0, None), events).computed| == 2
  {
    var second := Whole(1, 8, Fine, []);
    events := Whole(0, 7, Fine, [Invalidate] + second);
    var w := WholeCall(cfg, Idle(0, None), 0, 7, Fine, [Invalidate] + second, {Invalidation});
    var w' := Do(cfg, w, Invalidate, second, {Invalidation});
    SecondWholeCall(cfg, w', {Invalidation});
  }

  lemma CacheExpiryComputesTwice(cfg: Config) returns (events: seq<Event>)
    requires cfg.maxRetries > 0 && cfg.ttl > 0 && cfg.lease > 0
    ensures DisturbedOnlyBy(cfg, Idle(0, None), events, {CacheExpiry}) && |Run(cfg, Idle(0, None), events).computed| == 2
  {
    var second := Whole(1, 8, Fine, []);
    events := Whole(0, 7, Fine, [Tick(cfg.ttl)] + second);
    var w := WholeCall(cfg, Idle(0, None), 0, 7, Fine, [Tick(cfg.ttl)] + second, {CacheExpiry});
    assert w.pcs == map[0 := Done(Ok(7))];
    hide *;
    var w' := CacheRunsOut(cfg, w, second);
    SecondWholeCall(cfg, w', {CacheExpiry});
  }

  /** With nobody at work, waiting for the cache's lifetime disturbs nothing but the cache. */
  lemma CacheRunsOut(cfg: Config, w: World, rest: seq<Event>) returns (w': World)
    requires cfg.ttl > 0 && w.cache.Some? && w.cache.value.until == w.now + cfg.ttl
    requires w.pcs == map[0 := Done(Ok(7))] && w.nullUntil <= w.now && w.lock.None?
    ensures DisturbedOnlyBy(cfg, w, [Tick(cfg.ttl)] + rest, {CacheExpiry}) <==> DisturbedOnlyBy(cfg, w', rest, {CacheExpiry})
    ensures Run(cfg, w, [Tick(cfg.ttl)] + rest) == Run(cfg, w', rest)
    ensures Open(w') && w'.pcs == w.pcs && w'.computed == w.computed && w'.releases == w.releases
  {
    assert forall p :: !Holding(w, p);
    assert Disturbs(cfg, w, Tick(cfg.ttl)) <= {CacheExpiry};
    hide Disturbs;
    hide DisturbedOnlyBy;
    hide Run;
    w' := Do(cfg, w, Tick(cfg.ttl), rest, {CacheExpiry});
  }

  lemma LeaseExpiryComputesTwice(cfg: Config) returns (events: seq<Event>)
    requires cfg.maxRetries > 0 && cfg.ttl > 0 && cfg.lease > 0
    ensures DisturbedOnlyBy(cfg, Idle(0, None), events, {LeaseExpiry}) && |Run(cfg, Idle(0, None), events).computed| == 2
  {
    var kinds := {LeaseExpiry};
    var r3 := Finish(1, 8, Fine, Finish(0, 7, Fine, []));
    var r2 := Approach(1, r3);
    var r1 := [Tick(cfg.lease)] + r2;
    events := Approach(0, r1);
    var s1 := ApproachReachesRecompute(cfg, Idle(0, None), 0, r1, kinds);
    var s2 := Do(cfg, s1, Tick(cfg.lease), r2, kinds);
    var s3 := ApproachReachesRecompute(cfg, s2, 1, r3, kinds);
    var s4 := FinishStores(cfg, s3, 1, 8, Fine, Finish(0, 7, Fine, []), kinds);
    var s5 := FinishStores(cfg, s4, 0, 7, Fine, [], kinds);
    assert s5.computed == [8, 7];
  }

  /** Process 0 computes, is dropped before it stores, and its lock is released. */
  function Dropped(rest: seq<Event>): seq<Event> {
    [Advance(0, Fine, Some(7))] + ([Abandon(0)] + ([RunRelease(0)] + rest))
  }

  lemma DroppedReleases(cfg: Config, w: World, rest: seq<Event>, kinds: set<Disturbance>) returns (w': World)
    requires 0 in w.pcs && w.pcs[0] == Recompute(Some(w.now + cfg.lease)) && w.lock == Some(Held(0, w.now + cfg.lease))
    requires w.releases == {} && cfg.lease > 0 && Abandoned in kinds
    ensures DisturbedOnlyBy(cfg, w, Dropped(rest), kinds) <==> DisturbedOnlyBy(cfg, w', rest, kinds)
    ensures Run(cfg, w, Dropped(rest)) == Run(cfg, w', rest)
    ensures w' == w.(pcs := w.pcs[0 := Done(Err)], lock := None, computed := w.computed + [7])
  {
    var r2 := [RunRelease(0)] + rest;
    var r1 := [Abandon(0)] + r2;
    var s1 := Do(cfg, w, Advance(0, Fine, Some(7)), r1, kinds);
    var s2 := Do(cfg, s1, Abandon(0), r2, kinds);
    w' := Do(cfg, s2, RunRelease(0), rest, kinds);
    assert s2.releases == {0} && {0} - {0} == {};
    assert w'.pcs == w.pcs[0 := Done(Err)];
  }

  lemma AbandonedComputesTwice(cfg: Config) returns (events: seq<Event>)
    requires cfg.maxRetries > 0 && cfg.ttl > 0 && cfg.lease > 0
    ensures DisturbedOnlyBy(cfg, Idle(0, None), events, {Abandoned}) && |Run(cfg, Idle(0, None), events).computed| == 2
  {
    var kinds := {Abandoned};
    var second := Whole(1, 8, Fine, []);
    events := Approach(0, Dropped(second));
    var s1 := ApproachReachesRecompute(cfg, Idle(0, None), 0, Dropped(second), kinds);
    var s2 := DroppedReleases(cfg, s1, second, kinds);
    hide DisturbedOnlyBy;
    hide Run;
    hide Whole;
    SecondWholeCall(cfg, s2, kinds);
  }

  lemma TwiceWith(cfg: Config, kind: Disturbance) returns (events: seq<Event>)
    requires cfg.maxRetries > 0 && cfg.ttl > 0 && cfg.lease > 0
    ensures DisturbedOnlyBy(cfg, Idle(0, None), events, {kind}) && |Run(cfg, Idle(0, None), events).computed| == 2
  {
    match kind
    case RedisFault => events := FaultComputesTwice(cfg);
    case PollExhausted =>
      events := ExhaustedRun(cfg, 7, 8);
      ExhaustedPollComputesTwice(cfg, 0, 7, 8);
    case Invalidation => events := InvalidationComputesTwice(cfg);
    case CacheExpiry => events := CacheExpiryComputesTwice(cfg);
    case LeaseExpiry => events := LeaseExpiryComputesTwice(cfg);
    case Abandoned => events := AbandonedComputesTwice(cfg);
  }

  /**
   The conditions are exact: allow disturbances of some kinds only, and the fallback succeeds
   at most once in all such runs if and only if no kind at all is allowed.
   */
  lemma OnceExactlyWhenUndisturbed(cfg: Config, kinds: set<Disturbance>)
    requires cfg.maxRetries > 0 && cfg.ttl > 0 && cfg.lease > 0
    ensures (forall start, cache, events :: DisturbedOnlyBy(cfg, Idle(start, cache), events, kinds) ==>
               |Run(cfg, Idle(start, cache), events).computed| <= 1)
       <==> kinds == {}
  {
    if kinds == {} {
      forall start, cache, events | DisturbedOnlyBy(cfg, Idle(start, cache), events, kinds)
        ensures |Run(cfg, Idle(start, cache), events).computed| <= 1
      {
        UndisturbedRunIsCalm(cfg, Idle(start, cache), events);
        FallbackSucceedsAtMostOnce(cfg, start, cache, events);
      }
    } else {
      var kind :| kind in kinds;
      var events := TwiceWith(cfg, kind);
      FewerKindsToo(cfg, Idle(0, None), events, {kind}, kinds);
      assert DisturbedOnlyBy(cfg, Idle(0, None), events, kinds);
    }
  }

  // ------------------------------------------------------- what faults lead to

  /** A read that fails ends the call with an error; under the lock the guard is dropped, and nothing is computed or stored. */
  lemma FailedReadEndsTheCall(cfg: Config, w: World, p: nat, fallback: Option<int>)
    requires p in w.pcs
    requires w.pcs[p].FastPath? || w.pcs[p].NullCheck? || w.pcs[p].DoubleCheck? || (w.pcs[p].Poll? && w.pcs[p].round < cfg.maxRetries)
    ensures Step(cfg, w, Advance(p, Failed, fallback))
         == w.(pcs := w.pcs[p := Done(Err)], releases := if w.pcs[p].DoubleCheck? then w.releases + {p} else w.releases)
  {
  }

  /** A failed lock command makes the caller compute without the lock; it stores its value and touches no lock. */
  lemma FailedLockComputesUnlocked(cfg: Config, w: World, p: nat, attempt: nat, value: int)
    requires p in w.pcs && w.pcs[p] == TryLock(attempt) && cfg.ttl > 0
    ensures var w1 := Step(cfg, w, Advance(p, Failed, None));
            var w2 := Step(cfg, w1, Advance(p, Fine, Some(value)));
            var w3 := Step(cfg, w2, Advance(p, Fine, None));
            && w1 == w.(pcs := w.pcs[p := Recompute(None)])
            && w3 == w.(pcs := w.pcs[p := Done(Ok(value))], computed := w.computed + [value],
                        cache := Some(Cached(value, w.now + cfg.ttl)))
  {
    var w1 := Step(cfg, w, Advance(p, Failed, None));
    var w2 := Step(cfg, w1, Advance(p, Fine, Some(value)));
    assert Step(cfg, w2, Advance(p, Fine, None)).pcs == w.pcs[p := Done(Ok(value))];
  }

  /** A value that cannot be stored is returned all the same, and a lock under which it was computed is given back. */
  lemma UnstoredValueIsReturned(cfg: Config, w: World, p: nat, luck: Luck, fallback: Option<int>)
    requires p in w.pcs && w.pcs[p].Populate? && !luck.Fine?
    ensures Step(cfg, w, Advance(p, luck, fallback))
         == w.(pcs := w.pcs[p := Done(Ok(w.pcs[p].value))], releases := if w.pcs[p].lease.Some? then w.releases + {p} else w.releases)
  {
  }

  /** A failed fallback ends the call with an error, and a lock held for it is given back. */
  lemma FailedFallbackIsAnError(cfg: Config, w: World, p: nat, luck: Luck)
    requires p in w.pcs && w.pcs[p].Recompute?
    ensures Step(cfg, w, Advance(p, luck, None))
         == w.(pcs := w.pcs[p := Done(Err)], releases := if w.pcs[p].lease.Some? then w.releases + {p} else w.releases)
  {
  }

  /** An invalidation leaves neither value nor marker; a marker makes a call without a cached value fail, uncomputed. */
  lemma MarkerRefusesTheCall(cfg: Config, w: World, p: nat, until: int, fallback: Option<int>)
    requires p in w.pcs && w.pcs[p].FastPath? && Alive(w).None? && w.now < until
    ensures Alive(Step(cfg, w, Invalidate)).None? && Step(cfg, w, Invalidate).nullUntil <= w.now
    ensures var go, marked := Advance(p, Fine, fallback), Step(cfg, w, SetNull(until));
            Step(cfg, Step(cfg, marked, go), go) == w.(pcs := w.pcs[p := Done(Err)], nullUntil := until)
  {
    var marked := Step(cfg, w, SetNull(until));
    var w1 := Step(cfg, marked, Advance(p, Fine, fallback));
    assert w1.pcs == w.pcs[p := NullCheck];
    assert Step(cfg, w1, Advance(p, Fine, fallback)).pcs == w.pcs[p := Done(Err)];
  }

  /** Without a Redis client the polls run out one by one. */
  lemma {:induction false} AbsentPollsRunOut(cfg: Config, w: World, p: nat, round: nat, rest: seq<Event>)
    requires p in w.pcs && w.pcs[p] == Poll(round) && round <= cfg.maxRetries
    ensures Run(cfg, w, Repeat(Advance(p, Skipped, None), cfg.maxRetries - round + 1, rest)) == Run(cfg, Goto(w, p, Recompute(None)), rest)
    decreases cfg.maxRetries - round
  {
    var e, n := Advance(p, Skipped, None), cfg.maxRetries - round;
    var w1 := Step(cfg, w, e);
    assert ([e] + Repeat(e, n, rest))[1..] == Repeat(e, n, rest);
    if n > 0 {
      assert w1 == Goto(w, p, Poll(round + 1));
      AbsentPollsRunOut(cfg, w1, p, round + 1, rest);
      GotoMovesOne(w, p, Poll(round + 1), Recompute(None));
    }
  }

  /** A whole call whose every command finds no Redis client. */
  function AbsentRun(cfg: Config, p: nat, fallback: Option<int>): seq<Event> {
    var absent := Advance(p, Skipped, None);
    var polls := Repeat(absent, cfg.maxRetries + 1, [Advance(p, Skipped, fallback)] + ([absent] + []));
    [Call(p)] + ([absent] + ([absent] + ([absent] + polls)))
  }

  /** With no Redis at all the call still answers with its own fallback, and leaves cache and lock alone. */
  lemma NoRedisStillAnswers(cfg: Config, w: World, p: nat, fallback: Option<int>)
    requires p !in w.pcs
    ensures Run(cfg, w, AbsentRun(cfg, p, fallback))
         == w.(pcs := w.pcs[p := Done(if fallback.Some? then Ok(fallback.value) else Err)],
               computed := if fallback.Some? then w.computed + [fallback.value] else w.computed)
  {
    var absent := Advance(p, Skipped, None);
    var last := [Advance(p, Skipped, fallback)] + ([absent] + []);
    var polls := Repeat(absent, cfg.maxRetries + 1, last);
    var w1 := Goto(w, p, FastPath);
    RunFirst(cfg, w, Call(p), [absent] + ([absent] + ([absent] + polls)));
    RunFirst(cfg, w1, absent, [absent] + ([absent] + polls));
    GotoMovesOne(w, p, FastPath, NullCheck);
    RunFirst(cfg, Goto(w, p, NullCheck), absent, [absent] + polls);
    GotoMovesOne(w, p, NullCheck, TryLock(0));
    RunFirst(cfg, Goto(w, p, TryLock(0)), absent, polls);
    GotoMovesOne(w, p, TryLock(0), Poll(0));
    AbsentPollsRunOut(cfg, Goto(w, p, Poll(0)), p, 0, last);
    GotoMovesOne(w, p, Poll(0), Recompute(None));
    ComputeWithoutRedis(cfg, Goto(w, p, Recompute(None)), p, fallback);
    assert w.pcs[p := Recompute(None)][p := Done(if fallback.Some? then Ok(fallback.value) else Err)]
        == w.pcs[p := Done(if fallback.Some? then Ok(fallback.value) else Err)];
    hide Run;
    hide Repeat;
  }

  lemma ComputeWithoutRedis(cfg: Config, w: World, p: nat, fallback: Option<int>)
    requires p in w.pcs && w.pcs[p] == Recompute(None)
    ensures Run(cfg, w, [Advance(p, Skipped, fallback)] + ([Advance(p, Skipped, None)] + []))
         == w.(pcs := w.pcs[p := Done(if fallback.Some? then Ok(fallback.value) else Err)],
               computed := if fallback.Some? then w.computed + [fallback.value] else w.computed)
  {
    var e, absent := Advance(p, Skipped, fallback), Advance(p, Skipped, None);
    RunFirst(cfg, w, e, [absent] + []);
    RunFirst(cfg, Step(cfg, w, e), absent, []);
    assert Step(cfg, Step(cfg, w, e), absent).pcs == w.pcs[p := Done(if fallback.Some? then Ok(fallback.value) else Err)];
  }

  lemma RunFirst(cfg: Config, w: World, e: Event, rest: seq<Event>)
    ensures Run(cfg, w, [e] + rest) == Run(cfg, Step(cfg, w, e), rest)
  {
    assert ([e] + rest)[1..] == rest;
  }

  lemma {:induction false} RunInTwoParts(cfg: Config, w: World, first: seq<Event>, second: seq<Event>)
    ensures Run(cfg, w, first + second) == Run(cfg, Run(cfg, w, first), second)
    decreases |first|
  {
    if first == [] {
      assert first + second == second;
    } else {
      assert (first + second)[1..] == first[1..] + second;
      RunInTwoParts(cfg, Step(cfg, w, first[0]), first[1..], second);
    }
  }
}

/** The call in the source's own shape, for one caller that nobody interrupts. */
module CacheService {
  import opened Options
  import opened StampedeCache
  import opened StampedeCacheTheorems

  /** The cached value while it lives. */
  function LiveValue(cache: Option<Cached>, now: int): Option<int> {
    if cache.Some? && now < cache.value.until then Some(cache.value.value) else None
  }

  predicate IsHeld(lock: Option<Held>, now: int) {
    lock.Some? && now < lock.value.until
  }

  class CacheService {
    const cfg: Config
    var now: int
    var cache: Option<Cached>
    var nullUntil: int
    var lock: Option<Held>

    constructor (cfg: Config, now: int)
      ensures this.cfg == cfg && this.now == now && cache.None? && lock.None? && nullUntil == now
    {
      this.cfg, this.now := cfg, now;
      cache, nullUntil, lock := None, now, None;
    }

    ghost predicate Shows(w: World)
      reads this
    {
      now == w.now && cache == w.cache && nullUntil == w.nullUntil && lock == w.lock
    }

    method Get() returns (value: Option<int>)
      ensures value == LiveValue(cache, now)
      ensures forall w :: Shows(w) ==> value == Alive(w)
    {
      value := if cache.Some? && now < cache.value.until then Some(cache.value.value) else None;
    }

    method Set(value: int)
      modifies this`cache
      ensures cache == if cfg.ttl > 0 then Some(Cached(value, now + cfg.ttl)) else old(cache)
    {
      if cfg.ttl > 0 { cache := Some(Cached(value, now + cfg.ttl)); }
    }

    /** `acquire_with_client`: one SET NX EX per attempt. */
    method TryAcquire(me: nat, ghost fallback: Option<int>, ghost w: World)
      returns (deadline: Option<int>, ghost w': World, ghost events: seq<Event>)
      requires Shows(w) && me in w.pcs && w.pcs[me] == TryLock(0)
      modifies this`lock
      ensures w' == Run(cfg, w, events) && Shows(w') && CommandsOf(me, fallback, events)
      ensures w'.releases == w.releases
      ensures me in w'.pcs && w'.pcs[me] == (if deadline.Some? then DoubleCheck(deadline.value) else Poll(0))
      ensures deadline == if cfg.maxRetries > 0 && !IsHeld(old(lock), now) then Some(now + cfg.lease) else None
      ensures lock == if deadline.Some? then Some(Held(me, deadline.value)) else old(lock)
    {
      w', events := w, [];
      for attempt := 0 to cfg.maxRetries
        invariant w' == Run(cfg, w, events) && Shows(w') && CommandsOf(me, fallback, events)
        invariant lock == old(lock) && (attempt > 0 ==> IsHeld(lock, now))
        invariant me in w'.pcs && w'.pcs[me] == TryLock(attempt) && w'.releases == w.releases
      {
        RunOneMore(cfg, w, events, Advance(me, Fine, fallback));
        w', events := Step(cfg, w', Advance(me, Fine, fallback)), events + [Advance(me, Fine, fallback)];
        if lock.None? || now >= lock.value.until {
          lock := Some(Held(me, now + cfg.lease));
          return Some(now + cfg.lease), w', events;
        }
      }
      RunOneMore(cfg, w, events, Advance(me, Fine, fallback));
      w', events := Step(cfg, w', Advance(me, Fine, fallback)), events + [Advance(me, Fine, fallback)];
      deadline := None;
    }

    /** The polling loop of a caller that did not get the lock. */
    method PollCache(me: nat, ghost fallback: Option<int>, ghost w: World)
      returns (value: Option<int>, ghost w': World, ghost events: seq<Event>)
      requires Shows(w) && me in w.pcs && w.pcs[me] == Poll(0)
      ensures w' == Run(cfg, w, events) && Shows(w') && CommandsOf(me, fallback, events)
      ensures w'.releases == w.releases
      ensures me in w'.pcs && w'.pcs[me] == (if value.Some? then Done(Ok(value.value)) else Recompute(None))
      ensures value == if cfg.maxRetries > 0 then LiveValue(cache, now) else None
    {
      w', events := w, [];
      for round := 0 to cfg.maxRetries
        invariant w' == Run(cfg, w, events) && Shows(w') && CommandsOf(me, fallback, events)
        invariant me in w'.pcs && w'.pcs[me] == Poll(round) && w'.releases == w.releases
        invariant round > 0 ==> LiveValue(cache, now).None?
      {
        value := Get();
        RunOneMore(cfg, w, events, Advance(me, Fine, fallback));
        w', events := Step(cfg, w', Advance(me, Fine, fallback)), events + [Advance(me, Fine, fallback)];
        if value.Some? {
          return;
        }
      }
      RunOneMore(cfg, w, events, Advance(me, Fine, fallback));
      w', events := Step(cfg, w', Advance(me, Fine, fallback)), events + [Advance(me, Fine, fallback)];
      value := None;
    }

    method Release(me: nat)
      modifies this`lock
      ensures lock == if IsHeld(old(lock), now) && old(lock).value.owner == me then None else old(lock)
    {
      if lock.Some? && now < lock.value.until && lock.value.owner == me { lock := None; }
    }

    /** Steps 4 and 5: recompute, store, and drop the guard if there is one. */
    method ComputeAndStore(me: nat, fallback: Option<int>, deadline: Option<int>, ghost w: World)
      returns (r: Result, ghost w': World, ghost events: seq<Event>)
      requires Shows(w) && me in w.pcs && w.pcs[me] == Recompute(deadline) && me !in w.releases
      modifies this
      ensures w' == Run(cfg, w, events) && Shows(w') && CommandsOf(me, fallback, events)
      ensures me in w'.pcs && w'.pcs[me] == Done(r) && me !in w'.releases
      ensures now == old(now) && nullUntil == old(nullUntil)
      ensures r == if fallback.Some? then Ok(fallback.value) else Err
      ensures cache == if fallback.Some? && cfg.ttl > 0 then Some(Cached(fallback.value, now + cfg.ttl)) else old(cache)
      ensures lock == if deadline.Some? && IsHeld(old(lock), now) && old(lock).value.owner == me then None else old(lock)
    {
      w', events := w, [];
      w', events := One(w, events, w', Advance(me, Fine, fallback));
      if fallback.Some? {
        assert w'.pcs[me] == Populate(fallback.value, deadline);
        w', events := One(w, events, w', Advance(me, Fine, fallback));
        Set(fallback.value);
        r := Ok(fallback.value);
      } else {
        r := Err;
      }
      assert Shows(w') && w'.pcs[me] == Done(r);
      if deadline.Some? {
        w', events := One(w, events, w', RunRelease(me));
        Release(me);
      }
    }

    /** Step 3a: the second look at the cache under the lock. */
    method LookAgain(me: nat, deadline: int, ghost fallback: Option<int>, ghost w: World)
      returns (hit: Option<int>, ghost w': World, ghost events: seq<Event>)
      requires Shows(w) && me in w.pcs && w.pcs[me] == DoubleCheck(deadline) && me !in w.releases
      modifies this`lock
      ensures w' == Run(cfg, w, events) && Shows(w') && CommandsOf(me, fallback, events) && me !in w'.releases
      ensures me in w'.pcs && w'.pcs[me] == (if hit.Some? then Done(Ok(hit.value)) else Recompute(Some(deadline)))
      ensures hit == LiveValue(cache, now) && (hit.None? ==> lock == old(lock))
    {
      w', events := w, [];
      hit := Get();
      w', events := One(w, events, w', Advance(me, Fine, fallback));
      if hit.Some? {
        assert w'.pcs[me] == Done(Ok(hit.value)) && Shows(w');
        w', events := One(w, events, w', RunRelease(me));
        Release(me);
      }
    }

    /** Steps 1 and 2: the cached value, then the null marker. */
    method LookFirst(me: nat, ghost fallback: Option<int>, ghost w: World)
      returns (answer: Option<Result>, ghost w': World, ghost events: seq<Event>)
      requires Shows(w) && me in w.pcs && w.pcs[me] == FastPath && me !in w.releases
      ensures w' == Run(cfg, w, events) && Shows(w') && CommandsOf(me, fallback, events) && me !in w'.releases
      ensures me in w'.pcs && w'.pcs[me] == (if answer.Some? then Done(answer.value) else TryLock(0))
      ensures answer == if LiveValue(cache, now).Some? then Some(Ok(LiveValue(cache, now).value))
                        else if now < nullUntil then Some(Err) else None
    {
      w', events := w, [];
      var hit := Get();
      w', events := One(w, events, w', Advance(me, Fine, fallback));
      if hit.Some? { return Some(Ok(hit.value)), w', events; }
      assert w'.pcs[me] == NullCheck && Shows(w');
      w', events := One(w, events, w', Advance(me, Fine, fallback));
      answer := if now < nullUntil then Some(Err) else None;
    }

    /**
     The whole call is a run of the machine: every command it issues is a move of
     process `me`, and it returns what the machine records for that process.
     */
    method GetOrInsertWithLock(me: nat, fallback: Option<int>, ghost w: World)
      returns (r: Result, ghost w': World, ghost events: seq<Event>)
      requires Shows(w) && me in w.pcs && w.pcs[me] == FastPath && me !in w.releases
      modifies this
      ensures w' == Run(cfg, w, events) && Shows(w') && CommandsOf(me, fallback, events)
      ensures me in w'.pcs && w'.pcs[me] == Done(r) && me !in w'.releases
      // a hit or a null marker answers alone; otherwise the fallback does, and a success is cached
      ensures LiveValue(old(cache), now).Some? ==> r == Ok(LiveValue(old(cache), now).value) && cache == old(cache)
      ensures LiveValue(old(cache), now).None? && now < nullUntil ==> r == Err && cache == old(cache)
      ensures LiveValue(old(cache), now).None? && now >= nullUntil ==>
                && r == (if fallback.Some? then Ok(fallback.value) else Err)
                && cache == if fallback.Some? && cfg.ttl > 0 then Some(Cached(fallback.value, now + cfg.ttl)) else old(cache)
      // nobody else's lock is touched, and none of its own is left running
      ensures now == old(now) && nullUntil == old(nullUntil)
      ensures IsHeld(old(lock), now) && old(lock).value.owner != me ==> lock == old(lock)
      ensures IsHeld(lock, now) ==> lock == old(lock)
    {
      hide Step;
      ghost var more;
      var answer, hit, deadline;
      answer, w', events := LookFirst(me, fallback, w);
      if answer.Some? { return answer.value, w', events; }
      deadline, w', more := TryAcquire(me, fallback, w');
      events := Joined(w, events, more);
      if deadline.Some? {
        hit, w', more := LookAgain(me, deadline.value, fallback, w');
      } else {
        hit, w', more := PollCache(me, fallback, w');
      }
      events := Joined(w, events, more);
      if hit.Some? { return Ok(hit.value), w', events; }
      r, w', more := ComputeAndStore(me, fallback, deadline, w');
      events := Joined(w, events, more);
    }

    ghost method One(w: World, events: seq<Event>, now': World, e: Event) returns (w': World, events': seq<Event>)
      requires now' == Run(cfg, w, events)
      ensures w' == Step(cfg, now', e) && w' == Run(cfg, w, events') && events' == events + [e]
    {
      RunOneMore(cfg, w, events, e);
      w', events' := Step(cfg, now', e), events + [e];
    }

    ghost method Joined(w: World, events: seq<Event>, more: seq<Event>) returns (all: seq<Event>)
      ensures all == events + more && Run(cfg, w, all) == Run(cfg, Run(cfg, w, events), more)
    {
      RunInTwoParts(cfg, w, events, more);
      all := events + more;
    }
  }

  /** Only moves of process `me`, with a working Redis and the call's own fallback, and its release. */
  ghost predicate CommandsOf(me: nat, fallback: Option<int>, events: seq<Event>) {
    forall i :: 0 <= i < |events| ==>
      events[i] == RunRelease(me) || events[i] == Advance(me, Fine, fallback)
  }

  lemma RunOneMore(cfg: Config, w: World, events: seq<Event>, e: Event)
    ensures Run(cfg, w, events + [e]) == Step(cfg, Run(cfg, w, events), e)
  {
    RunInTwoParts(cfg, w, events, [e]);
    var w' := Run(cfg, w, events);
    assert [e][1..] == [];
    assert Run(cfg, Step(cfg, w', e), []) == Step(cfg, w', e);
  }
}
