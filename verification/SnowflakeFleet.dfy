/** The table `snowflake_worker` that hands out worker ids as leases. */
module WorkerLease {
  import opened Options
  import opened SnowflakeId

  const STALE_WORKER_MS: int := 30_000

  /** worker id -> heartbeat, in milliseconds */
  type Rows = map<nat, int>

  /** Deletes rows whose heartbeat is strictly before the deadline computed at `at`. */
  function Cleaned(rows: Rows, at: int): Rows {
    map w | w in rows && rows[w] >= at - STALE_WORKER_MS :: rows[w]
  }

  function Beaten(rows: Rows, worker: nat, at: int): Rows {
    if worker in rows then rows[worker := at] else rows
  }

  function Removed(rows: Rows, worker: nat): Rows {
    map w | w in rows && w != worker :: rows[w]
  }

  /** The worker's last heartbeat is at most 30 s old. */
  predicate HeardOf(rows: Rows, worker: nat, now: int) {
    worker in rows && now - rows[worker] <= 30_000
  }

  ghost predicate LowestFree(rows: Rows, worker: nat) {
    worker <= MAX_WORKER_ID && worker !in rows && forall w: nat :: w < worker ==> w in rows
  }

  class WorkerTable {
    var rows: Rows

    constructor ()
      ensures rows == map[]
    {
      rows := map[];
    }

    method CleanStaleWorkers(now: int)
      modifies this
      ensures rows == Cleaned(old(rows), now)
      // silence of 30 s is still tolerated, of 30.001 s not
      ensures forall w :: w in rows <==> w in old(rows) && now - old(rows)[w] <= 30_000
      ensures forall w :: w in rows ==> rows[w] == old(rows)[w]
    {
      var deadline := now - STALE_WORKER_MS;
      rows := map w | w in rows && !(rows[w] < deadline) :: rows[w];
    }

    /** INSERT under the primary-key constraint: false is the constraint violation. */
    method TryInsertWorker(worker: nat, now: int) returns (inserted: bool)
      modifies this
      ensures inserted == (worker !in old(rows))
      ensures rows == if inserted then old(rows)[worker := now] else old(rows)
    {
      if worker in rows {
        return false;
      }
      rows := rows[worker := now];
      inserted := true;
    }

    method Heartbeat(worker: nat, now: int)
      modifies this
      ensures rows == Beaten(old(rows), worker, now)
      ensures worker in old(rows) ==> rows == old(rows)[worker := now]
      ensures worker !in old(rows) ==> rows == old(rows)
    {
      if worker in rows { rows := rows[worker := now]; }
    }

    method DeregisterWorker(worker: nat)
      modifies this
      ensures rows == Removed(old(rows), worker)
      ensures forall w :: w in rows <==> w in old(rows) && w != worker
      ensures forall w :: w in rows ==> rows[w] == old(rows)[w]
    {
      rows := map w | w in rows && w != worker :: rows[w];
    }

    /**
     Registration with nobody interfering: the lowest id that is free once stale
     rows are gone, and a refusal exactly when all 1024 are taken.
     */
    method RegisterWorker(now: int) returns (worker: Option<nat>)
      modifies this
      ensures worker.Some? ==>
                && LowestFree(Cleaned(old(rows), now), worker.value)
                && rows == Cleaned(old(rows), now)[worker.value := now]
      ensures worker.None? ==>
                && (forall w: nat :: w <= MAX_WORKER_ID ==> w in Cleaned(old(rows), now))
                && rows == Cleaned(old(rows), now)
      // in terms of heartbeats: the lowest id of the 1024 whose holder has been silent for more than 30 s
      ensures worker.Some? ==> worker.value <= 1023 && !HeardOf(old(rows), worker.value, now)
      ensures worker.Some? ==> worker.value in rows && rows[worker.value] == now
      ensures forall w: nat :: (worker.Some? ==> w < worker.value) && w <= 1023 ==> HeardOf(old(rows), w, now)
      ensures forall w: nat :: HeardOf(old(rows), w, now) ==> w in rows && rows[w] == old(rows)[w]
      ensures forall w: nat :: w in rows ==> HeardOf(old(rows), w, now) || worker == Some(w)
    {
      CleanStaleWorkers(now);
      var used := rows.Keys;
      for wid: nat := 0 to MAX_WORKER_ID + 1
        invariant rows == Cleaned(old(rows), now)
        invariant used == rows.Keys
        invariant forall w: nat :: w < wid ==> w in rows
      {
        if wid !in used {
          var inserted := TryInsertWorker(wid, now);
          if inserted {
            return Some(wid);
          }
        }
      }
      worker := None;
    }
  }
}

/**
 Many processes, each leasing a worker id from the shared table and running a
 generator of its own, under one clock.
 */
module SnowflakeFleet {
  import opened Options
  import opened SnowflakeId
  import opened SnowflakeGenerator
  import opened WorkerLease

  datatype Node = Node(worker: nat, counters: Counters)

  datatype Mark = Mark(timestamp: int, worker: nat, sequence: nat)

  /** `freed` remembers when a worker id was last given back by a shutdown. */
  datatype Fleet = Fleet(now: int, rows: Rows, live: map<nat, Node>, freed: map<nat, int>, issued: seq<Mark>)

  /**
   Statements carry the instant `at` at which their process read the clock, which
   may lie before the instant at which the database executes them.
   */
  datatype Act =
    | Tick(elapsed: nat)
    | Clean(at: int)
    | Register(node: nat, worker: nat, at: int)
    | Beat(node: nat, at: int)
    | Deregister(node: nat)
    | Crash(node: nat)
    | Generate(node: nat)

  predicate Enabled(s: Fleet, a: Act) {
    match a
    case Tick(_) => true
    case Clean(at) => at <= s.now
    case Register(node, worker, at) =>
      node !in s.live && worker <= MAX_WORKER_ID && worker !in s.rows && at <= s.now
    case Beat(node, at) => node in s.live && at <= s.now
    case Deregister(node) => node in s.live
    case Crash(node) => node in s.live
    case Generate(node) => node in s.live
  }

  function Without(live: map<nat, Node>, node: nat): map<nat, Node> {
    map n | n in live && n != node :: live[n]
  }

  function Step(s: Fleet, a: Act): Fleet {
    if !Enabled(s, a) then s
    else
      match a
      case Tick(elapsed) => s.(now := s.now + elapsed)
      case Clean(at) => s.(rows := Cleaned(s.rows, at))
      case Register(node, worker, at) =>
        s.(rows := s.rows[worker := at], live := s.live[node := Node(worker, FRESH)])
      case Beat(node, at) => s.(rows := Beaten(s.rows, s.live[node].worker, at))
      case Deregister(node) =>
        var w := s.live[node].worker;
        s.(rows := Removed(s.rows, w), live := Without(s.live, node), freed := s.freed[w := s.now])
      case Crash(node) => s.(live := Without(s.live, node))
      case Generate(node) =>
        var n := s.live[node];
        var (c, stamp) := Turn(n.counters, s.now);
        s.(live := s.live[node := n.(counters := c)],
           issued := if stamp.Some? then s.issued + [Mark(stamp.value.timestamp, n.worker, stamp.value.sequence)]
                     else s.issued)
  }

  function Run(s: Fleet, acts: seq<Act>): Fleet
    decreases |acts|
  {
    if acts == [] then s else Run(Step(s, acts[0]), acts[1..])
  }

  function Empty(now: int): Fleet {
    Fleet(now, map[], map[], map[], [])
  }

  /** No running process is more than 30 s behind with its heartbeat. */
  ghost predicate Timely(s: Fleet) {
    forall n :: n in s.live && s.live[n].worker in s.rows ==> s.rows[s.live[n].worker] >= s.now - STALE_WORKER_MS
  }

  /** An id given back by a shutdown is not leased again within the same millisecond. */
  predicate TicksBeforeReuse(s: Fleet, a: Act) {
    a.Register? && a.worker in s.freed ==> s.freed[a.worker] < s.now
  }

  ghost predicate Admissible(s: Fleet, acts: seq<Act>)
    decreases |acts|
  {
    && Timely(s)
    && Representable(s.now)
    && (acts == [] || (TicksBeforeReuse(s, acts[0]) && Admissible(Step(s, acts[0]), acts[1..])))
  }

  // --------------------------------------------------------------- invariant

  ghost predicate LeasesExclusive(s: Fleet) {
    && (forall n :: n in s.live ==> s.live[n].worker in s.rows && s.live[n].worker <= MAX_WORKER_ID)
    && (forall n, k :: n in s.live && k in s.live && s.live[n].worker == s.live[k].worker ==> n == k)
  }

  ghost predicate Held(s: Fleet, worker: nat) {
    exists n :: n in s.live && s.live[n].worker == worker
  }

  predicate Behind(m: Mark, c: Counters, now: int) {
    || Below(Stamp(m.timestamp, m.sequence), c)
    || (c.lastTimestamp == 0 && m.timestamp < now)
  }

  ghost predicate MarksBehindHolders(s: Fleet) {
    forall n, m :: n in s.live && m in s.issued && m.worker == s.live[n].worker ==>
      Behind(m, s.live[n].counters, s.now)
  }

  /** Why an id that nobody holds can be leased again without a clash. */
  predicate Past(s: Fleet, m: Mark) {
    if m.worker in s.rows then m.timestamp <= s.rows[m.worker] + STALE_WORKER_MS
    else m.timestamp < s.now || (m.worker in s.freed && m.timestamp <= s.freed[m.worker])
  }

  ghost predicate MarksOfUnheldArePast(s: Fleet) {
    forall m :: m in s.issued && !Held(s, m.worker) ==> Past(s, m)
  }

  ghost predicate MarksInRange(s: Fleet) {
    forall m :: m in s.issued ==>
      Representable(m.timestamp) && m.timestamp <= s.now && m.worker <= MAX_WORKER_ID && m.sequence < MAX_SEQUENCE
  }

  ghost predicate CountersInRange(s: Fleet) {
    forall n :: n in s.live ==> 0 <= s.live[n].counters.lastTimestamp <= s.now
  }

  ghost predicate Inv(s: Fleet) {
    && LeasesExclusive(s)
    && MarksBehindHolders(s)
    && MarksOfUnheldArePast(s)
    && MarksInRange(s)
    && CountersInRange(s)
  }

  ghost predicate MarksDistinct(issued: seq<Mark>) {
    forall i, j :: 0 <= i < j < |issued| ==> issued[i] != issued[j]
  }

  function MarkId(m: Mark): int {
    ComposeId(m.timestamp, m.worker, m.sequence)
  }
}

module SnowflakeFleetTheorems {
  import opened Options
  import opened SnowflakeId
  import SnowflakeGenerator
  import opened SnowflakeFleet

  /** Who holds which id depends only on the running processes. */
  lemma HeldFollowsLive(s: Fleet, s': Fleet, worker: nat)
    requires s.live.Keys == s'.live.Keys
    requires forall n :: n in s.live ==> s.live[n].worker == s'.live[n].worker
    ensures Held(s, worker) == Held(s', worker)
  {
    if Held(s, worker) {
      var n :| n in s.live && s.live[n].worker == worker;
      assert n in s'.live;
    }
    if Held(s', worker) {
      var n :| n in s'.live && s'.live[n].worker == worker;
      assert n in s.live;
    }
  }

  lemma DisabledChangesNothing(s: Fleet, a: Act)
    requires !Enabled(s, a)
    ensures Step(s, a) == s
  {
  }

  lemma StepKeepsInv(s: Fleet, a: Act)
    requires Inv(s) && Timely(s) && Representable(s.now) && TicksBeforeReuse(s, a)
    ensures Inv(Step(s, a))
  {
    hide *;
    if !Enabled(s, a) {
      DisabledChangesNothing(s, a);
    } else {
      match a {
        case Tick(_) => TickKeepsInv(s, a);
        case Clean(_) => CleanKeepsInv(s, a);
        case Beat(_, _) => BeatKeepsInv(s, a);
        case Register(_, _, _) => RegisterKeepsInv(s, a);
        case Deregister(_) => LeaveKeepsInv(s, a);
        case Crash(_) => LeaveKeepsInv(s, a);
        case Generate(_) => GenerateKeepsInv(s, a);
      }
    }
  }

  /** What a step leaves alone while the processes and the issued ids stay the same. */
  lemma SameHoldersSameMarks(s: Fleet, s': Fleet)
    requires Inv(s) && s'.live == s.live && s'.issued == s.issued && s'.now >= s.now
    ensures MarksBehindHolders(s') && MarksInRange(s') && CountersInRange(s')
    ensures forall w :: Held(s', w) == Held(s, w)
  {
    forall w { HeldFollowsLive(s, s', w); }
  }

  lemma TickKeepsInv(s: Fleet, a: Act)
    requires Inv(s) && a.Tick?
    ensures Inv(Step(s, a))
  {
    hide MarksBehindHolders;
    SameHoldersSameMarks(s, Step(s, a));
  }

  lemma CleanKeepsInv(s: Fleet, a: Act)
    requires Inv(s) && Timely(s) && a.Clean? && Enabled(s, a)
    ensures Inv(Step(s, a))
  {
    hide MarksBehindHolders;
    SameHoldersSameMarks(s, Step(s, a));
  }

  lemma BeatKeepsInv(s: Fleet, a: Act)
    requires Inv(s) && a.Beat? && Enabled(s, a)
    ensures Inv(Step(s, a))
  {
    hide MarksBehindHolders;
    var s' := Step(s, a);
    SameHoldersSameMarks(s, s');
    assert Held(s, s.live[a.node].worker);
    assert forall w :: w != s.live[a.node].worker ==> (w in s'.rows) == (w in s.rows);
  }

  lemma RegisterKeepsInv(s: Fleet, a: Act)
    requires Inv(s) && Representable(s.now) && TicksBeforeReuse(s, a)
    requires a.Register? && Enabled(s, a)
    ensures Inv(Step(s, a))
  {
    var s' := Step(s, a);
    assert s'.live[a.node].worker == a.worker;
    assert Held(s', a.worker);
    assert !Held(s, a.worker);
    forall w | Held(s, w) ensures Held(s', w) {
      var n :| n in s.live && s.live[n].worker == w;
      assert s'.live[n] == s.live[n];
    }
  }

  /** After a shutdown or a crash only the leaver's id changes hands, and all its ids are in the past. */
  lemma LeaverLeavesPast(s: Fleet, a: Act, m: Mark)
    requires Inv(s) && Timely(s)
    requires (a.Deregister? || a.Crash?) && Enabled(s, a)
    requires m in s.issued && !Held(Step(s, a), m.worker)
    ensures Past(Step(s, a), m)
  {
    hide MarksBehindHolders;
    if m.worker != s.live[a.node].worker {
      OthersStillHeld(s, a, m.worker);
    }
  }

  lemma OthersStillHeld(s: Fleet, a: Act, worker: nat)
    requires (a.Deregister? || a.Crash?) && Enabled(s, a)
    requires worker != s.live[a.node].worker
    ensures Held(s, worker) ==> Held(Step(s, a), worker)
  {
    if Held(s, worker) {
      var n :| n in s.live && s.live[n].worker == worker;
      assert n in Step(s, a).live;
    }
  }

  lemma LeaveKeepsInv(s: Fleet, a: Act)
    requires Inv(s) && Timely(s)
    requires (a.Deregister? || a.Crash?) && Enabled(s, a)
    ensures Inv(Step(s, a))
  {
    LeaveKeepsHolders(s, a);
    var s' := Step(s, a);
    assert MarksOfUnheldArePast(s') by {
      forall m | m in s'.issued && !Held(s', m.worker)
        ensures Past(s', m)
      {
        LeaverLeavesPast(s, a, m);
      }
    }
    hide *;
    AssembleInv(s');
  }

  lemma LeaveKeepsHolders(s: Fleet, a: Act)
    requires Inv(s)
    requires (a.Deregister? || a.Crash?) && Enabled(s, a)
    ensures var s' := Step(s, a);
            LeasesExclusive(s') && MarksBehindHolders(s') && MarksInRange(s') && CountersInRange(s')
  {
    hide MarksOfUnheldArePast;
    var s' := Step(s, a);
    assert forall n :: n in s'.live ==> n in s.live && s'.live[n] == s.live[n] && n != a.node;
  }

  lemma AssembleInv(s: Fleet)
    requires LeasesExclusive(s) && MarksBehindHolders(s) && MarksOfUnheldArePast(s)
    requires MarksInRange(s) && CountersInRange(s)
    ensures Inv(s)
  {
  }

  lemma GenerateKeepsInv(s: Fleet, a: Act)
    requires Inv(s) && Representable(s.now)
    requires a.Generate? && Enabled(s, a)
    ensures Inv(Step(s, a))
  {
    GenerateKeepsLeases(s, a);
    GenerateKeepsMarks(s, a);
    var s' := Step(s, a);
    hide *;
    AssembleInv(s');
  }

  lemma GenerateKeepsLeases(s: Fleet, a: Act)
    requires Inv(s) && Representable(s.now)
    requires a.Generate? && Enabled(s, a)
    ensures var s' := Step(s, a);
            LeasesExclusive(s') && MarksInRange(s') && CountersInRange(s') && MarksOfUnheldArePast(s')
  {
    hide MarksBehindHolders;
    var s' := Step(s, a);
    forall w { HeldFollowsLive(s, s', w); }
    if s'.issued != s.issued {
      assert Held(s', s'.issued[|s.issued|].worker);
    }
  }

  lemma GenerateKeepsMarks(s: Fleet, a: Act)
    requires Inv(s) && Representable(s.now)
    requires a.Generate? && Enabled(s, a)
    ensures MarksBehindHolders(Step(s, a))
  {
    hide MarksOfUnheldArePast;
    var s' := Step(s, a);
    forall n, m | n in s'.live && m in s'.issued && m.worker == s'.live[n].worker
      ensures Behind(m, s'.live[n].counters, s'.now)
    {
      if m in s.issued {
        assert Behind(m, s.live[n].counters, s.now);
      }
    }
  }

  /** A holder's next mark is new: all earlier marks of its id are behind its counters. */
  lemma StepKeepsMarksDistinct(s: Fleet, a: Act)
    requires Inv(s) && Representable(s.now) && MarksDistinct(s.issued)
    ensures MarksDistinct(Step(s, a).issued)
  {
    if a.Generate? && Enabled(s, a) {
      var n := s.live[a.node];
      var stamp := SnowflakeGenerator.Turn(n.counters, s.now).1;
      if stamp.Some? {
        assert Mark(stamp.value.timestamp, n.worker, stamp.value.sequence) !in s.issued;
      }
    }
  }

  lemma {:induction false} RunKeepsInv(s: Fleet, acts: seq<Act>)
    requires Inv(s) && MarksDistinct(s.issued) && Admissible(s, acts)
    ensures Inv(Run(s, acts)) && MarksDistinct(Run(s, acts).issued)
    decreases |acts|
  {
    if acts != [] {
      hide Inv;
      hide MarksDistinct;
      hide Step;
      StepKeepsInv(s, acts[0]);
      StepKeepsMarksDistinct(s, acts[0]);
      RunKeepsInv(Step(s, acts[0]), acts[1..]);
    }
  }

  /**
   The fleet theorem: registrations, heartbeats, shutdowns, crashes, clean-ups and
   generator turns of any number of processes in any order never produce the same
   id twice.  A crashed process needs no extra condition: its row outlives it by
   more than the time in which it could have issued an id.
   */
  lemma AllIdsEverIssuedDiffer(start: int, acts: seq<Act>)
    requires Admissible(Empty(start), acts)
    ensures var issued := Run(Empty(start), acts).issued;
            forall i, j :: 0 <= i < j < |issued| ==> MarkId(issued[i]) != MarkId(issued[j])
  {
    RunKeepsInv(Empty(start), acts);
    var issued := Run(Empty(start), acts).issued;
    forall i, j | 0 <= i < j < |issued| ensures MarkId(issued[i]) != MarkId(issued[j]) {
      assert issued[i] in issued && issued[j] in issued;
      OrderIsLexicographic(issued[i].timestamp, issued[i].worker, issued[i].sequence,
                           issued[j].timestamp, issued[j].worker, issued[j].sequence);
    }
  }

  /** What it rests on: at every moment running processes hold pairwise different worker ids, each with a row. */
  lemma LiveWorkersDiffer(start: int, acts: seq<Act>)
    requires Admissible(Empty(start), acts)
    ensures LeasesExclusive(Run(Empty(start), acts))
  {
    RunKeepsInv(Empty(start), acts);
  }

  // -------------------------------------------------- what keeps a lease alive

  /** The act is no shutdown of a holder of `worker`, no clean-up read later than 30 s after `b`, and no older heartbeat. */
  predicate Spares(s: Fleet, a: Act, worker: nat, b: int) {
    match a
    case Clean(at) => at - b <= 30_000
    case Beat(node, at) => node in s.live && s.live[node].worker == worker ==> at >= b
    case Deregister(node) => node in s.live ==> s.live[node].worker != worker
    case _ => true
  }

  predicate AllSpare(s: Fleet, acts: seq<Act>, worker: nat, b: int)
    decreases |acts|
  {
    acts == [] || (Spares(s, acts[0], worker, b) && AllSpare(Step(s, acts[0]), acts[1..], worker, b))
  }

  /** A heartbeat dates the row of its own worker and no other. */
  lemma BeatDatesItsRow(s: Fleet, node: nat, b: int)
    requires node in s.live && s.live[node].worker in s.rows && b <= s.now
    ensures Step(s, Beat(node, b)) == s.(rows := s.rows[s.live[node].worker := b])
  {
  }

  lemma SparedRowStays(s: Fleet, a: Act, worker: nat, b: int)
    requires worker in s.rows && s.rows[worker] >= b && Spares(s, a, worker, b)
    ensures var s' := Step(s, a); worker in s'.rows && s'.rows[worker] >= b
  {
  }

  lemma {:induction false} SparedRowStaysInRun(s: Fleet, acts: seq<Act>, worker: nat, b: int)
    requires worker in s.rows && s.rows[worker] >= b && AllSpare(s, acts, worker, b)
    ensures var s' := Run(s, acts); worker in s'.rows && s'.rows[worker] >= b
    decreases |acts|
  {
    if acts != [] {
      SparedRowStays(s, acts[0], worker, b);
      hide Step;
      hide Spares;
      SparedRowStaysInRun(Step(s, acts[0]), acts[1..], worker, b);
    }
  }

  /**
   A worker that beats at b keeps its row, whatever else happens, through every clean-up
   read up to b + 30 s, unless a holder shuts down: nobody can register its id.
   */
  lemma HeartbeatKeepsTheLease(s: Fleet, node: nat, b: int, later: seq<Act>)
    requires node in s.live && s.live[node].worker in s.rows && b <= s.now
    requires AllSpare(Step(s, Beat(node, b)), later, s.live[node].worker, b)
    ensures var worker, s' := s.live[node].worker, Run(Step(s, Beat(node, b)), later);
            && worker in s'.rows && s'.rows[worker] >= b
            && forall n, at :: !Enabled(s', Register(n, worker, at))
  {
    BeatDatesItsRow(s, node, b);
    SparedRowStaysInRun(Step(s, Beat(node, b)), later, s.live[node].worker, b);
  }

  /** A clean-up removes exactly the rows not heard of for more than 30 s, and touches nothing else. */
  lemma CleanRemovesTheSilent(s: Fleet, at: int, worker: nat)
    requires at <= s.now
    ensures var s' := Step(s, Clean(at));
            && (worker in s'.rows <==> worker in s.rows && at - s.rows[worker] <= 30_000)
            && (worker in s'.rows ==> s'.rows[worker] == s.rows[worker])
            && s' == s.(rows := s'.rows)
  {
  }

  /** A new lease of a free id: its row, and a generator that starts afresh. */
  lemma RegisterTakesTheId(s: Fleet, node: nat, worker: nat, at: int)
    requires node !in s.live && worker <= 1023 && worker !in s.rows && at <= s.now
    ensures var s' := Step(s, Register(node, worker, at));
            && s'.rows == s.rows[worker := at] && s'.issued == s.issued && s'.now == s.now && s'.freed == s.freed
            && s'.live == s.live[node := Node(worker, SnowflakeGenerator.Counters(0, 0))]
  {
  }

  /** A shutdown frees the id and a crash does not; both end the process and nothing else. */
  lemma LeavingEndsTheProcess(s: Fleet, node: nat)
    requires node in s.live
    ensures var w, s' := s.live[node].worker, Step(s, Deregister(node));
            && s'.rows.Keys == s.rows.Keys - {w} && (forall v :: v in s'.rows ==> s'.rows[v] == s.rows[v])
            && s'.live.Keys == s.live.Keys - {node} && (forall n :: n in s'.live ==> s'.live[n] == s.live[n])
            && s'.issued == s.issued && s'.freed == s.freed[w := s.now]
    ensures var s' := Step(s, Crash(node));
            && s'.live.Keys == s.live.Keys - {node} && (forall n :: n in s'.live ==> s'.live[n] == s.live[n])
            && s'.rows == s.rows && s'.issued == s.issued && s'.freed == s.freed
  {
  }

  /** A process in a new millisecond issues sequence 0, in the same one the next sequence up to 4094, and otherwise waits. */
  lemma GenerateIssuesTheNextId(s: Fleet, node: nat)
    requires node in s.live
    ensures var n, s' := s.live[node], Step(s, Generate(node));
            && (s.now > n.counters.lastTimestamp ==>
                  s'.issued == s.issued + [Mark(s.now, n.worker, 0)]
                  && s'.live == s.live[node := Node(n.worker, SnowflakeGenerator.Counters(s.now, 1))])
            && (s.now == n.counters.lastTimestamp && n.counters.sequence < 4095 ==>
                  s'.issued == s.issued + [Mark(s.now, n.worker, n.counters.sequence)]
                  && s'.live == s.live[node := Node(n.worker, SnowflakeGenerator.Counters(s.now, n.counters.sequence + 1))])
            && (s.now < n.counters.lastTimestamp || (s.now == n.counters.lastTimestamp && n.counters.sequence >= 4095) ==>
                  s'.issued == s.issued)
            && s'.rows == s.rows && s'.freed == s.freed && s'.now == s.now
  {
  }

  // ------------------------------------------------- both conditions are needed

  /** A shutdown and a new lease of the same id inside one millisecond repeat an id. */
  lemma ReuseWithinTheMillisecondRepeats(now: int, worker: nat)
    requires Representable(now) && worker <= MAX_WORKER_ID
    ensures var s := Run(Empty(now), [Register(0, worker, now), Generate(0), Deregister(0),
                                      Register(1, worker, now), Generate(1)]);
            s.issued == [Mark(now, worker, 0), Mark(now, worker, 0)]
  {
    var s1 := Step(Empty(now), Register(0, worker, now));
    var s2 := Step(s1, Generate(0));
    var s3 := Step(s2, Deregister(0));
    var s4 := Step(s3, Register(1, worker, now));
    var s5 := Step(s4, Generate(1));
    RunFive(Empty(now), Register(0, worker, now), Generate(0), Deregister(0), Register(1, worker, now), Generate(1));
    assert s2.issued == [Mark(now, worker, 0)];
    assert worker !in s3.rows && 1 !in s3.live;
  }

  /** A process that keeps running 30 001 ms after its last heartbeat can share its id with its successor. */
  lemma LateHeartbeatRepeats(start: int, worker: nat)
    requires Representable(start) && Representable(start + 30_001) && worker <= MAX_WORKER_ID
    ensures var t := start + 30_001;
            var s := Run(Step(Empty(start), Register(0, worker, start)),
                         [Tick(30_001), Clean(t), Register(1, worker, t), Generate(0), Generate(1)]);
            s.issued == [Mark(t, worker, 0), Mark(t, worker, 0)]
  {
    var t := start + 30_001;
    var s0 := Step(Empty(start), Register(0, worker, start));
    var s1 := Step(s0, Tick(30_001));
    var s2 := Step(s1, Clean(t));
    var s3 := Step(s2, Register(1, worker, t));
    var s4 := Step(s3, Generate(0));
    var s5 := Step(s4, Generate(1));
    RunFive(s0, Tick(30_001), Clean(t), Register(1, worker, t), Generate(0), Generate(1));
    assert worker !in s2.rows;
    assert s4.issued == [Mark(t, worker, 0)];
  }

  lemma RunFive(s: Fleet, a: Act, b: Act, c: Act, d: Act, e: Act)
    ensures Run(s, [a, b, c, d, e]) == Step(Step(Step(Step(Step(s, a), b), c), d), e)
  {
    assert [a, b, c, d, e] == [a] + [b, c, d, e];
    assert [b, c, d, e] == [b] + [c, d, e];
    assert [c, d, e] == [c] + [d, e];
    assert [d, e] == [d] + [e];
    assert [e] == [e] + [];
    RunFirst(s, a, [b, c, d, e]);
    RunFirst(Step(s, a), b, [c, d, e]);
    RunFirst(Step(Step(s, a), b), c, [d, e]);
    RunFirst(Step(Step(Step(s, a), b), c), d, [e]);
    RunFirst(Step(Step(Step(Step(s, a), b), c), d), e, []);
  }

  lemma RunFirst(s: Fleet, a: Act, rest: seq<Act>)
    ensures Run(s, [a] + rest) == Run(Step(s, a), rest)
  {
    assert ([a] + rest)[1..] == rest;
  }
}
