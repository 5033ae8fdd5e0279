/**
 The retrying generator over two shared counters.  One turn of the retry loop
 (load, clock read, then `fetch_add` or CAS + store + `fetch_add`) is one step.
 */
module SnowflakeGenerator {
  import opened Options
  import opened SnowflakeId

  /** The two atomics every thread of a process shares. */
  datatype Counters = Counters(lastTimestamp: int, sequence: nat)

  /** The variable part of an id: the worker id is fixed per generator. */
  datatype Stamp = Stamp(timestamp: int, sequence: nat)

  const FRESH := Counters(0, 0)

  function IdOf(stamp: Stamp, workerId: nat): int {
    ComposeId(stamp.timestamp, workerId, stamp.sequence)
  }

  /** What one turn of the loop does when the clock reads `now`. */
  function Turn(c: Counters, now: int): (Counters, Option<Stamp>) {
    if now < c.lastTimestamp then
      (c, None)
    else if now == c.lastTimestamp then
      (c.(sequence := c.sequence + 1),
       if c.sequence < MAX_SEQUENCE then Some(Stamp(now, c.sequence)) else None)
    else
      (Counters(now, 1), Some(Stamp(now, 0)))
  }

  /** Where a thread stands: at the loop head, or in one of the two spin loops. */
  datatype Phase = Looping | AwaitAtLeast(target: int) | AwaitPast(target: int)

  function NextPhase(c: Counters, now: int): Phase {
    if now < c.lastTimestamp then AwaitAtLeast(c.lastTimestamp)
    else if now == c.lastTimestamp && c.sequence >= MAX_SEQUENCE then AwaitPast(now)
    else Looping
  }

  // ---------------------------------------------------------------- threads

  datatype Machine = Machine(counters: Counters, phases: map<nat, Phase>, issued: seq<Stamp>)
  datatype Event = Event(thread: nat, now: int)

  function PhaseOf(m: Machine, thread: nat): Phase {
    if thread in m.phases then m.phases[thread] else Looping
  }

  function Issue(issued: seq<Stamp>, stamp: Option<Stamp>): seq<Stamp> {
    if stamp.Some? then issued + [stamp.value] else issued
  }

  function Step(m: Machine, e: Event): Machine {
    match PhaseOf(m, e.thread)
    case AwaitAtLeast(target) =>
      if e.now < target then m else m.(phases := m.phases[e.thread := Looping])
    case AwaitPast(target) =>
      if e.now <= target then m else m.(phases := m.phases[e.thread := Looping])
    case Looping =>
      var (c, stamp) := Turn(m.counters, e.now);
      Machine(c, m.phases[e.thread := NextPhase(m.counters, e.now)], Issue(m.issued, stamp))
  }

  function Run(m: Machine, events: seq<Event>): Machine
    decreases |events|
  {
    if events == [] then m
    else Step(Run(m, events[..|events| - 1]), events[|events| - 1])
  }

  function Start(): Machine {
    Machine(FRESH, map[], [])
  }

  predicate Precedes(a: Stamp, b: Stamp) {
    a.timestamp < b.timestamp || (a.timestamp == b.timestamp && a.sequence < b.sequence)
  }

  /** Everything issued so far lies below the pair the counters would issue next. */
  predicate Below(a: Stamp, c: Counters) {
    a.timestamp < c.lastTimestamp || (a.timestamp == c.lastTimestamp && a.sequence < c.sequence)
  }

  ghost predicate Increasing(issued: seq<Stamp>) {
    forall i, j :: 0 <= i < j < |issued| ==> Precedes(issued[i], issued[j])
  }

  ghost predicate WellFormedStamps(issued: seq<Stamp>) {
    forall a :: a in issued ==> Representable(a.timestamp) && a.sequence < MAX_SEQUENCE
  }

  ghost predicate Inv(m: Machine) {
    && Increasing(m.issued)
    && WellFormedStamps(m.issued)
    && (forall a :: a in m.issued ==> Below(a, m.counters))
    && 0 <= m.counters.lastTimestamp
  }

  /** The clock stays inside the 41-bit range; it may jump back and forth within it. */
  ghost predicate ClockInRange(events: seq<Event>) {
    forall i :: 0 <= i < |events| ==> Representable(events[i].now)
  }

  lemma StepKeepsInv(m: Machine, e: Event)
    requires Inv(m) && Representable(e.now)
    ensures Inv(Step(m, e))
  {
    var m' := Step(m, e);
    assert forall i :: 0 <= i < |m.issued| ==> m'.issued[i] == m.issued[i];
    assert forall i :: 0 <= i < |m.issued| ==> m.issued[i] in m.issued;
  }

  lemma {:induction false} RunKeepsInv(m: Machine, events: seq<Event>)
    requires Inv(m) && ClockInRange(events)
    ensures Inv(Run(m, events))
    decreases |events|
  {
    if events != [] {
      var front := events[..|events| - 1];
      RunKeepsInv(m, front);
      StepKeepsInv(Run(m, front), events[|events| - 1]);
      hide Inv;
      hide Step;
    }
  }

  /**
   One generator, any number of threads, any interleaving of loop turns, any
   clock readings including backward jumps: ids are non-negative and strictly
   increasing in the order in which they are issued.
   */
  lemma IdsStrictlyIncrease(workerId: nat, events: seq<Event>)
    requires workerId <= MAX_WORKER_ID && ClockInRange(events)
    ensures var issued := Run(Start(), events).issued;
            && (forall i :: 0 <= i < |issued| ==> IdOf(issued[i], workerId) >= 0)
            && (forall i, j :: 0 <= i < j < |issued| ==> IdOf(issued[i], workerId) < IdOf(issued[j], workerId))
  {
    RunKeepsInv(Start(), events);
    var issued := Run(Start(), events).issued;
    forall i | 0 <= i < |issued| ensures IdOf(issued[i], workerId) >= 0 {
      assert issued[i] in issued;
      ComposeValue(issued[i].timestamp, workerId, issued[i].sequence);
    }
    forall i, j | 0 <= i < j < |issued|
      ensures IdOf(issued[i], workerId) < IdOf(issued[j], workerId)
    {
      assert issued[i] in issued && issued[j] in issued;
      OrderIsLexicographic(issued[i].timestamp, workerId, issued[i].sequence,
                           issued[j].timestamp, workerId, issued[j].sequence);
    }
  }

  function CountAt(issued: seq<Stamp>, timestamp: int): nat {
    if issued == [] then 0
    else
      CountAt(issued[..|issued| - 1], timestamp)
      + (if issued[|issued| - 1].timestamp == timestamp then 1 else 0)
  }

  lemma {:induction false} CountInIncreasing(issued: seq<Stamp>, timestamp: int)
    requires Increasing(issued) && WellFormedStamps(issued)
    ensures CountAt(issued, timestamp) <= MAX_SEQUENCE
    ensures issued != [] ==>
              var last := issued[|issued| - 1];
              && (last.timestamp == timestamp ==> CountAt(issued, timestamp) <= last.sequence + 1)
              && (last.timestamp < timestamp ==> CountAt(issued, timestamp) == 0)
  {
    if issued != [] {
      var front, last := issued[..|issued| - 1], issued[|issued| - 1];
      assert last in issued;
      CountInIncreasing(front, timestamp);
      if front != [] {
        assert Precedes(issued[|front| - 1], last);
      }
    }
  }

  /**
   At most 4095 ids share a millisecond (the last of the 4096 sequence numbers is
   never handed out).
   */
  lemma PerMillisecondBound(events: seq<Event>, timestamp: int)
    requires ClockInRange(events)
    ensures CountAt(Run(Start(), events).issued, timestamp) <= MAX_SEQUENCE
  {
    RunKeepsInv(Start(), events);
    CountInIncreasing(Run(Start(), events).issued, timestamp);
  }

  /** The bound is reached: threads that call in turn within one millisecond get exactly min(n, 4095) ids. */
  lemma {:induction false} PerMillisecondBoundReached(events: seq<Event>, now: int)
    requires Representable(now)
    requires forall i :: 0 <= i < |events| ==> events[i] == Event(i, now)
    ensures var m := Run(Start(), events);
            && CountAt(m.issued, now) == |m.issued| == (if |events| <= MAX_SEQUENCE then |events| else MAX_SEQUENCE)
            && (events != [] ==> m.counters == Counters(now, |events|))
            && (events == [] ==> m.counters == FRESH)
            && (forall t :: t in m.phases ==> t < |events|)
  {
    if events != [] {
      var front := events[..|events| - 1];
      PerMillisecondBoundReached(front, now);
      var m := Run(Start(), front);
      assert PhaseOf(m, |front|) == Looping;
      var m' := Step(m, events[|front|]);
      assert m'.issued != m.issued ==> m'.issued[..|m'.issued| - 1] == m.issued;
    }
  }

  // ---------------------------------------------------------- one call alone

  datatype Outcome = Outcome(counters: Counters, stamp: Option<Stamp>, used: nat)

  /** One call of `generate` with no other thread: `used` clock readings are consumed. */
  function Solo(c: Counters, phase: Phase, readings: seq<int>): Outcome
    decreases |readings|
  {
    if readings == [] then Outcome(c, None, 0)
    else
      var rest := match phase
        case AwaitAtLeast(t) => Solo(c, if readings[0] < t then phase else Looping, readings[1..])
        case AwaitPast(t) => Solo(c, if readings[0] <= t then phase else Looping, readings[1..])
        case Looping =>
          var (c', stamp) := Turn(c, readings[0]);
          if stamp.Some? then Outcome(c', stamp, 0) else Solo(c', NextPhase(c, readings[0]), readings[1..]);
      rest.(used := rest.used + 1)
  }

  /** What a call takes: the millisecond of its last reading, with the first free sequence number there. */
  lemma {:induction false} SoloTakesTheLastReading(c: Counters, phase: Phase, readings: seq<int>)
    ensures var r := Solo(c, phase, readings);
            && r.used <= |readings| && (r.stamp.None? ==> r.used == |readings|)
            && (r.stamp.Some? ==>
                  && r.used > 0 && readings[r.used - 1] == r.counters.lastTimestamp >= c.lastTimestamp && r.counters.sequence > 0
                  && r.stamp == Some(Stamp(r.counters.lastTimestamp, r.counters.sequence - 1))
                  && (if r.counters.lastTimestamp > c.lastTimestamp then r.counters.sequence == 1
                      else c.sequence < r.counters.sequence <= 4095))
            && (phase.Looping? && readings != [] && readings[0] > c.lastTimestamp ==>
                  r == Outcome(Counters(readings[0], 1), Some(Stamp(readings[0], 0)), 1))
            && (phase.Looping? && readings != [] && readings[0] == c.lastTimestamp && c.sequence < 4095 ==>
                  r == Outcome(Counters(readings[0], c.sequence + 1), Some(Stamp(readings[0], c.sequence)), 1))
    decreases |readings|
  {
    if readings != [] {
      if phase.Looping? {
        if Turn(c, readings[0]).1.None? {
          SoloTakesTheLastReading(Turn(c, readings[0]).0, NextPhase(c, readings[0]), readings[1..]);
        }
      } else {
        var stays := if phase.AwaitAtLeast? then readings[0] < phase.target else readings[0] <= phase.target;
        SoloTakesTheLastReading(c, if stays then phase else Looping, readings[1..]);
      }
    }
  }

  /**
   The id carries the last reading used, which is at least the last timestamp, with sequence 0 in
   a new millisecond.  A new millisecond, or a free sequence number, is taken at the first reading.
   */
  ghost predicate TakesLastReading(before: Counters, after: Counters, workerId: nat, readings: seq<int>, id: Option<int>, used: nat) {
    && used <= |readings| && (id.None? ==> used == |readings|)
    && (id.Some? ==>
          && used > 0 && readings[used - 1] == after.lastTimestamp >= before.lastTimestamp && after.sequence > 0
          && id == Some(IdOf(Stamp(after.lastTimestamp, after.sequence - 1), workerId))
          && (if after.lastTimestamp > before.lastTimestamp then after.sequence == 1
              else before.sequence < after.sequence <= 4095))
    && (readings != [] && readings[0] > before.lastTimestamp ==>
          used == 1 && id == Some(IdOf(Stamp(readings[0], 0), workerId)) && after == Counters(readings[0], 1))
    && (readings != [] && readings[0] == before.lastTimestamp && before.sequence < 4095 ==>
          && used == 1 && id == Some(IdOf(Stamp(readings[0], before.sequence), workerId))
          && after == Counters(readings[0], before.sequence + 1))
  }

  lemma SoloTakesTheLastId(c: Counters, workerId: nat, readings: seq<int>)
    ensures var r := Solo(c, Looping, readings);
            TakesLastReading(c, r.counters, workerId, readings, if r.stamp.Some? then Some(IdOf(r.stamp.value, workerId)) else None, r.used)
  {
    SoloTakesTheLastReading(c, Looping, readings);
    hide Solo;
    hide IdOf;
  }

  /** A thread that found the millisecond used up, or the clock behind, waits in its spin loop and claims nothing there. */
  lemma SpinLoopsClaimNothing(m: Machine, thread: nat, now: int, later: int)
    requires PhaseOf(m, thread).Looping?
    requires now < m.counters.lastTimestamp || (now == m.counters.lastTimestamp && m.counters.sequence >= 4095)
    ensures var waiting := Step(m, Event(thread, now));
            var after := Step(waiting, Event(thread, later));
            && waiting.issued == m.issued && waiting.counters.lastTimestamp == m.counters.lastTimestamp
            && after.counters == waiting.counters && after.issued == waiting.issued
            && (PhaseOf(after, thread).Looping? <==>
                  if now < m.counters.lastTimestamp then later >= m.counters.lastTimestamp else later > now)
  {
  }

  /** One thread's events, one per clock reading. */
  function EventsOf(thread: nat, readings: seq<int>): (events: seq<Event>)
    ensures |events| == |readings|
  {
    seq(|readings|, i requires 0 <= i < |readings| => Event(thread, readings[i]))
  }

  lemma {:induction false} RunFromFront(m: Machine, e: Event, events: seq<Event>)
    ensures Run(m, [e] + events) == Run(Step(m, e), events)
    decreases |events|
  {
    var all := [e] + events;
    if events == [] {
      assert all == [e] && all[..0] == [];
      assert Run(m, []) == m;
    } else {
      assert all[..|all| - 1] == [e] + events[..|events| - 1];
      RunFromFront(m, e, events[..|events| - 1]);
    }
  }

  /** Refinement: a call alone is a run of the machine by its thread, and issues what the machine issues. */
  lemma {:induction false} SoloIsRun(m: Machine, thread: nat, readings: seq<int>)
    ensures var r := Solo(m.counters, PhaseOf(m, thread), readings);
            && r.used <= |readings|
            && (r.stamp.None? ==> r.used == |readings|)
            && Run(m, EventsOf(thread, readings[..r.used])).counters == r.counters
            && Run(m, EventsOf(thread, readings[..r.used])).issued == Issue(m.issued, r.stamp)
    decreases |readings|
  {
    var r := Solo(m.counters, PhaseOf(m, thread), readings);
    if readings == [] {
      assert EventsOf(thread, readings[..0]) == [];
    } else {
      var e := Event(thread, readings[0]);
      var m' := Step(m, e);
      if PhaseOf(m, thread).Looping? && Turn(m.counters, readings[0]).1.Some? {
        assert EventsOf(thread, readings[..1]) == [e] + [];
        RunFromFront(m, e, []);
      } else {
        SoloIsRun(m', thread, readings[1..]);
        var rest := Solo(m'.counters, PhaseOf(m', thread), readings[1..]);
        assert r == rest.(used := rest.used + 1);
        assert EventsOf(thread, readings[..r.used]) == [e] + EventsOf(thread, readings[1..][..rest.used]);
        RunFromFront(m, e, EventsOf(thread, readings[1..][..rest.used]));
      }
    }
  }

  predicate AwaitsNothingLater(c: Counters, phase: Phase) {
    phase.Looping? || phase.target <= c.lastTimestamp
  }

  /**
   A call returns no later than two readings after the clock has passed the last
   timestamp, whatever it read before and whichever spin loop it is in.
   */
  lemma {:induction false} ReturnsOnceClockPasses(c: Counters, phase: Phase, readings: seq<int>, k: nat)
    requires AwaitsNothingLater(c, phase)
    requires k + 1 < |readings| && readings[k] > c.lastTimestamp && readings[k + 1] > c.lastTimestamp
    ensures Solo(c, phase, readings).stamp.Some?
    ensures Solo(c, phase, readings).used <= k + 2
    decreases k
  {
    if k > 0 {
      var now := readings[0];
      if phase.Looping? {
        if Turn(c, now).1.None? {
          ReturnsOnceClockPasses(Turn(c, now).0, NextPhase(c, now), readings[1..], k - 1);
        }
      } else {
        var stays := if phase.AwaitAtLeast? then now < phase.target else now <= phase.target;
        ReturnsOnceClockPasses(c, if stays then phase else Looping, readings[1..], k - 1);
      }
    } else {
      assert readings[1..][0] == readings[1];
    }
  }

  class Generator {
    const workerId: nat
    var sequence: nat
    var lastTimestamp: int

    /** Worker ids above 1023 are rejected by a panic. */
    constructor (workerId: nat)
      requires workerId <= MAX_WORKER_ID
      ensures this.workerId == workerId && Value() == FRESH
    {
      this.workerId := workerId;
      sequence, lastTimestamp := 0, 0;
    }

    ghost function Value(): Counters
      reads this
    {
      Counters(lastTimestamp, sequence)
    }

    /** `generate`, fed with the clock readings it would see; None if they run out first. */
    method Generate(readings: seq<int>) returns (id: Option<int>, used: nat)
      modifies this
      ensures var r := Solo(old(Value()), Looping, readings);
              && Value() == r.counters
              && used == r.used
              && id == (if r.stamp.Some? then Some(IdOf(r.stamp.value, workerId)) else None)
      ensures TakesLastReading(old(Value()), Value(), workerId, readings, id, used)
    {
      hide ComposeId;
      SoloTakesTheLastId(Value(), workerId, readings);
      hide TakesLastReading;
      ghost var whole := Solo(Value(), Looping, readings);
      used := 0;
      while used < |readings|
        invariant used <= |readings|
        invariant Resumes(whole, Looping, readings, used)
      {
        var lastTs, currentTs := lastTimestamp, readings[used];
        used := used + 1;
        if currentTs < lastTs {
          while used < |readings| && readings[used] < lastTs
            invariant used <= |readings|
            invariant lastTs == lastTimestamp
            invariant Resumes(whole, AwaitAtLeast(lastTs), readings, used)
          {
            used := used + 1;
          }
          if used < |readings| { used := used + 1; }
        } else if currentTs == lastTs {
          var seqNo := sequence;
          sequence := sequence + 1;
          if seqNo < MAX_SEQUENCE {
            return Some(ComposeId(currentTs, workerId, seqNo)), used;
          }
          while used < |readings| && readings[used] <= currentTs
            invariant used <= |readings|
            invariant Resumes(whole, AwaitPast(currentTs), readings, used)
          {
            used := used + 1;
          }
          if used < |readings| { used := used + 1; }
        } else {
          lastTimestamp := currentTs;
          sequence := 0;
          var seqNo := sequence;
          sequence := sequence + 1;
          return Some(ComposeId(currentTs, workerId, seqNo)), used;
        }
      }
      id := None;
    }

    /** The call as a whole equals what is left of it after `used` readings. */
    ghost predicate Resumes(whole: Outcome, phase: Phase, readings: seq<int>, used: nat)
      requires used <= |readings|
      reads this
    {
      var rest := Solo(Value(), phase, readings[used..]);
      whole == rest.(used := rest.used + used)
    }
  }
}
