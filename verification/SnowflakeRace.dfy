/**
 The same generator with every atomic instruction a step of its own: the load,
 the clock read, the same-millisecond `fetch_add`, the CAS, the store and the
 winner's `fetch_add` can each be separated by other threads' instructions.
 The uniqueness of SnowflakeGenerator does not survive this; the module shows a
 failing run and that every failing run contains a stale instruction.
 */
module SnowflakeRace {
  import opened MachineWords
  import opened Options
  import opened SnowflakeId
  import opened SnowflakeGenerator

  datatype Pc =
    | Head
    | Loaded(last: int)
    | ReadClock(last: int, now: int)
    | WonCas(now: int)
    | Stored(now: int)

  datatype Fine = Fine(counters: Counters, pcs: map<nat, Pc>, issued: seq<Stamp>)

  /** One instruction of one thread; `now` matters only to the clock read. */
  datatype Instr = Instr(thread: nat, now: int)

  function PcOf(f: Fine, thread: nat): Pc {
    if thread in f.pcs then f.pcs[thread] else Head
  }

  function Exec(f: Fine, e: Instr): Fine {
    var t, c := e.thread, f.counters;
    match PcOf(f, t)
    case Head => f.(pcs := f.pcs[t := Loaded(c.lastTimestamp)])
    case Loaded(last) => f.(pcs := f.pcs[t := ReadClock(last, e.now)])
    case ReadClock(last, now) =>
      if now < last then
        f.(pcs := f.pcs[t := Head])
      else if now == last then
        Fine(c.(sequence := c.sequence + 1), f.pcs[t := Head],
             Issue(f.issued, if c.sequence < MAX_SEQUENCE then Some(Stamp(now, c.sequence)) else None))
      else if c.lastTimestamp == last then
        Fine(c.(lastTimestamp := now), f.pcs[t := WonCas(now)], f.issued)
      else
        f.(pcs := f.pcs[t := Head])
    case WonCas(now) => Fine(c.(sequence := 0), f.pcs[t := Stored(now)], f.issued)
    case Stored(now) =>
      Fine(c.(sequence := c.sequence + 1), f.pcs[t := Head], f.issued + [Stamp(now, c.sequence)])
  }

  function ExecAll(f: Fine, run: seq<Instr>): Fine
    decreases |run|
  {
    if run == [] then f else ExecAll(Exec(f, run[0]), run[1..])
  }

  const IDLE := Fine(FRESH, map[], [])

  /** The next `n` instructions of one thread, with the clock at `now`. */
  function Alone(thread: nat, now: int, n: nat): seq<Instr> {
    if n == 0 then [] else [Instr(thread, now)] + Alone(thread, now, n - 1)
  }

  lemma {:induction false} ExecInTwoParts(f: Fine, first: seq<Instr>, second: seq<Instr>)
    ensures ExecAll(f, first + second) == ExecAll(ExecAll(f, first), second)
    decreases |first|
  {
    if first == [] {
      assert first + second == second;
    } else {
      ExecInTwoParts(Exec(f, first[0]), first[1..], second);
      assert (first + second)[1..] == first[1..] + second;
    }
  }

  lemma AloneUnrolls(f: Fine, thread: nat, now: int, n: nat)
    requires n > 0
    ensures ExecAll(f, Alone(thread, now, n)) == ExecAll(Exec(f, Instr(thread, now)), Alone(thread, now, n - 1))
  {
    assert Alone(thread, now, n)[1..] == Alone(thread, now, n - 1);
  }

  /**
   Refinement: a thread at the loop head that is not interrupted performs in three
   or five instructions exactly one atomic turn, and is back at the loop head.
   */
  lemma UninterruptedIsOneTurn(f: Fine, thread: nat, now: int)
    requires PcOf(f, thread) == Head
    ensures var n := if now > f.counters.lastTimestamp then 5 else 3;
            var (c, stamp) := Turn(f.counters, now);
            var f' := ExecAll(f, Alone(thread, now, n));
            && f'.counters == c
            && f'.issued == Issue(f.issued, stamp)
            && PcOf(f', thread) == Head
            && forall t :: t != thread ==> PcOf(f', t) == PcOf(f, t)
  {
    var e := Instr(thread, now);
    var f1 := Exec(f, e);
    var f2 := Exec(f1, e);
    var f3 := Exec(f2, e);
    if now > f.counters.lastTimestamp {
      var f4 := Exec(f3, e);
      AloneUnrolls(f, thread, now, 5);
      AloneUnrolls(f1, thread, now, 4);
      AloneUnrolls(f2, thread, now, 3);
      AloneUnrolls(f3, thread, now, 2);
      AloneUnrolls(f4, thread, now, 1);
    } else {
      AloneUnrolls(f, thread, now, 3);
      AloneUnrolls(f1, thread, now, 2);
      AloneUnrolls(f2, thread, now, 1);
    }
  }

  ghost predicate Distinct(issued: seq<Stamp>) {
    forall i, j :: 0 <= i < j < |issued| ==> issued[i] != issued[j]
  }

  // ------------------------------------------------------- stale instructions

  /** The ways in which an instruction on `sequence` can come at the wrong time. */
  datatype StaleKind =
    | ReadOvertaken      // a same-millisecond fetch_add after the millisecond has passed
    | ReadDuringReset    // one between the winner's CAS and its store
    | ResetOvertaken     // a winner's store after the next winner's CAS
    | ClaimOvertaken     // a winner's fetch_add after the next winner's CAS
    | ClaimOverrun       // a winner's fetch_add, which has no guard, after all numbers are taken

  ghost function StaleKindOf(f: Fine, e: Instr): Option<StaleKind> {
    match PcOf(f, e.thread)
    case ReadClock(last, now) =>
      if now != last then None
      else if f.counters.lastTimestamp != now then Some(ReadOvertaken)
      else if ResetPendingAt(f, now) then Some(ReadDuringReset)
      else None
    case WonCas(now) => if f.counters.lastTimestamp != now then Some(ResetOvertaken) else None
    case Stored(now) =>
      if f.counters.lastTimestamp != now then Some(ClaimOvertaken)
      else if f.counters.sequence > MAX_SEQUENCE then Some(ClaimOverrun)
      else None
    case _ => None
  }

  ghost predicate ResetPendingAt(f: Fine, now: int) {
    exists t :: PcOf(f, t) == WonCas(now)
  }

  ghost predicate Stale(f: Fine, e: Instr) {
    StaleKindOf(f, e).Some?
  }

  /** Every stale instruction of the run is of an allowed kind. */
  ghost predicate StaleOnlyAs(f: Fine, run: seq<Instr>, kinds: set<StaleKind>)
    decreases |run|
  {
    run == []
    || ((Stale(f, run[0]) ==> StaleKindOf(f, run[0]).value in kinds) && StaleOnlyAs(Exec(f, run[0]), run[1..], kinds))
  }

  ghost predicate SomeStale(f: Fine, run: seq<Instr>)
    decreases |run|
  {
    run != [] && (Stale(f, run[0]) || SomeStale(Exec(f, run[0]), run[1..]))
  }

  predicate Winner(pc: Pc) {
    pc.WonCas? || pc.Stored?
  }

  ghost predicate ResetPending(f: Fine) {
    ResetPendingAt(f, f.counters.lastTimestamp)
  }

  ghost predicate FineInv(f: Fine) {
    && Distinct(f.issued)
    && (forall a :: a in f.issued ==> a.sequence <= MAX_SEQUENCE)
    && (forall a :: a in f.issued ==> a.timestamp <= f.counters.lastTimestamp)
    && (forall a :: a in f.issued && a.timestamp == f.counters.lastTimestamp ==>
          !ResetPending(f) && a.sequence < f.counters.sequence)
    && (forall t :: Winner(PcOf(f, t)) ==> PcOf(f, t).now <= f.counters.lastTimestamp)
    && (forall t, u :: Winner(PcOf(f, t)) && Winner(PcOf(f, u)) && PcOf(f, t).now == PcOf(f, u).now ==> t == u)
  }

  lemma FineStepKeepsInv(f: Fine, e: Instr)
    requires FineInv(f) && !Stale(f, e)
    ensures FineInv(Exec(f, e))
  {
    if PcOf(f, e.thread).ReadClock? {
      ReadKeepsInv(f, e);
    } else if PcOf(f, e.thread).Stored? {
      ClaimKeepsInv(f, e);
    } else {
      OtherKeepsInv(f, e);
    }
    hide *;
  }

  lemma ReadKeepsInv(f: Fine, e: Instr)
    requires FineInv(f) && !Stale(f, e) && PcOf(f, e.thread).ReadClock?
    ensures FineInv(Exec(f, e))
  {
    var f', pc := Exec(f, e), PcOf(f, e.thread);
    assert forall t :: t != e.thread ==> PcOf(f', t) == PcOf(f, t);
    if pc.now == pc.last && f.counters.sequence < MAX_SEQUENCE {
      assert !ResetPending(f);
      AppendDistinct(f.issued, Stamp(pc.now, f.counters.sequence));
    }
  }

  lemma ClaimKeepsInv(f: Fine, e: Instr)
    requires FineInv(f) && !Stale(f, e) && PcOf(f, e.thread).Stored?
    ensures FineInv(Exec(f, e))
  {
    var f', pc := Exec(f, e), PcOf(f, e.thread);
    assert forall t :: t != e.thread ==> PcOf(f', t) == PcOf(f, t);
    AppendDistinct(f.issued, Stamp(pc.now, f.counters.sequence));
  }

  lemma OtherKeepsInv(f: Fine, e: Instr)
    requires FineInv(f) && !Stale(f, e) && !PcOf(f, e.thread).ReadClock? && !PcOf(f, e.thread).Stored?
    ensures FineInv(Exec(f, e))
  {
    var f' := Exec(f, e);
    assert forall t :: t != e.thread ==> PcOf(f', t) == PcOf(f, t);
  }

  lemma AppendDistinct(issued: seq<Stamp>, a: Stamp)
    requires Distinct(issued) && a !in issued
    ensures Distinct(issued + [a])
  {
  }

  lemma {:induction false} NoStaleNoDuplicate(f: Fine, run: seq<Instr>)
    requires FineInv(f) && !SomeStale(f, run)
    ensures FineInv(ExecAll(f, run))
    decreases |run|
  {
    if run != [] {
      FineStepKeepsInv(f, run[0]);
      NoStaleNoDuplicate(Exec(f, run[0]), run[1..]);
    }
  }

  // -------------------------------------------------------------------- ids

  predicate ReadingsInRange(run: seq<Instr>) {
    forall e :: e in run ==> Representable(e.now)
  }

  predicate DecodesTo(id: int, workerId: nat) {
    id >= 0 && BitAnd(ShiftRight(id, WORKER_ID_SHIFT), MAX_WORKER_ID) == workerId
  }

  /** The ids a worker returns are pairwise different, and each carries its worker id. */
  ghost predicate IdsSound(issued: seq<Stamp>, workerId: nat) {
    && (forall i, j :: 0 <= i < j < |issued| ==> IdOf(issued[i], workerId) != IdOf(issued[j], workerId))
    && (forall i :: 0 <= i < |issued| ==> DecodesTo(IdOf(issued[i], workerId), workerId))
  }

  /** Every time a thread works with is a reading of the run. */
  ghost predicate TimesInRange(f: Fine) {
    && (forall a :: a in f.issued ==> Representable(a.timestamp))
    && (forall t :: PcOf(f, t).ReadClock? || Winner(PcOf(f, t)) ==> Representable(PcOf(f, t).now))
  }

  lemma StepKeepsTimes(f: Fine, e: Instr)
    requires TimesInRange(f) && Representable(e.now)
    ensures TimesInRange(Exec(f, e))
  {
    var f' := Exec(f, e);
    assert forall t :: t != e.thread ==> PcOf(f', t) == PcOf(f, t);
  }

  lemma {:induction false} RunKeepsTimes(f: Fine, run: seq<Instr>)
    requires TimesInRange(f) && ReadingsInRange(run)
    ensures TimesInRange(ExecAll(f, run))
    decreases |run|
  {
    if run != [] {
      assert run[0] in run;
      StepKeepsTimes(f, run[0]);
      RunKeepsTimes(Exec(f, run[0]), run[1..]);
    }
  }

  lemma SoundStamps(issued: seq<Stamp>, workerId: nat)
    requires workerId <= MAX_WORKER_ID && Distinct(issued)
    requires forall a :: a in issued ==> Representable(a.timestamp) && a.sequence <= MAX_SEQUENCE
    ensures IdsSound(issued, workerId)
  {
    forall i | 0 <= i < |issued| ensures DecodesTo(IdOf(issued[i], workerId), workerId) {
      assert issued[i] in issued;
      FieldsRecoverable(issued[i].timestamp, workerId, issued[i].sequence);
    }
    forall i, j | 0 <= i < j < |issued| ensures IdOf(issued[i], workerId) != IdOf(issued[j], workerId) {
      assert issued[i] in issued && issued[j] in issued;
      OrderIsLexicographic(issued[i].timestamp, workerId, issued[i].sequence,
                           issued[j].timestamp, workerId, issued[j].sequence);
    }
  }

  /** In any interleaving of instructions, a repeated id, or one of another worker, is the work of a stale one. */
  lemma DuplicateNeedsStaleInstruction(run: seq<Instr>, workerId: nat)
    requires workerId <= MAX_WORKER_ID && ReadingsInRange(run)
    requires !IdsSound(ExecAll(IDLE, run).issued, workerId)
    ensures SomeStale(IDLE, run)
  {
    if !SomeStale(IDLE, run) {
      NoStaleNoDuplicate(IDLE, run);
      RunKeepsTimes(IDLE, run);
      SoundStamps(ExecAll(IDLE, run).issued, workerId);
    }
  }

  // ------------------------------------------ each kind alone repeats an id

  /** Uninterrupted from the loop head, a thread is stale only if it joins a millisecond whose reset is pending. */
  lemma AloneIsNotStale(f: Fine, thread: nat, now: int, rest: seq<Instr>, kinds: set<StaleKind>)
    requires PcOf(f, thread) == Head
    requires now == f.counters.lastTimestamp ==> !ResetPendingAt(f, now)
    ensures var run := Alone(thread, now, if now > f.counters.lastTimestamp then 5 else 3);
            StaleOnlyAs(f, run + rest, kinds) <==> StaleOnlyAs(ExecAll(f, run), rest, kinds)
  {
    hide *;
    NotStaleAtTheClock(f, thread, now);
    if now > f.counters.lastTimestamp {
      NotStaleAfterCas(f, thread, now);
      var e := Instr(thread, now);
      ThreeMoreFresh(f, thread, now, 5, rest, kinds);
      var f3 := Exec(Exec(Exec(f, e), e), e);
      OneMoreFresh(f3, thread, now, 2, rest, kinds);
      OneMoreFresh(Exec(f3, e), thread, now, 1, rest, kinds);
    } else {
      ThreeMoreFresh(f, thread, now, 3, rest, kinds);
    }
    NoMore(thread, now, rest);
  }

  lemma NoMore(thread: nat, now: int, rest: seq<Instr>)
    ensures Alone(thread, now, 0) + rest == rest
    ensures forall f :: ExecAll(f, Alone(thread, now, 0)) == f
  {
    assert [] + rest == rest;
  }

  lemma OneMoreFresh(f: Fine, thread: nat, now: int, n: nat, rest: seq<Instr>, kinds: set<StaleKind>)
    requires n > 0 && !Stale(f, Instr(thread, now))
    ensures var e := Instr(thread, now);
            && ExecAll(f, Alone(thread, now, n)) == ExecAll(Exec(f, e), Alone(thread, now, n - 1))
            && (StaleOnlyAs(f, Alone(thread, now, n) + rest, kinds) <==>
                  StaleOnlyAs(Exec(f, e), Alone(thread, now, n - 1) + rest, kinds))
  {
    hide *;
    OneMore(f, thread, now, n, rest, kinds);
  }

  lemma ThreeMoreFresh(f: Fine, thread: nat, now: int, n: nat, rest: seq<Instr>, kinds: set<StaleKind>)
    requires n >= 3
    requires var e := Instr(thread, now); !Stale(f, e) && !Stale(Exec(f, e), e) && !Stale(Exec(Exec(f, e), e), e)
    ensures var e := Instr(thread, now);
            var f3 := Exec(Exec(Exec(f, e), e), e);
            && ExecAll(f, Alone(thread, now, n)) == ExecAll(f3, Alone(thread, now, n - 3))
            && (StaleOnlyAs(f, Alone(thread, now, n) + rest, kinds) <==>
                  StaleOnlyAs(f3, Alone(thread, now, n - 3) + rest, kinds))
  {
    hide *;
    var e := Instr(thread, now);
    OneMoreFresh(f, thread, now, n, rest, kinds);
    OneMoreFresh(Exec(f, e), thread, now, n - 1, rest, kinds);
    OneMoreFresh(Exec(Exec(f, e), e), thread, now, n - 2, rest, kinds);
  }

  lemma NotStaleAtTheClock(f: Fine, thread: nat, now: int)
    requires PcOf(f, thread) == Head
    requires now == f.counters.lastTimestamp ==> !ResetPendingAt(f, now)
    ensures var e := Instr(thread, now); !Stale(f, e) && !Stale(Exec(f, e), e) && !Stale(Exec(Exec(f, e), e), e)
  {
    var e := Instr(thread, now);
    var f2 := Exec(Exec(f, e), e);
    assert forall t :: PcOf(f2, t) == WonCas(now) ==> PcOf(f, t) == WonCas(now);
  }

  lemma NotStaleAfterCas(f: Fine, thread: nat, now: int)
    requires PcOf(f, thread) == Head && now > f.counters.lastTimestamp
    ensures var e := Instr(thread, now);
            var f3 := Exec(Exec(Exec(f, e), e), e);
            !Stale(f3, e) && !Stale(Exec(f3, e), e)
  {
  }

  lemma OneMore(f: Fine, thread: nat, now: int, n: nat, rest: seq<Instr>, kinds: set<StaleKind>)
    requires n > 0
    ensures var e := Instr(thread, now);
            && ExecAll(f, Alone(thread, now, n)) == ExecAll(Exec(f, e), Alone(thread, now, n - 1))
            && (StaleOnlyAs(f, Alone(thread, now, n) + rest, kinds) <==>
                  (Stale(f, e) ==> StaleKindOf(f, e).value in kinds)
                  && StaleOnlyAs(Exec(f, e), Alone(thread, now, n - 1) + rest, kinds))
  {
    AloneUnrolls(f, thread, now, n);
    assert (Alone(thread, now, n) + rest)[1..] == Alone(thread, now, n - 1) + rest;
    hide Exec;
    hide StaleKindOf;
  }

  /** The part of a state that the witness runs, with threads 0 and 1, depend on. */
  ghost predicate Shows(f: Fine, timestamp: int, sequence: nat, issued: seq<Stamp>, pc0: Pc, pc1: Pc) {
    && f.counters == Counters(timestamp, sequence)
    && f.issued == issued
    && PcOf(f, 0) == pc0 && PcOf(f, 1) == pc1
    && forall t :: t > 1 ==> PcOf(f, t) == Head
  }

  /** One whole turn of thread 0 or 1, none of it stale. */
  lemma TurnOf(f: Fine, thread: nat, now: int, rest: seq<Instr>, kinds: set<StaleKind>) returns (g: Fine)
    requires thread <= 1 && PcOf(f, thread) == Head
    requires now == f.counters.lastTimestamp ==> !ResetPendingAt(f, now)
    ensures var run := Alone(thread, now, if now > f.counters.lastTimestamp then 5 else 3);
            && (StaleOnlyAs(f, run + rest, kinds) <==> StaleOnlyAs(g, rest, kinds))
            && ExecAll(f, run + rest) == ExecAll(g, rest)
    ensures var (c, stamp) := Turn(f.counters, now);
            g.counters == c && g.issued == Issue(f.issued, stamp) && forall t :: PcOf(g, t) == PcOf(f, t)
  {
    var n := if now > f.counters.lastTimestamp then 5 else 3;
    g := ExecAll(f, Alone(thread, now, n));
    UninterruptedIsOneTurn(f, thread, now);
    AloneIsNotStale(f, thread, now, rest, kinds);
    ExecInTwoParts(f, Alone(thread, now, n), rest);
  }

  /** One instruction, whose staleness is allowed. */
  lemma StepOf(f: Fine, thread: nat, now: int, n: nat, rest: seq<Instr>, kinds: set<StaleKind>) returns (g: Fine)
    requires n > 0 && thread <= 1
    requires Stale(f, Instr(thread, now)) ==> StaleKindOf(f, Instr(thread, now)).value in kinds
    ensures StaleOnlyAs(f, Alone(thread, now, n) + rest, kinds) <==> StaleOnlyAs(g, Alone(thread, now, n - 1) + rest, kinds)
    ensures ExecAll(f, Alone(thread, now, n) + rest) == ExecAll(g, Alone(thread, now, n - 1) + rest)
    ensures g == Exec(f, Instr(thread, now)) && forall t :: t != thread ==> PcOf(g, t) == PcOf(f, t)
  {
    g := Exec(f, Instr(thread, now));
    OneMore(f, thread, now, n, rest, kinds);
    ExecInTwoParts(f, Alone(thread, now, n), rest);
    ExecInTwoParts(g, Alone(thread, now, n - 1), rest);
  }

  /** A winner's first three instructions: load, clock read, CAS. */
  lemma CasOf(f: Fine, thread: nat, now: int, rest: seq<Instr>, kinds: set<StaleKind>) returns (g: Fine)
    requires thread <= 1 && PcOf(f, thread) == Head && now > f.counters.lastTimestamp
    ensures StaleOnlyAs(f, Alone(thread, now, 3) + rest, kinds) <==> StaleOnlyAs(g, rest, kinds)
    ensures ExecAll(f, Alone(thread, now, 3) + rest) == ExecAll(g, rest)
    ensures g.counters == f.counters.(lastTimestamp := now) && g.issued == f.issued && PcOf(g, thread) == WonCas(now)
    ensures forall t :: t != thread ==> PcOf(g, t) == PcOf(f, t)
  {
    var f1 := StepOf(f, thread, now, 3, rest, kinds);
    var f2 := StepOf(f1, thread, now, 2, rest, kinds);
    g := StepOf(f2, thread, now, 1, rest, kinds);
    assert [] + rest == rest;
  }

  /** The last instruction of a stretch. */
  lemma LastOf(f: Fine, thread: nat, now: int, rest: seq<Instr>, kinds: set<StaleKind>) returns (g: Fine)
    requires thread <= 1
    requires Stale(f, Instr(thread, now)) ==> StaleKindOf(f, Instr(thread, now)).value in kinds
    ensures StaleOnlyAs(f, Alone(thread, now, 1) + rest, kinds) <==> StaleOnlyAs(g, rest, kinds)
    ensures ExecAll(f, Alone(thread, now, 1) + rest) == ExecAll(g, rest)
    ensures g == Exec(f, Instr(thread, now)) && forall t :: t != thread ==> PcOf(g, t) == PcOf(f, t)
  {
    g := StepOf(f, thread, now, 1, rest, kinds);
    assert [] + rest == rest;
  }

  /** What each witness run shows. */
  ghost predicate RepeatsWith(run: seq<Instr>, kind: StaleKind) {
    StaleOnlyAs(IDLE, run, {kind}) && !Distinct(ExecAll(IDLE, run).issued)
  }

  function ReadOvertakenRun(t: int): seq<Instr> {
    Alone(0, t, 5) + (Alone(0, t, 3) + (Alone(1, t, 2) + (Alone(0, t + 1, 5) + (Alone(1, t + 1, 1) + []))))
  }

  /**
   Thread 0 issues (t,0) and (t,1); thread 1 then reads the clock in the same
   millisecond and pauses; thread 0 moves to t+1 and issues (t+1,0); thread 1's
   `fetch_add` yields sequence 1 and issues (t,1) again.
   */
  lemma StaleFetchAddDuplicates(t: int)
    requires t > 0
    ensures ExecAll(IDLE, ReadOvertakenRun(t)).issued == [Stamp(t, 0), Stamp(t, 1), Stamp(t + 1, 0), Stamp(t, 1)]
    ensures RepeatsWith(ReadOvertakenRun(t), ReadOvertaken)
  {
    var k := {ReadOvertaken};
    var r4 := Alone(1, t + 1, 1) + [];
    var r3 := Alone(0, t + 1, 5) + r4;
    var f4 := TwoTurnsAndARead(t, r3, k);
    var f5 := TurnOf(f4, 0, t + 1, r4, k);
    var f6 := LastOf(f5, 1, t + 1, [], k);
    assert f6.issued[1] == f6.issued[3];
  }

  lemma TwoTurnsAndARead(t: int, rest: seq<Instr>, kinds: set<StaleKind>) returns (g: Fine)
    requires t > 0
    ensures Shows(g, t, 2, [Stamp(t, 0), Stamp(t, 1)], Head, ReadClock(t, t))
    ensures var run := Alone(0, t, 5) + (Alone(0, t, 3) + (Alone(1, t, 2) + rest));
            && (StaleOnlyAs(IDLE, run, kinds) <==> StaleOnlyAs(g, rest, kinds))
            && ExecAll(IDLE, run) == ExecAll(g, rest)
  {
    var r2 := Alone(1, t, 2) + rest;
    var f1 := TurnOf(IDLE, 0, t, Alone(0, t, 3) + r2, kinds);
    var f2 := TurnOf(f1, 0, t, r2, kinds);
    hide StaleOnlyAs;
    hide ExecAll;
    hide Alone;
    var f3 := StepOf(f2, 1, t, 2, rest, kinds);
    g := LastOf(f3, 1, t, rest, kinds);
  }

  function ReadDuringResetRun(t: int): seq<Instr> {
    Alone(0, t, 5) + (Alone(0, t + 1, 3) + (Alone(1, t + 1, 3) + (Alone(0, t + 1, 2) + (Alone(1, t + 1, 3) + []))))
  }

  /**
   Thread 0 issues (t,0) and wins t+1; before its store, thread 1's `fetch_add` still
   finds 1 and issues (t+1,1); after the reset that pair is issued again.
   */
  lemma FetchAddBeforeResetDuplicates(t: int)
    requires t > 0
    ensures ExecAll(IDLE, ReadDuringResetRun(t)).issued == [Stamp(t, 0), Stamp(t + 1, 1), Stamp(t + 1, 0), Stamp(t + 1, 1)]
    ensures RepeatsWith(ReadDuringResetRun(t), ReadDuringReset)
  {
    var k := {ReadDuringReset};
    var r4 := Alone(1, t + 1, 3) + [];
    var r3 := Alone(0, t + 1, 2) + r4;
    var r2 := Alone(1, t + 1, 3) + r3;
    var f2 := TurnAndCas(t, r2, k);
    hide StaleOnlyAs;
    hide ExecAll;
    hide Alone;
    hide Exec;
    var f5 := JoinBeforeReset(f2, t + 1, [Stamp(t, 0)], r3);
    var f7 := FinishWin(f5, t + 1, [Stamp(t, 0), Stamp(t + 1, 1)], r4, k);
    var f8 := TurnOf(f7, 1, t + 1, [], k);
    assert f8.issued[1] == f8.issued[3];
  }

  lemma TurnAndCas(t: int, rest: seq<Instr>, kinds: set<StaleKind>) returns (g: Fine)
    requires t > 0
    ensures Shows(g, t + 1, 1, [Stamp(t, 0)], WonCas(t + 1), Head)
    ensures var run := Alone(0, t, 5) + (Alone(0, t + 1, 3) + rest);
            && (StaleOnlyAs(IDLE, run, kinds) <==> StaleOnlyAs(g, rest, kinds))
            && ExecAll(IDLE, run) == ExecAll(g, rest)
  {
    var f1 := TurnOf(IDLE, 0, t, Alone(0, t + 1, 3) + rest, kinds);
    hide StaleOnlyAs;
    hide ExecAll;
    hide Alone;
    hide Exec;
    g := CasOf(f1, 0, t + 1, rest, kinds);
  }

  /** Thread 1 joins a millisecond that thread 0 has won but not yet reset. */
  lemma JoinBeforeReset(f: Fine, now: int, issued: seq<Stamp>, rest: seq<Instr>) returns (g: Fine)
    requires Shows(f, now, 1, issued, WonCas(now), Head)
    ensures Shows(g, now, 2, issued + [Stamp(now, 1)], WonCas(now), Head)
    ensures StaleOnlyAs(f, Alone(1, now, 3) + rest, {ReadDuringReset}) <==> StaleOnlyAs(g, rest, {ReadDuringReset})
    ensures ExecAll(f, Alone(1, now, 3) + rest) == ExecAll(g, rest)
  {
    var k := {ReadDuringReset};
    var f1 := StepOf(f, 1, now, 3, rest, k);
    var f2 := StepOf(f1, 1, now, 2, rest, k);
    assert PcOf(f2, 0) == WonCas(now) && PcOf(f2, 1) == ReadClock(now, now);
    g := LastOf(f2, 1, now, rest, k);
  }

  /** Thread 0 resets the millisecond it won and claims sequence 0. */
  lemma FinishWin(f: Fine, now: int, issued: seq<Stamp>, rest: seq<Instr>, kinds: set<StaleKind>) returns (g: Fine)
    requires Shows(f, now, 2, issued, WonCas(now), Head)
    ensures Shows(g, now, 1, issued + [Stamp(now, 0)], Head, Head)
    ensures StaleOnlyAs(f, Alone(0, now, 2) + rest, kinds) <==> StaleOnlyAs(g, rest, kinds)
    ensures ExecAll(f, Alone(0, now, 2) + rest) == ExecAll(g, rest)
  {
    var f1 := StepOf(f, 0, now, 2, rest, kinds);
    g := LastOf(f1, 0, now, rest, kinds);
  }

  function ResetOvertakenRun(t: int): seq<Instr> {
    Alone(0, t, 3) + (Alone(1, t + 1, 5) + (Alone(0, t, 1) + (Alone(1, t + 1, 3) + [])))
  }

  /** The winner of t pauses before its store; the winner of t+1 issues (t+1,0); the late store resets its counter. */
  lemma LateResetDuplicates(t: int)
    requires t > 0
    ensures ExecAll(IDLE, ResetOvertakenRun(t)).issued == [Stamp(t + 1, 0), Stamp(t + 1, 0)]
    ensures RepeatsWith(ResetOvertakenRun(t), ResetOvertaken)
  {
    var k := {ResetOvertaken};
    var r3 := Alone(1, t + 1, 3) + [];
    var r2 := Alone(0, t, 1) + r3;
    var r1 := Alone(1, t + 1, 5) + r2;
    var f1 := CasOf(IDLE, 0, t, r1, k);
    var f2 := TurnOf(f1, 1, t + 1, r2, k);
    assert Shows(f2, t + 1, 1, [Stamp(t + 1, 0)], WonCas(t), Head);
    var f3 := LastOf(f2, 0, t, r3, k);
    assert Shows(f3, t + 1, 0, [Stamp(t + 1, 0)], Stored(t), Head);
    var f4 := TurnOf(f3, 1, t + 1, [], k);
    assert f4.issued[0] == f4.issued[1];
  }

  function ClaimOvertakenRun(t: int): seq<Instr> {
    Alone(0, t, 3) + (Alone(0, t, 1) + (Alone(1, t, 3) + (Alone(1, t, 3) + (Alone(1, t + 1, 5) + (Alone(0, t, 1) + [])))))
  }

  /** The winner of t pauses after its store; thread 1 issues (t,0), (t,1) and (t+1,0); the late `fetch_add` issues (t,1). */
  lemma LateClaimDuplicates(t: int)
    requires t > 0
    ensures ExecAll(IDLE, ClaimOvertakenRun(t)).issued == [Stamp(t, 0), Stamp(t, 1), Stamp(t + 1, 0), Stamp(t, 1)]
    ensures RepeatsWith(ClaimOvertakenRun(t), ClaimOvertaken)
  {
    var k := {ClaimOvertaken};
    var r5 := Alone(0, t, 1) + [];
    var r4 := Alone(1, t + 1, 5) + r5;
    var r3 := Alone(1, t, 3) + r4;
    var r2 := Alone(1, t, 3) + r3;
    var r1 := Alone(0, t, 1) + r2;
    var f1 := CasOf(IDLE, 0, t, r1, k);
    var f2 := LastOf(f1, 0, t, r2, k);
    assert Shows(f2, t, 0, [], Stored(t), Head);
    var f3 := TurnOf(f2, 1, t, r3, k);
    var f4 := TurnOf(f3, 1, t, r4, k);
    assert Shows(f4, t, 2, [Stamp(t, 0), Stamp(t, 1)], Stored(t), Head);
    var f5 := TurnOf(f4, 1, t + 1, r5, k);
    assert Shows(f5, t + 1, 1, [Stamp(t, 0), Stamp(t, 1), Stamp(t + 1, 0)], Stored(t), Head);
    var f6 := LastOf(f5, 0, t, [], k);
    assert f6.issued[1] == f6.issued[3];
  }

  lemma {:induction false} FewerKindsToo(f: Fine, run: seq<Instr>, fewer: set<StaleKind>, kinds: set<StaleKind>)
    requires StaleOnlyAs(f, run, fewer) && fewer <= kinds
    ensures StaleOnlyAs(f, run, kinds)
    decreases |run|
  {
    if run != [] {
      FewerKindsToo(Exec(f, run[0]), run[1..], fewer, kinds);
    }
  }

  lemma {:induction false} NoKindNoStale(f: Fine, run: seq<Instr>)
    requires StaleOnlyAs(f, run, {})
    ensures !SomeStale(f, run)
    decreases |run|
  {
    if run != [] {
      NoKindNoStale(Exec(f, run[0]), run[1..]);
    }
  }

  // ------------------------------------------------- the winner's missing guard

  /** `n` turns of one thread within the current millisecond. */
  function Turns(thread: nat, now: int, n: nat, rest: seq<Instr>): seq<Instr> {
    if n == 0 then rest else Alone(thread, now, 3) + Turns(thread, now, n - 1, rest)
  }

  lemma {:induction false} TurnsCountUp(f: Fine, n: nat, rest: seq<Instr>, kinds: set<StaleKind>) returns (g: Fine)
    requires PcOf(f, 1) == Head && !ResetPendingAt(f, f.counters.lastTimestamp)
    ensures var run := Turns(1, f.counters.lastTimestamp, n, rest);
            && (StaleOnlyAs(f, run, kinds) <==> StaleOnlyAs(g, rest, kinds))
            && ExecAll(f, run) == ExecAll(g, rest)
    ensures g.counters == f.counters.(sequence := f.counters.sequence + n)
    ensures forall t :: PcOf(g, t) == PcOf(f, t)
    ensures forall a :: a in f.issued ==> a in g.issued
    ensures n > 0 && f.counters.sequence == 0 ==> Stamp(f.counters.lastTimestamp, 0) in g.issued
    decreases n
  {
    var now := f.counters.lastTimestamp;
    if n == 0 {
      g := f;
    } else {
      var next := TurnOf(f, 1, now, Turns(1, now, n - 1, rest), kinds);
      SamePcsSamePending(f, next, now);
      assert forall a :: a in f.issued ==> a in next.issued;
      assert f.counters.sequence == 0 ==> next.issued[|f.issued|] == Stamp(now, 0);
      hide StaleOnlyAs;
      hide ExecAll;
      hide PcOf;
      g := TurnsCountUp(next, n - 1, rest, kinds);
    }
  }

  lemma SamePcsSamePending(f: Fine, g: Fine, now: int)
    requires forall t :: PcOf(g, t) == PcOf(f, t)
    ensures ResetPendingAt(g, now) <==> ResetPendingAt(f, now)
  {
    if t :| PcOf(g, t) == WonCas(now) { assert PcOf(f, t) == WonCas(now); }
    if t :| PcOf(f, t) == WonCas(now) { assert PcOf(g, t) == WonCas(now); }
  }

  function ClaimOverrunRun(t: int): seq<Instr> {
    Alone(0, t, 3) + (Alone(0, t, 1) + Turns(1, t, 4096, Alone(0, t, 1) + []))
  }

  /**
   The winner of t pauses after its store while thread 1 makes 4096 turns, the last one
   refused; the winner's `fetch_add` then yields 4096, which runs into the worker bits.
   */
  lemma UnguardedClaimOverruns(t: int)
    requires t > 0
    ensures StaleOnlyAs(IDLE, ClaimOverrunRun(t), {ClaimOverrun})
    ensures var issued := ExecAll(IDLE, ClaimOverrunRun(t)).issued;
            issued != [] && issued[|issued| - 1] == Stamp(t, 4096) && Stamp(t, 0) in issued[..|issued| - 1]
  {
    var k := {ClaimOverrun};
    var r3 := Alone(0, t, 1) + [];
    var r2 := Turns(1, t, 4096, r3);
    var r1 := Alone(0, t, 1) + r2;
    var f1 := CasOf(IDLE, 0, t, r1, k);
    var f2 := LastOf(f1, 0, t, r2, k);
    assert Shows(f2, t, 0, [], Stored(t), Head);
    hide Turns;
    assert !ResetPendingAt(f2, t);
    var f3 := TurnsCountUp(f2, 4096, r3, k);
    assert PcOf(f3, 0) == PcOf(f2, 0);
    var f4 := LastOf(f3, 0, t, [], k);
    assert f4.issued == f3.issued + [Stamp(t, 4096)];
    assert f4.issued[..|f4.issued| - 1] == f3.issued;
  }

  lemma OrDoubled(a: nat, b: nat)
    ensures BitOr(2 * a, 2 * b) == 2 * BitOr(a, b)
  {
  }

  lemma OrWithOne(x: nat)
    ensures BitOr(x, 1) == if x % 2 == 0 then x + 1 else x
  {
    OrWithZero(x / 2);
  }

  lemma {:induction false} OrAtShift(x: nat, k: nat)
    ensures BitOr(x * Pow2(k), Pow2(k)) == (if x % 2 == 0 then x + 1 else x) * Pow2(k)
    decreases k
  {
    if k == 0 {
      OrWithOne(x);
    } else {
      var p := Pow2(k - 1);
      OrAtShift(x, k - 1);
      assert Pow2(k) == 2 * p;
      Double(x, p);
      Double(if x % 2 == 0 then x + 1 else x, p);
      OrDoubled(x * p, p);
      hide *;
    }
  }

  /** The clock bits that survive the shift. */
  function ClockBits(timestamp: int): nat {
    (timestamp - CUSTOM_EPOCH) % 0x400_0000_0000
  }

  /** The bits of an id whose sequence is 4096: that number is OR-ed onto the worker field. */
  lemma OverrunBits(timestamp: int, workerId: nat)
    requires workerId <= MAX_WORKER_ID
    ensures ComposeId(timestamp, workerId, 4096) == AsI64(BitOr(ClockBits(timestamp) * 0x40_0000 + workerId * 4096, 4096))
  {
    var hi := ClockBits(timestamp);
    TimestampPart(timestamp);
    WorkerPart(workerId);
    FieldsAdd(hi, workerId, 0);
    OrWithZero(BitOr(hi * 0x40_0000, workerId * 4096));
    hide BitOr;
    hide ShiftLeft;
    hide AsI64;
  }

  /** The worker whose field an overrun id shows. */
  function Owner(workerId: nat): nat {
    if workerId % 2 == 0 then workerId + 1 else workerId
  }

  lemma OwnerInRange(workerId: nat)
    requires workerId <= MAX_WORKER_ID
    ensures Owner(workerId) <= MAX_WORKER_ID
  {
  }

  lemma OrOntoWorker(hi: nat, workerId: nat)
    ensures BitOr(hi * 0x40_0000 + workerId * 4096, 4096) == hi * 0x40_0000 + Owner(workerId) * 4096
  {
    var x := hi * 1024 + workerId;
    FieldWidths();
    OrAtShift(x, 12);
    hide BitOr;
    hide Pow2;
    assert hi * 0x40_0000 + workerId * 4096 == x * 4096;
    assert x % 2 == workerId % 2;
  }

  /** Sequence 4096 sets the lowest worker bit: the id is one of the next worker, or of this worker's sequence 0. */
  lemma OverrunId(timestamp: int, workerId: nat)
    requires workerId <= MAX_WORKER_ID
    ensures ComposeId(timestamp, workerId, 4096) == ComposeId(timestamp, Owner(workerId), 0)
  {
    hide *;
    OwnerInRange(workerId);
    OverrunBits(timestamp, workerId);
    OrOntoWorker(ClockBits(timestamp), workerId);
    FirstId(timestamp, Owner(workerId));
  }

  lemma FirstId(timestamp: int, workerId: nat)
    requires workerId <= MAX_WORKER_ID
    ensures ComposeId(timestamp, workerId, 0) == AsI64(ClockBits(timestamp) * 0x40_0000 + workerId * 4096)
  {
    ComposeRaw(timestamp, workerId, 0);
    hide ComposeId;
    hide AsI64;
  }

  lemma OverrunIsUnsound(issued: seq<Stamp>, timestamp: int, workerId: nat)
    requires Representable(timestamp) && workerId <= MAX_WORKER_ID
    requires issued != [] && issued[|issued| - 1] == Stamp(timestamp, 4096) && Stamp(timestamp, 0) in issued[..|issued| - 1]
    ensures !IdsSound(issued, workerId)
  {
    hide *;
    if workerId % 2 == 0 {
      OverrunIsForeign(issued, timestamp, workerId);
    } else {
      OverrunIsFirst(issued, timestamp, workerId);
    }
  }

  lemma OverrunIsForeign(issued: seq<Stamp>, timestamp: int, workerId: nat)
    requires Representable(timestamp) && workerId <= MAX_WORKER_ID && workerId % 2 == 0
    requires issued != [] && issued[|issued| - 1] == Stamp(timestamp, 4096)
    ensures !IdsSound(issued, workerId)
  {
    OverrunIdIsForeign(timestamp, workerId);
    hide *;
    ForeignIdIsUnsound(issued, workerId);
  }

  lemma OverrunIdIsForeign(timestamp: int, workerId: nat)
    requires Representable(timestamp) && workerId <= MAX_WORKER_ID && workerId % 2 == 0
    ensures !DecodesTo(IdOf(Stamp(timestamp, 4096), workerId), workerId)
  {
    OverrunId(timestamp, workerId);
    assert Owner(workerId) == workerId + 1;
    OwnerInRange(workerId);
    hide BitAnd;
    hide ShiftRight;
    hide ComposeId;
    hide Owner;
    FieldsRecoverable(timestamp, workerId + 1, 0);
  }

  lemma ForeignIdIsUnsound(issued: seq<Stamp>, workerId: nat)
    requires issued != [] && !DecodesTo(IdOf(issued[|issued| - 1], workerId), workerId)
    ensures !IdsSound(issued, workerId)
  {
    hide DecodesTo;
    hide IdOf;
  }

  lemma OverrunIsFirst(issued: seq<Stamp>, timestamp: int, workerId: nat)
    requires workerId <= MAX_WORKER_ID && workerId % 2 == 1
    requires issued != [] && issued[|issued| - 1] == Stamp(timestamp, 4096) && Stamp(timestamp, 0) in issued[..|issued| - 1]
    ensures !IdsSound(issued, workerId)
  {
    OverrunId(timestamp, workerId);
    hide ComposeId;
    hide DecodesTo;
    var i :| 0 <= i < |issued| - 1 && issued[i] == Stamp(timestamp, 0);
    assert IdOf(issued[i], workerId) == IdOf(issued[|issued| - 1], workerId);
  }

  // -------------------------------------------------------- exact conditions

  predicate ByThreads(run: seq<Instr>, n: nat) {
    forall e :: e in run ==> e.thread < n
  }

  predicate OfTwo(run: seq<Instr>, t: int) {
    forall e :: e in run ==> e.thread <= 1 && t <= e.now <= t + 1
  }

  lemma {:induction false} AloneOfTwo(thread: nat, now: int, n: nat, t: int)
    requires thread <= 1 && t <= now <= t + 1
    ensures OfTwo(Alone(thread, now, n), t)
  {
    if n > 0 { AloneOfTwo(thread, now, n - 1, t); }
  }

  lemma {:induction false} TurnsOfTwo(n: nat, t: int, rest: seq<Instr>)
    requires OfTwo(rest, t)
    ensures OfTwo(Turns(1, t, n, rest), t)
  {
    if n > 0 {
      TurnsOfTwo(n - 1, t, rest);
      AloneOfTwo(1, t, 3, t);
    }
  }

  function WitnessRun(kind: StaleKind, t: int): seq<Instr> {
    match kind
    case ReadOvertaken => ReadOvertakenRun(t)
    case ReadDuringReset => ReadDuringResetRun(t)
    case ResetOvertaken => ResetOvertakenRun(t)
    case ClaimOvertaken => ClaimOvertakenRun(t)
    case ClaimOverrun => ClaimOverrunRun(t)
  }

  lemma WitnessIsOfTwo(kind: StaleKind, t: int)
    ensures OfTwo(WitnessRun(kind, t), t)
  {
    forall thread: nat, now: int, n: nat | thread <= 1 && t <= now <= t + 1 ensures OfTwo(Alone(thread, now, n), t) {
      AloneOfTwo(thread, now, n, t);
    }
    TurnsOfTwo(4096, t, Alone(0, t, 1) + []);
    hide Alone;
    hide Turns;
  }

  lemma RepeatIsUnsound(issued: seq<Stamp>, workerId: nat)
    requires !Distinct(issued)
    ensures !IdsSound(issued, workerId)
  {
    var i, j :| 0 <= i < j < |issued| && issued[i] == issued[j];
    assert IdOf(issued[i], workerId) == IdOf(issued[j], workerId);
  }

  /** Each kind alone makes ids of any worker collide or go astray, with two threads at any representable instant. */
  lemma EachKindIsUnsound(kind: StaleKind, t: int, workerId: nat)
    requires Representable(t) && Representable(t + 1) && workerId <= MAX_WORKER_ID
    ensures var run := WitnessRun(kind, t);
            && ReadingsInRange(run) && ByThreads(run, 2) && StaleOnlyAs(IDLE, run, {kind})
            && !IdsSound(ExecAll(IDLE, run).issued, workerId)
  {
    WitnessIsOfTwo(kind, t);
    RangeOfTwo(WitnessRun(kind, t), t);
    assert t > 0;
    hide *;
    if kind == ClaimOverrun {
      OverrunWitness(t, workerId);
    } else {
      KindRepeats(kind, t);
      RepeatIsUnsound(ExecAll(IDLE, WitnessRun(kind, t)).issued, workerId);
    }
  }

  lemma RangeOfTwo(run: seq<Instr>, t: int)
    requires OfTwo(run, t) && Representable(t) && Representable(t + 1)
    ensures ReadingsInRange(run) && ByThreads(run, 2)
  {
  }

  lemma KindRepeats(kind: StaleKind, t: int)
    requires t > 0 && kind != ClaimOverrun
    ensures var run := WitnessRun(kind, t); StaleOnlyAs(IDLE, run, {kind}) && !Distinct(ExecAll(IDLE, run).issued)
  {
    hide ExecAll;
    hide StaleOnlyAs;
    hide Distinct;
    hide Alone;
    match kind {
      case ReadOvertaken => StaleFetchAddDuplicates(t);
      case ReadDuringReset => FetchAddBeforeResetDuplicates(t);
      case ResetOvertaken => LateResetDuplicates(t);
      case ClaimOvertaken => LateClaimDuplicates(t);
      case _ =>
    }
  }

  lemma OverrunWitness(t: int, workerId: nat)
    requires Representable(t) && t > 0 && workerId <= MAX_WORKER_ID
    ensures var run := WitnessRun(ClaimOverrun, t);
            StaleOnlyAs(IDLE, run, {ClaimOverrun}) && !IdsSound(ExecAll(IDLE, run).issued, workerId)
  {
    assert WitnessRun(ClaimOverrun, t) == ClaimOverrunRun(t);
    hide *;
    UnguardedClaimOverruns(t);
    OverrunIsUnsound(ExecAll(IDLE, ClaimOverrunRun(t)).issued, t, workerId);
  }

  /**
   The exact condition.  Allow stale instructions of some kinds only: in all runs the ids of a
   worker are pairwise different and carry its worker id if and only if no kind at all
   is allowed.  Each of the five breaks it alone, for every worker.
   */
  lemma SoundExactlyWithoutStale(kinds: set<StaleKind>, workerId: nat)
    requires workerId <= MAX_WORKER_ID
    ensures (forall run :: ReadingsInRange(run) && StaleOnlyAs(IDLE, run, kinds) ==>
               IdsSound(ExecAll(IDLE, run).issued, workerId))
       <==> kinds == {}
  {
    hide *;
    if kinds == {} {
      forall run | ReadingsInRange(run) && StaleOnlyAs(IDLE, run, kinds)
        ensures IdsSound(ExecAll(IDLE, run).issued, workerId)
      {
        NoKindNoStale(IDLE, run);
        if !IdsSound(ExecAll(IDLE, run).issued, workerId) { DuplicateNeedsStaleInstruction(run, workerId); }
      }
    } else {
      var kind :| kind in kinds;
      EpochIsRepresentable();
      EachKindIsUnsound(kind, CUSTOM_EPOCH, workerId);
      FewerKindsToo(IDLE, WitnessRun(kind, CUSTOM_EPOCH), {kind}, kinds);
    }
  }

  lemma EpochIsRepresentable()
    ensures Representable(CUSTOM_EPOCH) && Representable(CUSTOM_EPOCH + 1)
  {
  }

  // -- the condition a caller can check

  /** A thread that nobody interrupts works with what the counters hold. */
  ghost predicate Solitary(f: Fine) {
    && (forall t :: t != 0 ==> PcOf(f, t) == Head)
    && match PcOf(f, 0)
       case Head => true
       case Loaded(last) => last == f.counters.lastTimestamp
       case ReadClock(last, _) => last == f.counters.lastTimestamp
       case WonCas(now) => now == f.counters.lastTimestamp
       case Stored(now) => now == f.counters.lastTimestamp && f.counters.sequence == 0
  }

  lemma SolitaryStep(f: Fine, e: Instr)
    requires Solitary(f) && e.thread == 0
    ensures !Stale(f, e) && Solitary(Exec(f, e))
  {
    assert forall t :: t != 0 ==> PcOf(Exec(f, e), t) == PcOf(f, t);
  }

  lemma {:induction false} OneThreadIsNeverStale(f: Fine, run: seq<Instr>)
    requires Solitary(f) && ByThreads(run, 1)
    ensures !SomeStale(f, run)
    decreases |run|
  {
    if run != [] {
      assert run[0] in run;
      SolitaryStep(f, run[0]);
      hide Solitary;
      hide Stale;
      hide Exec;
      OneThreadIsNeverStale(Exec(f, run[0]), run[1..]);
    }
  }

  /** With n threads calling, all runs keep ids apart and their own if and only if n is at most 1. */
  lemma SoundExactlyForOneThread(n: nat, workerId: nat)
    requires workerId <= MAX_WORKER_ID
    ensures (forall run :: ReadingsInRange(run) && ByThreads(run, n) ==> IdsSound(ExecAll(IDLE, run).issued, workerId))
       <==> n <= 1
  {
    assert Solitary(IDLE);
    assert forall run :: ByThreads(run, n) && n <= 1 ==> ByThreads(run, 1);
    assert forall run :: ByThreads(run, 2) && n >= 2 ==> ByThreads(run, n);
    hide *;
    if n <= 1 {
      forall run | ReadingsInRange(run) && ByThreads(run, n)
        ensures IdsSound(ExecAll(IDLE, run).issued, workerId)
      {
        OneThreadIsNeverStale(IDLE, run);
        if !IdsSound(ExecAll(IDLE, run).issued, workerId) { DuplicateNeedsStaleInstruction(run, workerId); }
      }
    } else {
      EpochIsRepresentable();
      EachKindIsUnsound(ReadOvertaken, CUSTOM_EPOCH, workerId);
      assert ByThreads(WitnessRun(ReadOvertaken, CUSTOM_EPOCH), n);
    }
  }
}
