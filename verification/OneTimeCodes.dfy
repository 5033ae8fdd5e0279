/**
 What password-reset codes and email-verification codes share: an attempt counter
 claimed by a guarded UPDATE, and a resend cooldown folded into another.
 */
module AttemptGuard {
  import opened Options

  const MAX_FAILED_ATTEMPTS: int := 5
  const RESEND_COOLDOWN_MS: int := 60_000
  const CODE_EXPIRY_MS: int := 600_000

  predicate CooledDown(sentAt: Option<int>, at: int) {
    sentAt.None? || sentAt.value <= at - RESEND_COOLDOWN_MS
  }

  /** `claims` counts the code checks ever admitted. */
  datatype Guard = Guard(now: int, sentAt: Option<int>, attempts: int, claims: nat)

  datatype Op =
    | Wait(elapsed: nat)
    | Issue(at: int)
    | Overwrite(at: int)
    | Claim
    | Clear
    | Skip

  function Step(g: Guard, op: Op): Guard {
    match op
    case Wait(elapsed) => g.(now := g.now + elapsed)
    case Issue(at) => if CooledDown(g.sentAt, at) then g.(sentAt := Some(at), attempts := 0) else g
    case Overwrite(at) => g.(sentAt := Some(at), attempts := 0)
    case Claim =>
      if g.attempts < MAX_FAILED_ATTEMPTS then g.(attempts := g.attempts + 1, claims := g.claims + 1) else g
    case Clear => g.(sentAt := None, attempts := 0)
    case Skip => g
  }

  function Run(g: Guard, ops: seq<Op>): Guard
    decreases |ops|
  {
    if ops == [] then g else Run(Step(g, ops[0]), ops[1..])
  }

  /** Neither a success nor an uncooled issue in the whole run. */
  predicate OnlyCooledIssues(ops: seq<Op>) {
    forall i :: 0 <= i < |ops| ==> !ops[i].Clear? && !ops[i].Overwrite?
  }

  /** Every issue stores the instant at which it takes effect. */
  predicate IssuesOnTime(g: Guard, ops: seq<Op>)
    decreases |ops|
  {
    ops == [] || ((ops[0].Issue? ==> ops[0].at == g.now) && IssuesOnTime(Step(g, ops[0]), ops[1..]))
  }

  /** How many issues passed the cooldown. */
  function IssueCount(g: Guard, ops: seq<Op>): nat
    decreases |ops|
  {
    if ops == [] then 0
    else
      (if ops[0].Issue? && CooledDown(g.sentAt, ops[0].at) then 1 else 0)
      + IssueCount(Step(g, ops[0]), ops[1..])
  }

  lemma {:induction false} ClaimsPerIssue(g: Guard, ops: seq<Op>)
    requires 0 <= g.attempts <= MAX_FAILED_ATTEMPTS && OnlyCooledIssues(ops)
    ensures var g' := Run(g, ops);
            && g'.claims - g.claims <= 5 * IssueCount(g, ops) + 5 - g.attempts
            && 0 <= g'.attempts <= MAX_FAILED_ATTEMPTS
    decreases |ops|
  {
    if ops != [] {
      ClaimsPerIssue(Step(g, ops[0]), ops[1..]);
    }
  }

  lemma {:induction false} IssuesAreSpaced(g: Guard, ops: seq<Op>)
    requires OnlyCooledIssues(ops) && IssuesOnTime(g, ops)
    ensures var g', n := Run(g, ops), IssueCount(g, ops);
            && g'.now >= g.now
            && (n >= 1 ==> g'.now - g.now >= RESEND_COOLDOWN_MS * (n - 1))
            && (n >= 1 && g.sentAt.Some? ==> g'.now >= g.sentAt.value + RESEND_COOLDOWN_MS * n)
    decreases |ops|
  {
    if ops != [] {
      IssuesAreSpaced(Step(g, ops[0]), ops[1..]);
    }
  }

  /** In any success-free span of T ms at most 5 * (floor(T / 60000) + 2) code checks are admitted. */
  lemma GuessBound(g: Guard, ops: seq<Op>)
    requires 0 <= g.attempts <= MAX_FAILED_ATTEMPTS
    requires OnlyCooledIssues(ops) && IssuesOnTime(g, ops)
    ensures var g' := Run(g, ops);
            g'.claims - g.claims <= 5 * ((g'.now - g.now) / RESEND_COOLDOWN_MS + 2)
  {
    ClaimsPerIssue(g, ops);
    IssuesAreSpaced(g, ops);
    var n, t := IssueCount(g, ops), Run(g, ops).now - g.now;
    if n >= 1 {
      assert t / RESEND_COOLDOWN_MS >= n - 1;
    }
  }

  predicate StoresNothing(op: Op) {
    op.Wait? || op.Claim? || op.Skip?
  }

  /** Between two issues (and without a success) at most five checks are admitted. */
  lemma {:induction false} AtMostFivePerCode(g: Guard, ops: seq<Op>)
    requires 0 <= g.attempts <= MAX_FAILED_ATTEMPTS
    requires forall op :: op in ops ==> StoresNothing(op)
    ensures Run(g, ops).claims - g.claims == Run(g, ops).attempts - g.attempts
    ensures Run(g, ops).claims - g.claims <= MAX_FAILED_ATTEMPTS - g.attempts
    decreases |ops|
  {
    if ops != [] {
      assert StoresNothing(ops[0]);
      AtMostFivePerCode(Step(g, ops[0]), ops[1..]);
    }
  }
}

/** The password-reset columns of one user row and the statements that touch them. */
module PasswordReset {
  import opened Options
  import opened AttemptGuard

  /** `code` names the stored code hash. */
  datatype Row = Row(code: Option<nat>, expiresAt: Option<int>, sentAt: Option<int>, attempts: int, version: int)

  /** The cooldown UPDATE of `request_reset`. */
  function Issued(row: Row, code: nat, at: int): Row {
    if CooledDown(row.sentAt, at)
    then row.(code := Some(code), expiresAt := Some(at + CODE_EXPIRY_MS), sentAt := Some(at), attempts := 0)
    else row
  }

  /** The guarded increment. */
  function Claimed(row: Row): Row {
    if row.attempts < MAX_FAILED_ATTEMPTS then row.(attempts := row.attempts + 1) else row
  }

  /** The UPDATE that consumes the code and bumps the version; its guard is IS NOT NULL. */
  function Consumed(row: Row): Row {
    if row.code.Some? then Row(None, None, None, 0, row.version + 1) else row
  }

  /** The code a reset request would check itself against, or None if it is turned away. */
  function Usable(row: Row, now: int): Option<nat> {
    if row.code.Some? && row.expiresAt.Some? && now <= row.expiresAt.value then row.code else None
  }

  class UserRow {
    var code: Option<nat>
    var expiresAt: Option<int>
    var sentAt: Option<int>
    var attempts: int
    var version: int

    constructor (version: int)
      ensures Value() == Row(None, None, None, 0, version)
    {
      code, expiresAt, sentAt, attempts, this.version := None, None, None, 0, version;
    }

    ghost function Value(): Row
      reads this
    {
      Row(code, expiresAt, sentAt, attempts, version)
    }

    method RequestReset(newCode: nat, now: int) returns (sent: bool)
      modifies this
      ensures Value() == Issued(old(Value()), newCode, now)
      ensures sent == CooledDown(old(sentAt), now)
      // a minute after the last one, valid for ten
      ensures sent <==> old(sentAt).None? || now - old(sentAt).value >= 60_000
      ensures sent ==> Value() == Row(Some(newCode), Some(now + 600_000), Some(now), 0, old(version))
      ensures !sent ==> Value() == old(Value())
    {
      var threshold := now - RESEND_COOLDOWN_MS;
      sent := sentAt.None? || sentAt.value <= threshold;
      if sent {
        code, expiresAt, sentAt, attempts := Some(newCode), Some(now + CODE_EXPIRY_MS), Some(now), 0;
      }
    }

    method IncrementFailedAttempts() returns (claimed: bool)
      modifies this`attempts
      ensures Value() == Claimed(old(Value()))
      ensures claimed == (old(attempts) < MAX_FAILED_ATTEMPTS)
      ensures claimed <==> old(attempts) < 5
      ensures attempts == old(attempts) + if claimed then 1 else 0
    {
      claimed := attempts < MAX_FAILED_ATTEMPTS;
      if claimed { attempts := attempts + 1; }
    }

    method ConsumeCode() returns (consumed: bool)
      modifies this
      ensures Value() == Consumed(old(Value()))
      ensures consumed == old(code).Some?
      ensures Value() == if consumed then Row(None, None, None, 0, old(version) + 1) else old(Value())
    {
      consumed := code.Some?;
      if consumed {
        code, expiresAt, sentAt, attempts, version := None, None, None, 0, version + 1;
      }
    }

    /** `reset_password` with nobody interfering; `guess` is the code the caller sends. */
    method ResetPassword(guess: nat, now: int) returns (newVersion: Option<int>)
      modifies this
      ensures newVersion.Some? <==>
                Usable(old(Value()), now) == Some(guess) && old(attempts) < MAX_FAILED_ATTEMPTS
      ensures newVersion.Some? ==> newVersion.value == old(version) + 1 && Value() == Consumed(old(Value()))
      ensures newVersion.None? ==>
                Value() == if Usable(old(Value()), now).None? then old(Value()) else Claimed(old(Value()))
      // exactly for the stored code, up to its expiry, with fewer than five attempts claimed
      ensures newVersion.Some? <==>
                && old(code) == Some(guess) && old(expiresAt).Some? && now <= old(expiresAt).value && old(attempts) < 5
      ensures newVersion.Some? ==> newVersion.value == old(version) + 1 && Value() == Row(None, None, None, 0, old(version) + 1)
      ensures newVersion.None? ==>
                var tried := old(code).Some? && old(expiresAt).Some? && now <= old(expiresAt).value && old(attempts) < 5;
                Value() == old(Value()).(attempts := old(attempts) + if tried then 1 else 0)
    {
      if code.None? || expiresAt.None? || now > expiresAt.value { return None; }
      var stored := code.value;
      var claimed := IncrementFailedAttempts();
      if !claimed || stored != guess { return None; }
      var consumed := ConsumeCode();
      newVersion := Some(version);
    }
  }

  // ------------------------------------------------- statements interleaved

  /** The next statement of a `reset_password` call; it keeps the code hash it read. */
  datatype Pc = Reading | Claiming(code: nat) | Checking(code: nat) | Consuming(code: nat) | Finished

  datatype World = World(
    now: int,
    row: Row,
    pcs: map<nat, Pc>,
    issued: nat,
    succeeded: nat,
    claims: nat,
    checks: nat)

  /** `at` is when the issuing request read its clock; `guess` is what a caller sends. */
  datatype Event =
    | Tick(elapsed: nat)
    | Request(code: nat, at: int)
    | Begin(call: nat)
    | Advance(call: nat, guess: nat)

  function Move(w: World, call: nat, guess: nat): World
    requires call in w.pcs
  {
    match w.pcs[call]
    case Reading =>
      var c := Usable(w.row, w.now);
      w.(pcs := w.pcs[call := if c.Some? then Claiming(c.value) else Finished])
    case Claiming(code) =>
      if w.row.attempts < MAX_FAILED_ATTEMPTS
      then w.(row := Claimed(w.row), pcs := w.pcs[call := Checking(code)], claims := w.claims + 1)
      else w.(pcs := w.pcs[call := Finished])
    case Checking(code) =>
      w.(pcs := w.pcs[call := if guess == code then Consuming(code) else Finished], checks := w.checks + 1)
    case Consuming(_) =>
      w.(row := Consumed(w.row), pcs := w.pcs[call := Finished],
         succeeded := if w.row.code.Some? then w.succeeded + 1 else w.succeeded)
    case Finished => w
  }

  function StepReset(w: World, e: Event): World {
    match e
    case Tick(elapsed) => w.(now := w.now + elapsed)
    case Request(code, at) =>
      w.(row := Issued(w.row, code, at), issued := if CooledDown(w.row.sentAt, at) then w.issued + 1 else w.issued)
    case Begin(call) => if call in w.pcs then w else w.(pcs := w.pcs[call := Reading])
    case Advance(call, guess) => if call in w.pcs then Move(w, call, guess) else w
  }

  function RunReset(w: World, events: seq<Event>): World
    decreases |events|
  {
    if events == [] then w else RunReset(StepReset(w, events[0]), events[1..])
  }

  function Registered(now: int, version: int): World {
    World(now, Row(None, None, None, 0, version), map[], 0, 0, 0, 0)
  }

  function Outstanding(w: World): nat {
    if w.row.code.Some? then 1 else 0
  }

  function InCheck(w: World): set<nat> {
    set c | c in w.pcs && w.pcs[c].Checking?
  }

  ghost predicate Inv(w: World, version: int) {
    && w.succeeded + Outstanding(w) <= w.issued
    && w.row.version == version + w.succeeded
    && 0 <= w.row.attempts <= MAX_FAILED_ATTEMPTS
    && w.claims == w.checks + |InCheck(w)|
  }

  lemma MoveKeepsChecks(w: World, call: nat, guess: nat)
    requires call in w.pcs && w.claims == w.checks + |InCheck(w)|
    ensures var w' := Move(w, call, guess); w'.claims == w'.checks + |InCheck(w')|
  {
    var w' := Move(w, call, guess);
    if w'.claims > w.claims {
      assert InCheck(w') == InCheck(w) + {call};
    } else if w'.checks > w.checks {
      assert InCheck(w') == InCheck(w) - {call};
    } else {
      assert InCheck(w') == InCheck(w);
    }
  }

  lemma StepKeepsInv(w: World, e: Event, version: int)
    requires Inv(w, version)
    ensures Inv(StepReset(w, e), version)
  {
    if e.Advance? && e.call in w.pcs {
      MoveKeepsChecks(w, e.call, e.guess);
    } else {
      assert InCheck(StepReset(w, e)) == InCheck(w);
    }
  }

  lemma {:induction false} RunKeepsInv(w: World, events: seq<Event>, version: int)
    requires Inv(w, version)
    ensures Inv(RunReset(w, events), version)
    decreases |events|
  {
    if events != [] {
      StepKeepsInv(w, events[0], version);
      RunKeepsInv(StepReset(w, events[0]), events[1..], version);
    }
  }

  /**
   Conservation, in every interleaving of the statements of any number of calls:
   never more successful resets than codes issued, exactly one version bump per
   success, the counter within [0, 5], and no more checks than admitted claims.
   */
  lemma ResetsAreConserved(start: int, version: int, events: seq<Event>)
    ensures var w := RunReset(Registered(start, version), events);
            && w.succeeded <= w.issued
            && w.row.version == version + w.succeeded
            && 0 <= w.row.attempts <= MAX_FAILED_ATTEMPTS
            && w.checks <= w.claims
  {
    var w := Registered(start, version);
    assert InCheck(w) == {};
    RunKeepsInv(w, events, version);
  }

  // ----------------------------------------- the guard inside the protocol

  function View(w: World): Guard {
    Guard(w.now, w.row.sentAt, w.row.attempts, w.claims)
  }

  function OpOf(w: World, e: Event): Op {
    match e
    case Tick(elapsed) => Wait(elapsed)
    case Request(_, at) => Issue(at)
    case Begin(_) => Skip
    case Advance(call, _) =>
      if call !in w.pcs then Skip
      else if w.pcs[call].Claiming? then Claim
      else if w.pcs[call].Consuming? && w.row.code.Some? then Clear
      else Skip
  }

  function OpsOf(w: World, events: seq<Event>): seq<Op>
    decreases |events|
  {
    if events == [] then [] else [OpOf(w, events[0])] + OpsOf(StepReset(w, events[0]), events[1..])
  }

  lemma StepIsGuardStep(w: World, e: Event)
    ensures View(StepReset(w, e)) == AttemptGuard.Step(View(w), OpOf(w, e))
  {
  }

  lemma {:induction false} RunIsGuardRun(w: World, events: seq<Event>)
    ensures View(RunReset(w, events)) == AttemptGuard.Run(View(w), OpsOf(w, events))
    decreases |events|
  {
    if events != [] {
      StepIsGuardStep(w, events[0]);
      RunIsGuardRun(StepReset(w, events[0]), events[1..]);
      assert OpsOf(w, events)[1..] == OpsOf(StepReset(w, events[0]), events[1..]);
    }
  }

  /** Issues take effect at the instant they store. */
  predicate RequestsOnTime(w: World, events: seq<Event>)
    decreases |events|
  {
    events == []
    || ((events[0].Request? ==> events[0].at == w.now) && RequestsOnTime(StepReset(w, events[0]), events[1..]))
  }

  lemma {:induction false} NoSuccessNoClear(w: World, events: seq<Event>)
    requires RunReset(w, events).succeeded == w.succeeded && RequestsOnTime(w, events)
    ensures OnlyCooledIssues(OpsOf(w, events)) && IssuesOnTime(View(w), OpsOf(w, events))
    decreases |events|
  {
    if events != [] {
      var w' := StepReset(w, events[0]);
      SuccessesOnlyGrow(w', events[1..]);
      StepIsGuardStep(w, events[0]);
      NoSuccessNoClear(w', events[1..]);
      assert OpsOf(w, events)[1..] == OpsOf(w', events[1..]);
    }
  }

  lemma {:induction false} SuccessesOnlyGrow(w: World, events: seq<Event>)
    ensures RunReset(w, events).succeeded >= w.succeeded
    decreases |events|
  {
    if events != [] {
      SuccessesOnlyGrow(StepReset(w, events[0]), events[1..]);
    }
  }

  /**
   The guess bound: take any reachable moment and any span of T ms after it in
   which no reset succeeds.  At most 5 * (floor(T / 60000) + 2) claims are
   admitted in the span, and the checks run in it are at most these plus the ones
   already admitted when it began.
   */
  lemma GuessesAreBounded(start: int, version: int, before: seq<Event>, span: seq<Event>)
    requires var w := RunReset(Registered(start, version), before);
             RunReset(w, span).succeeded == w.succeeded && RequestsOnTime(w, span)
    ensures var w := RunReset(Registered(start, version), before);
            var w' := RunReset(w, span);
            var bound := 5 * ((w'.now - w.now) / RESEND_COOLDOWN_MS + 2);
            && w'.claims - w.claims <= bound
            && w'.checks - w.checks <= bound + |InCheck(w)|
  {
    var w0 := Registered(start, version);
    assert InCheck(w0) == {};
    RunKeepsInv(w0, before, version);
    var w := RunReset(w0, before);
    RunKeepsInv(w, span, version);
    RunIsGuardRun(w, span);
    NoSuccessNoClear(w, span);
    GuessBound(View(w), OpsOf(w, span));
  }

  // ------------------------------------------------ how long a code is usable

  /** A stored code expires ten minutes after it was sent, and the columns come and go together. */
  predicate Dated(row: Row) {
    if row.code.Some? then row.sentAt.Some? && row.expiresAt == Some(row.sentAt.value + 600_000)
    else row.expiresAt.None? && row.sentAt.None?
  }

  lemma {:induction false} RunKeepsDated(w: World, events: seq<Event>)
    requires Dated(w.row)
    ensures Dated(RunReset(w, events).row)
    decreases |events|
  {
    if events != [] {
      RunKeepsDated(StepReset(w, events[0]), events[1..]);
    }
  }

  lemma {:induction false} FinishedStays(w: World, events: seq<Event>, call: nat)
    requires call in w.pcs && w.pcs[call].Finished?
    ensures call in RunReset(w, events).pcs && RunReset(w, events).pcs[call].Finished?
    decreases |events|
  {
    if events != [] {
      FinishedStays(StepReset(w, events[0]), events[1..], call);
    }
  }

  /** A finished call claims nothing, changes nothing and does not succeed. */
  lemma FinishedDoesNothing(w: World, call: nat, guess: nat)
    requires call in w.pcs && w.pcs[call].Finished?
    ensures StepReset(w, Advance(call, guess)) == w
  {
  }

  /**
   In every interleaving: a call that reads later than ten minutes after the stored code was
   sent, or with none stored, is over without a claim or an effect, whatever follows; one that
   reads within them goes on with the stored code.
   */
  lemma CodeIsUsableForTenMinutes(start: int, version: int, events: seq<Event>, call: nat, guess: nat, later: seq<Event>)
    requires var w := RunReset(Registered(start, version), events); call in w.pcs && w.pcs[call].Reading?
    ensures var w := RunReset(Registered(start, version), events);
            var read := StepReset(w, Advance(call, guess));
            if w.row.sentAt.Some? && w.now - w.row.sentAt.value <= 600_000
            then w.row.code.Some? && read == w.(pcs := w.pcs[call := Claiming(w.row.code.value)])
            else
              var after := RunReset(read, later);
              && read == w.(pcs := w.pcs[call := Finished])
              && call in after.pcs && after.pcs[call].Finished? && StepReset(after, Advance(call, guess)) == after
  {
    RunKeepsDated(Registered(start, version), events);
    var w := RunReset(Registered(start, version), events);
    var read := StepReset(w, Advance(call, guess));
    if !(w.row.sentAt.Some? && w.now - w.row.sentAt.value <= 600_000) {
      FinishedStays(read, later, call);
      FinishedDoesNothing(RunReset(read, later), call, guess);
    }
  }

  /** A request stores its code a minute after the last one at the earliest, and is refused without effect before. */
  lemma RequestStoresItsCode(w: World, code: nat, at: int)
    ensures var w' := StepReset(w, Request(code, at));
            if w.row.sentAt.None? || at - w.row.sentAt.value >= 60_000
            then w' == w.(row := Row(Some(code), Some(at + 600_000), Some(at), 0, w.row.version), issued := w.issued + 1)
            else w' == w
  {
  }

  /** Refinement: the statements of one call, with nobody in between, do what `ResetPassword` says. */
  lemma UndisturbedResetIsAtomic(w: World, call: nat, guess: nat)
    requires call !in w.pcs
    ensures var w' := RunReset(w, [Begin(call), Advance(call, guess), Advance(call, guess), Advance(call, guess), Advance(call, guess)]);
            var readable := w.row.code.Some? && w.row.expiresAt.Some? && w.now <= w.row.expiresAt.value;
            && w'.pcs == w.pcs[call := Finished]
            && (readable && w.row.attempts < 5 && w.row.code == Some(guess) ==>
                  w'.row == Row(None, None, None, 0, w.row.version + 1) && w'.succeeded == w.succeeded + 1)
            && (!(readable && w.row.attempts < 5 && w.row.code == Some(guess)) ==>
                  && w'.row == w.row.(attempts := w.row.attempts + if readable && w.row.attempts < 5 then 1 else 0)
                  && w'.succeeded == w.succeeded)
  {
    RunFive(w, Begin(call), Advance(call, guess), Advance(call, guess), Advance(call, guess), Advance(call, guess));
    var w1 := StepReset(w, Begin(call));
    var w2 := StepReset(w1, Advance(call, guess));
    var w3 := StepReset(w2, Advance(call, guess));
    var w4 := StepReset(w3, Advance(call, guess));
    assert w1.pcs == w.pcs[call := Reading];
    assert StepReset(w4, Advance(call, guess)).pcs == w.pcs[call := Finished];
  }

  // ------------------------------------------- which code a success consumes

  /** Every code issued in the run is a new one: its hash is salted. */
  predicate FreshCodes(events: seq<Event>, code: nat) {
    forall i :: 0 <= i < |events| && events[i].Request? ==> events[i].code != code
  }

  /** A call keeps the code it read until it is finished. */
  predicate WorksFor(w: World, call: nat, code: nat) {
    call in w.pcs && w.pcs[call] in {Claiming(code), Checking(code), Consuming(code), Finished}
  }

  lemma {:induction false} CallKeepsItsCode(w: World, events: seq<Event>, call: nat, code: nat)
    requires WorksFor(w, call, code)
    ensures WorksFor(RunReset(w, events), call, code)
    decreases |events|
  {
    if events != [] {
      CallKeepsItsCode(StepReset(w, events[0]), events[1..], call, code);
    }
  }

  /** Without an issue the stored code can only disappear; after one it is never the old code again. */
  lemma {:induction false} StoredCodeFollowsIssues(w: World, events: seq<Event>, code: nat)
    requires FreshCodes(events, code)
    ensures w.row.code != Some(code) ==> RunReset(w, events).row.code != Some(code)
    ensures IssueCount(View(w), OpsOf(w, events)) == 0 ==> RunReset(w, events).row.code in {w.row.code, None}
    ensures IssueCount(View(w), OpsOf(w, events)) > 0 ==> RunReset(w, events).row.code != Some(code)
    decreases |events|
  {
    if events != [] {
      var w' := StepReset(w, events[0]);
      StoredCodeFollowsIssues(w', events[1..], code);
      StepIsGuardStep(w, events[0]);
      assert OpsOf(w, events)[1..] == OpsOf(w', events[1..]);
    }
  }

  /**
   The exact condition.  Whatever the state in which a call reads the usable code c, and
   whatever happens until it succeeds: its UPDATE consumes c itself if and only if no
   request in between passed the cooldown.
   */
  lemma ConsumesItsOwnCodeExactly(w: World, call: nat, guess: nat, code: nat, between: seq<Event>)
    requires call in w.pcs && w.pcs[call].Reading? && Usable(w.row, w.now) == Some(code)
    requires FreshCodes(between, code)
    requires var w' := RunReset(StepReset(w, Advance(call, guess)), between);
             call in w'.pcs && w'.pcs[call].Consuming? && w'.row.code.Some?
    ensures var read := StepReset(w, Advance(call, guess));
            var w' := RunReset(read, between);
            && call in w'.pcs && w'.pcs[call] == Consuming(code)
            && (w'.row.code == Some(code) <==> IssueCount(View(read), OpsOf(read, between)) == 0)
  {
    var read := StepReset(w, Advance(call, guess));
    CallKeepsItsCode(read, between, call, code);
    StoredCodeFollowsIssues(read, between, code);
  }

  /**
   The condition can fail from every state that has a usable code and two attempts left:
   call `a` passes its check, call `b` consumes the code, any other code is
   issued, and `a` consumes that one without having seen it.
   */
  lemma OldCodeConsumesNewOne(w: World, a: nat, b: nat, code: nat, newer: nat)
    requires Usable(w.row, w.now) == Some(code) && w.row.attempts + 2 <= MAX_FAILED_ATTEMPTS
    requires a != b && a !in w.pcs && b !in w.pcs
    ensures var up := [Begin(a), Advance(a, code), Advance(a, code), Advance(a, code)];
            var other := [Begin(b), Advance(b, code), Advance(b, code), Advance(b, code), Advance(b, code)];
            var w3 := RunReset(RunReset(RunReset(w, up), other), [Request(newer, w.now)]);
            && a in w3.pcs && w3.pcs[a] == Consuming(code) && w3.row.code == Some(newer)
            && w3.succeeded == w.succeeded + 1 && w3.issued == w.issued + 1
            && StepReset(w3, Advance(a, code)).succeeded == w.succeeded + 2
            && StepReset(w3, Advance(a, code)).row.code.None?
  {
    var up := [Begin(a), Advance(a, code), Advance(a, code), Advance(a, code)];
    var other := [Begin(b), Advance(b, code), Advance(b, code), Advance(b, code), Advance(b, code)];
    RunFour(w, up[0], up[1], up[2], up[3]);
    var w1 := RunReset(w, up);
    assert w1.pcs == w.pcs[a := Consuming(code)] && w1.row == w.row.(attempts := w.row.attempts + 1);
    RunFive(w1, other[0], other[1], other[2], other[3], other[4]);
    var w2 := RunReset(w1, other);
    assert w2.pcs == w1.pcs[b := Finished] && w2.row == Row(None, None, None, 0, w.row.version + 1);
    assert [Request(newer, w.now)][1..] == [];
    assert RunReset(StepReset(w2, Request(newer, w.now)), []) == StepReset(w2, Request(newer, w.now));
  }

  lemma RunFour(w: World, a: Event, b: Event, c: Event, d: Event)
    ensures RunReset(w, [a, b, c, d]) == StepReset(StepReset(StepReset(StepReset(w, a), b), c), d)
  {
    hide StepReset;
    assert [a, b, c, d][1..] == [b, c, d];
    assert [b, c, d][1..] == [c, d];
    assert [c, d][1..] == [d];
    assert [d][1..] == [];
    var w1 := StepReset(w, a);
    var w2 := StepReset(w1, b);
    var w3 := StepReset(w2, c);
    assert RunReset(w3, [d]) == StepReset(w3, d);
    assert RunReset(w2, [c, d]) == RunReset(w3, [d]);
    assert RunReset(w1, [b, c, d]) == RunReset(w2, [c, d]);
  }

  lemma RunFive(w: World, a: Event, b: Event, c: Event, d: Event, e: Event)
    ensures RunReset(w, [a, b, c, d, e]) == StepReset(StepReset(StepReset(StepReset(StepReset(w, a), b), c), d), e)
  {
    hide StepReset;
    assert [a, b, c, d, e][1..] == [b, c, d, e];
    RunFour(StepReset(w, a), b, c, d, e);
  }
}
