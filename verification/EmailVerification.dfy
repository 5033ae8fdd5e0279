/**
 Email verification: the same counter and cooldown as password reset, but the
 first code is stored without a cooldown and confirming does not re-check the row.
 */
module EmailVerification {
  import opened Options
  import opened AttemptGuard

  datatype Row = Row(verified: bool, code: Option<nat>, expiresAt: Option<int>, sentAt: Option<int>, attempts: int)

  /** `store_verification_code`: unconditional. */
  function Stored(row: Row, code: nat, at: int): Row {
    row.(code := Some(code), expiresAt := Some(at + CODE_EXPIRY_MS), sentAt := Some(at), attempts := 0)
  }

  /** `resend_code`: the same columns under the cooldown predicate. */
  function Resent(row: Row, code: nat, at: int): Row {
    if CooledDown(row.sentAt, at) then Stored(row, code, at) else row
  }

  function Confirmed(row: Row): Row {
    Row(true, None, None, None, 0)
  }

  function Usable(row: Row, now: int): Option<nat> {
    if !row.verified && row.code.Some? && row.expiresAt.Some? && now <= row.expiresAt.value then row.code else None
  }

  class UserRow {
    var verified: bool
    var code: Option<nat>
    var expiresAt: Option<int>
    var sentAt: Option<int>
    var attempts: int

    constructor ()
      ensures Value() == Row(false, None, None, None, 0)
    {
      verified, code, expiresAt, sentAt, attempts := false, None, None, None, 0;
    }

    ghost function Value(): Row
      reads this
    {
      Row(verified, code, expiresAt, sentAt, attempts)
    }

    /** None when the user is verified already (nothing to send). */
    method ResendCode(newCode: nat, now: int) returns (sent: Option<bool>)
      modifies this
      ensures sent.None? <==> old(verified)
      ensures sent.None? ==> Value() == old(Value())
      ensures sent.Some? ==> sent.value == CooledDown(old(sentAt), now) && Value() == Resent(old(Value()), newCode, now)
      // a minute after the last one, valid for ten
      ensures sent == Some(true) <==> !old(verified) && (old(sentAt).None? || now - old(sentAt).value >= 60_000)
      ensures Value() == if sent == Some(true) then Row(false, Some(newCode), Some(now + 600_000), Some(now), 0) else old(Value())
    {
      if verified { return None; }
      var threshold := now - RESEND_COOLDOWN_MS;
      if sentAt.None? || sentAt.value <= threshold {
        code, expiresAt, sentAt, attempts := Some(newCode), Some(now + CODE_EXPIRY_MS), Some(now), 0;
        return Some(true);
      }
      sent := Some(false);
    }

    method VerifyEmail(guess: nat, now: int) returns (ok: bool)
      modifies this
      ensures ok <==> Usable(old(Value()), now) == Some(guess) && old(attempts) < MAX_FAILED_ATTEMPTS
      ensures ok ==> Value() == Confirmed(old(Value()))
      ensures !ok ==>
                Value() == if Usable(old(Value()), now).Some? && old(attempts) < MAX_FAILED_ATTEMPTS
                           then old(Value()).(attempts := old(attempts) + 1) else old(Value())
      // exactly for the stored code of an unverified user, up to its expiry, with fewer than five attempts claimed
      ensures ok <==>
                && !old(verified) && old(code) == Some(guess) && old(expiresAt).Some? && now <= old(expiresAt).value
                && old(attempts) < 5
      ensures ok ==> Value() == Row(true, None, None, None, 0)
      ensures !ok ==>
                var tried := && !old(verified) && old(code).Some? && old(expiresAt).Some? && now <= old(expiresAt).value
                             && old(attempts) < 5;
                Value() == old(Value()).(attempts := old(attempts) + if tried then 1 else 0)
    {
      if verified || code.None? || expiresAt.None? || now > expiresAt.value { return false; }
      var stored := code.value;
      if attempts >= MAX_FAILED_ATTEMPTS { return false; }
      attempts := attempts + 1;
      if stored != guess { return false; }
      verified, code, expiresAt, sentAt, attempts := true, None, None, None, 0;
      ok := true;
    }
  }

  // ------------------------------------------------- statements interleaved

  datatype Pc = Reading | Claiming(code: nat) | Checking(code: nat) | Confirming | Finished

  datatype World = World(now: int, row: Row, pcs: map<nat, Pc>, claims: nat)

  datatype Event =
    | Tick(elapsed: nat)
    | SendFirst(code: nat, at: int)
    | Resend(code: nat, at: int)
    | Begin(call: nat)
    | Advance(call: nat, guess: nat)

  function Move(w: World, call: nat, guess: nat): World
    requires call in w.pcs
  {
    match w.pcs[call]
    case Reading =>
      var c := Usable(w.row, w.now);
      w.(pcs := w.pcs[call := if c.Some? then Claiming(c.value) else Finished])
    case Claiming(code) =>
      if w.row.attempts < MAX_FAILED_ATTEMPTS
      then w.(row := w.row.(attempts := w.row.attempts + 1), pcs := w.pcs[call := Checking(code)], claims := w.claims + 1)
      else w.(pcs := w.pcs[call := Finished])
    case Checking(code) => w.(pcs := w.pcs[call := if guess == code then Confirming else Finished])
    case Confirming => w.(row := Confirmed(w.row), pcs := w.pcs[call := Finished])
    case Finished => w
  }

  function Step(w: World, e: Event): World {
    match e
    case Tick(elapsed) => w.(now := w.now + elapsed)
    case SendFirst(code, at) => w.(row := Stored(w.row, code, at))
    case Resend(code, at) => w.(row := Resent(w.row, code, at))
    case Begin(call) => if call in w.pcs then w else w.(pcs := w.pcs[call := Reading])
    case Advance(call, guess) => if call in w.pcs then Move(w, call, guess) else w
  }

  function Run(w: World, events: seq<Event>): World
    decreases |events|
  {
    if events == [] then w else Run(Step(w, events[0]), events[1..])
  }

  function View(w: World): Guard {
    Guard(w.now, w.row.sentAt, w.row.attempts, w.claims)
  }

  function OpOf(w: World, e: Event): Op {
    match e
    case Tick(elapsed) => Wait(elapsed)
    case SendFirst(_, at) => Overwrite(at)
    case Resend(_, at) => Issue(at)
    case Begin(_) => Skip
    case Advance(call, _) =>
      if call !in w.pcs then Skip
      else if w.pcs[call].Claiming? then Claim
      else if w.pcs[call].Confirming? then Clear
      else Skip
  }

  function OpsOf(w: World, events: seq<Event>): seq<Op>
    decreases |events|
  {
    if events == [] then [] else [OpOf(w, events[0])] + OpsOf(Step(w, events[0]), events[1..])
  }

  lemma {:induction false} RunIsGuardRun(w: World, events: seq<Event>)
    ensures View(Run(w, events)) == AttemptGuard.Run(View(w), OpsOf(w, events))
    decreases |events|
  {
    if events != [] {
      var w' := Step(w, events[0]);
      assert View(w') == AttemptGuard.Step(View(w), OpOf(w, events[0]));
      RunIsGuardRun(w', events[1..]);
      assert OpsOf(w, events)[1..] == OpsOf(w', events[1..]);
    }
  }

  lemma {:induction false} CounterStaysInRange(w: World, events: seq<Event>)
    requires 0 <= w.row.attempts <= MAX_FAILED_ATTEMPTS
    ensures 0 <= Run(w, events).row.attempts <= MAX_FAILED_ATTEMPTS
    ensures w.row.verified ==> Run(w, events).row.verified
    decreases |events|
  {
    if events != [] {
      CounterStaysInRange(Step(w, events[0]), events[1..]);
    }
  }

  // ------------------------------------------------ how long a code is usable

  /** A stored code expires ten minutes after it was sent, and the columns come and go together. */
  predicate Dated(row: Row) {
    if row.code.Some? then row.sentAt.Some? && row.expiresAt == Some(row.sentAt.value + 600_000)
    else row.expiresAt.None? && row.sentAt.None?
  }

  lemma {:induction false} RunKeepsDated(w: World, events: seq<Event>)
    requires Dated(w.row)
    ensures Dated(Run(w, events).row)
    decreases |events|
  {
    if events != [] {
      RunKeepsDated(Step(w, events[0]), events[1..]);
    }
  }

  lemma {:induction false} FinishedStays(w: World, events: seq<Event>, call: nat)
    requires call in w.pcs && w.pcs[call].Finished?
    ensures call in Run(w, events).pcs && Run(w, events).pcs[call].Finished?
    decreases |events|
  {
    if events != [] {
      FinishedStays(Step(w, events[0]), events[1..], call);
    }
  }

  /**
   In every interleaving: a call that reads later than ten minutes after the stored code was
   sent, with none stored, or of a verified user, is over without a claim or an effect, whatever
   follows; any other goes on with the stored code.
   */
  lemma CodeIsUsableForTenMinutes(start: int, events: seq<Event>, call: nat, guess: nat, later: seq<Event>)
    requires var w := Run(World(start, Row(false, None, None, None, 0), map[], 0), events);
             call in w.pcs && w.pcs[call].Reading?
    ensures var w := Run(World(start, Row(false, None, None, None, 0), map[], 0), events);
            var read := Step(w, Advance(call, guess));
            if !w.row.verified && w.row.sentAt.Some? && w.now - w.row.sentAt.value <= 600_000
            then w.row.code.Some? && read == w.(pcs := w.pcs[call := Claiming(w.row.code.value)])
            else
              var after := Run(read, later);
              && read == w.(pcs := w.pcs[call := Finished])
              && call in after.pcs && after.pcs[call].Finished? && Step(after, Advance(call, guess)) == after
  {
    var w0 := World(start, Row(false, None, None, None, 0), map[], 0);
    RunKeepsDated(w0, events);
    var w := Run(w0, events);
    var read := Step(w, Advance(call, guess));
    if w.row.verified || w.row.sentAt.None? || w.now - w.row.sentAt.value > 600_000 {
      FinishedStays(read, later, call);
    }
  }

  /** The first code is stored unconditionally, a resent one a minute after the last at the earliest. */
  lemma CodesAreStored(w: World, code: nat, at: int)
    ensures var stored := w.(row := Row(w.row.verified, Some(code), Some(at + 600_000), Some(at), 0));
            && Step(w, SendFirst(code, at)) == stored
            && Step(w, Resend(code, at)) == if w.row.sentAt.None? || at - w.row.sentAt.value >= 60_000 then stored else w
  {
  }

  /** Refinement: the statements of one call, with nobody in between, do what `VerifyEmail` says. */
  lemma UndisturbedVerificationIsAtomic(w: World, call: nat, guess: nat)
    requires call !in w.pcs
    ensures var a := Advance(call, guess);
            var w' := Step(Step(Step(Step(Step(w, Begin(call)), a), a), a), a);
            var readable := !w.row.verified && w.row.code.Some? && w.row.expiresAt.Some? && w.now <= w.row.expiresAt.value;
            && w'.pcs == w.pcs[call := Finished]
            && w'.row == if readable && w.row.attempts < 5
                         then if w.row.code == Some(guess) then Row(true, None, None, None, 0)
                              else w.row.(attempts := w.row.attempts + 1)
                         else w.row
  {
    var a := Advance(call, guess);
    var w1 := Step(w, Begin(call));
    var w2 := Step(w1, a);
    var w3 := Step(w2, a);
    var w4 := Step(w3, a);
    assert w1.pcs == w.pcs[call := Reading];
    assert Step(w4, a).pcs == w.pcs[call := Finished];
  }

  /** No code stored and no confirmation: only waiting, reading, claiming and checking. */
  predicate OneCode(w: World, events: seq<Event>)
    decreases |events|
  {
    events == []
    || (&& !events[0].SendFirst? && !events[0].Resend? && !OpOf(w, events[0]).Clear?
        && OneCode(Step(w, events[0]), events[1..]))
  }

  lemma {:induction false} OneCodeOps(w: World, events: seq<Event>)
    requires OneCode(w, events)
    ensures forall op :: op in OpsOf(w, events) ==> StoresNothing(op)
    decreases |events|
  {
    if events != [] {
      OneCodeOps(Step(w, events[0]), events[1..]);
      assert StoresNothing(OpOf(w, events[0]));
    }
  }

  /** Whatever the interleaving, five checks per stored code, until it is confirmed or replaced. */
  lemma FiveChecksPerCode(start: int, before: seq<Event>, span: seq<Event>)
    requires OneCode(Run(World(start, Row(false, None, None, None, 0), map[], 0), before), span)
    ensures var w := Run(World(start, Row(false, None, None, None, 0), map[], 0), before);
            Run(w, span).claims - w.claims <= MAX_FAILED_ATTEMPTS - w.row.attempts
  {
    var w0 := World(start, Row(false, None, None, None, 0), map[], 0);
    CounterStaysInRange(w0, before);
    var w := Run(w0, before);
    OneCodeOps(w, span);
    RunIsGuardRun(w, span);
    AtMostFivePerCode(View(w), OpsOf(w, span));
  }
}
