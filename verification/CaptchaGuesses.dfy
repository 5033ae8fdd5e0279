/**
 How many wrong guesses one captcha withstands.  A guess is compared before it is
 counted, so calls that overlap can all compare before the first of them counts.
 */
module CaptchaGuesses {
  import opened Options
  import opened FiniteSets
  import opened CaptchaKeys
  import opened CaptchaStore
  import opened CaptchaTheorems

  /** The wrong guesses that `max_failed_attempts` is meant to allow: the last of them deletes the captcha. */
  function Allowance(maxFailed: nat): nat {
    if maxFailed == 0 then 1 else maxFailed
  }

  predicate Alive(db: Db, now: nat, account: string, openid: string) {
    Get(db, now, CaptchaKey(account, openid)).Some?
  }

  /** The event compares a wrong guess with the captcha of `openid`. */
  predicate Misses(sys: System, e: Event, s: Settings, openid: string) {
    && PcOf(sys, e.p).Idle? && e.start.StartVerify? && e.start.openid == openid && e.reply.Fine?
    && var stored := Peek(sys.db, e.now, CaptchaKey(s.account, openid));
       stored.Some? && !EqIgnoreAsciiCase(stored.value.0, e.start.given)
  }

  /** Wrong guesses at the captcha `openid` holds now, until a new one takes its place. */
  function WrongGuesses(sys: System, run: seq<Event>, s: Settings, openid: string): nat
    decreases |run|
  {
    if run == [] || Generates(sys, run[0], s, openid) then 0
    else (if Misses(sys, run[0], s, openid) then 1 else 0) + WrongGuesses(Act(sys, run[0], s), run[1..], s, openid)
  }

  /** The event resets the counter while the captcha is alive: the late end of an older call, or of the generating one. */
  predicate Clears(sys: System, e: Event, s: Settings, openid: string) {
    PcOf(sys, e.p) == Clearing(openid) && !e.reply.Lost? && Alive(sys.db, e.now, s.account, openid)
  }

  function ClearCount(sys: System, run: seq<Event>, s: Settings, openid: string): nat
    decreases |run|
  {
    if run == [] || Generates(sys, run[0], s, openid) then 0
    else (if Clears(sys, run[0], s, openid) then 1 else 0) + ClearCount(Act(sys, run[0], s), run[1..], s, openid)
  }

  /** The event counts a guess on a counter that has expired while the captcha is alive: the count starts afresh. */
  predicate Lapses(sys: System, e: Event, s: Settings, openid: string) {
    var att := AttemptsKey(CaptchaKey(s.account, openid));
    && PcOf(sys, e.p) == Mismatched(openid) && !e.reply.Lost? && Alive(sys.db, e.now, s.account, openid)
    && att in sys.db && !Lasts(sys.db[att], e.now)
  }

  function LapseCount(sys: System, run: seq<Event>, s: Settings, openid: string): nat
    decreases |run|
  {
    if run == [] || Generates(sys, run[0], s, openid) then 0
    else (if Lapses(sys, run[0], s, openid) then 1 else 0) + LapseCount(Act(sys, run[0], s), run[1..], s, openid)
  }

  /** A wrong guess has been compared and is not counted yet, or was the last one allowed and is about to delete the captcha. */
  predicate Pending(pc: Pc, openid: string, s: Settings) {
    && (|| pc.Mismatched? || (pc.Counting? && pc.attempts >= s.maxFailed)
        || pc.GivingUp? || pc.DroppingIndex? || pc.DroppingCaptcha?)
    && pc.openid == openid
  }

  /** The event is a failed command of that bookkeeping. */
  predicate Fails(sys: System, e: Event, s: Settings, openid: string) {
    Pending(PcOf(sys, e.p), openid, s) && !e.reply.Fine?
  }

  function FailCount(sys: System, run: seq<Event>, s: Settings, openid: string): nat
    decreases |run|
  {
    if run == [] || Generates(sys, run[0], s, openid) then 0
    else (if Fails(sys, run[0], s, openid) then 1 else 0) + FailCount(Act(sys, run[0], s), run[1..], s, openid)
  }

  function PendingCalls(sys: System, s: Settings, openid: string): set<nat> {
    set p | p in sys.pcs && Pending(sys.pcs[p], openid, s)
  }

  /** The calls of `openid` in flight. */
  function Busy(sys: System, openid: string): set<nat> {
    set p | p in sys.pcs && !sys.pcs[p].Idle? && sys.pcs[p].openid == openid
  }

  /** At most `k` calls of `openid` are in flight at any moment of the run. */
  ghost predicate AtMost(sys: System, run: seq<Event>, s: Settings, openid: string, k: nat)
    decreases |run|
  {
    |Busy(sys, openid)| <= k && (run == [] || AtMost(Act(sys, run[0], s), run[1..], s, openid, k))
  }

  /** The clock does not run back, and no openid ends in `:attempts`. */
  ghost predicate InOrder(from: nat, run: seq<Event>)
    decreases |run|
  {
    run == [] || (from <= run[0].now && !EndsInAttempts(run[0].start.openid) && InOrder(run[0].now, run[1..]))
  }

  ghost predicate Answered(run: seq<Event>) {
    forall i :: 0 <= i < |run| ==> run[i].reply.Fine?
  }

  /** What every reachable state satisfies: proper openids, and a number under the attempts key. */
  ghost predicate Plain(sys: System, account: string, openid: string) {
    && !EndsInAttempts(openid)
    && (forall p :: p in sys.pcs && !sys.pcs[p].Idle? ==> !EndsInAttempts(sys.pcs[p].openid))
    && var att := AttemptsKey(CaptchaKey(account, openid));
       att in sys.db ==> sys.db[att].value.Count?
  }

  /** The captcha, if there is one, was stored by now. */
  predicate StoredByNow(db: Db, now: nat, s: Settings, openid: string) {
    var key := CaptchaKey(s.account, openid);
    key in db ==> db[key].expireAt.Some? && db[key].expireAt.value <= now + s.ttl
  }

  /** The counter outlives every captcha, or the first wrong guess is the last anyway. */
  predicate CounterLasts(s: Settings) {
    s.ttl <= ATTEMPTS_TTL || s.maxFailed <= 1
  }

  /** Whatever counter there is outlives the captcha. */
  predicate CounterKept(db: Db, s: Settings, openid: string) {
    var key := CaptchaKey(s.account, openid);
    key in db && AttemptsKey(key) in db ==> Outlasts(db[AttemptsKey(key)], db[key])
  }

  /** Wrong guesses that can still be counted before one of them deletes the captcha, unless the counter is lost. */
  function Left(db: Db, s: Settings, openid: string): nat {
    var att := AttemptsKey(CaptchaKey(s.account, openid));
    var all := Allowance(s.maxFailed) - 1;
    if att !in db || !db[att].value.Count? then all
    else if db[att].value.count < all then all - db[att].value.count
    else 0
  }

  // ------------------------------------------------------------------- keys

  predicate SameAt(a: Db, b: Db, key: string) {
    (key in a <==> key in b) && (key in a ==> a[key] == b[key])
  }

  lemma NoIndexKey(account: string, openid: string)
    ensures forall code :: CodeIndexKey(account, code) != CaptchaKey(account, openid)
    ensures forall code :: CodeIndexKey(account, code) != AttemptsKey(CaptchaKey(account, openid))
  {
    AttemptsKeyIsCaptchaKey(account, openid);
    forall code ensures CodeIndexKey(account, code) != CaptchaKey(account, openid) {
      CaptchaKeyIsNoIndexKey(account, openid, code);
    }
    forall code ensures CodeIndexKey(account, code) != AttemptsKey(CaptchaKey(account, openid)) {
      CaptchaKeyIsNoIndexKey(account, openid + ":attempts", code);
    }
  }

  lemma NoDerivedKey(account: string, acting: string, openid: string)
    ensures forall code :: var d := DerivedIndexKey(CaptchaKey(account, acting), code);
              d.Some? ==> d.value != CaptchaKey(account, openid) && d.value != AttemptsKey(CaptchaKey(account, openid))
  {
    AttemptsKeyIsCaptchaKey(account, openid);
    forall code
      ensures var d := DerivedIndexKey(CaptchaKey(account, acting), code);
              d.Some? ==> d.value != CaptchaKey(account, openid) && d.value != AttemptsKey(CaptchaKey(account, openid))
    {
      if DerivedIndexKey(CaptchaKey(account, acting), code).Some? {
        DerivedKeyElsewhere(account, acting, code, openid);
        DerivedKeyElsewhere(account, acting, code, openid + ":attempts");
      }
    }
  }

  lemma KeysApart(account: string, openid: string, other: string)
    requires openid != other && !EndsInAttempts(openid) && !EndsInAttempts(other)
    ensures var key, another := CaptchaKey(account, openid), CaptchaKey(account, other);
            key != another && key != AttemptsKey(another) && AttemptsKey(key) != another && AttemptsKey(key) != AttemptsKey(another)
  {
    var key, another := CaptchaKey(account, openid), CaptchaKey(account, other);
    if key == another { CaptchaKeysDiffer(account, openid, other); }
    AttemptsAreApart(account, other, openid, "");
    AttemptsAreApart(account, openid, other, "");
    assert AttemptsKey(key)[..|AttemptsKey(key)| - 9] == key && AttemptsKey(another)[..|AttemptsKey(another)| - 9] == another;
  }

  lemma OwnKeysApart(account: string, openid: string)
    ensures AttemptsKey(CaptchaKey(account, openid)) != CaptchaKey(account, openid)
  {
  }

  // ------------------------------------------------------------------ events

  function Acting(sys: System, e: Event): string {
    if PcOf(sys, e.p).Idle? then e.start.openid else PcOf(sys, e.p).openid
  }

  /** An event of another openid touches neither the captcha nor the counter of this one. */
  lemma OthersLeaveIt(sys: System, e: Event, s: Settings, openid: string)
    requires Acting(sys, e) != openid && !EndsInAttempts(Acting(sys, e)) && !EndsInAttempts(openid)
    ensures var key, after := CaptchaKey(s.account, openid), Act(sys, e, s).db;
            SameAt(sys.db, after, key) && SameAt(sys.db, after, AttemptsKey(key))
  {
    KeysApart(s.account, openid, Acting(sys, e));
    NoIndexKey(s.account, openid);
    NoDerivedKey(s.account, Acting(sys, e), openid);
    hide CaptchaKey;
    hide CodeIndexKey;
    hide AttemptsKey;
    hide DerivedIndexKey;
    hide EqIgnoreAsciiCase;
    hide SplitStored;
    hide StoredValue;
    hide EndsInAttempts;
  }

  lemma NextPc(sys: System, e: Event, s: Settings)
    ensures forall q :: q != e.p ==> PcOf(Act(sys, e, s), q) == PcOf(sys, q)
    ensures e.p in Act(sys, e, s).pcs
    ensures var pc := PcOf(Act(sys, e, s), e.p); pc.Idle? || pc.openid == Acting(sys, e)
  {
  }

  lemma EventKeepsPlain(sys: System, e: Event, s: Settings, openid: string)
    requires Plain(sys, s.account, openid) && !EndsInAttempts(e.start.openid)
    ensures Plain(Act(sys, e, s), s.account, openid)
    ensures !EndsInAttempts(Acting(sys, e))
  {
    NextPc(sys, e, s);
    var sys' := Act(sys, e, s);
    assert forall p :: p in sys.pcs ==> PcOf(sys, p) == sys.pcs[p];
    assert forall p :: p in sys'.pcs ==> PcOf(sys', p) == sys'.pcs[p];
    assert forall p :: p in sys'.pcs && p != e.p ==> p in sys.pcs;
    if Acting(sys, e) != openid {
      OthersLeaveIt(sys, e, s, openid);
    } else {
      OwnEventKeepsNumber(sys, e, s, openid);
    }
    hide Act;
    hide EndsInAttempts;
    hide CaptchaKey;
  }

  lemma OwnEventKeepsNumber(sys: System, e: Event, s: Settings, openid: string)
    requires Acting(sys, e) == openid
    requires var att := AttemptsKey(CaptchaKey(s.account, openid)); att in sys.db ==> sys.db[att].value.Count?
    ensures var att, after := AttemptsKey(CaptchaKey(s.account, openid)), Act(sys, e, s).db;
            att in after ==> after[att].value.Count?
  {
    OwnKeysApart(s.account, openid);
    NoIndexKey(s.account, openid);
    NoDerivedKey(s.account, openid, openid);
    hide CaptchaKey;
    hide CodeIndexKey;
    hide AttemptsKey;
    hide DerivedIndexKey;
    hide EqIgnoreAsciiCase;
    hide SplitStored;
    hide StoredValue;
  }

  /** Only the generation of a new captcha brings one back. */
  lemma DeadStaysDead(sys: System, e: Event, s: Settings, openid: string)
    requires Plain(sys, s.account, openid) && !EndsInAttempts(e.start.openid)
    requires !Alive(sys.db, e.now, s.account, openid) && !Generates(sys, e, s, openid)
    ensures !Alive(Act(sys, e, s).db, e.now, s.account, openid)
  {
    EventKeepsPlain(sys, e, s, openid);
    if Acting(sys, e) != openid {
      OthersLeaveIt(sys, e, s, openid);
      hide Act;
      hide CaptchaKey;
      hide Generates;
    } else {
      OwnKeysApart(s.account, openid);
      NoIndexKey(s.account, openid);
      hide CaptchaKey;
      hide CodeIndexKey;
      hide AttemptsKey;
      hide DerivedIndexKey;
      hide EqIgnoreAsciiCase;
      hide SplitStored;
      hide StoredValue;
      hide Plain;
    }
  }

  lemma {:induction false} DeadIsNotGuessed(sys: System, from: nat, run: seq<Event>, s: Settings, openid: string)
    requires Plain(sys, s.account, openid) && InOrder(from, run) && !Alive(sys.db, from, s.account, openid)
    ensures WrongGuesses(sys, run, s, openid) == 0 && LapseCount(sys, run, s, openid) == 0
    decreases |run|
  {
    if run != [] && !Generates(sys, run[0], s, openid) {
      var e := run[0];
      assert !Alive(sys.db, e.now, s.account, openid);
      DeadStaysDead(sys, e, s, openid);
      EventKeepsPlain(sys, e, s, openid);
      assert !Misses(sys, e, s, openid) && !Lapses(sys, e, s, openid);
      hide Act;
      DeadIsNotGuessed(Act(sys, e, s), e.now, run[1..], s, openid);
    }
  }

  // ---------------------------------------------------------------- potential

  function Num(b: bool): nat {
    if b then 1 else 0
  }

  /** What a reset or an expiry of the counter gives back. */
  function Refund(sys: System, e: Event, s: Settings, openid: string): nat {
    if Clears(sys, e, s, openid) || Lapses(sys, e, s, openid) then Allowance(s.maxFailed) - 1 else 0
  }

  /** One event of the openid itself: a comparison becomes pending, and leaves that state counted, failed or fatal. */
  lemma OwnEventBalance(sys: System, e: Event, s: Settings, openid: string)
    requires Acting(sys, e) == openid && Plain(sys, s.account, openid) && Alive(sys.db, e.now, s.account, openid)
    ensures var sys', pc := Act(sys, e, s), PcOf(sys, e.p);
            Alive(sys'.db, e.now, s.account, openid) ==>
              Num(Misses(sys, e, s, openid)) + Num(Pending(pc, openid, s)) + Left(sys'.db, s, openid)
              <= Num(Pending(PcOf(sys', e.p), openid, s)) + Left(sys.db, s, openid)
                 + Refund(sys, e, s, openid) + Num(Fails(sys, e, s, openid))
  {
    OwnKeysApart(s.account, openid);
    NoIndexKey(s.account, openid);
    NoDerivedKey(s.account, openid, openid);
    hide CaptchaKey;
    hide CodeIndexKey;
    hide AttemptsKey;
    hide DerivedIndexKey;
    hide EqIgnoreAsciiCase;
    hide SplitStored;
    hide StoredValue;
    hide EndsInAttempts;
  }

  lemma PendingMoves(sys: System, e: Event, s: Settings, openid: string)
    ensures |PendingCalls(Act(sys, e, s), s, openid)| + Num(Pending(PcOf(sys, e.p), openid, s))
         == |PendingCalls(sys, s, openid)| + Num(Pending(PcOf(Act(sys, e, s), e.p), openid, s))
  {
    var sys' := Act(sys, e, s);
    NextPc(sys, e, s);
    hide Act;
    hide Pending;
    forall q ensures q != e.p ==> (q in PendingCalls(sys, s, openid) <==> q in PendingCalls(sys', s, openid)) {
      PendingByPc(sys, q, s, openid);
      PendingByPc(sys', q, s, openid);
    }
    PendingByPc(sys, e.p, s, openid);
    PendingByPc(sys', e.p, s, openid);
    DifferInOne(PendingCalls(sys, s, openid), PendingCalls(sys', s, openid), e.p);
    hide PendingCalls;
  }

  lemma PendingByPc(sys: System, q: nat, s: Settings, openid: string)
    ensures q in PendingCalls(sys, s, openid) <==> Pending(PcOf(sys, q), openid, s)
  {
  }

  lemma DifferInOne(a: set<nat>, b: set<nat>, p: nat)
    requires forall q :: q != p ==> (q in a <==> q in b)
    ensures |b| + Num(p in a) == |a| + Num(p in b)
  {
    assert a - {p} == b - {p};
    assert a == if p in a then (a - {p}) + {p} else a - {p};
    assert b == if p in b then (b - {p}) + {p} else b - {p};
  }

  lemma PendingAreBusy(sys: System, s: Settings, openid: string)
    ensures |PendingCalls(sys, s, openid)| <= |Busy(sys, openid)|
  {
    SubsetIsNoLarger(PendingCalls(sys, s, openid), Busy(sys, openid));
  }

  lemma EventBalance(sys: System, e: Event, s: Settings, openid: string)
    requires Plain(sys, s.account, openid) && !EndsInAttempts(e.start.openid)
    requires Alive(sys.db, e.now, s.account, openid)
    ensures var sys' := Act(sys, e, s);
            Alive(sys'.db, e.now, s.account, openid) ==>
              Num(Misses(sys, e, s, openid)) + |PendingCalls(sys, s, openid)| + Left(sys'.db, s, openid)
              <= |PendingCalls(sys', s, openid)| + Left(sys.db, s, openid)
                 + Refund(sys, e, s, openid) + Num(Fails(sys, e, s, openid))
  {
    PendingMoves(sys, e, s, openid);
    EventKeepsPlain(sys, e, s, openid);
    if Acting(sys, e) == openid {
      OwnEventBalance(sys, e, s, openid);
    } else {
      OthersLeaveIt(sys, e, s, openid);
      NextPc(sys, e, s);
      assert !Pending(PcOf(sys, e.p), openid, s) && !Pending(PcOf(Act(sys, e, s), e.p), openid, s);
      assert !Misses(sys, e, s, openid);
    }
    hide Act;
    hide CaptchaKey;
    hide AttemptsKey;
    hide Pending;
    hide Misses;
    hide Clears;
    hide PendingCalls;
  }

  /** What the resets and expiries in a run give back. */
  function Refunds(sys: System, run: seq<Event>, s: Settings, openid: string): nat
    decreases |run|
  {
    if run == [] || Generates(sys, run[0], s, openid) then 0
    else Refund(sys, run[0], s, openid) + Refunds(Act(sys, run[0], s), run[1..], s, openid)
  }

  lemma {:induction false} EachRefundIsTheSame(sys: System, run: seq<Event>, s: Settings, openid: string)
    ensures Refunds(sys, run, s, openid)
         == (ClearCount(sys, run, s, openid) + LapseCount(sys, run, s, openid)) * (Allowance(s.maxFailed) - 1)
    decreases |run|
  {
    if run != [] && !Generates(sys, run[0], s, openid) {
      var sys' := Act(sys, run[0], s);
      EachRefundIsTheSame(sys', run[1..], s, openid);
      hide Act;
      hide Generates;
      hide AttemptsKey;
      hide CaptchaKey;
      var here := Num(Clears(sys, run[0], s, openid)) + Num(Lapses(sys, run[0], s, openid));
      var rest := ClearCount(sys', run[1..], s, openid) + LapseCount(sys', run[1..], s, openid);
      assert ClearCount(sys, run, s, openid) + LapseCount(sys, run, s, openid) == rest + here;
      assert Refund(sys, run[0], s, openid) == here * (Allowance(s.maxFailed) - 1);
      Distribute(rest, here, Allowance(s.maxFailed) - 1);
      hide *;
    }
  }

  /** A dead captcha takes no guesses; otherwise the pending ones and the counter pay for them. */
  lemma {:induction false} GuessesArePaidFor(sys: System, from: nat, run: seq<Event>, s: Settings, openid: string, k: nat)
    requires Plain(sys, s.account, openid) && InOrder(from, run) && AtMost(sys, run, s, openid, k)
    requires Alive(sys.db, from, s.account, openid)
    ensures WrongGuesses(sys, run, s, openid) + |PendingCalls(sys, s, openid)|
         <= Refunds(sys, run, s, openid) + FailCount(sys, run, s, openid) + Left(sys.db, s, openid) + k
    decreases |run|
  {
    PendingAreBusy(sys, s, openid);
    if run == [] || Generates(sys, run[0], s, openid) {
      assert WrongGuesses(sys, run, s, openid) == 0;
    } else {
      var e := run[0];
      var sys' := Act(sys, e, s);
      if !Alive(sys.db, e.now, s.account, openid) {
        DeadIsNotGuessed(sys, e.now, run, s, openid);
      } else {
        EventBalance(sys, e, s, openid);
        EventKeepsPlain(sys, e, s, openid);
        Unfold(sys, run, s, openid);
        assert InOrder(e.now, run[1..]) && AtMost(sys', run[1..], s, openid, k);
        hide *;
        if Alive(sys'.db, e.now, s.account, openid) {
          GuessesArePaidFor(sys', e.now, run[1..], s, openid, k);
        } else {
          DeadIsNotGuessed(sys', e.now, run[1..], s, openid);
          LastMissIsNone(sys, e, s, openid);
        }
      }
      hide *;
    }
  }

  lemma Unfold(sys: System, run: seq<Event>, s: Settings, openid: string)
    requires run != [] && !Generates(sys, run[0], s, openid)
    ensures WrongGuesses(sys, run, s, openid)
         == Num(Misses(sys, run[0], s, openid)) + WrongGuesses(Act(sys, run[0], s), run[1..], s, openid)
    ensures FailCount(sys, run, s, openid)
         == Num(Fails(sys, run[0], s, openid)) + FailCount(Act(sys, run[0], s), run[1..], s, openid)
    ensures Refunds(sys, run, s, openid)
         == Refund(sys, run[0], s, openid) + Refunds(Act(sys, run[0], s), run[1..], s, openid)
  {
    hide Act;
    hide Misses;
    hide Fails;
    hide Refund;
    hide Generates;
  }

  lemma Distribute(x: nat, y: nat, a: nat)
    ensures (x + y) * a == x * a + y * a
  {
  }

  /** A comparison leaves the captcha alone. */
  lemma LastMissIsNone(sys: System, e: Event, s: Settings, openid: string)
    requires !Alive(Act(sys, e, s).db, e.now, s.account, openid)
    ensures !Misses(sys, e, s, openid)
  {
  }

  /**
   The bound on every run.  However many calls overlap, and whichever of their commands fail:
   wrong guesses at one captcha stay within the allowance less one, once more for each
   reset or expiry of the counter while it is alive, plus the calls in flight at most and
   the bookkeeping commands that fail.
   */
  lemma GuessesWithOverlap(sys: System, from: nat, run: seq<Event>, s: Settings, openid: string, k: nat)
    requires Plain(sys, s.account, openid) && InOrder(from, run) && AtMost(sys, run, s, openid, k)
    ensures WrongGuesses(sys, run, s, openid)
         <= (ClearCount(sys, run, s, openid) + LapseCount(sys, run, s, openid) + 1) * (Allowance(s.maxFailed) - 1)
            + k + FailCount(sys, run, s, openid)
  {
    EachRefundIsTheSame(sys, run, s, openid);
    Distribute(ClearCount(sys, run, s, openid) + LapseCount(sys, run, s, openid), 1, Allowance(s.maxFailed) - 1);
    if Alive(sys.db, from, s.account, openid) {
      GuessesArePaidFor(sys, from, run, s, openid, k);
    } else {
      DeadIsNotGuessed(sys, from, run, s, openid);
    }
  }

  // ------------------------------------------------- once generation is over

  /** No call is on its way to reset the counter. */
  ghost predicate Settled(sys: System, openid: string) {
    forall p :: !(PcOf(sys, p).Indexing? && PcOf(sys, p).openid == openid) && PcOf(sys, p) != Clearing(openid)
  }

  /** A call that reaches its reset without generating anew has just removed the captcha. */
  lemma StaysSettled(sys: System, e: Event, s: Settings, openid: string)
    requires Settled(sys, openid) && !Generates(sys, e, s, openid)
    requires Alive(sys.db, e.now, s.account, openid) && Alive(Act(sys, e, s).db, e.now, s.account, openid)
    ensures Settled(Act(sys, e, s), openid)
  {
    NextPc(sys, e, s);
    OwnKeysApart(s.account, openid);
    NoIndexKey(s.account, openid);
    NoDerivedKey(s.account, openid, openid);
    hide CaptchaKey;
    hide CodeIndexKey;
    hide AttemptsKey;
    hide DerivedIndexKey;
    hide EqIgnoreAsciiCase;
    hide SplitStored;
    hide StoredValue;
  }

  lemma {:induction false} SettledRunHasNoClears(sys: System, from: nat, run: seq<Event>, s: Settings, openid: string)
    requires Plain(sys, s.account, openid) && InOrder(from, run)
    requires Settled(sys, openid) || !Alive(sys.db, from, s.account, openid)
    ensures ClearCount(sys, run, s, openid) == 0
    decreases |run|
  {
    if run != [] && !Generates(sys, run[0], s, openid) {
      var e := run[0];
      EventKeepsPlain(sys, e, s, openid);
      if Alive(sys.db, e.now, s.account, openid) {
        if Alive(Act(sys, e, s).db, e.now, s.account, openid) { StaysSettled(sys, e, s, openid); }
      } else {
        DeadStaysDead(sys, e, s, openid);
      }
      hide Act;
      SettledRunHasNoClears(Act(sys, e, s), e.now, run[1..], s, openid);
    }
  }

  lemma {:induction false} AnsweredRunHasNoFailures(sys: System, run: seq<Event>, s: Settings, openid: string)
    requires Answered(run)
    ensures FailCount(sys, run, s, openid) == 0
    decreases |run|
  {
    if run != [] {
      AnsweredRunHasNoFailures(Act(sys, run[0], s), run[1..], s, openid);
    }
  }

  /** With no reset on its way: the allowance less one, once more for each expiry, plus the calls in flight. */
  lemma GuessesOnceSettled(sys: System, from: nat, run: seq<Event>, s: Settings, openid: string, k: nat)
    requires Plain(sys, s.account, openid) && InOrder(from, run) && AtMost(sys, run, s, openid, k) && Answered(run)
    requires Settled(sys, openid)
    ensures WrongGuesses(sys, run, s, openid) <= (LapseCount(sys, run, s, openid) + 1) * (Allowance(s.maxFailed) - 1) + k
  {
    GuessesWithOverlap(sys, from, run, s, openid, k);
    SettledRunHasNoClears(sys, from, run, s, openid);
    AnsweredRunHasNoFailures(sys, run, s, openid);
  }

  // ------------------------------------------------ a counter that is not lost

  /** A counter started or renewed at `now` outlives a captcha stored by then. */
  lemma EventKeepsCounter(sys: System, e: Event, s: Settings, openid: string)
    requires Plain(sys, s.account, openid) && !EndsInAttempts(e.start.openid)
    requires Alive(sys.db, e.now, s.account, openid) && Alive(Act(sys, e, s).db, e.now, s.account, openid)
    requires StoredByNow(sys.db, e.now, s, openid) && s.ttl <= ATTEMPTS_TTL && CounterKept(sys.db, s, openid)
    ensures StoredByNow(Act(sys, e, s).db, e.now, s, openid) && CounterKept(Act(sys, e, s).db, s, openid)
  {
    EventKeepsPlain(sys, e, s, openid);
    if Acting(sys, e) != openid {
      OthersLeaveIt(sys, e, s, openid);
      hide Act;
    } else {
      OwnKeysApart(s.account, openid);
      NoIndexKey(s.account, openid);
      NoDerivedKey(s.account, openid, openid);
    }
    hide CaptchaKey;
    hide CodeIndexKey;
    hide AttemptsKey;
    hide DerivedIndexKey;
    hide EqIgnoreAsciiCase;
    hide SplitStored;
    hide StoredValue;
    hide EndsInAttempts;
    hide Plain;
  }

  lemma {:induction false} KeptCounterNeverLapses(sys: System, from: nat, run: seq<Event>, s: Settings, openid: string)
    requires Plain(sys, s.account, openid) && InOrder(from, run)
    requires StoredByNow(sys.db, from, s, openid) && s.ttl <= ATTEMPTS_TTL && CounterKept(sys.db, s, openid)
    ensures LapseCount(sys, run, s, openid) == 0
    decreases |run|
  {
    if run != [] && !Generates(sys, run[0], s, openid) {
      var e := run[0];
      var sys' := Act(sys, e, s);
      EventKeepsPlain(sys, e, s, openid);
      NoLapseNow(sys, e, s, openid);
      if !Alive(sys.db, e.now, s.account, openid) {
        DeadIsNotGuessed(sys, e.now, run, s, openid);
      } else if !Alive(sys'.db, e.now, s.account, openid) {
        hide Act;
        DeadIsNotGuessed(sys', e.now, run[1..], s, openid);
      } else {
        EventKeepsCounter(sys, e, s, openid);
        hide Act;
        KeptCounterNeverLapses(sys', e.now, run[1..], s, openid);
      }
    }
  }

  lemma NoLapseNow(sys: System, e: Event, s: Settings, openid: string)
    requires CounterKept(sys.db, s, openid)
    ensures !Lapses(sys, e, s, openid)
  {
    hide CaptchaKey;
    hide AttemptsKey;
  }

  // -------------------------------------------- one call at a time, from the start

  lemma AnyTwoAreTwo(sys: System, openid: string, p: nat, q: nat)
    requires p in Busy(sys, openid) && q in Busy(sys, openid) && p != q
    ensures |Busy(sys, openid)| >= 2
  {
    SubsetIsNoLarger({p, q}, Busy(sys, openid));
  }

  /** While the generating call is under way nobody else is, and nothing is guessed or counted. */
  lemma {:induction false} GuessesOneAtATime(sys: System, from: nat, run: seq<Event>, s: Settings, openid: string, p: nat)
    requires Plain(sys, s.account, openid) && InOrder(from, run) && AtMost(sys, run, s, openid, 1) && Answered(run)
    requires StoredByNow(sys.db, from, s, openid)
    requires PcOf(sys, p) == Clearing(openid) || (PcOf(sys, p).Indexing? && PcOf(sys, p).openid == openid)
    ensures WrongGuesses(sys, run, s, openid) <= (LapseCount(sys, run, s, openid) + 1) * (Allowance(s.maxFailed) - 1) + 1
    ensures s.ttl <= ATTEMPTS_TTL ==> LapseCount(sys, run, s, openid) == 0
    decreases |run|
  {
    if run != [] && !Generates(sys, run[0], s, openid) {
      var e := run[0];
      var sys' := Act(sys, e, s);
      assert p in Busy(sys, openid);
      EventKeepsPlain(sys, e, s, openid);
      if !Alive(sys.db, e.now, s.account, openid) {
        DeadIsNotGuessed(sys, e.now, run, s, openid);
      } else if e.p == p {
        OwnersEvent(sys, e, s, openid);
        assert !Misses(sys, e, s, openid) && !Lapses(sys, e, s, openid);
        if PcOf(sys', p).Idle? {
          OnlyOwnerBusy(sys, e, s, openid);
          hide *;
          AfterGeneration(sys, run, s, openid);
        } else {
          GuessesOneAtATime(sys', e.now, run[1..], s, openid, p);
        }
      } else {
        OthersEvent(sys, e, s, openid, p);
        GuessesOneAtATime(sys', e.now, run[1..], s, openid, p);
      }
    }
  }

  /** The generating call has just reset the counter. */
  lemma AfterGeneration(sys: System, run: seq<Event>, s: Settings, openid: string)
    requires run != [] && !Generates(sys, run[0], s, openid) && Answered(run)
    requires !Misses(sys, run[0], s, openid) && !Lapses(sys, run[0], s, openid)
    requires var sys' := Act(sys, run[0], s);
             && Plain(sys', s.account, openid) && InOrder(run[0].now, run[1..]) && AtMost(sys', run[1..], s, openid, 1)
             && StoredByNow(sys'.db, run[0].now, s, openid) && Settled(sys', openid)
             && AttemptsKey(CaptchaKey(s.account, openid)) !in sys'.db
    ensures WrongGuesses(sys, run, s, openid) <= (LapseCount(sys, run, s, openid) + 1) * (Allowance(s.maxFailed) - 1) + 1
    ensures s.ttl <= ATTEMPTS_TTL ==> LapseCount(sys, run, s, openid) == 0
  {
    var sys' := Act(sys, run[0], s);
    hide Act;
    hide Misses;
    hide Lapses;
    hide Generates;
    hide CaptchaKey;
    hide AttemptsKey;
    GuessesOnceSettled(sys', run[0].now, run[1..], s, openid, 1);
    if s.ttl <= ATTEMPTS_TTL {
      KeptCounterNeverLapses(sys', run[0].now, run[1..], s, openid);
    }
  }

  lemma OwnersEvent(sys: System, e: Event, s: Settings, openid: string)
    requires StoredByNow(sys.db, e.now, s, openid) && e.reply.Fine?
    requires PcOf(sys, e.p) == Clearing(openid) || (PcOf(sys, e.p).Indexing? && PcOf(sys, e.p).openid == openid)
    ensures var sys' := Act(sys, e, s);
            && StoredByNow(sys'.db, e.now, s, openid)
            && (PcOf(sys', e.p) == if PcOf(sys, e.p).Indexing? then Clearing(openid) else Idle)
            && (PcOf(sys', e.p).Idle? ==> AttemptsKey(CaptchaKey(s.account, openid)) !in sys'.db)
  {
    NoIndexKey(s.account, openid);
    OwnKeysApart(s.account, openid);
    hide CaptchaKey;
    hide CodeIndexKey;
    hide AttemptsKey;
  }

  /** When the only call in flight ends, none is left. */
  lemma OnlyOwnerBusy(sys: System, e: Event, s: Settings, openid: string)
    requires e.p in Busy(sys, openid) && |Busy(sys, openid)| <= 1 && PcOf(Act(sys, e, s), e.p).Idle?
    ensures Settled(Act(sys, e, s), openid)
  {
    NextPc(sys, e, s);
    var sys' := Act(sys, e, s);
    forall q | q != e.p ensures q !in Busy(sys, openid) {
      if q in Busy(sys, openid) { AnyTwoAreTwo(sys, openid, e.p, q); }
    }
    forall q
      ensures !(PcOf(sys', q).Indexing? && PcOf(sys', q).openid == openid) && PcOf(sys', q) != Clearing(openid)
    {
      if q != e.p {
        assert PcOf(sys', q) == PcOf(sys, q) && q !in Busy(sys, openid);
        assert PcOf(sys, q).Idle? || PcOf(sys, q).openid != openid;
      }
    }
  }

  /** Whoever else acts works for another openid, or is turned away at once. */
  lemma OthersEvent(sys: System, e: Event, s: Settings, openid: string, p: nat)
    requires Plain(sys, s.account, openid) && !EndsInAttempts(e.start.openid) && e.reply.Fine?
    requires e.p != p && p in Busy(sys, openid)
    requires |Busy(sys, openid)| <= 1 && |Busy(Act(sys, e, s), openid)| <= 1
    requires StoredByNow(sys.db, e.now, s, openid) && Alive(sys.db, e.now, s.account, openid)
    ensures var sys' := Act(sys, e, s);
            && PcOf(sys', p) == PcOf(sys, p) && StoredByNow(sys'.db, e.now, s, openid)
            && !Misses(sys, e, s, openid) && !Lapses(sys, e, s, openid)
  {
    var sys' := Act(sys, e, s);
    NextPc(sys, e, s);
    EventKeepsPlain(sys, e, s, openid);
    assert p in Busy(sys', openid);
    if Acting(sys, e) != openid {
      OthersLeaveIt(sys, e, s, openid);
    } else {
      if e.p in Busy(sys, openid) { AnyTwoAreTwo(sys, openid, p, e.p); }
      if e.p in Busy(sys', openid) { AnyTwoAreTwo(sys', openid, p, e.p); }
      assert PcOf(sys, e.p).Idle? && PcOf(sys', e.p).Idle?;
      TurnedAway(sys, e, s, openid);
    }
    assert PcOf(sys, e.p) != Mismatched(openid);
    hide Act;
    hide CaptchaKey;
    hide Misses;
  }

  lemma TurnedAway(sys: System, e: Event, s: Settings, openid: string)
    requires PcOf(sys, e.p).Idle? && PcOf(Act(sys, e, s), e.p).Idle? && e.reply.Fine?
    ensures Act(sys, e, s).db == sys.db && !Misses(sys, e, s, openid) && !Lapses(sys, e, s, openid)
  {
  }

  /**
   From its generation on, as long as the calls of the openid do not overlap and
   Redis answers: the limit, and the limit less one again for each expiry of the counter.
   */
  lemma GuessesWithoutOverlap(sys: System, e: Event, run: seq<Event>, s: Settings, openid: string)
    requires Plain(sys, s.account, openid) && !EndsInAttempts(e.start.openid) && InOrder(e.now, run)
    requires Generates(sys, e, s, openid) && e.reply.Fine? && Answered(run)
    requires AtMost(Act(sys, e, s), run, s, openid, 1)
    ensures WrongGuesses(Act(sys, e, s), run, s, openid)
         <= (LapseCount(Act(sys, e, s), run, s, openid) + 1) * (Allowance(s.maxFailed) - 1) + 1
    ensures s.ttl <= ATTEMPTS_TTL ==> LapseCount(Act(sys, e, s), run, s, openid) == 0
  {
    EventKeepsPlain(sys, e, s, openid);
    assert StoredByNow(Act(sys, e, s).db, e.now, s, openid);
    GuessesOneAtATime(Act(sys, e, s), e.now, run, s, openid, e.p);
  }

  /** If moreover the counter outlives every captcha, or the limit is at most 1: no more wrong guesses than the limit. */
  lemma AllowanceIsKept(sys: System, e: Event, run: seq<Event>, s: Settings, openid: string)
    requires Plain(sys, s.account, openid) && !EndsInAttempts(e.start.openid) && InOrder(e.now, run)
    requires Generates(sys, e, s, openid) && e.reply.Fine? && Answered(run)
    requires AtMost(Act(sys, e, s), run, s, openid, 1) && CounterLasts(s)
    ensures WrongGuesses(Act(sys, e, s), run, s, openid) <= Allowance(s.maxFailed)
  {
    GuessesWithoutOverlap(sys, e, run, s, openid);
    hide Act;
    hide WrongGuesses;
    hide LapseCount;
  }

  // ---------------------------------------------------------------- witnesses

  /** One event in front of a run. */
  lemma Do(sys: System, e: Event, rest: seq<Event>, s: Settings, openid: string, k: nat) returns (sys': System)
    requires !Generates(sys, e, s, openid) && |Busy(sys, openid)| <= k
    ensures sys' == Act(sys, e, s)
    ensures WrongGuesses(sys, [e] + rest, s, openid) == Num(Misses(sys, e, s, openid)) + WrongGuesses(sys', rest, s, openid)
    ensures AtMost(sys, [e] + rest, s, openid, k) <==> AtMost(sys', rest, s, openid, k)
  {
    sys' := Act(sys, e, s);
    assert ([e] + rest)[1..] == rest;
    hide Act;
    hide Misses;
    hide Generates;
    hide Busy;
  }

  function Guess(p: nat, now: nat, openid: string, given: string): Event {
    Event(p, now, StartVerify(openid, given), Fine)
  }

  /** `n` wrong guesses by one process, each of them counted: compare, INCR, EXPIRE. */
  function Counted(p: nat, now: nat, openid: string, given: string, n: nat, rest: seq<Event>): seq<Event> {
    var g := Guess(p, now, openid, given);
    if n == 0 then rest else [g] + ([g] + ([g] + Counted(p, now, openid, given, n - 1, rest)))
  }

  /** Wrong guesses by `n` processes at once, none of them counted yet. */
  function AtOnce(first: nat, n: nat, now: nat, openid: string, given: string): seq<Event>
    decreases n
  {
    if n == 0 then [] else [Guess(first, now, openid, given)] + AtOnce(first + 1, n - 1, now, openid, given)
  }

  /** `openid` holds a captcha that `given` does not match. */
  predicate Wrong(db: Db, now: nat, s: Settings, openid: string, given: string) {
    var stored := Peek(db, now, CaptchaKey(s.account, openid));
    stored.Some? && !EqIgnoreAsciiCase(stored.value.0, given)
  }

  ghost predicate SamePcs(a: System, b: System) {
    forall q :: PcOf(a, q) == PcOf(b, q)
  }

  lemma SamePcsSameBusy(a: System, b: System, openid: string)
    requires SamePcs(a, b)
    ensures Busy(a, openid) == Busy(b, openid)
  {
    forall p ensures p in Busy(a, openid) <==> p in Busy(b, openid) {
      assert PcOf(a, p) == PcOf(b, p);
    }
  }

  /** Idle processes do not count; a busy one counts once. */
  lemma BusyWith(a: System, b: System, openid: string, p: nat)
    requires PcOf(a, p).Idle? && !PcOf(b, p).Idle? && PcOf(b, p).openid == openid
    requires forall q :: q != p ==> PcOf(a, q) == PcOf(b, q)
    ensures Busy(b, openid) == Busy(a, openid) + {p} && |Busy(b, openid)| == |Busy(a, openid)| + 1
  {
    forall q ensures q in Busy(b, openid) <==> q in Busy(a, openid) || q == p {
      if q != p { assert PcOf(a, q) == PcOf(b, q); }
    }
    assert p !in Busy(a, openid);
  }

  /** One counted miss that is not the last one allowed. */
  lemma CountedMiss(sys: System, p: nat, now: nat, s: Settings, openid: string, given: string, rest: seq<Event>, k: nat)
    returns (after: System)
    requires PcOf(sys, p).Idle? && Wrong(sys.db, now, s, openid, given) && |Busy(sys, openid)| + 1 <= k
    requires var c := CountAfterIncr(sys.db, now, AttemptsKey(CaptchaKey(s.account, openid)));
             c.Some? && c.value < s.maxFailed
    ensures var g := Guess(p, now, openid, given);
            && WrongGuesses(sys, [g] + ([g] + ([g] + rest)), s, openid) == 1 + WrongGuesses(after, rest, s, openid)
            && (AtMost(sys, [g] + ([g] + ([g] + rest)), s, openid, k) <==> AtMost(after, rest, s, openid, k))
    ensures SamePcs(sys, after)
    ensures var att := AttemptsKey(CaptchaKey(s.account, openid));
            && att in after.db && after.db[att] == Entry(Count(CountAfterIncr(sys.db, now, att).value), Some(now + ATTEMPTS_TTL))
            && (forall key :: key != att ==> SameAt(sys.db, after.db, key))
  {
    var g := Guess(p, now, openid, given);
    var att := AttemptsKey(CaptchaKey(s.account, openid));
    var n := CountAfterIncr(sys.db, now, att).value;
    ComparedMiss(sys, g, s, openid);
    RaisedMiss(Act(sys, g, s), g, s, openid, n);
    RenewedMiss(Act(Act(sys, g, s), g, s), g, s, openid, n);
    hide Act;
    hide CaptchaKey;
    hide AttemptsKey;
    hide EqIgnoreAsciiCase;
    hide SplitStored;
    hide Generates;
    hide Misses;
    hide WrongGuesses;
    hide AtMost;
    var s1 := Do(sys, g, [g] + ([g] + rest), s, openid, k);
    BusyWith(sys, s1, openid, p);
    var s2 := Do(s1, g, [g] + rest, s, openid, k);
    BusyWith(sys, s2, openid, p);
    after := Do(s2, g, rest, s, openid, k);
  }

  lemma ComparedMiss(sys: System, g: Event, s: Settings, openid: string)
    requires g.start.StartVerify? && g == Guess(g.p, g.now, openid, g.start.given) && PcOf(sys, g.p).Idle?
    requires Wrong(sys.db, g.now, s, openid, g.start.given)
    ensures Misses(sys, g, s, openid) && !Generates(sys, g, s, openid)
    ensures var s1 := Act(sys, g, s);
            && s1.db == sys.db && PcOf(s1, g.p) == Mismatched(openid) && forall q :: q != g.p ==> PcOf(s1, q) == PcOf(sys, q)
  {
  }

  lemma RaisedMiss(s1: System, g: Event, s: Settings, openid: string, n: nat)
    requires g.reply.Fine? && PcOf(s1, g.p) == Mismatched(openid)
    requires CountAfterIncr(s1.db, g.now, AttemptsKey(CaptchaKey(s.account, openid))) == Some(n)
    ensures !Misses(s1, g, s, openid) && !Generates(s1, g, s, openid)
    ensures var s2, att := Act(s1, g, s), AttemptsKey(CaptchaKey(s.account, openid));
            && s2.db == AfterIncr(s1.db, g.now, att)
            && PcOf(s2, g.p) == Counting(openid, n) && (forall q :: q != g.p ==> PcOf(s2, q) == PcOf(s1, q))
            && Get(s2.db, g.now, att) == Some(Count(n))
            && (forall key :: key != att ==> SameAt(s1.db, s2.db, key))
  {
    hide CaptchaKey;
    hide AttemptsKey;
  }

  lemma RenewedMiss(s2: System, g: Event, s: Settings, openid: string, n: nat)
    requires g.reply.Fine? && PcOf(s2, g.p) == Counting(openid, n) && n < s.maxFailed
    requires Get(s2.db, g.now, AttemptsKey(CaptchaKey(s.account, openid))) == Some(Count(n))
    ensures !Misses(s2, g, s, openid) && !Generates(s2, g, s, openid)
    ensures var s3, att := Act(s2, g, s), AttemptsKey(CaptchaKey(s.account, openid));
            && PcOf(s3, g.p).Idle? && (forall q :: q != g.p ==> PcOf(s3, q) == PcOf(s2, q))
            && s3.db == s2.db[att := Entry(Count(n), Some(g.now + ATTEMPTS_TTL))]
  {
    hide CaptchaKey;
    hide AttemptsKey;
  }

  lemma {:induction false} CountedMisses(sys: System, p: nat, now: nat, s: Settings, openid: string, given: string, n: nat, rest: seq<Event>, k: nat)
    returns (after: System)
    requires PcOf(sys, p).Idle? && Wrong(sys.db, now, s, openid, given) && |Busy(sys, openid)| + 1 <= k
    requires var c := CountAfterIncr(sys.db, now, AttemptsKey(CaptchaKey(s.account, openid)));
             c.Some? && (n > 0 ==> c.value + n <= s.maxFailed)
    ensures var run := Counted(p, now, openid, given, n, rest);
            && WrongGuesses(sys, run, s, openid) == n + WrongGuesses(after, rest, s, openid)
            && (AtMost(sys, run, s, openid, k) <==> AtMost(after, rest, s, openid, k))
    ensures SamePcs(sys, after)
    ensures var att := AttemptsKey(CaptchaKey(s.account, openid));
            && (forall key :: key != att ==> SameAt(sys.db, after.db, key))
            && (n == 0 ==> after.db == sys.db)
            && (n > 0 ==> att in after.db && after.db[att].value.Count? && after.db[att].expireAt == Some(now + ATTEMPTS_TTL))
    decreases n
  {
    if n == 0 {
      after := sys;
    } else {
      var att := AttemptsKey(CaptchaKey(s.account, openid));
      OwnKeysApart(s.account, openid);
      var tail := Counted(p, now, openid, given, n - 1, rest);
      var next := CountedMiss(sys, p, now, s, openid, given, tail, k);
      hide CaptchaKey;
      hide AttemptsKey;
      hide EqIgnoreAsciiCase;
      hide SplitStored;
      hide WrongGuesses;
      hide AtMost;
      SamePcsSameBusy(sys, next, openid);
      assert SameAt(sys.db, next.db, CaptchaKey(s.account, openid));
      assert PcOf(next, p) == PcOf(sys, p);
      after := CountedMisses(next, p, now, s, openid, given, n - 1, rest, k);
      forall key | key != att ensures SameAt(sys.db, after.db, key) {
        assert SameAt(next.db, after.db, key) && SameAt(sys.db, next.db, key);
      }
      forall q ensures PcOf(sys, q) == PcOf(after, q) {
        assert PcOf(next, q) == PcOf(after, q);
      }
    }
  }

  /** All of them compare before any of them counts. */
  lemma {:induction false} MissesAtOnce(sys: System, first: nat, n: nat, now: nat, s: Settings, openid: string, given: string, k: nat)
    requires forall q :: first <= q < first + n ==> PcOf(sys, q).Idle?
    requires Wrong(sys.db, now, s, openid, given) && |Busy(sys, openid)| + n <= k
    ensures WrongGuesses(sys, AtOnce(first, n, now, openid, given), s, openid) == n
    ensures AtMost(sys, AtOnce(first, n, now, openid, given), s, openid, k)
    decreases n
  {
    if n > 0 {
      var g := Guess(first, now, openid, given);
      ComparedMiss(sys, g, s, openid);
      hide Act;
      hide Misses;
      hide Generates;
      hide CaptchaKey;
      hide AttemptsKey;
      hide EqIgnoreAsciiCase;
      hide SplitStored;
      var next := Do(sys, g, AtOnce(first + 1, n - 1, now, openid, given), s, openid, k);
      BusyWith(sys, next, openid, first);
      hide Busy;
      hide WrongGuesses;
      hide AtMost;
      MissesAtOnce(next, first + 1, n - 1, now, s, openid, given, k);
    }
  }

  /** The generating call of process 0 on an empty store. */
  function Generation(openid: string, code: string): Event {
    Event(0, 0, StartGenerate(openid, code), Fine)
  }

  const NOTHING := System(map[], map[])

  /** After the index write: the captcha is stored, and the reset of the counter is still to come. */
  lemma Indexed0(s: Settings, openid: string, code: string, rest: seq<Event>, k: nat) returns (sys: System)
    requires ':' !in code && !EndsInAttempts(openid) && k >= 1
    ensures Generates(NOTHING, Generation(openid, code), s, openid)
    ensures var start := Act(NOTHING, Generation(openid, code), s);
            && WrongGuesses(start, [Generation(openid, code)] + rest, s, openid) == WrongGuesses(sys, rest, s, openid)
            && (AtMost(start, [Generation(openid, code)] + rest, s, openid, k) <==> AtMost(sys, rest, s, openid, k))
    ensures PcOf(sys, 0) == Clearing(openid) && (forall q :: q != 0 ==> PcOf(sys, q).Idle?) && Busy(sys, openid) == {0}
    ensures var key := CaptchaKey(s.account, openid);
            && AttemptsKey(key) !in sys.db && key in sys.db && sys.db[key].expireAt == Some(s.ttl)
            && (forall now: nat :: now < s.ttl ==> Peek(sys.db, now, key) == Some((code, openid)))
  {
    var g := Generation(openid, code);
    var key := CaptchaKey(s.account, openid);
    StoredRoundTrip(code, openid);
    CaptchaKeyIsNoIndexKey(s.account, openid, code);
    AttemptsAreApart(s.account, openid, openid, code);
    hide SplitStored;
    hide StoredValue;
    hide CaptchaKey;
    hide CodeIndexKey;
    hide AttemptsKey;
    hide EndsInAttempts;
    var start := Act(NOTHING, g, s);
    assert PcOf(start, 0) == Indexing(openid, code);
    assert Busy(start, openid) == {0};
    sys := Do(start, g, rest, s, openid, k);
    assert Busy(sys, openid) == {0};
  }

  /** The same after the reset: nobody is in flight. */
  lemma GeneratedAlone(s: Settings, openid: string, code: string, rest: seq<Event>, k: nat) returns (sys: System)
    requires ':' !in code && !EndsInAttempts(openid) && k >= 1
    ensures Generates(NOTHING, Generation(openid, code), s, openid)
    ensures var g := Generation(openid, code);
            var start := Act(NOTHING, g, s);
            && WrongGuesses(start, [g] + ([g] + rest), s, openid) == WrongGuesses(sys, rest, s, openid)
            && (AtMost(start, [g] + ([g] + rest), s, openid, k) <==> AtMost(sys, rest, s, openid, k))
    ensures (forall q :: PcOf(sys, q).Idle?) && Busy(sys, openid) == {}
    ensures var key := CaptchaKey(s.account, openid);
            && AttemptsKey(key) !in sys.db && key in sys.db && sys.db[key].expireAt == Some(s.ttl)
            && (forall now: nat :: now < s.ttl ==> Peek(sys.db, now, key) == Some((code, openid)))
  {
    var g := Generation(openid, code);
    var before := Indexed0(s, openid, code, [g] + rest, k);
    OwnKeysApart(s.account, openid);
    hide CaptchaKey;
    hide AttemptsKey;
    hide SplitStored;
    hide EndsInAttempts;
    sys := Do(before, g, rest, s, openid, k);
    forall now: nat | now < s.ttl
      ensures Peek(sys.db, now, CaptchaKey(s.account, openid)) == Some((code, openid))
    {
      assert Peek(before.db, now, CaptchaKey(s.account, openid)) == Some((code, openid));
    }
    forall q ensures PcOf(sys, q).Idle? {
      if q != 0 { assert PcOf(before, q).Idle? && PcOf(sys, q) == PcOf(before, q); }
    }
    forall q ensures q !in Busy(sys, openid) { assert PcOf(sys, q).Idle?; }
  }

  lemma {:induction false} CountedInOrder(from: nat, p: nat, now: nat, openid: string, given: string, n: nat, rest: seq<Event>)
    requires from <= now && !EndsInAttempts(openid) && InOrder(now, rest) && Answered(rest)
    ensures InOrder(from, Counted(p, now, openid, given, n, rest)) && Answered(Counted(p, now, openid, given, n, rest))
    decreases n
  {
    if n > 0 {
      var g := Guess(p, now, openid, given);
      var tail := Counted(p, now, openid, given, n - 1, rest);
      CountedInOrder(now, p, now, openid, given, n - 1, rest);
      OneInOrder(now, g, tail);
      OneInOrder(now, g, [g] + tail);
      OneInOrder(from, g, [g] + ([g] + tail));
    } else {
      LaterInOrder(from, now, rest);
    }
  }

  lemma LaterInOrder(from: nat, now: nat, rest: seq<Event>)
    requires from <= now && InOrder(now, rest)
    ensures InOrder(from, rest)
  {
  }

  lemma OneInOrder(from: nat, e: Event, rest: seq<Event>)
    requires from <= e.now && !EndsInAttempts(e.start.openid) && e.reply.Fine? && InOrder(e.now, rest) && Answered(rest)
    ensures InOrder(from, [e] + rest) && Answered([e] + rest)
  {
    assert ([e] + rest)[1..] == rest;
  }

  lemma {:induction false} AtOnceInOrder(from: nat, first: nat, n: nat, now: nat, openid: string, given: string)
    requires from <= now && !EndsInAttempts(openid)
    ensures InOrder(from, AtOnce(first, n, now, openid, given)) && Answered(AtOnce(first, n, now, openid, given))
    decreases n
  {
    if n > 0 {
      AtOnceInOrder(now, first + 1, n - 1, now, openid, given);
      OneInOrder(from, Guess(first, now, openid, given), AtOnce(first + 1, n - 1, now, openid, given));
    }
  }

  function OverlapRun(s: Settings, openid: string, code: string, given: string, k: nat): seq<Event> {
    var g := Generation(openid, code);
    [g] + ([g] + Counted(0, 0, openid, given, Allowance(s.maxFailed) - 1, AtOnce(0, k, 0, openid, given)))
  }

  /** Calls that overlap get past the limit: under all settings `k` of them at once reach the allowance less one plus k. */
  lemma OverlapBreaksTheLimit(s: Settings, openid: string, code: string, given: string, k: nat)
    requires s.ttl > 0 && k >= 1 && ':' !in code && !EndsInAttempts(openid) && !EqIgnoreAsciiCase(code, given)
    ensures var g, run := Generation(openid, code), OverlapRun(s, openid, code, given, k);
            && Generates(NOTHING, g, s, openid) && InOrder(0, run) && Answered(run)
            && AtMost(Act(NOTHING, g, s), run, s, openid, k)
            && WrongGuesses(Act(NOTHING, g, s), run, s, openid) == Allowance(s.maxFailed) - 1 + k
  {
    var g, n := Generation(openid, code), Allowance(s.maxFailed) - 1;
    var last := AtOnce(0, k, 0, openid, given);
    var middle := Counted(0, 0, openid, given, n, last);
    AtOnceInOrder(0, 0, k, 0, openid, given);
    CountedInOrder(0, 0, 0, openid, given, n, last);
    OneInOrder(0, g, middle);
    OneInOrder(0, g, [g] + middle);
    var sys := GeneratedAlone(s, openid, code, middle, k);
    assert Wrong(sys.db, 0, s, openid, given);
    var counted := CountedMisses(sys, 0, 0, s, openid, given, n, last, k);
    StillWrong(sys, counted, 0, s, openid, given);
    SamePcsSameBusy(sys, counted, openid);
    assert forall q :: PcOf(counted, q) == PcOf(sys, q);
    MissesAtOnce(counted, 0, k, 0, s, openid, given, k);
  }

  lemma StillWrong(a: System, b: System, now: nat, s: Settings, openid: string, given: string)
    requires Wrong(a.db, now, s, openid, given)
    requires forall key :: key != AttemptsKey(CaptchaKey(s.account, openid)) ==> SameAt(a.db, b.db, key)
    ensures Wrong(b.db, now, s, openid, given)
  {
    OwnKeysApart(s.account, openid);
    assert SameAt(a.db, b.db, CaptchaKey(s.account, openid));
  }

  function PauseRun(s: Settings, openid: string, code: string, given: string): seq<Event>
    requires s.maxFailed >= 1
  {
    var g := Generation(openid, code);
    [g] + ([g] + Counted(0, 0, openid, given, s.maxFailed - 1,
                   Counted(0, ATTEMPTS_TTL, openid, given, 1, AtOnce(0, 1, ATTEMPTS_TTL, openid, given))))
  }

  /** A pause of ten minutes lets the counter expire: one guess less than allowed before it, two after it, one call at a time. */
  lemma PauseResetsTheCounter(s: Settings, openid: string, code: string, given: string)
    requires s.ttl > ATTEMPTS_TTL && s.maxFailed >= 2 && !EndsInAttempts(openid)
    requires ':' !in code && !EqIgnoreAsciiCase(code, given)
    ensures var g, run := Generation(openid, code), PauseRun(s, openid, code, given);
            && Generates(NOTHING, g, s, openid) && InOrder(0, run) && Answered(run)
            && AtMost(Act(NOTHING, g, s), run, s, openid, 1)
            && WrongGuesses(Act(NOTHING, g, s), run, s, openid) == s.maxFailed + 1
  {
    var g, t := Generation(openid, code), ATTEMPTS_TTL;
    var last := AtOnce(0, 1, t, openid, given);
    var late := Counted(0, t, openid, given, 1, last);
    var early := Counted(0, 0, openid, given, s.maxFailed - 1, late);
    AtOnceInOrder(t, 0, 1, t, openid, given);
    CountedInOrder(0, 0, t, openid, given, 1, last);
    CountedInOrder(0, 0, 0, openid, given, s.maxFailed - 1, late);
    OneInOrder(0, g, early);
    OneInOrder(0, g, [g] + early);
    var sys := GeneratedAlone(s, openid, code, early, 1);
    assert Wrong(sys.db, 0, s, openid, given);
    var paused := CountedMisses(sys, 0, 0, s, openid, given, s.maxFailed - 1, late, 1);
    assert Wrong(sys.db, t, s, openid, given);
    StillWrong(sys, paused, t, s, openid, given);
    SamePcsSameBusy(sys, paused, openid);
    assert PcOf(paused, 0) == PcOf(sys, 0);
    assert CountAfterIncr(paused.db, t, AttemptsKey(CaptchaKey(s.account, openid))) == Some(1);
    var again := CountedMisses(paused, 0, t, s, openid, given, 1, last, 1);
    StillWrong(paused, again, t, s, openid, given);
    SamePcsSameBusy(paused, again, openid);
    assert PcOf(again, 0) == PcOf(paused, 0);
    MissesAtOnce(again, 0, 1, t, s, openid, given, 1);
  }

  function LateResetRun(s: Settings, openid: string, code: string, given: string): seq<Event> {
    var g, n := Generation(openid, code), Allowance(s.maxFailed) - 1;
    [g] + Counted(1, 0, openid, given, n, [g] + Counted(1, 0, openid, given, n, AtOnce(0, 2, 0, openid, given)))
  }

  /** The reset of the generating call itself, when it comes late, doubles what is allowed: the bound on every run is reached. */
  lemma LateResetReachesTheBound(s: Settings, openid: string, code: string, given: string)
    requires s.ttl > 0 && ':' !in code && !EndsInAttempts(openid) && !EqIgnoreAsciiCase(code, given)
    ensures var g, run := Generation(openid, code), LateResetRun(s, openid, code, given);
            && Generates(NOTHING, g, s, openid) && InOrder(0, run) && Answered(run)
            && AtMost(Act(NOTHING, g, s), run, s, openid, 2)
            && WrongGuesses(Act(NOTHING, g, s), run, s, openid) == 2 * (Allowance(s.maxFailed) - 1) + 2
  {
    var g, n := Generation(openid, code), Allowance(s.maxFailed) - 1;
    var last := AtOnce(0, 2, 0, openid, given);
    var second := Counted(1, 0, openid, given, n, last);
    var first := Counted(1, 0, openid, given, n, [g] + second);
    LateResetInOrder(g, openid, given, n);
    assert LateResetRun(s, openid, code, given) == [g] + first;
    var sys := Indexed0(s, openid, code, first, 2);
    assert Wrong(sys.db, 0, s, openid, given) by { hide CaptchaKey; hide AttemptsKey; hide WrongGuesses; hide AtMost; }
    hide *;
    TwoRounds(sys, g, s, openid, given, n);
  }

  /** A round, the late reset, and another round. */
  lemma TwoRounds(sys: System, g: Event, s: Settings, openid: string, given: string, n: nat)
    requires PcOf(sys, 0) == Clearing(openid) && (forall q :: q != 0 ==> PcOf(sys, q).Idle?) && Busy(sys, openid) == {0}
    requires g.p == 0 && g.reply.Fine? && n == Allowance(s.maxFailed) - 1
    requires Wrong(sys.db, 0, s, openid, given) && AttemptsKey(CaptchaKey(s.account, openid)) !in sys.db
    ensures var run := Counted(1, 0, openid, given, n, [g] + Counted(1, 0, openid, given, n, AtOnce(0, 2, 0, openid, given)));
            WrongGuesses(sys, run, s, openid) == 2 * n + 2 && AtMost(sys, run, s, openid, 2)
  {
    NoCounterStartsAtOne(sys.db, s, openid);
    hide *;
    var second := Counted(1, 0, openid, given, n, AtOnce(0, 2, 0, openid, given));
    var once := CountedMisses(sys, 1, 0, s, openid, given, n, [g] + second, 2);
    StillWrong(sys, once, 0, s, openid, given);
    SamePcsSameBusy(sys, once, openid);
    SamePcsAt(sys, once);
    var reset := ResetOf(once, g, second, s, openid, 2);
    StillWrong(once, reset, 0, s, openid, given);
    SecondRound(reset, s, openid, given, n, 2);
  }

  lemma SamePcsAt(a: System, b: System)
    requires SamePcs(a, b)
    ensures forall q :: PcOf(b, q) == PcOf(a, q)
  {
  }

  lemma NoCounterStartsAtOne(db: Db, s: Settings, openid: string)
    requires AttemptsKey(CaptchaKey(s.account, openid)) !in db
    ensures CountAfterIncr(db, 0, AttemptsKey(CaptchaKey(s.account, openid))) == Some(1)
    ensures Allowance(s.maxFailed) > 1 ==> Allowance(s.maxFailed) == s.maxFailed
  {
  }

  lemma LateResetInOrder(g: Event, openid: string, given: string, n: nat)
    requires g.now == 0 && g.start.openid == openid && g.reply.Fine? && !EndsInAttempts(openid)
    ensures var run := [g] + Counted(1, 0, openid, given, n, [g] + Counted(1, 0, openid, given, n, AtOnce(0, 2, 0, openid, given)));
            InOrder(0, run) && Answered(run)
  {
    var last := AtOnce(0, 2, 0, openid, given);
    var second := Counted(1, 0, openid, given, n, last);
    AtOnceInOrder(0, 0, 2, 0, openid, given);
    CountedInOrder(0, 1, 0, openid, given, n, last);
    OneInOrder(0, g, second);
    CountedInOrder(0, 1, 0, openid, given, n, [g] + second);
    OneInOrder(0, g, Counted(1, 0, openid, given, n, [g] + second));
  }

  /** With nobody in flight and no counter: the allowance less one, and then `k` at once. */
  lemma SecondRound(sys: System, s: Settings, openid: string, given: string, n: nat, k: nat)
    requires (forall q :: PcOf(sys, q).Idle?) && Busy(sys, openid) == {} && k >= 1 && n == Allowance(s.maxFailed) - 1
    requires Wrong(sys.db, 0, s, openid, given) && AttemptsKey(CaptchaKey(s.account, openid)) !in sys.db
    ensures var run := Counted(1, 0, openid, given, n, AtOnce(0, k, 0, openid, given));
            WrongGuesses(sys, run, s, openid) == n + k && AtMost(sys, run, s, openid, k)
  {
    hide CaptchaKey;
    hide AttemptsKey;
    var last := AtOnce(0, k, 0, openid, given);
    var after := CountedMisses(sys, 1, 0, s, openid, given, n, last, k);
    StillWrong(sys, after, 0, s, openid, given);
    SamePcsSameBusy(sys, after, openid);
    assert forall q :: PcOf(after, q) == PcOf(sys, q);
    MissesAtOnce(after, 0, k, 0, s, openid, given, k);
  }

  lemma ResetOf(sys: System, g: Event, rest: seq<Event>, s: Settings, openid: string, k: nat) returns (after: System)
    requires PcOf(sys, g.p) == Clearing(openid) && (forall q :: q != g.p ==> PcOf(sys, q).Idle?) && g.reply.Fine?
    requires Busy(sys, openid) == {g.p} && k >= 1
    ensures WrongGuesses(sys, [g] + rest, s, openid) == WrongGuesses(after, rest, s, openid)
    ensures AtMost(sys, [g] + rest, s, openid, k) <==> AtMost(after, rest, s, openid, k)
    ensures (forall q :: PcOf(after, q).Idle?) && Busy(after, openid) == {}
    ensures var att := AttemptsKey(CaptchaKey(s.account, openid));
            att !in after.db && forall key :: key != att ==> SameAt(sys.db, after.db, key)
  {
    hide CaptchaKey;
    hide AttemptsKey;
    after := Do(sys, g, rest, s, openid, k);
    forall q ensures PcOf(after, q).Idle? {
      if q != g.p { assert PcOf(sys, q).Idle? && PcOf(after, q) == PcOf(sys, q); }
    }
    forall q ensures q !in Busy(after, openid) { assert PcOf(after, q).Idle?; }
  }

  // -------------------------------------------------------- the exact condition

  /** What the limit promises of a captcha from its generation on. */
  predicate Withstands(sys: System, e: Event, run: seq<Event>, s: Settings, openid: string) {
    WrongGuesses(Act(sys, e, s), run, s, openid) <= Allowance(s.maxFailed)
  }

  /** A run of answered commands from a generation on, with at most `k` calls of the openid in flight. */
  ghost predicate LimitedRun(sys: System, e: Event, run: seq<Event>, s: Settings, openid: string, k: nat) {
    && Plain(sys, s.account, openid) && !EndsInAttempts(e.start.openid) && InOrder(e.now, run)
    && Generates(sys, e, s, openid) && OfCharset(e.start.code) && e.reply.Fine? && Answered(run)
    && AtMost(Act(sys, e, s), run, s, openid, k)
  }

  /**
   The exact condition on settings and overlap: no captcha takes more wrong guesses than the limit, in
   any interleaving with at most k calls of its openid in flight, if and only if
   these calls never overlap, and captchas live no longer than the counter or the limit is at most 1.
   */
  lemma AllowanceIsKeptExactly(s: Settings, k: nat)
    requires s.ttl > 0 && k >= 1
    ensures (forall sys, e, run, openid :: LimitedRun(sys, e, run, s, openid, k) ==> Withstands(sys, e, run, s, openid))
       <==> k == 1 && (s.ttl <= ATTEMPTS_TTL || s.maxFailed <= 1)
  {
    if k == 1 && (s.ttl <= ATTEMPTS_TTL || s.maxFailed <= 1) {
      forall sys, e, run, openid | LimitedRun(sys, e, run, s, openid, k) ensures Withstands(sys, e, run, s, openid) {
        AllowanceIsKept(sys, e, run, s, openid);
      }
    } else {
      var g := Generation("", "A");
      assert 'A' == CHARSET[0] && OfCharset("A");
      assert Plain(NOTHING, s.account, "");
      if k > 1 {
        OverlapBreaksTheLimit(s, "", "A", "", k);
        assert LimitedRun(NOTHING, g, OverlapRun(s, "", "A", "", k), s, "", k);
        assert !Withstands(NOTHING, g, OverlapRun(s, "", "A", "", k), s, "");
      } else {
        PauseResetsTheCounter(s, "", "A", "");
        assert LimitedRun(NOTHING, g, PauseRun(s, "", "A", ""), s, "", k);
        assert !Withstands(NOTHING, g, PauseRun(s, "", "A", ""), s, "");
      }
    }
  }
}
