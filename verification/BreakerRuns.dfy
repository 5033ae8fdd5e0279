/**
 The breakers over whole runs: requests pick and mark replicas down while the
 background probe works through the replicas it collected.
 */
module BreakerRuns {
  import opened Options
  import opened ReplicaRouter

  /** `probing`: replicas collected by the probe whose ping has not been acted on yet. */
  datatype Health = Health(now: int, down: Breakers, probing: seq<nat>)

  datatype Event =
    | Tick(elapsed: nat)
    | MarkDown(replica: nat)
    | Pick(exclude: set<nat>)
    | Collect
    | Resolve(answered: bool)

  function Step(h: Health, e: Event, circuitBreak: nat): Health {
    match e
    case Tick(elapsed) => h.(now := h.now + elapsed)
    case MarkDown(i) => if i < |h.down| then h.(down := h.down[i := Some(h.now + circuitBreak)]) else h
    case Pick(exclude) => h.(down := Recovered(h.down, exclude, h.now, |h.down|))
    case Collect => if h.probing == [] then h.(probing := Expired(h.down, h.now, |h.down|)) else h
    case Resolve(answered) =>
      if h.probing == [] || h.probing[0] >= |h.down| then h
      else
        var i := h.probing[0];
        h.(probing := h.probing[1..],
           down := h.down[i := if answered then None else Some(h.now + circuitBreak)])
  }

  function Run(h: Health, events: seq<Event>, circuitBreak: nat): Health
    decreases |events|
  {
    if events == [] then h else Run(Step(h, events[0], circuitBreak), events[1..], circuitBreak)
  }

  lemma {:induction false} LengthAndTime(h: Health, events: seq<Event>, circuitBreak: nat)
    ensures var h' := Run(h, events, circuitBreak); |h'.down| == |h.down| && h'.now >= h.now
    decreases |events|
  {
    if events != [] {
      LengthAndTime(Step(h, events[0], circuitBreak), events[1..], circuitBreak);
    }
  }

  /** What a pick may return in this state. */
  predicate MayBePicked(h: Health, i: nat, exclude: set<nat>) {
    i in Healthy(h.down, exclude, h.now, |h.down|)
  }

  /** Open until `until` at least, and out of the probe's hands. */
  predicate HeldOpen(h: Health, i: nat, until: int) {
    i < |h.down| && i !in h.probing && h.down[i].Some? && h.down[i].value >= until
  }

  lemma StepKeepsOpen(h: Health, e: Event, circuitBreak: nat, i: nat, until: int)
    requires HeldOpen(h, i, until) && h.now < until <= h.now + circuitBreak
    ensures HeldOpen(Step(h, e, circuitBreak), i, until)
  {
    if e.Collect? {
      ExpiredExactly(h.down, h.now, |h.down|, i);
    }
  }

  lemma {:induction false} StaysOpen(h: Health, events: seq<Event>, circuitBreak: nat, i: nat, until: int)
    requires HeldOpen(h, i, until) && until <= h.now + circuitBreak
    requires Run(h, events, circuitBreak).now < until
    ensures HeldOpen(Run(h, events, circuitBreak), i, until)
    decreases |events|
  {
    if events != [] {
      var h' := Step(h, events[0], circuitBreak);
      LengthAndTime(h', events[1..], circuitBreak);
      StepKeepsOpen(h, events[0], circuitBreak, i, until);
      StaysOpen(h', events[1..], circuitBreak, i, until);
    }
  }

  /**
   A replica marked down while the probe is not holding it is not picked until the
   breaker time has passed, whatever else happens.
   */
  lemma BreakerHolds(h: Health, i: nat, circuitBreak: nat, events: seq<Event>, exclude: set<nat>)
    requires i < |h.down| && i !in h.probing
    requires Run(Step(h, MarkDown(i), circuitBreak), events, circuitBreak).now < h.now + circuitBreak
    ensures !MayBePicked(Run(Step(h, MarkDown(i), circuitBreak), events, circuitBreak), i, exclude)
  {
    var marked := Step(h, MarkDown(i), circuitBreak);
    StaysOpen(marked, events, circuitBreak, i, h.now + circuitBreak);
    var h' := Run(marked, events, circuitBreak);
    HealthyExactly(h'.down, exclude, h'.now, |h'.down|, i);
  }

  /** A probe that is done takes up exactly the replicas whose breaker has run out, and one at work takes up none. */
  lemma ProbeCollectsTheExpired(h: Health, circuitBreak: nat, i: nat)
    ensures var h' := Step(h, Collect, circuitBreak);
            && h' == h.(probing := h'.probing) && (h.probing != [] ==> h' == h)
            && (h.probing == [] ==> (i in h'.probing <==> i < |h.down| && h.down[i].Some? && h.down[i].value <= h.now))
  {
    ExpiredExactly(h.down, h.now, |h.down|, i);
  }

  /** It then acts on them one by one: an answer closes the breaker, silence opens it for the break time. */
  lemma PingDecidesTheBreaker(h: Health, answered: bool, circuitBreak: nat)
    requires h.probing != [] && h.probing[0] < |h.down|
    ensures Step(h, Resolve(answered), circuitBreak)
         == h.(probing := h.probing[1..],
               down := h.down[h.probing[0] := if answered then None else Some(h.now + circuitBreak)])
  {
  }

  /** Nobody marks the replica down, and no ping of the probe to it fails. */
  predicate NotReopened(h: Health, e: Event, i: nat) {
    match e
    case MarkDown(k) => k != i
    case Resolve(answered) => answered || (h.probing != [] && h.probing[0] != i)
    case _ => true
  }

  predicate NeverReopened(h: Health, events: seq<Event>, circuitBreak: nat, i: nat)
    decreases |events|
  {
    events == [] || (NotReopened(h, events[0], i) && NeverReopened(Step(h, events[0], circuitBreak), events[1..], circuitBreak, i))
  }

  predicate ClosesBy(h: Health, i: nat, until: int) {
    i < |h.down| && (h.down[i].None? || h.down[i].value <= until)
  }

  lemma {:induction false} StaysClosing(h: Health, events: seq<Event>, circuitBreak: nat, i: nat, until: int)
    requires ClosesBy(h, i, until) && NeverReopened(h, events, circuitBreak, i)
    ensures ClosesBy(Run(h, events, circuitBreak), i, until)
    decreases |events|
  {
    if events != [] {
      StaysClosing(Step(h, events[0], circuitBreak), events[1..], circuitBreak, i, until);
    }
  }

  /** And it is over: once the break time has passed, with no new failure, every pick may take the replica again. */
  lemma BreakerEnds(h: Health, i: nat, circuitBreak: nat, events: seq<Event>, exclude: set<nat>)
    requires i < |h.down| && i !in exclude && NeverReopened(Step(h, MarkDown(i), circuitBreak), events, circuitBreak, i)
    requires Run(Step(h, MarkDown(i), circuitBreak), events, circuitBreak).now >= h.now + circuitBreak
    ensures MayBePicked(Run(Step(h, MarkDown(i), circuitBreak), events, circuitBreak), i, exclude)
  {
    var marked := Step(h, MarkDown(i), circuitBreak);
    StaysClosing(marked, events, circuitBreak, i, h.now + circuitBreak);
    var h' := Run(marked, events, circuitBreak);
    HealthyExactly(h'.down, exclude, h'.now, |h'.down|, i);
  }

  function Answers(n: nat): seq<Event> {
    if n == 0 then [] else [Resolve(true)] + Answers(n - 1)
  }

  lemma {:induction false} AnsweredProbesClose(h: Health, circuitBreak: nat, i: nat)
    requires i < |h.down| && AllBelow(h.probing, |h.down|)
    requires i in h.probing || h.down[i].None?
    ensures var h' := Run(h, Answers(|h.probing|), circuitBreak);
            h'.now == h.now && |h'.down| == |h.down| && h'.down[i].None?
    decreases |h.probing|
  {
    if h.probing != [] {
      var h' := Step(h, Resolve(true), circuitBreak);
      assert Answers(|h.probing|)[1..] == Answers(|h.probing| - 1);
      assert i == h.probing[0] || i in h.probing[1..] || h.down[i].None?;
      AnsweredProbesClose(h', circuitBreak, i);
    }
  }

  /**
   The exact condition.  A breaker opened now is respected in every continuation
   if and only if the probe had not already collected the replica: otherwise the
   pending ping can close the fresh breaker at once.
   */
  lemma FreshBreakerIsRespectedExactly(h: Health, i: nat, circuitBreak: nat)
    requires i < |h.down| && circuitBreak > 0 && AllBelow(h.probing, |h.down|)
    ensures (forall events, exclude ::
               Run(Step(h, MarkDown(i), circuitBreak), events, circuitBreak).now < h.now + circuitBreak ==>
               !MayBePicked(Run(Step(h, MarkDown(i), circuitBreak), events, circuitBreak), i, exclude))
       <==> i !in h.probing
  {
    var marked := Step(h, MarkDown(i), circuitBreak);
    if i !in h.probing {
      forall events, exclude: set<nat> | Run(marked, events, circuitBreak).now < h.now + circuitBreak
        ensures !MayBePicked(Run(marked, events, circuitBreak), i, exclude)
      {
        BreakerHolds(h, i, circuitBreak, events, exclude);
      }
    } else {
      AnsweredProbesClose(marked, circuitBreak, i);
      var h' := Run(marked, Answers(|h.probing|), circuitBreak);
      HealthyExactly(h'.down, {}, h'.now, |h'.down|, i);
      assert MayBePicked(h', i, {});
    }
  }
}
