/** Circuit breakers of the read replicas, and reads that retry and fall back. */
module ReplicaRouter {
  import opened Options
  import opened MachineWords
  import opened ReplicaSelection

  /** Per replica, the instant until which its breaker is open. */
  type Breakers = seq<Option<int>>

  predicate IsOpen(down: Breakers, i: nat, now: int) {
    i < |down| && down[i].Some? && now < down[i].value
  }

  /** The replicas a pick may choose from, in ascending order, among the first `n`. */
  function Healthy(down: Breakers, exclude: set<nat>, now: int, n: nat): seq<nat>
    requires n <= |down|
  {
    if n == 0 then []
    else
      Healthy(down, exclude, now, n - 1)
      + (if n - 1 !in exclude && !IsOpen(down, n - 1, now) then [n - 1] else [])
  }

  /** A pick closes the expired breakers of the replicas it considers. */
  function Recovered(down: Breakers, exclude: set<nat>, now: int, n: nat): Breakers
    requires n <= |down|
  {
    seq(|down|, i requires 0 <= i < |down| =>
      if i < n && i !in exclude && !IsOpen(down, i, now) then None else down[i])
  }

  lemma {:induction false} HealthyExactly(down: Breakers, exclude: set<nat>, now: int, n: nat, i: nat)
    requires n <= |down|
    ensures i in Healthy(down, exclude, now, n) <==> i < n && i !in exclude && !IsOpen(down, i, now)
  {
    if n > 0 {
      HealthyExactly(down, exclude, now, n - 1, i);
    }
  }

  /** It touches no other breaker. */
  lemma RecoveredExactly(down: Breakers, exclude: set<nat>, now: int, n: nat, i: nat)
    requires n <= |down| && i < |down|
    ensures |Recovered(down, exclude, now, n)| == |down|
    ensures var expired := down[i].Some? && down[i].value <= now;
            Recovered(down, exclude, now, n)[i] == if i < n && i !in exclude && expired then None else down[i]
  {
  }

  /** The replicas whose breaker has run out, in ascending order. */
  function Expired(down: Breakers, now: int, n: nat): seq<nat>
    requires n <= |down|
  {
    if n == 0 then []
    else
      Expired(down, now, n - 1)
      + (if down[n - 1].Some? && now >= down[n - 1].value then [n - 1] else [])
  }

  lemma {:induction false} ExpiredExactly(down: Breakers, now: int, n: nat, i: nat)
    requires n <= |down|
    ensures i in Expired(down, now, n) <==> i < n && down[i].Some? && now >= down[i].value
  {
    if n > 0 {
      ExpiredExactly(down, now, n - 1, i);
    }
  }

  ghost predicate Ascending(s: seq<nat>) {
    forall j, k :: 0 <= j < k < |s| ==> s[j] < s[k]
  }

  ghost predicate AllBelow(s: seq<nat>, n: nat) {
    forall k :: 0 <= k < |s| ==> s[k] < n
  }

  lemma {:induction false} ExpiredAscending(down: Breakers, now: int, n: nat)
    requires n <= |down|
    ensures Ascending(Expired(down, now, n)) && AllBelow(Expired(down, now, n), n)
  {
    if n > 0 {
      ExpiredAscending(down, now, n - 1);
      assert AllBelow(Expired(down, now, n - 1), n - 1);
    }
  }

  /** A round-robin pick as a whole: the choice, the breakers and the counter after it. */
  function RoundRobinPick(down: Breakers, counter: nat, exclude: set<nat>, now: int): (Option<nat>, Breakers, nat) {
    var healthy := Healthy(down, exclude, now, |down|);
    (if healthy == [] then None else Some(healthy[counter % |healthy|]),
     Recovered(down, exclude, now, |down|),
     if healthy == [] then counter else (counter + 1) % TWO64)
  }

  /** The choices of consecutive picks, one per clock reading. */
  function PicksOf(down: Breakers, counter: nat, exclude: set<nat>, nows: seq<int>): seq<Option<nat>>
    decreases |nows|
  {
    if nows == [] then []
    else
      var (pick, down', counter') := RoundRobinPick(down, counter, exclude, nows[0]);
      [pick] + PicksOf(down', counter', exclude, nows[1..])
  }

  /** No breaker opens or runs out between the picks. */
  predicate HealthyThroughout(down: Breakers, exclude: set<nat>, nows: seq<int>, healthy: seq<nat>)
    decreases |nows|
  {
    nows == []
    || (Healthy(down, exclude, nows[0], |down|) == healthy
        && HealthyThroughout(Recovered(down, exclude, nows[0], |down|), exclude, nows[1..], healthy))
  }

  function TimesPicked(picks: seq<Option<nat>>, i: nat): nat {
    if picks == [] then 0 else (if picks[0] == Some(i) then 1 else 0) + TimesPicked(picks[1..], i)
  }

  lemma {:induction false} HealthyAscending(down: Breakers, exclude: set<nat>, now: int, n: nat)
    requires n <= |down|
    ensures Ascending(Healthy(down, exclude, now, n)) && AllBelow(Healthy(down, exclude, now, n), n)
  {
    if n > 0 {
      HealthyAscending(down, exclude, now, n - 1);
      assert AllBelow(Healthy(down, exclude, now, n - 1), n - 1);
    }
  }

  lemma PickIsTurn(down: Breakers, counter: nat, exclude: set<nat>, now: int, healthy: seq<nat>, j: nat)
    requires j < |healthy| && counter < TWO64 && Healthy(down, exclude, now, |down|) == healthy && Ascending(healthy)
    ensures var (pick, down', counter') := RoundRobinPick(down, counter, exclude, now);
            && (pick == Some(healthy[j]) <==> counter % |healthy| == j)
            && down' == Recovered(down, exclude, now, |down|)
            && counter' == (counter + 1) % TWO64
            && (counter + 1 < TWO64 ==> counter' == counter + 1)
  {
  }

  lemma {:induction false} PicksFollowCounter(down: Breakers, counter: nat, exclude: set<nat>, nows: seq<int>, healthy: seq<nat>, j: nat)
    requires j < |healthy| && counter < TWO64 && counter + |nows| <= TWO64
    requires HealthyThroughout(down, exclude, nows, healthy)
    ensures TimesPicked(PicksOf(down, counter, exclude, nows), healthy[j]) == TurnsFor(counter, |nows|, |healthy|, j)
    decreases |nows|
  {
    if nows != [] {
      var (pick, down', counter') := RoundRobinPick(down, counter, exclude, nows[0]);
      HealthyAscending(down, exclude, nows[0], |down|);
      PickIsTurn(down, counter, exclude, nows[0], healthy, j);
      FirstTurn(counter, |nows|, |healthy|, j);
      TimesOfFirst(pick, PicksOf(down', counter', exclude, nows[1..]), healthy[j]);
      assert PicksOf(down, counter, exclude, nows) == [pick] + PicksOf(down', counter', exclude, nows[1..]);
      if |nows| > 1 {
        PicksFollowCounter(down', counter + 1, exclude, nows[1..], healthy, j);
      } else {
        assert PicksOf(down', counter', exclude, nows[1..]) == [];
      }
      hide *;
    }
  }

  lemma TimesOfFirst(pick: Option<nat>, rest: seq<Option<nat>>, i: nat)
    ensures TimesPicked([pick] + rest, i) == (if pick == Some(i) then 1 else 0) + TimesPicked(rest, i)
  {
    assert ([pick] + rest)[1..] == rest;
  }

  /**
   Fairness of the router: over k consecutive round-robin picks while n replicas are
   healthy, and without a wrap of the counter, each of them is picked floor(k / n)
   times, and the next k mod n in turn once more.
   */
  lemma PicksAreFair(down: Breakers, counter: nat, exclude: set<nat>, nows: seq<int>, healthy: seq<nat>, j: nat)
    requires j < |healthy| && counter < TWO64 && counter + |nows| <= TWO64
    requires HealthyThroughout(down, exclude, nows, healthy)
    ensures TimesPicked(PicksOf(down, counter, exclude, nows), healthy[j])
         == |nows| / |healthy| + (if Ahead(counter, |healthy|, j) < |nows| % |healthy| then 1 else 0)
  {
    PicksFollowCounter(down, counter, exclude, nows, healthy, j);
    RoundRobinIsFair(counter, |nows|, |healthy|, j);
  }

  // ------------------------------------------------------------------- errors

  datatype DbErr = Conn | ConnectionAcquire | Query(message: string) | Custom(message: string) | Other

  const EXHAUSTED := Custom("all read attempts exhausted")

  function Lower(s: string): string {
    seq(|s|, i requires 0 <= i < |s| => if 'A' <= s[i] <= 'Z' then s[i] - 'A' + 'a' else s[i])
  }

  predicate Contains(s: string, part: string)
    decreases |s|
  {
    part <= s || (s != [] && Contains(s[1..], part))
  }

  /** Connection failures, as opposed to errors of the statement itself. */
  predicate IsConnectionError(e: DbErr) {
    match e
    case Conn => true
    case ConnectionAcquire => true
    case Query(message) =>
      var s := Lower(message);
      || Contains(s, "broken pipe")
      || Contains(s, "connection reset")
      || Contains(s, "io error")
      || Contains(s, "network")
      || Contains(s, "eof")
      || Contains(s, "transport")
    case _ => false
  }

  /** `hint` is spelled from position `i` on, in either case of its letters. */
  predicate SpelledAt(text: string, i: nat, hint: string) {
    && i + |hint| <= |text|
    && forall k :: 0 <= k < |hint| ==>
         var c := text[i + k];
         c == hint[k] || ('A' <= c <= 'Z' && c - 'A' + 'a' == hint[k])
  }

  predicate Lowercase(s: string) {
    forall k :: 0 <= k < |s| ==> !('A' <= s[k] <= 'Z')
  }

  predicate OccursAt(s: string, i: nat, part: string) {
    i + |part| <= |s| && s[i..i + |part|] == part
  }

  lemma {:induction false} ContainsExactly(s: string, part: string)
    ensures Contains(s, part) <==> exists i: nat :: OccursAt(s, i, part)
    decreases |s|
  {
    assert part <= s <==> OccursAt(s, 0, part);
    if s != [] {
      ContainsExactly(s[1..], part);
      forall i: nat ensures OccursAt(s[1..], i, part) <==> OccursAt(s, i + 1, part) {
        if i + 1 + |part| <= |s| { assert s[1..][i..i + |part|] == s[i + 1..i + 1 + |part|]; }
      }
      if i: nat :| OccursAt(s, i, part) {
        if i > 0 { assert OccursAt(s[1..], i - 1, part); }
      }
    }
  }

  lemma LowerSpells(message: string, i: nat, hint: string)
    requires Lowercase(hint)
    ensures OccursAt(Lower(message), i, hint) <==> SpelledAt(message, i, hint)
  {
    if i + |hint| <= |message| {
      var part := Lower(message)[i..i + |hint|];
      assert forall k :: 0 <= k < |hint| ==> part[k] == Lower(message)[i + k];
      if SpelledAt(message, i, hint) {
        assert part == hint;
      } else {
        var k :| 0 <= k < |hint| && !(message[i + k] == hint[k] || ('A' <= message[i + k] <= 'Z' && message[i + k] - 'A' + 'a' == hint[k]));
        assert part[k] != hint[k];
      }
    }
  }

  lemma HintOccurs(message: string, hint: string)
    requires Lowercase(hint)
    ensures Contains(Lower(message), hint) <==> exists i: nat :: SpelledAt(message, i, hint)
  {
    ContainsExactly(Lower(message), hint);
    forall i: nat ensures OccursAt(Lower(message), i, hint) <==> SpelledAt(message, i, hint) {
      LowerSpells(message, i, hint);
    }
  }

  /** Exactly these errors make a read try another replica; an error of the statement is never one of them. */
  lemma ConnectionErrorsExactly(e: DbErr)
    ensures e.Conn? || e.ConnectionAcquire? ==> IsConnectionError(e)
    ensures e.Custom? || e.Other? ==> !IsConnectionError(e)
    ensures e.Query? ==>
      (IsConnectionError(e) <==>
         exists hint, i: nat ::
           hint in ["broken pipe", "connection reset", "io error", "network", "eof", "transport"]
           && SpelledAt(e.message, i, hint))
  {
    if e.Query? {
      var hints := ["broken pipe", "connection reset", "io error", "network", "eof", "transport"];
      forall hint | hint in hints ensures Contains(Lower(e.message), hint) <==> exists i: nat :: SpelledAt(e.message, i, hint) {
        HintOccurs(e.message, hint);
      }
      HintsByPosition(e);
      hide *;
    }
  }

  lemma HintsByPosition(e: DbErr)
    requires e.Query?
    ensures IsConnectionError(e) <==>
      exists hint :: hint in ["broken pipe", "connection reset", "io error", "network", "eof", "transport"]
                     && Contains(Lower(e.message), hint)
  {
    var hints := ["broken pipe", "connection reset", "io error", "network", "eof", "transport"];
    hide Contains;
    hide Lower;
    assert hints[0] in hints && hints[1] in hints && hints[2] in hints && hints[3] in hints && hints[4] in hints && hints[5] in hints;
  }

  datatype Outcome = Ok(rows: int) | Err(error: DbErr)

  predicate LostConnection(o: Outcome) {
    o.Err? && IsConnectionError(o.error)
  }

  datatype Target = Replica(index: nat) | Writer

  /** One call of the operation; `picked` is the clock reading under which a replica was chosen. */
  datatype Call = Call(target: Target, outcome: Outcome, picked: int)

  /** What other requests and the probe leave behind at a moment, given the breakers and the counter they find. */
  type Others = (nat, Breakers, nat) -> (Breakers, nat)

  /** Nobody else touches the breakers or the counter. */
  ghost predicate Alone(others: Others) {
    forall moment: nat, down: Breakers, counter: nat :: others(moment, down, counter) == (down, counter)
  }

  /** At that moment the others leave these breakers, from some state they find. */
  ghost predicate LeftBy(others: Others, moment: nat, n: nat, down: Breakers) {
    exists before: Breakers, counter: nat ::
      && |before| == n
      && var (after, counter') := others(moment, before, counter);
         down == if |after| == n && counter' < TWO64 then after else before
  }

  datatype Strategy = RoundRobin | Random | Weighted

  function WeightsOf(healthy: seq<nat>, weights: seq<nat>): (ws: seq<nat>)
    requires forall i :: i in healthy ==> i < |weights|
    ensures |ws| == |healthy|
  {
    seq(|healthy|, k requires 0 <= k < |healthy| => assert healthy[k] in healthy; weights[healthy[k]])
  }

  /** The roll below the total weight lies in the interval of `chosen`, as long as its weight. */
  ghost predicate RollFallsTo(healthy: seq<nat>, weights: seq<nat>, random: nat, chosen: nat)
    requires (forall i :: i in healthy ==> i < |weights|) && Sum(WeightsOf(healthy, weights)) > 0
  {
    var ws := WeightsOf(healthy, weights);
    var roll := random % Sum(ws);
    forall j :: 0 <= j < |healthy| && Sum(ws[..j]) <= roll < Sum(ws[..j]) + ws[j] ==> chosen == healthy[j]
  }

  /** Each healthy replica is picked for exactly as many of the rolls below the total as its weight says. */
  lemma EachReplicaGetsItsWeight(healthy: seq<nat>, weights: seq<nat>, j: nat)
    requires (forall i :: i in healthy ==> i < |weights|) && j < |healthy|
    ensures healthy[j] in healthy
    ensures var ws := WeightsOf(healthy, weights); RollsFor(ws, j, Sum(ws)) == weights[healthy[j]]
    ensures var ws := WeightsOf(healthy, weights);
            forall roll: nat :: roll < Sum(ws) ==>
              (PositionOf(ws, roll) == j <==> Sum(ws[..j]) <= roll < Sum(ws[..j]) + weights[healthy[j]])
  {
    var ws := WeightsOf(healthy, weights);
    EachWeightGetsItsRolls(ws, j);
    assert healthy[j] in healthy && ws[j] == weights[healthy[j]];
    forall roll: nat | roll < Sum(ws)
      ensures PositionOf(ws, roll) == j <==> Sum(ws[..j]) <= roll < Sum(ws[..j]) + weights[healthy[j]]
    {
      PositionInInterval(ws, roll, j);
    }
  }

  class AutoRouter {
    const weights: seq<nat>
    const strategy: Strategy
    const circuitBreak: nat
    const retryAttempts: nat
    const fallbackToWrite: bool
    var rrCounter: nat
    var downUntil: Breakers

    constructor (weights: seq<nat>, strategy: Strategy, circuitBreak: nat, retryAttempts: nat, fallbackToWrite: bool)
      requires forall i :: 0 <= i < |weights| ==> weights[i] >= 1
      ensures Valid()
      ensures this.weights == weights && this.retryAttempts == retryAttempts
      ensures this.fallbackToWrite == fallbackToWrite && this.circuitBreak == circuitBreak
      ensures forall i :: 0 <= i < |weights| ==> downUntil[i].None?
    {
      this.weights, this.strategy, this.circuitBreak := weights, strategy, circuitBreak;
      this.retryAttempts, this.fallbackToWrite, rrCounter := retryAttempts, fallbackToWrite, 0;
      downUntil := seq(|weights|, _ => None);
    }

    ghost predicate Valid()
      reads this
    {
      && |downUntil| == |weights|
      && rrCounter < TWO64
      && forall i :: 0 <= i < |weights| ==> weights[i] >= 1
    }

    method MarkDown(idx: nat, now: int)
      requires Valid()
      modifies this`downUntil
      ensures Valid()
      ensures downUntil == if idx < |weights| then old(downUntil)[idx := Some(now + circuitBreak)] else old(downUntil)
    {
      if idx < |downUntil| {
        downUntil := downUntil[idx := Some(now + circuitBreak)];
      }
    }

    /**
     One round of the background probe, with nothing else in between: expired
     breakers are closed where the ping answers and reopened where it does not.
     `clock(k)` is the reading taken for the k-th probed replica.
     */
    method ProbeReads(now: int, pings: nat -> bool, clock: nat -> int)
      requires Valid()
      modifies this`downUntil
      ensures Valid()
      ensures var due := Expired(old(downUntil), now, |weights|);
              && (forall k :: 0 <= k < |due| ==> due[k] < |weights|)
              && (forall k :: 0 <= k < |due| ==>
                    downUntil[due[k]] == if pings(due[k]) then None else Some(clock(k) + circuitBreak))
              && (forall i: nat :: i < |weights| && i !in due ==> downUntil[i] == old(downUntil)[i])
    {
      var toProbe: seq<nat> := [];
      for i := 0 to |weights|
        invariant toProbe == Expired(downUntil, now, i)
      {
        if downUntil[i].Some? && now >= downUntil[i].value {
          toProbe := toProbe + [i];
        }
      }
      ghost var before := downUntil;
      ExpiredAscending(before, now, |weights|);
      assert AllBelow(toProbe, |weights|);
      hide Expired;
      for k := 0 to |toProbe|
        invariant Valid()
        invariant forall j :: 0 <= j < k ==>
                    downUntil[toProbe[j]] == if pings(toProbe[j]) then None else Some(clock(j) + circuitBreak)
        invariant forall i: nat :: i < |weights| && i !in toProbe[..k] ==> downUntil[i] == before[i]
      {
        var i := toProbe[k];
        assert toProbe[..k + 1] == toProbe[..k] + [i];
        assert i !in toProbe[..k];
        if pings(i) {
          if downUntil[i].Some? { downUntil := downUntil[i := None]; }
        } else {
          downUntil := downUntil[i := Some(clock(k) + circuitBreak)];
        }
      }
      assert toProbe[..|toProbe|] == toProbe;
    }

    /** The locked part of a pick: close expired breakers, collect what is healthy. */
    method CollectHealthy(exclude: set<nat>, now: int) returns (healthy: seq<nat>)
      requires Valid()
      modifies this`downUntil
      ensures Valid()
      ensures downUntil == Recovered(old(downUntil), exclude, now, |weights|)
      ensures healthy == Healthy(old(downUntil), exclude, now, |weights|)
    {
      healthy := [];
      ghost var before := downUntil;
      for i := 0 to |weights|
        invariant Valid()
        invariant downUntil == Recovered(before, exclude, now, i)
        invariant healthy == Healthy(before, exclude, now, i)
      {
        if i !in exclude {
          if downUntil[i].None? || now >= downUntil[i].value {
            downUntil := downUntil[i := None];
            healthy := healthy + [i];
          }
        }
      }
    }

    /** `random` stands for the generator; it is reduced to the range the strategy asks for. */
    method Choose(healthy: seq<nat>, random: nat) returns (chosen: nat)
      requires Valid() && healthy != [] && forall i :: i in healthy ==> i < |weights|
      modifies this`rrCounter
      ensures Valid() && chosen in healthy
      ensures strategy.RoundRobin? ==>
                chosen == healthy[old(rrCounter) % |healthy|] && rrCounter == (old(rrCounter) + 1) % TWO64
      ensures !strategy.RoundRobin? ==> rrCounter == old(rrCounter)
      ensures strategy.Random? ==> chosen == healthy[random % |healthy|]
      ensures strategy.Weighted? ==> Sum(WeightsOf(healthy, weights)) > 0 && RollFallsTo(healthy, weights, random, chosen)
    {
      match strategy {
        case RoundRobin =>
          chosen := healthy[rrCounter % |healthy|];
          rrCounter := (rrCounter + 1) % TWO64;
        case Random =>
          chosen := healthy[random % |healthy|];
        case Weighted =>
          var ws: seq<nat> := [];
          for k := 0 to |healthy|
            invariant |ws| == k && forall j :: 0 <= j < k ==> ws[j] >= 1 && healthy[j] < |weights| && ws[j] == weights[healthy[j]]
          {
            assert healthy[k] in healthy;
            ws := ws + [weights[healthy[k]]];
          }
          SumPositive(ws);
          assert ws == WeightsOf(healthy, weights);
          chosen, rrCounter := SelectWeightedIndex(healthy, ws, rrCounter, random % Sum(ws));
          forall j | 0 <= j < |healthy| && Sum(ws[..j]) <= random % Sum(ws) < Sum(ws[..j]) + ws[j] ensures chosen == healthy[j] {
            PositionInInterval(ws, random % Sum(ws), j);
          }
      }
    }

    method PickNextRead(exclude: set<nat>, now: int, random: nat) returns (pick: Option<nat>)
      requires Valid()
      modifies this
      ensures Valid()
      ensures downUntil == Recovered(old(downUntil), exclude, now, |weights|)
      ensures pick.None? <==> forall i: nat :: i < |weights| ==> i in exclude || IsOpen(old(downUntil), i, now)
      ensures pick.Some? ==>
                pick.value < |weights| && pick.value !in exclude && !IsOpen(old(downUntil), pick.value, now)
      ensures strategy.RoundRobin? ==>
                (pick, downUntil, rrCounter) == RoundRobinPick(old(downUntil), old(rrCounter), exclude, now)
      ensures pick.Some? && strategy.Weighted? ==>
                var healthy := Healthy(old(downUntil), exclude, now, |weights|);
                (forall i :: i in healthy ==> i < |weights|)
                && Sum(WeightsOf(healthy, weights)) > 0 && RollFallsTo(healthy, weights, random, pick.value)
    {
      ghost var before := downUntil;
      var healthy := CollectHealthy(exclude, now);
      forall i: nat { HealthyExactly(before, exclude, now, |weights|, i); }
      if healthy == [] {
        assert forall i: nat :: i < |weights| ==> i !in Healthy(before, exclude, now, |weights|);
        return None;
      }
      var chosen := Choose(healthy, random);
      assert chosen in Healthy(before, exclude, now, |weights|);
      pick := Some(chosen);
    }

    /** Between two steps of a request the breakers and the counter can change in any way. */
    method Interfere(others: Others, moment: nat)
      requires Valid()
      modifies this
      ensures Valid()
      ensures var (down, counter) := others(moment, old(downUntil), old(rrCounter));
              if |down| == |weights| && counter < TWO64 then downUntil == down && rrCounter == counter
              else downUntil == old(downUntil) && rrCounter == old(rrCounter)
      ensures Alone(others) ==> downUntil == old(downUntil)
      ensures LeftBy(others, moment, |weights|, downUntil)
    {
      var (down, counter) := others(moment, downUntil, rrCounter);
      if |down| == |weights| && counter < TWO64 {
        downUntil, rrCounter := down, counter;
      }
    }

    /**
     Phase 1: every replica at most once, none with an open breaker when picked.  `failed` is
     the last error if all calls made so far lost their connection.
     */
    method TryEachReplica(op: (nat, Target) -> Outcome, clock: nat -> int, random: nat -> nat, others: Others)
      returns (trace: seq<Call>, failed: bool, ticks: nat, ghost seen: Breakers)
      requires Valid()
      requires forall i, j :: 0 <= i <= j ==> clock(i) <= clock(j)
      modifies this
      ensures Valid() && |trace| <= |weights|
      ensures FirstPhase(trace, op, |weights|)
      ensures failed ==> AllLost(trace) && PickedBy(trace, clock(ticks))
      ensures !failed ==> trace != [] && AllLost(trace[..|trace| - 1]) && !LostConnection(trace[|trace| - 1].outcome)
      ensures Alone(others) ==> ClosedAtStart(old(downUntil), trace)
                                && MarkedDown(if failed then trace else trace[..|trace| - 1], downUntil, circuitBreak)
      // it gives up only when all replicas were tried, or the last pick saw every other one open
      ensures failed && |trace| < |weights| ==>
                && OpenButFor(trace, seen, |weights|, clock(2 * |trace|)) && LeftBy(others, 2 * |trace|, |weights|, seen)
                && (Alone(others) ==> OpenButFor(trace, old(downUntil), |weights|, clock(2 * |trace|)))
    {
      hide *;
      trace, failed, ticks, seen := [], true, 0, [];
      var tried: set<nat> := {};
      ghost var before := downUntil;
      StartOfPhase(before, op, |weights|, clock, circuitBreak);
      var round := 0;
      while round < |weights|
        invariant Valid() && failed && |trace| == round <= |weights| && ticks == 2 * round
        invariant AllTried(trace, op, |weights|, tried, clock(ticks))
        invariant Alone(others) ==> Undisturbed(before, downUntil, trace, tried, ticks, clock, circuitBreak)
      {
        var now := clock(ticks);
        Interfere(others, ticks);
        ghost var here := downUntil;
        SizesAgree();
        var pick := PickNextRead(tried, now, random(round));
        SizesAgree();
        if Alone(others) { PickUndisturbed(before, here, trace, tried, ticks, clock, circuitBreak, op, |weights|); }
        ticks := ticks + 1;
        if pick.None? {
          seen := here;
          GivesUp(trace, op, tried, here, |weights|, now, clock(ticks));
          if Alone(others) { GivesUpUndisturbed(before, here, downUntil, trace, op, tried, ticks - 1, clock, |weights|, circuitBreak); }
          return;
        }
        var idx := pick.value;
        var outcome := op(|trace|, Replica(idx));
        ghost var shorter, call := trace, Call(Replica(idx), outcome, now);
        trace := trace + [Call(Replica(idx), outcome, now)];
        assert trace[..|trace| - 1] == shorter;
        if !LostConnection(outcome) {
          failed := false;
          AnswersNow(shorter, call, op, |weights|, tried, now);
          if Alone(others) { AnsweredUndisturbed(before, downUntil, shorter, call, tried, ticks, clock, circuitBreak); }
          return;
        }
        FailsNow(shorter, call, op, |weights|, tried, clock(ticks), clock(ticks + 1));
        Interfere(others, ticks);
        SizesAgree();
        if Alone(others) { MarkUndisturbed(before, downUntil, shorter, call, tried, ticks, clock, circuitBreak); }
        tried := tried + {idx};
        MarkDown(idx, clock(ticks));
        ticks := ticks + 1;
        round := round + 1;
      }
      AllTriedFacts(trace, op, |weights|, tried, clock(ticks));
      if Alone(others) { UndisturbedFacts(before, downUntil, trace, tried, ticks, clock, circuitBreak); }
    }

    lemma SizesAgree()
      requires Valid()
      ensures |downUntil| == |weights|
    {
    }

    /** Phase 2: `retryAttempts` more calls, whatever the breakers say. */
    method RetryReplicas(op: (nat, Target) -> Outcome, clock: nat -> int, ticks0: nat, first: seq<Call>, others: Others)
      returns (trace: seq<Call>, failed: bool)
      requires Valid() && 0 < |first| <= |weights| && AllLost(first) && Replicas(first, |weights|)
      requires PickedBy(first, clock(ticks0)) && forall i, j :: 0 <= i <= j ==> clock(i) <= clock(j)
      requires Alone(others) ==> MarkedDown(first, downUntil, circuitBreak)
      modifies this
      ensures Valid() && first <= trace && |trace| <= |first| + retryAttempts
      ensures Replicas(trace, |weights|) && WalksOn(trace, |first|, op, |weights|)
      ensures failed ==> AllLost(trace) && |trace| == |first| + retryAttempts
      ensures !failed ==> |trace| > |first| && AllLost(trace[..|trace| - 1]) && !LostConnection(trace[|trace| - 1].outcome)
      ensures Alone(others) ==> MarkedDown(if failed then trace else trace[..|trace| - 1], downUntil, circuitBreak)
    {
      hide *;
      trace, failed := first, true;
      NothingWalked(first, op, |weights|);
      var ticks := ticks0;
      for retry := 0 to retryAttempts
        invariant Valid() && failed && first <= trace && |trace| == |first| + retry
        invariant Replicas(trace, |weights|) && AllLost(trace)
        invariant Alone(others) ==> MarkedDown(trace, downUntil, circuitBreak)
        invariant WalksOn(trace, |first|, op, |weights|) && PickedBy(trace, clock(ticks))
      {
        var idx := (|first| + retry) % |weights|;
        var outcome := op(|trace|, Replica(idx));
        ghost var shorter := trace;
        var call := Call(Replica(idx), outcome, clock(ticks));
        trace := trace + [call];
        assert trace[..|trace| - 1] == shorter;
        AppendReplica(shorter, call, |weights|);
        AppendWalk(shorter, |first|, call, op, |weights|);
        if !LostConnection(outcome) {
          failed := false;
          return;
        }
        AppendLost(shorter, call);
        Interfere(others, ticks);
        SizesAgree();
        if Alone(others) { MarksGrow(shorter, downUntil, call, clock(ticks), circuitBreak); }
        MarkDown(idx, clock(ticks));
        AppendPicked(shorter, call, clock(ticks));
        PickedEarlier(trace, clock(ticks), clock(ticks + 1));
        ticks := ticks + 1;
      }
    }

    /**
     A read with retries.  `op(k, target)` is the outcome of the k-th call, `clock`
     and `random` the readings this request makes, in order.  `trace` lists its
     calls: first those of phase 1, then those of phase 2, then the writer.  Between any
     two steps `others` changes the breakers and the counter.
     */
    method ExecuteReadRetry(op: (nat, Target) -> Outcome, clock: nat -> int, random: nat -> nat, others: Others)
      returns (result: Outcome, trace: seq<Call>, ghost first: nat, ghost seen: Breakers)
      requires Valid()
      requires forall i, j :: 0 <= i <= j ==> clock(i) <= clock(j)
      modifies this
      ensures Valid()
      ensures |trace| <= |weights| + retryAttempts + 1
      ensures OutcomesOf(trace, op)
      // the answer is that of the last call; only connection failures on replicas precede it
      ensures trace != [] ==> result == trace[|trace| - 1].outcome && AllLost(trace[..|trace| - 1]) && Replicas(trace[..|trace| - 1], |weights|)
      ensures trace == [] ==> result == Err(EXHAUSTED) && !fallbackToWrite
      // phase 1: different replicas
      ensures first <= |trace| && first <= |weights| && FirstPhase(trace[..first], op, |weights|)
      // phase 2 walks on from the number of replicas tried
      ensures WalksRound(trace, first, |weights|)
      // no call is saved: unless a replica answers, all retries are made, and the writer is called if that is allowed
      ensures !Answered(trace) && |weights| > 0 ==>
                |trace| == first + (if first > 0 then retryAttempts else 0) + (if fallbackToWrite then 1 else 0)
      ensures trace != [] && trace[|trace| - 1].target.Writer? <==> |weights| == 0 || (!Answered(trace) && fallbackToWrite)
      // and phase 1 ends unanswered only after all replicas, or with every other one open at its last pick
      ensures UnansweredUpTo(trace, first) && first < |weights| ==>
                && OpenButFor(trace[..first], seen, |weights|, clock(2 * first)) && LeftBy(others, 2 * first, |weights|, seen)
                && (Alone(others) ==> OpenButFor(trace[..first], old(downUntil), |weights|, clock(2 * first)))
      // a connection failure that reaches the caller despite the fallback is the writer's
      ensures fallbackToWrite && LostConnection(result) ==> trace != [] && trace[|trace| - 1].target.Writer?
      // with nobody in between: closed breakers when picked, and whatever failed is marked
      // down for the break time, counted from its call on
      ensures Alone(others) ==> ClosedAtStart(old(downUntil), trace[..first])
      ensures Alone(others) ==> FailuresMarked(trace, downUntil, circuitBreak)
    {
      hide *;
      seen := [];
      if |weights| == 0 {
        result := op(0, Writer);
        trace, first := [Call(Writer, result, clock(0))], 0;
        OnlyWriter(downUntil, trace, op, circuitBreak);
        return;
      }
      var failed, ticks;
      trace, failed, ticks, seen := TryEachReplica(op, clock, random, others);
      first := |trace|;
      ghost var phase1, unanswered := trace, failed;
      assert trace[..first] == trace;
      FirstPhaseFacts(trace, op, |weights|);
      NothingWalked(trace, op, |weights|);
      if failed && trace != [] {
        trace, failed := RetryReplicas(op, clock, ticks, trace, others);
        assert trace[..first] == phase1;
      }
      SizesAgree();
      PhasesConclude(trace, first, op, |weights|, failed);
      if Alone(others) { MarksConclude(trace, downUntil, failed, circuitBreak); }
      PhaseOneOver(trace, first, unanswered);
      AnswerConclude(trace, |weights|, failed);
      if !failed {
        result := trace[|trace| - 1].outcome;
        return;
      }
      if fallbackToWrite {
        result := op(|trace|, Writer);
        ghost var onReplicas, call := trace, Call(Writer, result, clock(ticks));
        trace := trace + [Call(Writer, result, clock(ticks))];
        assert trace[..|trace| - 1] == onReplicas && trace[..first] == phase1;
        AppendWriter(onReplicas, call, first, op, |weights|);
        PhaseOneOver(trace, first, unanswered);
        WriterKeepsMarks(onReplicas, call, downUntil, circuitBreak);
        return;
      }
      result := if trace == [] then Err(EXHAUSTED) else trace[|trace| - 1].outcome;
    }
  }

  lemma OnlyWriter(down: Breakers, trace: seq<Call>, op: (nat, Target) -> Outcome, circuitBreak: nat)
    requires |trace| == 1 && trace[0].target.Writer? && trace[0].outcome == op(0, Writer)
    ensures AllLost(trace[..0]) && Replicas(trace[..0], 0) && OutcomesOf(trace, op) && WalksRound(trace, 0, 0)
    ensures !Answered(trace) && FirstPhase(trace[..0], op, 0) && ClosedAtStart(down, trace[..0]) && FailuresMarked(trace, down, circuitBreak)
  {
  }

  /** A replica answered, with a result or with an error of the statement itself. */
  ghost predicate Answered(trace: seq<Call>) {
    trace != [] && trace[|trace| - 1].target.Replica? && !LostConnection(trace[|trace| - 1].outcome)
  }

  /** None of the first `first` calls, of which only the last could, was answered. */
  ghost predicate UnansweredUpTo(trace: seq<Call>, first: nat) {
    first == 0 || (first <= |trace| && LostConnection(trace[first - 1].outcome))
  }

  ghost predicate Called(trace: seq<Call>, i: nat) {
    exists k :: 0 <= k < |trace| && trace[k].target == Replica(i)
  }

  /** Every replica that was not called has an open breaker. */
  ghost predicate OpenButFor(trace: seq<Call>, down: Breakers, n: nat, now: int) {
    forall i: nat :: i < n && !Called(trace, i) ==> IsOpen(down, i, now)
  }

  lemma OthersAreOpen(trace: seq<Call>, tried: set<nat>, down: Breakers, n: nat, now: int)
    requires TriedCover(trace, tried) && forall i: nat :: i < n ==> i in tried || IsOpen(down, i, now)
    ensures OpenButFor(trace, down, n, now)
  {
  }

  /** A breaker that is open now was already in that state when the request began. */
  lemma OpenSinceTheStart(before: Breakers, here: Breakers, trace: seq<Call>, tried: set<nat>, ticks: nat, clock: nat -> int, n: nat)
    requires OnlyRecovered(before, here, tried, ticks, clock) && TriedCover(trace, tried) && n == |here|
    requires OpenButFor(trace, here, n, clock(ticks)) && forall i: nat :: i < n ==> i in tried || IsOpen(here, i, clock(ticks))
    ensures OpenButFor(trace, before, n, clock(ticks))
  {
    forall i: nat | i < n && !Called(trace, i) ensures IsOpen(before, i, clock(ticks)) {
      assert i !in tried;
    }
  }

  lemma PhaseOneOver(trace: seq<Call>, first: nat, failed: bool)
    requires first <= |trace|
    requires !failed ==> first > 0 && !LostConnection(trace[..first][first - 1].outcome)
    ensures UnansweredUpTo(trace, first) ==> failed
  {
    hide LostConnection;
  }

  lemma AnswerConclude(trace: seq<Call>, n: nat, failed: bool)
    requires Replicas(trace, n) && (failed ==> AllLost(trace))
    requires !failed ==> trace != [] && !LostConnection(trace[|trace| - 1].outcome)
    ensures Answered(trace) <==> !failed
    ensures trace != [] ==> trace[|trace| - 1].target.Replica?
  {
    hide LostConnection;
  }

  /** The k-th call ends as the k-th outcome says. */
  ghost predicate OutcomesOf(trace: seq<Call>, op: (nat, Target) -> Outcome) {
    forall k :: 0 <= k < |trace| ==> trace[k].outcome == op(k, trace[k].target)
  }

  /** From `first` on, the replicas called are the next ones in the round, counted from the number tried. */
  ghost predicate WalksRound(trace: seq<Call>, first: nat, n: nat) {
    forall k :: first <= k < |trace| && trace[k].target.Replica? ==>
      first > 0 && n > 0 && trace[k].target.index == k % n
  }

  /** Every replica whose call failed is marked down from the reading of its call for the break time at least. */
  ghost predicate FailuresMarked(trace: seq<Call>, down: Breakers, circuitBreak: nat) {
    forall k :: 0 <= k < |trace| && LostConnection(trace[k].outcome) && trace[k].target.Replica? ==>
      trace[k].target.index < |down| && down[trace[k].target.index].Some?
      && down[trace[k].target.index].value >= trace[k].picked + circuitBreak
  }

  /** What the two phases together establish, whether or not a replica answered. */
  lemma PhasesConclude(trace: seq<Call>, first: nat, op: (nat, Target) -> Outcome, n: nat, failed: bool)
    requires first <= |trace| && FirstPhase(trace[..first], op, n) && Replicas(trace, n)
    requires n > 0 && WalksOn(trace, first, op, n) && (first == 0 ==> trace == [])
    requires failed ==> AllLost(trace)
    requires !failed ==> trace != [] && AllLost(trace[..|trace| - 1]) && !LostConnection(trace[|trace| - 1].outcome)
    ensures OutcomesOf(trace, op) && WalksRound(trace, first, n)
    ensures trace != [] ==> AllLost(trace[..|trace| - 1]) && Replicas(trace[..|trace| - 1], n)
  {
    hide LostConnection;
    forall k | 0 <= k < first ensures trace[k].outcome == op(k, trace[k].target) {
      assert trace[..first][k] == trace[k];
    }
  }

  /** All calls that failed are marked: all of them, or all but the last. */
  lemma MarksConclude(trace: seq<Call>, down: Breakers, failed: bool, circuitBreak: nat)
    requires Replicas(trace, |down|) && (!failed ==> trace != [] && !LostConnection(trace[|trace| - 1].outcome))
    requires MarkedDown(if failed then trace else trace[..|trace| - 1], down, circuitBreak)
    ensures FailuresMarked(trace, down, circuitBreak)
  {
    hide LostConnection;
    if !failed {
      forall k | 0 <= k < |trace| - 1
        ensures trace[k].target.index < |down| && down[trace[k].target.index].Some?
        ensures down[trace[k].target.index].value >= trace[k].picked + circuitBreak
      {
        assert trace[..|trace| - 1][k] == trace[k];
      }
    }
  }

  lemma AppendWriter(trace: seq<Call>, c: Call, first: nat, op: (nat, Target) -> Outcome, n: nat)
    requires OutcomesOf(trace, op) && WalksRound(trace, first, n)
    requires c.target.Writer? && c.outcome == op(|trace|, Writer)
    ensures OutcomesOf(trace + [c], op) && WalksRound(trace + [c], first, n) && !Answered(trace + [c])
  {
  }

  lemma WriterKeepsMarks(trace: seq<Call>, c: Call, down: Breakers, circuitBreak: nat)
    requires c.target.Writer?
    ensures FailuresMarked(trace, down, circuitBreak) ==> FailuresMarked(trace + [c], down, circuitBreak)
  {
    hide LostConnection;
  }

  lemma SumPositive(ws: seq<nat>)
    requires ws != [] && ws[0] >= 1
    ensures Sum(ws) >= 1
  {
  }

  ghost predicate AllLost(trace: seq<Call>) {
    forall k :: 0 <= k < |trace| ==> LostConnection(trace[k].outcome)
  }

  ghost predicate Replicas(trace: seq<Call>, n: nat) {
    forall k :: 0 <= k < |trace| ==> trace[k].target.Replica? && trace[k].target.index < n
  }

  /** From position `from` on, the calls go round the replicas, one after the other. */
  ghost predicate WalksOn(trace: seq<Call>, from: nat, op: (nat, Target) -> Outcome, n: nat)
    requires n > 0
  {
    forall k :: from <= k < |trace| ==> trace[k].target == Replica(k % n) && trace[k].outcome == op(k, trace[k].target)
  }

  lemma NothingWalked(trace: seq<Call>, op: (nat, Target) -> Outcome, n: nat)
    requires n > 0
    ensures WalksOn(trace, |trace|, op, n)
  {
  }

  lemma AppendWalk(trace: seq<Call>, from: nat, c: Call, op: (nat, Target) -> Outcome, n: nat)
    requires n > 0 && WalksOn(trace, from, op, n)
    requires c.target == Replica(|trace| % n) && c.outcome == op(|trace|, c.target)
    ensures WalksOn(trace + [c], from, op, n)
  {
  }

  /** Every replica called has an open deadline no earlier than the reading of its call plus the break time. */
  ghost predicate MarkedDown(trace: seq<Call>, down: Breakers, circuitBreak: nat) {
    forall k :: 0 <= k < |trace| && trace[k].target.Replica? && trace[k].target.index < |down| ==>
      down[trace[k].target.index].Some? && down[trace[k].target.index].value >= trace[k].picked + circuitBreak
  }

  ghost predicate PickedBy(trace: seq<Call>, now: int) {
    forall k :: 0 <= k < |trace| ==> trace[k].picked <= now
  }

  lemma PickedEarlier(trace: seq<Call>, now: int, later: int)
    requires PickedBy(trace, now) && now <= later
    ensures PickedBy(trace, later)
  {
  }

  lemma AppendPicked(trace: seq<Call>, c: Call, now: int)
    requires PickedBy(trace, now) && c.picked <= now
    ensures PickedBy(trace + [c], now)
  {
  }

  /** Pairwise different replicas, called in order. */
  ghost predicate FirstPhase(trace: seq<Call>, op: (nat, Target) -> Outcome, n: nat) {
    && Replicas(trace, n)
    && (forall i, j :: 0 <= i < j < |trace| ==> trace[i].target != trace[j].target)
    && (forall k :: 0 <= k < |trace| ==> trace[k].outcome == op(k, trace[k].target))
  }

  /** None had an open breaker when picked. */
  ghost predicate ClosedAtStart(before: Breakers, trace: seq<Call>) {
    forall k :: 0 <= k < |trace| && trace[k].target.Replica? ==> !IsOpen(before, trace[k].target.index, trace[k].picked)
  }

  /** What holds of the breakers during phase 1 as long as nobody else acts. */
  ghost predicate Undisturbed(before: Breakers, here: Breakers, trace: seq<Call>, tried: set<nat>, ticks: nat, clock: nat -> int, circuitBreak: nat) {
    && ClosedAtStart(before, trace) && MarkedDown(trace, here, circuitBreak) && OnlyRecovered(before, here, tried, ticks, clock)
  }

  ghost predicate TriedCover(trace: seq<Call>, tried: set<nat>) {
    && |tried| == |trace|
    && (forall k :: 0 <= k < |trace| ==> trace[k].target.Replica? && trace[k].target.index in tried)
    && (forall i :: i in tried ==> Called(trace, i))
  }

  lemma StartOfPhase(before: Breakers, op: (nat, Target) -> Outcome, n: nat, clock: nat -> int, circuitBreak: nat)
    ensures AllTried([], op, n, {}, clock(0))
    ensures Undisturbed(before, before, [], {}, 0, clock, circuitBreak) && ClosedAtStart(before, [])
  {
  }

  lemma UndisturbedFacts(before: Breakers, here: Breakers, trace: seq<Call>, tried: set<nat>, ticks: nat, clock: nat -> int, circuitBreak: nat)
    requires Undisturbed(before, here, trace, tried, ticks, clock, circuitBreak)
    ensures ClosedAtStart(before, trace) && MarkedDown(trace, here, circuitBreak)
  {
  }

  /** Phase 1 so far: different replicas called, all of which lost their connection, at readings up to `now`. */
  ghost predicate AllTried(trace: seq<Call>, op: (nat, Target) -> Outcome, n: nat, tried: set<nat>, now: int) {
    FirstPhase(trace, op, n) && AllLost(trace) && TriedCover(trace, tried) && PickedBy(trace, now)
  }

  lemma AllTriedFacts(trace: seq<Call>, op: (nat, Target) -> Outcome, n: nat, tried: set<nat>, now: int)
    requires AllTried(trace, op, n, tried, now)
    ensures FirstPhase(trace, op, n) && AllLost(trace) && PickedBy(trace, now)
  {
  }

  lemma GivesUp(trace: seq<Call>, op: (nat, Target) -> Outcome, tried: set<nat>, here: Breakers, n: nat, now: int, later: int)
    requires AllTried(trace, op, n, tried, now) && now <= later
    requires forall i: nat :: i < n ==> i in tried || IsOpen(here, i, now)
    ensures FirstPhase(trace, op, n) && AllLost(trace) && PickedBy(trace, later) && OpenButFor(trace, here, n, now)
  {
    OthersAreOpen(trace, tried, here, n, now);
    PickedEarlier(trace, now, later);
    hide *;
    AllTriedFacts(trace, op, n, tried, now);
  }

  lemma GivesUpUndisturbed(before: Breakers, here: Breakers, after: Breakers, trace: seq<Call>, op: (nat, Target) -> Outcome, tried: set<nat>,
                           ticks: nat, clock: nat -> int, n: nat, circuitBreak: nat)
    requires Undisturbed(before, here, trace, tried, ticks, clock, circuitBreak) && n == |here|
    requires Undisturbed(before, after, trace, tried, ticks + 1, clock, circuitBreak)
    requires AllTried(trace, op, n, tried, clock(ticks)) && forall i: nat :: i < n ==> i in tried || IsOpen(here, i, clock(ticks))
    ensures ClosedAtStart(before, trace) && MarkedDown(trace, after, circuitBreak) && OpenButFor(trace, before, n, clock(ticks))
  {
    OthersAreOpen(trace, tried, here, n, clock(ticks));
    OpenSinceTheStart(before, here, trace, tried, ticks, clock, n);
    UndisturbedFacts(before, after, trace, tried, ticks + 1, clock, circuitBreak);
    hide *;
  }

  lemma AnswersNow(trace: seq<Call>, c: Call, op: (nat, Target) -> Outcome, n: nat, tried: set<nat>, now: int)
    requires AllTried(trace, op, n, tried, now)
    requires c.target.Replica? && c.target.index < n && c.target.index !in tried && c.outcome == op(|trace|, c.target)
    ensures FirstPhase(trace + [c], op, n) && AllLost(trace)
  {
    AppendFirst(trace, c, op, n, tried);
    hide *;
    AllTriedFacts(trace, op, n, tried, now);
  }

  lemma FailsNow(trace: seq<Call>, c: Call, op: (nat, Target) -> Outcome, n: nat, tried: set<nat>, marked: int, later: int)
    requires AllTried(trace, op, n, tried, c.picked) && c.picked <= marked <= later
    requires c.target.Replica? && c.target.index < n && c.target.index !in tried && c.outcome == op(|trace|, c.target)
    requires LostConnection(c.outcome)
    ensures PickedBy(trace + [c], marked) && AllTried(trace + [c], op, n, tried + {c.target.index}, later)
  {
    PickedEarlier(trace, c.picked, marked);
    AppendPicked(trace, c, marked);
    PickedEarlier(trace + [c], marked, later);
    AppendLost(trace, c);
    AppendFirst(trace, c, op, n, tried);
    hide FirstPhase;
    hide AllLost;
    hide TriedCover;
    hide PickedBy;
  }

  /** A pick that nobody disturbs finds closed what was closed, or had run out, when the request began. */
  lemma PickUndisturbed(before: Breakers, here: Breakers, trace: seq<Call>, tried: set<nat>, tick: nat, clock: nat -> int, circuitBreak: nat,
                        op: (nat, Target) -> Outcome, n: nat)
    requires Undisturbed(before, here, trace, tried, tick, clock, circuitBreak) && AllTried(trace, op, n, tried, clock(tick))
    requires forall i, j :: 0 <= i <= j ==> clock(i) <= clock(j)
    ensures Undisturbed(before, Recovered(here, tried, clock(tick), |here|), trace, tried, tick + 1, clock, circuitBreak)
    ensures forall i: nat :: i < |here| && i !in tried && !IsOpen(here, i, clock(tick)) ==> !IsOpen(before, i, clock(tick))
  {
    forall i: nat | i < |here| && i !in tried && !IsOpen(here, i, clock(tick)) ensures !IsOpen(before, i, clock(tick)) {
      ClosedThenClosedNow(before, here, tried, i, tick, clock);
    }
    MarksSurvivePick(trace, here, tried, clock(tick), |here|, circuitBreak);
    RecoveryStaysExplained(before, here, tried, tick, clock);
    hide OnlyRecovered;
    hide MarkedDown;
    hide Recovered;
  }

  /** The last call was answered: what failed before it is still marked. */
  lemma AnsweredUndisturbed(before: Breakers, here: Breakers, trace: seq<Call>, c: Call, tried: set<nat>, ticks: nat, clock: nat -> int, circuitBreak: nat)
    requires Undisturbed(before, here, trace, tried, ticks, clock, circuitBreak)
    requires c.target.Replica? && !IsOpen(before, c.target.index, c.picked)
    ensures ClosedAtStart(before, trace + [c]) && MarkedDown(trace, here, circuitBreak)
  {
    hide IsOpen;
  }

  lemma MarkUndisturbed(before: Breakers, here: Breakers, trace: seq<Call>, c: Call, tried: set<nat>, ticks: nat, clock: nat -> int, circuitBreak: nat)
    requires Undisturbed(before, here, trace, tried, ticks, clock, circuitBreak)
    requires c.target.Replica? && c.target.index < |here| && !IsOpen(before, c.target.index, c.picked)
    requires PickedBy(trace + [c], clock(ticks))
    ensures Undisturbed(before, here[c.target.index := Some(clock(ticks) + circuitBreak)], trace + [c],
                        tried + {c.target.index}, ticks + 1, clock, circuitBreak)
  {
    var until := clock(ticks) + circuitBreak;
    AnsweredUndisturbed(before, here, trace, c, tried, ticks, clock, circuitBreak);
    assert PickedBy(trace, clock(ticks)) && c.picked <= clock(ticks) by {
      assert forall k :: 0 <= k < |trace| ==> (trace + [c])[k] == trace[k];
      assert (trace + [c])[|trace|] == c;
    }
    MarksGrow(trace, here, c, clock(ticks), circuitBreak);
    TriedAndMarked(before, here, tried, c.target.index, until, ticks, clock);
    hide OnlyRecovered;
    hide MarkedDown;
    hide ClosedAtStart;
  }

  lemma FirstPhaseFacts(trace: seq<Call>, op: (nat, Target) -> Outcome, n: nat)
    requires FirstPhase(trace, op, n)
    ensures Replicas(trace, n) && forall k :: 0 <= k < |trace| ==> trace[k].outcome == op(k, trace[k].target)
  {
  }

  lemma AppendLost(trace: seq<Call>, c: Call)
    requires AllLost(trace) && LostConnection(c.outcome)
    ensures AllLost(trace + [c])
  {
  }

  lemma AppendReplica(trace: seq<Call>, c: Call, n: nat)
    requires Replicas(trace, n) && c.target.Replica? && c.target.index < n
    ensures Replicas(trace + [c], n)
  {
  }

  lemma AppendFirst(trace: seq<Call>, c: Call, op: (nat, Target) -> Outcome, n: nat, tried: set<nat>)
    requires FirstPhase(trace, op, n) && TriedCover(trace, tried)
    requires c.target.Replica? && c.target.index < n && c.target.index !in tried && c.outcome == op(|trace|, c.target)
    ensures FirstPhase(trace + [c], op, n) && TriedCover(trace + [c], tried + {c.target.index})
  {
    var longer := trace + [c];
    forall i | i in tried + {c.target.index} ensures Called(longer, i) {
      if i == c.target.index {
        assert longer[|trace|].target == Replica(i);
      } else {
        var k :| 0 <= k < |trace| && trace[k].target == Replica(i);
        assert longer[k].target == Replica(i);
      }
    }
  }

  lemma MarksSurvivePick(trace: seq<Call>, here: Breakers, tried: set<nat>, now: int, n: nat, circuitBreak: nat)
    requires MarkedDown(trace, here, circuitBreak) && TriedCover(trace, tried) && n <= |here|
    ensures MarkedDown(trace, Recovered(here, tried, now, n), circuitBreak)
  {
  }

  lemma MarksGrow(trace: seq<Call>, here: Breakers, c: Call, now: int, circuitBreak: nat)
    requires MarkedDown(trace, here, circuitBreak) && c.target.Replica? && c.target.index < |here|
    requires PickedBy(trace, now) && c.picked <= now
    ensures MarkedDown(trace + [c], here[c.target.index := Some(now + circuitBreak)], circuitBreak)
  {
  }

  /** Untried replicas' breakers are as they were, or were found expired at an earlier reading. */
  ghost predicate OnlyRecovered(before: Breakers, here: Breakers, tried: set<nat>, ticks: nat, clock: nat -> int) {
    && |before| == |here|
    && forall i :: 0 <= i < |before| && i !in tried ==>
         here[i] == before[i] || (here[i].None? && exists t: nat :: t < ticks && !IsOpen(before, i, clock(t)))
  }

  lemma RecoveryStaysExplained(before: Breakers, here: Breakers, tried: set<nat>, tick: nat, clock: nat -> int)
    requires OnlyRecovered(before, here, tried, tick, clock)
    ensures OnlyRecovered(before, Recovered(here, tried, clock(tick), |here|), tried, tick + 1, clock)
  {
  }

  lemma TriedAndMarked(before: Breakers, here: Breakers, tried: set<nat>, idx: nat, until: int, ticks: nat, clock: nat -> int)
    requires OnlyRecovered(before, here, tried, ticks, clock) && idx < |here|
    ensures OnlyRecovered(before, here[idx := Some(until)], tried + {idx}, ticks + 1, clock)
  {
  }

  /** A breaker that is closed now was already closed, at this reading, in the state the request started from. */
  lemma ClosedThenClosedNow(before: Breakers, here: Breakers, tried: set<nat>, i: nat, tick: nat, clock: nat -> int)
    requires OnlyRecovered(before, here, tried, tick, clock)
    requires i < |before| && i !in tried && !IsOpen(here, i, clock(tick))
    requires forall i, j :: 0 <= i <= j ==> clock(i) <= clock(j)
    ensures !IsOpen(before, i, clock(tick))
  {
  }
}
