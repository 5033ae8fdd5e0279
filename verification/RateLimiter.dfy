/** The fixed-window rate limiter: one Redis counter per key, incremented and given its expiry by one script. */
module RateLimiter {
  import opened Options

  /** The stored counter; a counter made by INCR alone has no expiry yet. */
  datatype Counter = Counter(count: nat, expireAt: Option<nat>)

  /** The counter a command at `now` sees: a key is gone from its expiry on. */
  function Live(entry: Option<Counter>, now: nat): Option<Counter> {
    if entry.Some? && entry.value.expireAt.Some? && entry.value.expireAt.value <= now then None else entry
  }

  /** Between scripts every counter has an expiry, so no key can block its users for ever. */
  predicate Expiring(entry: Option<Counter>) {
    entry.Some? ==> entry.value.count >= 1 && entry.value.expireAt.Some?
  }

  /** The number a request at `now` is given in its window. */
  function Ticket(entry: Option<Counter>, now: nat): nat {
    var live := Live(entry, now);
    if live.Some? then live.value.count + 1 else 1
  }

  /** The entry after a request at `now`, for a window of `w` milliseconds. */
  function Next(entry: Option<Counter>, now: nat, w: nat): (next: Option<Counter>)
    requires Expiring(entry)
    ensures Expiring(next)
  {
    var live := Live(entry, now);
    if live.Some? then Some(Counter(live.value.count + 1, live.value.expireAt))
    else if w == 0 then None
    else Some(Counter(1, Some(now + w)))
  }

  /** One key of the store, with the two commands of the script. */
  class RedisRateLimiter {
    var entry: Option<Counter>

    constructor ()
      ensures entry == None
    {
      entry := None;
    }

    method Incr(now: nat) returns (count: nat)
      modifies this
      ensures count == Ticket(old(entry), now)
      ensures entry == Some(Counter(count, if Live(old(entry), now).Some? then old(entry).value.expireAt else None))
    {
      if entry.Some? && entry.value.expireAt.Some? && entry.value.expireAt.value <= now { entry := None; }
      count := if entry.Some? then entry.value.count + 1 else 1;
      entry := Some(Counter(count, if entry.Some? then entry.value.expireAt else None));
    }

    /** EXPIRE with zero seconds deletes the key. */
    method Expire(now: nat, seconds: nat)
      modifies this
      ensures old(entry).None? ==> entry == None
      ensures old(entry).Some? && seconds == 0 ==> entry == None
      ensures old(entry).Some? && seconds > 0 ==> entry == Some(Counter(old(entry).value.count, Some(now + 1000 * seconds)))
    {
      if entry.Some? {
        entry := if seconds == 0 then None else Some(Counter(entry.value.count, Some(now + 1000 * seconds)));
      }
    }

    method Check(now: nat, maxRequests: nat, windowSeconds: nat) returns (allowed: bool)
      requires Expiring(entry)
      modifies this
      ensures Expiring(entry)
      ensures entry == Next(old(entry), now, 1000 * windowSeconds)
      ensures allowed <==> Ticket(old(entry), now) <= maxRequests
      // a counter that has not expired counts on to its own expiry, and a new one lasts for the window
      ensures var live := old(entry).Some? && now < old(entry).value.expireAt.value;
              && (allowed <==> (if live then old(entry).value.count + 1 else 1) <= maxRequests)
              && entry == (if live then Some(Counter(old(entry).value.count + 1, old(entry).value.expireAt))
                           else if windowSeconds == 0 then None
                           else Some(Counter(1, Some(now + 1000 * windowSeconds))))
    {
      var count := Incr(now);
      if count == 1 {
        Expire(now, windowSeconds);
      }
      allowed := count <= maxRequests;
    }
  }

  // ------------------------------------------------------------------ traces

  predicate Nondecreasing(times: seq<nat>) {
    forall i, j :: 0 <= i < j < |times| ==> times[i] <= times[j]
  }

  /** The tickets handed out to requests at `times`, starting from `entry`. */
  function Tickets(entry: Option<Counter>, times: seq<nat>, w: nat): (tickets: seq<nat>)
    requires Expiring(entry)
    ensures |tickets| == |times|
    decreases |times|
  {
    if times == [] then [] else [Ticket(entry, times[0])] + Tickets(Next(entry, times[0], w), times[1..], w)
  }

  lemma {:induction false} TicketsOfSuffix(entry: Option<Counter>, times: seq<nat>, w: nat, i: nat)
    requires Expiring(entry) && i < |times|
    ensures Tickets(entry, times, w)[i] == if i == 0 then Ticket(entry, times[0])
                                           else Tickets(Next(entry, times[0], w), times[1..], w)[i - 1]
  {
  }

  /** A request either still belongs to the window the trace was entered in, or its window opened within the trace. */
  lemma {:induction false} WindowFrom(entry: Option<Counter>, times: seq<nat>, w: nat, i: nat)
    requires Expiring(entry) && Nondecreasing(times) && i < |times| && w > 0
    ensures var t := Tickets(entry, times, w);
            if entry.Some? && t[i] == entry.value.count + i + 1 && t[i] > i + 1 then times[i] < entry.value.expireAt.value
            else 1 <= t[i] <= i + 1 && t[i + 1 - t[i]] == 1 && times[i + 1 - t[i]] <= times[i] < times[i + 1 - t[i]] + w
    decreases i
  {
    TicketsOfSuffix(entry, times, w, i);
    TicketsOfSuffix(entry, times, w, 0);
    if i > 0 {
      var next := Next(entry, times[0], w);
      var t, u := Tickets(entry, times, w), Tickets(next, times[1..], w);
      WindowFrom(next, times[1..], w, i - 1);
      if 1 <= u[i - 1] <= i {
        TicketsOfSuffix(entry, times, w, i + 1 - u[i - 1]);
      }
    }
  }

  /** Nothing opens before the entry's window has run out. */
  lemma {:induction false} NoOpeningWhileLive(entry: Option<Counter>, times: seq<nat>, w: nat, b: nat)
    requires Expiring(entry) && entry.Some? && Nondecreasing(times) && b < |times|
    requires Tickets(entry, times, w)[b] == 1
    ensures entry.value.expireAt.value <= times[b]
    decreases b
  {
    TicketsOfSuffix(entry, times, w, b);
    if b > 0 && times[0] < entry.value.expireAt.value {
      NoOpeningWhileLive(Next(entry, times[0], w), times[1..], w, b - 1);
    }
  }

  lemma {:induction false} OpeningsApartFrom(entry: Option<Counter>, times: seq<nat>, w: nat, a: nat, b: nat)
    requires Expiring(entry) && Nondecreasing(times) && a < b < |times| && w > 0
    requires Tickets(entry, times, w)[a] == 1 && Tickets(entry, times, w)[b] == 1
    ensures times[a] + w <= times[b]
    decreases a
  {
    TicketsOfSuffix(entry, times, w, a);
    TicketsOfSuffix(entry, times, w, b);
    var next := Next(entry, times[0], w);
    if a == 0 {
      NoOpeningWhileLive(next, times[1..], w, b - 1);
    } else {
      OpeningsApartFrom(next, times[1..], w, a - 1, b - 1);
    }
  }

  /**
   Every request lies in a window that opened with ticket 1 at or before it and
   lasts `w`; within a window exactly the first `maxRequests` requests are allowed.
   */
  lemma EachRequestHasItsWindow(times: seq<nat>, w: nat, maxRequests: nat, i: nat)
    requires Nondecreasing(times) && i < |times| && w > 0
    ensures var t := Tickets(None, times, w); 1 <= t[i] <= i + 1
    ensures var t := Tickets(None, times, w); var open := i + 1 - t[i];
            t[open] == 1 && times[open] <= times[i] < times[open] + w
    ensures var t := Tickets(None, times, w); var open := i + 1 - t[i];
            t[i] <= maxRequests <==> i < open + maxRequests
  {
    WindowFrom(None, times, w, i);
  }

  /** Windows are disjoint. */
  lemma WindowsAreDisjoint(times: seq<nat>, w: nat, a: nat, b: nat)
    requires Nondecreasing(times) && a < b < |times| && w > 0
    requires Tickets(None, times, w)[a] == 1 && Tickets(None, times, w)[b] == 1
    ensures times[a] + w <= times[b]
  {
    OpeningsApartFrom(None, times, w, a, b);
  }

  // ---------------------------------------------------------- sliding intervals

  /** How many requests at times in `[x, x + w)` are allowed. */
  function AllowedIn(entry: Option<Counter>, times: seq<nat>, w: nat, maxRequests: nat, x: nat): nat
    requires Expiring(entry)
    decreases |times|
  {
    if times == [] then 0
    else
      var counted := Ticket(entry, times[0]) <= maxRequests && x <= times[0] < x + w;
      (if counted then 1 else 0) + AllowedIn(Next(entry, times[0], w), times[1..], w, maxRequests, x)
  }

  lemma {:induction false} NothingAllowedPast(entry: Option<Counter>, times: seq<nat>, w: nat, maxRequests: nat, x: nat)
    requires Expiring(entry) && Nondecreasing(times)
    requires times != [] ==> x + w <= times[0]
    ensures AllowedIn(entry, times, w, maxRequests, x) == 0
    decreases |times|
  {
    if times != [] {
      NothingAllowedPast(Next(entry, times[0], w), times[1..], w, maxRequests, x);
    }
  }

  function Spent(entry: Option<Counter>, maxRequests: nat): nat {
    if entry.None? then 0 else if entry.value.count < maxRequests then entry.value.count else maxRequests
  }

  predicate OpenedFrom(entry: Option<Counter>, w: nat, x: nat) {
    entry.Some? && entry.value.expireAt.Some? && entry.value.expireAt.value >= x + w
  }

  /** What is left for an interval that has begun: the rest of the current window, and one more if that opened earlier. */
  lemma {:induction false} AllowedOnceBegun(entry: Option<Counter>, times: seq<nat>, w: nat, maxRequests: nat, x: nat)
    requires Expiring(entry) && Nondecreasing(times)
    requires times != [] ==> x <= times[0]
    ensures AllowedIn(entry, times, w, maxRequests, x)
         <= maxRequests - Spent(entry, maxRequests) + (if OpenedFrom(entry, w, x) then 0 else maxRequests)
    decreases |times|
  {
    if times != [] {
      if x + w <= times[0] {
        NothingAllowedPast(entry, times, w, maxRequests, x);
      } else {
        AllowedOnceBegun(Next(entry, times[0], w), times[1..], w, maxRequests, x);
      }
    }
  }

  /** The bound on any half-open interval as long as the window. */
  function SlidingBound(maxRequests: nat): nat {
    if maxRequests == 0 then 0 else 2 * maxRequests - 1
  }

  lemma {:induction false} SlidingBoundFrom(entry: Option<Counter>, times: seq<nat>, w: nat, maxRequests: nat, x: nat)
    requires Expiring(entry) && Nondecreasing(times)
    requires times != [] ==> times[0] < x || entry.Some?
    ensures AllowedIn(entry, times, w, maxRequests, x) <= SlidingBound(maxRequests)
    decreases |times|
  {
    if times != [] {
      if times[0] < x && w > 0 {
        SlidingBoundFrom(Next(entry, times[0], w), times[1..], w, maxRequests, x);
      } else if x <= times[0] {
        AllowedOnceBegun(entry, times, w, maxRequests, x);
      } else {
        EmptyWindowAllowsNothing(entry, times, maxRequests, x);
      }
    }
  }

  lemma {:induction false} EmptyWindowAllowsNothing(entry: Option<Counter>, times: seq<nat>, maxRequests: nat, x: nat)
    requires Expiring(entry)
    ensures AllowedIn(entry, times, 0, maxRequests, x) == 0
    decreases |times|
  {
    if times != [] {
      EmptyWindowAllowsNothing(Next(entry, times[0], 0), times[1..], maxRequests, x);
    }
  }

  /**
   For every trace of requests and every instant `x`: fewer than twice
   `maxRequests` requests are allowed in `[x, x + w)`.
   */
  lemma AnyIntervalIsBounded(times: seq<nat>, w: nat, maxRequests: nat, x: nat)
    requires Nondecreasing(times)
    ensures AllowedIn(None, times, w, maxRequests, x) <= SlidingBound(maxRequests)
  {
    if times != [] {
      if x <= times[0] && w > 0 {
        if x + w <= times[0] {
          NothingAllowedPast(None, times, w, maxRequests, x);
        } else {
          AllowedOnceBegun(Next(None, times[0], w), times[1..], w, maxRequests, x);
        }
      } else if w > 0 {
        SlidingBoundFrom(None, times, w, maxRequests, x);
      } else {
        EmptyWindowAllowsNothing(None, times, maxRequests, x);
      }
    }
  }

  // ---------------------------------------------------------------- tightness

  function Burst(t: nat, n: nat): seq<nat> {
    seq(n, _ => t)
  }

  /** A burst of `n` allowed requests inside one window, followed by `rest`. */
  lemma {:induction false} BurstIsAllowed(count: nat, e: nat, t: nat, n: nat, rest: seq<nat>, w: nat, maxRequests: nat, x: nat)
    requires 1 <= count && count + n <= maxRequests && x <= t < x + w && t < e
    ensures AllowedIn(Some(Counter(count, Some(e))), Burst(t, n) + rest, w, maxRequests, x)
         == n + AllowedIn(Some(Counter(count + n, Some(e))), rest, w, maxRequests, x)
    decreases n
  {
    var times := Burst(t, n) + rest;
    if n == 0 {
      assert times == rest;
    } else {
      assert times[0] == t && times[1..] == Burst(t, n - 1) + rest;
      BurstIsAllowed(count + 1, e, t, n - 1, rest, w, maxRequests, x);
    }
  }

  /** One request, a burst at the very end of its window and a burst at the start of the next reach the bound. */
  lemma BoundIsReached(w: nat, maxRequests: nat)
    requires w >= 2 && maxRequests >= 1
    ensures var times := [0] + Burst(w - 1, maxRequests - 1) + Burst(w, maxRequests);
            Nondecreasing(times) && AllowedIn(None, times, w, maxRequests, w - 1) == SlidingBound(maxRequests)
  {
    var first, second := Burst(w - 1, maxRequests - 1), Burst(w, maxRequests);
    var times := [0] + first + second;
    var x := w - 1;
    assert times[0] == 0 && times[1..] == first + second;
    BurstIsAllowed(1, w, w - 1, maxRequests - 1, second, w, maxRequests, x);
    var spent := Some(Counter(maxRequests, Some(w)));
    assert second[0] == w && second[1..] == Burst(w, maxRequests - 1) + [];
    BurstIsAllowed(1, w + w, w, maxRequests - 1, [], w, maxRequests, x);
    assert AllowedIn(spent, second, w, maxRequests, x) == maxRequests;
  }
}
