/**
 The check of a JWT's version against a 30-second cache in front of the database,
 for one user.  Writers may or may not invalidate the cache; a request may pause
 between its database read and its cache fill.
 */
module TokenVersionGate {
  import opened Options

  const CACHE_TTL_MS: int := 30_000

  /** `readAt` is history: the instant of the database read the entry came from. */
  datatype Entry = Entry(version: int, expiresAt: int, readAt: int)

  predicate Alive(cache: Option<Entry>, now: int) {
    cache.Some? && now < cache.value.expiresAt
  }

  /** A request that has read the database and not yet filled the cache. */
  datatype Fill = Fill(token: int, version: int, readAt: int)

  /** The version column over time; None once the user is deleted. */
  datatype Change = Change(at: int, version: Option<int>)

  datatype Acceptance = Acceptance(version: int, at: int)

  datatype Gate = Gate(
    now: int,
    changes: seq<Change>,
    cache: Option<Entry>,
    fills: map<nat, Fill>,
    accepted: seq<Acceptance>)

  datatype Event =
    | Tick(elapsed: nat)
    | Create(version: int)
    | Bump
    | Delete
    | Invalidate
    | AnswerFromCache(token: int)
    | ReadDatabase(request: nat, token: int)
    | FillAndAnswer(request: nat, stored: bool)

  function Current(g: Gate): Option<int> {
    if g.changes == [] then None else g.changes[|g.changes| - 1].version
  }

  function Answer(g: Gate, version: int, token: int): seq<Acceptance> {
    if version == token then g.accepted + [Acceptance(token, g.now)] else g.accepted
  }

  function Step(g: Gate, e: Event): Gate {
    match e
    case Tick(elapsed) => g.(now := g.now + elapsed)
    case Create(version) =>
      if g.changes == [] then g.(changes := [Change(g.now, Some(version))]) else g
    case Bump =>
      if Current(g).Some? then g.(changes := g.changes + [Change(g.now, Some(Current(g).value + 1))]) else g
    case Delete =>
      if Current(g).Some? then g.(changes := g.changes + [Change(g.now, None)]) else g
    case Invalidate => g.(cache := None)
    case AnswerFromCache(token) =>
      if Alive(g.cache, g.now) then g.(accepted := Answer(g, g.cache.value.version, token)) else g
    case ReadDatabase(request, token) =>
      if Current(g).Some? then g.(fills := g.fills[request := Fill(token, Current(g).value, g.now)]) else g
    case FillAndAnswer(request, stored) =>
      if request !in g.fills then g
      else
        var f := g.fills[request];
        g.(cache := if stored then Some(Entry(f.version, g.now + CACHE_TTL_MS, f.readAt)) else g.cache,
           fills := map r | r in g.fills && r != request :: g.fills[r],
           accepted := Answer(g, f.version, f.token))
  }

  function Run(g: Gate, events: seq<Event>): Gate
    decreases |events|
  {
    if events == [] then g else Run(Step(g, events[0]), events[1..])
  }

  /** No request takes longer than `delay` from its database read to its answer. */
  predicate InTime(g: Gate, e: Event, delay: int) {
    e.FillAndAnswer? && e.request in g.fills ==> g.now <= g.fills[e.request].readAt + delay
  }

  ghost predicate AllInTime(g: Gate, events: seq<Event>, delay: int)
    decreases |events|
  {
    events == [] || (InTime(g, events[0], delay) && AllInTime(Step(g, events[0]), events[1..], delay))
  }

  /** `version` was in the database at instant `x` (a change belongs to both sides of its instant). */
  ghost predicate WasCurrent(changes: seq<Change>, version: int, x: int) {
    exists i :: 0 <= i < |changes| && HeldAt(changes, i, version, x)
  }

  predicate HeldAt(changes: seq<Change>, i: nat, version: int, x: int)
    requires i < |changes|
  {
    && changes[i].version == Some(version)
    && changes[i].at <= x
    && (i + 1 < |changes| ==> x <= changes[i + 1].at)
  }

  function Created(now: int, version: int): Gate {
    Gate(now, [Change(now, Some(version))], None, map[], [])
  }

  ghost predicate Justified(g: Gate, a: Acceptance, delay: int) {
    exists x :: a.at - (CACHE_TTL_MS + delay) <= x <= a.at && WasCurrent(g.changes, a.version, x)
  }

  ghost predicate Inv(g: Gate, delay: int) {
    && (forall i :: 0 <= i < |g.changes| ==> g.changes[i].at <= g.now)
    && (g.cache.Some? ==>
          && WasCurrent(g.changes, g.cache.value.version, g.cache.value.readAt)
          && g.cache.value.readAt <= g.now
          && g.cache.value.expiresAt <= g.cache.value.readAt + delay + CACHE_TTL_MS)
    && (forall r :: r in g.fills ==>
          WasCurrent(g.changes, g.fills[r].version, g.fills[r].readAt) && g.fills[r].readAt <= g.now)
    && (forall a :: a in g.accepted ==> a.at <= g.now && Justified(g, a, delay))
  }

  lemma AppendedChangeKeepsPast(changes: seq<Change>, c: Change, version: int, x: int)
    requires WasCurrent(changes, version, x) && x <= c.at
    ensures WasCurrent(changes + [c], version, x)
  {
    var i :| 0 <= i < |changes| && HeldAt(changes, i, version, x);
    assert HeldAt(changes + [c], i, version, x);
  }

  lemma AppendedChangeKeepsJustified(g: Gate, c: Change, a: Acceptance, delay: int)
    requires Justified(g, a, delay) && a.at <= c.at
    ensures Justified(g.(changes := g.changes + [c]), a, delay)
  {
    var x :| a.at - (CACHE_TTL_MS + delay) <= x <= a.at && WasCurrent(g.changes, a.version, x);
    AppendedChangeKeepsPast(g.changes, c, a.version, x);
  }

  lemma ChangeKeepsInv(g: Gate, c: Change, delay: int)
    requires Inv(g, delay) && c.at == g.now
    ensures Inv(g.(changes := g.changes + [c]), delay)
  {
    var g' := g.(changes := g.changes + [c]);
    if g.cache.Some? {
      AppendedChangeKeepsPast(g.changes, c, g.cache.value.version, g.cache.value.readAt);
    }
    forall r | r in g.fills ensures WasCurrent(g'.changes, g.fills[r].version, g.fills[r].readAt) {
      AppendedChangeKeepsPast(g.changes, c, g.fills[r].version, g.fills[r].readAt);
    }
    forall a | a in g.accepted ensures Justified(g', a, delay) {
      AppendedChangeKeepsJustified(g, c, a, delay);
    }
  }

  lemma AcceptedNow(g: Gate, version: int, readAt: int, delay: int)
    requires WasCurrent(g.changes, version, readAt)
    requires readAt <= g.now <= readAt + delay + CACHE_TTL_MS
    ensures Justified(g, Acceptance(version, g.now), delay)
  {
  }

  lemma StepKeepsInv(g: Gate, e: Event, delay: nat)
    requires Inv(g, delay) && InTime(g, e, delay)
    ensures Inv(Step(g, e), delay)
  {
    var g' := Step(g, e);
    match e {
      case Create(version) =>
        if g.changes == [] {
          ChangeKeepsInv(g, Change(g.now, Some(version)), delay);
          assert g.changes + [Change(g.now, Some(version))] == g'.changes;
        } else {
          SameChangesSameJustified(g, g', delay);
        }
      case Bump =>
        if Current(g).Some? { ChangeKeepsInv(g, Change(g.now, Some(Current(g).value + 1)), delay); }
      case Delete =>
        if Current(g).Some? { ChangeKeepsInv(g, Change(g.now, None), delay); }
      case AnswerFromCache(token) =>
        if Alive(g.cache, g.now) { AcceptedNow(g, g.cache.value.version, g.cache.value.readAt, delay); }
        assert forall a :: a in g.accepted ==> Justified(g', a, delay) by { SameChangesSameJustified(g, g', delay); }
      case ReadDatabase(request, token) =>
        if Current(g).Some? { assert HeldAt(g.changes, |g.changes| - 1, Current(g).value, g.now); }
        SameChangesSameJustified(g, g', delay);
      case FillAndAnswer(request, stored) =>
        if request in g.fills { AcceptedNow(g, g.fills[request].version, g.fills[request].readAt, delay); }
        SameChangesSameJustified(g, g', delay);
      case Tick(_) => SameChangesSameJustified(g, g', delay);
      case Invalidate => SameChangesSameJustified(g, g', delay);
    }
  }

  lemma SameChangesSameJustified(g: Gate, g': Gate, delay: int)
    requires g.changes == g'.changes
    ensures forall a :: Justified(g, a, delay) ==> Justified(g', a, delay)
  {
  }

  lemma {:induction false} RunKeepsInv(g: Gate, events: seq<Event>, delay: nat)
    requires Inv(g, delay) && AllInTime(g, events, delay)
    ensures Inv(Run(g, events), delay)
    decreases |events|
  {
    if events != [] {
      StepKeepsInv(g, events[0], delay);
      hide Inv;
      hide Step;
      RunKeepsInv(Step(g, events[0]), events[1..], delay);
    }
  }

  /**
   Bounded staleness: if every request answers within `delay` of its database
   read, a version accepted at time t was the database's at some instant in
   [t - (30 s + delay), t], whoever invalidated the cache or failed to.
   */
  lemma AcceptedVersionWasRecentlyCurrent(start: int, version: int, events: seq<Event>, delay: nat)
    requires AllInTime(Created(start, version), events, delay)
    ensures var g := Run(Created(start, version), events);
            forall a :: a in g.accepted ==> Justified(g, a, delay)
  {
    RunKeepsInv(Created(start, version), events, delay);
  }

  // ------------------------------------------------------------- refusal time

  /** Versions only grow, and nothing follows a deletion. */
  ghost predicate Ascending(changes: seq<Change>) {
    && (forall i, j :: 0 <= i < j < |changes| ==>
          && changes[i].at <= changes[j].at
          && changes[i].version.Some?
          && (changes[j].version.Some? ==> changes[i].version.value < changes[j].version.value))
  }

  lemma StepKeepsAscending(g: Gate, e: Event)
    requires Ascending(g.changes) && forall i :: 0 <= i < |g.changes| ==> g.changes[i].at <= g.now
    ensures var g' := Step(g, e);
            Ascending(g'.changes) && forall i :: 0 <= i < |g'.changes| ==> g'.changes[i].at <= g'.now
  {
  }

  lemma {:induction false} RunKeepsAscending(g: Gate, events: seq<Event>)
    requires Ascending(g.changes) && forall i :: 0 <= i < |g.changes| ==> g.changes[i].at <= g.now
    ensures Ascending(Run(g, events).changes)
    decreases |events|
  {
    if events != [] {
      StepKeepsAscending(g, events[0]);
      hide Step;
      hide Ascending;
      RunKeepsAscending(Step(g, events[0]), events[1..]);
    }
  }

  /** A token whose version was replaced, or whose user was deleted, at s is refused after s + 30 s + delay. */
  lemma StaleTokenIsRefused(start: int, version: int, events: seq<Event>, delay: nat, i: nat, a: Acceptance)
    requires AllInTime(Created(start, version), events, delay)
    requires var g := Run(Created(start, version), events);
             i + 1 < |g.changes| && a in g.accepted && g.changes[i].version == Some(a.version)
    ensures a.at <= Run(Created(start, version), events).changes[i + 1].at + CACHE_TTL_MS + delay
  {
    var g := Run(Created(start, version), events);
    AcceptedVersionWasRecentlyCurrent(start, version, events, delay);
    RunKeepsAscending(Created(start, version), events);
    var x :| a.at - (CACHE_TTL_MS + delay) <= x <= a.at && WasCurrent(g.changes, a.version, x);
    var k :| 0 <= k < |g.changes| && HeldAt(g.changes, k, a.version, x);
    assert k == i;
  }

  // ----------------------------------------------------------- acceptance time

  /** The event answers a request that carries `token`: from the cache, or after the request's own database read. */
  predicate Answers(g: Gate, e: Event, token: int) {
    match e
    case AnswerFromCache(t) => t == token && g.cache.Some? && g.now < g.cache.value.expiresAt
    case FillAndAnswer(request, _) => request in g.fills && g.fills[request].token == token
    case _ => false
  }

  /** `version` is the database's, and has been for longer than `span`. */
  predicate SteadyFor(g: Gate, version: int, span: int) {
    g.changes != [] && g.changes[|g.changes| - 1].version == Some(version) && g.changes[|g.changes| - 1].at < g.now - span
  }

  lemma LastVersionHeld(changes: seq<Change>, version: int, x: int)
    requires Ascending(changes) && changes != [] && changes[|changes| - 1].at < x && WasCurrent(changes, version, x)
    ensures changes[|changes| - 1].version == Some(version)
  {
    var i :| 0 <= i < |changes| && HeldAt(changes, i, version, x);
  }

  lemma SteadyTokenIsAccepted(g: Gate, e: Event, delay: nat, token: int)
    requires Inv(g, delay) && Ascending(g.changes) && InTime(g, e, delay)
    requires Answers(g, e, token) && SteadyFor(g, token, 30_000 + delay)
    ensures Step(g, e).accepted == g.accepted + [Acceptance(token, g.now)]
  {
    if e.AnswerFromCache? {
      LastVersionHeld(g.changes, g.cache.value.version, g.cache.value.readAt);
    } else {
      LastVersionHeld(g.changes, g.fills[e.request].version, g.fills[e.request].readAt);
    }
  }

  /**
   Valid tokens pass: in every run, every answer to a token whose version has been the
   database's for longer than 30 s + delay is an acceptance.
   */
  lemma CurrentTokenIsAccepted(start: int, version: int, events: seq<Event>, e: Event, delay: nat, token: int)
    requires AllInTime(Created(start, version), events, delay)
    requires var g := Run(Created(start, version), events);
             InTime(g, e, delay) && Answers(g, e, token) && SteadyFor(g, token, 30_000 + delay)
    ensures var g := Run(Created(start, version), events);
            Step(g, e).accepted == g.accepted + [Acceptance(token, g.now)]
  {
    RunKeepsInv(Created(start, version), events, delay);
    RunKeepsAscending(Created(start, version), events);
    hide Inv;
    hide Ascending;
    hide Run;
    hide AllInTime;
    SteadyTokenIsAccepted(Run(Created(start, version), events), e, delay, token);
  }

  /** A request under way stays under way, with what it read, until its own answer. */
  lemma RequestWaitsForItsAnswer(g: Gate, e: Event, request: nat)
    requires request in g.fills && !(e.FillAndAnswer? && e.request == request) && !(e.ReadDatabase? && e.request == request)
    ensures request in Step(g, e).fills && Step(g, e).fills[request] == g.fills[request]
  {
  }

  /** A database read of an existing user starts a request, whose answer stores what was read for 30 s if Redis lets it. */
  lemma ReadThenAnswer(g: Gate, request: nat, token: int, version: int, stored: bool)
    requires g.changes != [] && g.changes[|g.changes| - 1].version == Some(version)
    ensures var read := Step(g, ReadDatabase(request, token));
            && read == g.(fills := g.fills[request := Fill(token, version, g.now)])
            && var g' := Step(read, FillAndAnswer(request, stored));
               && g'.cache == (if stored then Some(Entry(version, g.now + 30_000, g.now)) else g.cache)
               && g'.accepted == (if token == version then g.accepted + [Acceptance(token, g.now)] else g.accepted)
  {
  }

  /** After an invalidation nothing is answered from the cache until a read has filled it again. */
  lemma InvalidationForcesARead(g: Gate, token: int)
    ensures var g' := Step(g, Invalidate);
            && g' == g.(cache := None) && !Answers(g', AnswerFromCache(token), token)
            && Step(g', AnswerFromCache(token)) == g'
  {
  }

  lemma First(g: Gate, e: Event, rest: seq<Event>, delay: int)
    ensures Run(g, [e] + rest) == Run(Step(g, e), rest)
    ensures AllInTime(g, [e] + rest, delay) <==> InTime(g, e, delay) && AllInTime(Step(g, e), rest, delay)
  {
    assert ([e] + rest)[1..] == rest;
  }

  /** The bound is reached: with a read, a bump and a fill `delay` later, the old token passes 30 s - 1 ms after that. */
  lemma BoundIsReached(start: int, version: int, delay: nat)
    ensures var events := [ReadDatabase(0, version), Bump, Tick(delay), FillAndAnswer(0, true),
                           Tick(29_999), AnswerFromCache(version)];
            var g := Run(Created(start, version), events);
            && AllInTime(Created(start, version), events, delay)
            && g.changes == [Change(start, Some(version)), Change(start, Some(version + 1))]
            && Acceptance(version, start + delay + CACHE_TTL_MS - 1) in g.accepted
  {
    var fill, tick, answer := FillAndAnswer(0, true), Tick(29_999), AnswerFromCache(version);
    var r5 := [answer] + [];
    var r4 := [tick] + r5;
    var r3 := [fill] + r4;
    assert [ReadDatabase(0, version)] + ([Bump] + ([Tick(delay)] + r3))
        == [ReadDatabase(0, version), Bump, Tick(delay), fill, tick, answer];
    ReadThenPause(start, version, delay, r3);
    hide Run;
    hide AllInTime;
    var g3 := Paused(start, version, delay);
    assert InTime(g3, fill, delay);
    First(g3, fill, r4, delay);
    var g4 := Step(g3, fill);
    First(g4, tick, r5, delay);
    var g5 := Step(g4, tick);
    First(g5, answer, [], delay);
    var g6 := Step(g5, answer);
    Nothing(g6, delay);
    assert g6.accepted == g4.accepted + [Acceptance(version, start + delay + 29_999)];
  }

  /** A request that read `version` at `start` is still under way; the version has been bumped since. */
  function Paused(start: int, version: int, delay: nat): Gate {
    Gate(start + delay, [Change(start, Some(version)), Change(start, Some(version + 1))], None,
         map[0 := Fill(version, version, start)], [])
  }

  lemma ReadThenPause(start: int, version: int, delay: nat, rest: seq<Event>)
    ensures var run := [ReadDatabase(0, version)] + ([Bump] + ([Tick(delay)] + rest));
            && Run(Created(start, version), run) == Run(Paused(start, version, delay), rest)
            && (AllInTime(Created(start, version), run, delay) <==> AllInTime(Paused(start, version, delay), rest, delay))
  {
    var r2 := [Tick(delay)] + rest;
    var r1 := [Bump] + r2;
    var g0 := Created(start, version);
    First(g0, ReadDatabase(0, version), r1, delay);
    var g1 := Step(g0, ReadDatabase(0, version));
    First(g1, Bump, r2, delay);
    var g2 := Step(g1, Bump);
    First(g2, Tick(delay), rest, delay);
    hide Run;
    hide AllInTime;
    assert g2.changes == Paused(start, version, delay).changes;
    assert g2.fills == Paused(start, version, delay).fills;
  }

  lemma Nothing(g: Gate, delay: int)
    ensures Run(g, []) == g && AllInTime(g, [], delay)
  {
  }

  // ------------------------------------------------------- one request alone

  /** The cache key and the version column; `cache` holds (version, expiry). */
  class VersionCheck {
    var column: Option<int>
    var cache: Option<(int, int)>

    constructor (column: Option<int>)
      ensures this.column == column && cache == None
    {
      this.column, cache := column, None;
    }

    /** The gate this object stands for, seen by a request that starts now. */
    ghost predicate Shows(g: Gate)
      reads this
    {
      && Current(g) == column
      && (g.cache.None? <==> cache.None?)
      && (cache.Some? ==> g.cache.value.version == cache.value.0 && g.cache.value.expiresAt == cache.value.1)
    }

    /**
     `verify_token_version` without interference does what the gate's steps do.
     An unreadable cache counts as a miss; an unwritable one stays as it was.
     */
    method VerifyTokenVersion(token: int, now: int, readable: bool, writable: bool, ghost g: Gate, ghost request: nat)
      returns (accepted: bool)
      requires Shows(g) && g.now == now
      modifies this
      ensures column == old(column)
      ensures var g' := if readable && Alive(g.cache, now) then Step(g, AnswerFromCache(token))
                        else if column.Some? then Step(Step(g, ReadDatabase(request, token)), FillAndAnswer(request, writable))
                        else g;
              Shows(g') && (accepted <==> g'.accepted == g.accepted + [Acceptance(token, now)])
      // by a readable live entry if there is one, and otherwise by the column, which then fills the cache for 30 s
      ensures var hit := readable && old(cache).Some? && now < old(cache).value.1;
              && (accepted <==> if hit then old(cache).value.0 == token else column == Some(token))
              && cache == if !hit && column.Some? && writable then Some((column.value, now + 30_000)) else old(cache)
    {
      if readable && cache.Some? && now < cache.value.1 {
        return cache.value.0 == token;
      }
      if column.None? {
        return false;
      }
      var version := column.value;
      if writable { cache := Some((version, now + CACHE_TTL_MS)); }
      accepted := version == token;
    }
  }
}
