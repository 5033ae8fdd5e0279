/**
 Sessions and the version check together: the service calls of all users change the
 tables while the gate answers for one user from its cache or from the database.
 */
module SessionGate {
  import opened Options
  import AuthTables
  import S = Sessions
  import SessionTheorems
  import G = TokenVersionGate

  datatype State = State(world: S.World, gate: G.Gate)

  /** A service call takes effect at one instant; time and requests pass at the gate. */
  datatype Event = Service(call: S.Call) | Gateway(event: G.Event)

  /** What a service call does to the version column of the user. */
  function Effect(before: AuthTables.Versions, after: AuthTables.Versions, user: nat): Option<G.Event> {
    if user !in before && user in after then Some(G.Create(after[user]))
    else if user in before && user !in after then Some(G.Delete)
    else if user in before && before[user] != after[user] then Some(G.Bump)
    else None
  }

  function Step(st: State, e: Event, user: nat): State {
    match e
    case Service(c) =>
      var w := S.Step(st.world, c);
      var effect := Effect(st.world.db.versions, w.db.versions, user);
      State(w, if effect.Some? then G.Step(st.gate, effect.value) else st.gate)
    case Gateway(g) =>
      if g.Create? || g.Bump? || g.Delete? then st else st.(gate := G.Step(st.gate, g))
  }

  function Run(st: State, events: seq<Event>, user: nat): State
    decreases |events|
  {
    if events == [] then st else Run(Step(st, events[0], user), events[1..], user)
  }

  /** Random tokens and user ids are new; requests answer within `delay` of their database read. */
  ghost predicate Proper(st: State, e: Event, delay: nat) {
    if e.Service? then S.Fresh(st.world, e.call) else G.InTime(st.gate, e.event, delay)
  }

  ghost predicate AllProper(st: State, events: seq<Event>, user: nat, delay: nat)
    decreases |events|
  {
    events == [] || (Proper(st, events[0], delay) && AllProper(Step(st, events[0], user), events[1..], user, delay))
  }

  function Beginning(now: int): State {
    State(S.EMPTY, G.Gate(now, [], None, map[], []))
  }

  function VersionOf(w: S.World, user: nat): Option<int> {
    if user in w.db.versions then Some(w.db.versions[user]) else None
  }

  ghost predicate InThePast(g: G.Gate) {
    forall i :: 0 <= i < |g.changes| ==> g.changes[i].at <= g.now
  }

  /** The gate's column is the one in the table. */
  ghost predicate Linked(st: State, user: nat) {
    && G.Current(st.gate) == VersionOf(st.world, user)
    && (user in st.world.everUsers <==> st.gate.changes != [])
  }

  ghost predicate Inv(st: State, user: nat, delay: nat) {
    && S.Inv(st.world) && G.Inv(st.gate, delay) && G.Ascending(st.gate.changes) && InThePast(st.gate)
    && Linked(st, user)
  }

  /** The effect of a call is what the gate's column does. */
  lemma CallsMoveTheColumn(w: S.World, c: S.Call, user: nat)
    requires S.SessionsKnown(w) && S.Fresh(w, c)
    ensures var before, after := w.db.versions, S.Step(w, c).db.versions;
            && (user in before && user in after ==> after[user] == before[user] || after[user] == before[user] + 1)
            && (user !in before && user in after ==> user !in w.everUsers)
            && (user in S.Step(w, c).everUsers <==> user in w.everUsers || (user !in before && user in after))
  {
  }

  lemma ServiceKeepsLinked(st: State, c: S.Call, user: nat)
    requires Linked(st, user) && S.SessionsKnown(st.world) && S.Fresh(st.world, c)
    ensures Linked(Step(st, Service(c), user), user)
  {
    CallsMoveTheColumn(st.world, c, user);
    hide S.Step;
  }

  lemma ServiceKeepsWorld(w: S.World, c: S.Call)
    requires S.Inv(w) && S.Fresh(w, c)
    ensures S.Inv(S.Step(w, c))
  {
    SessionTheorems.StepKeepsRows(w, c);
    SessionTheorems.StepKeepsSessions(w, c);
    SessionTheorems.StepKeepsExchanged(w, c);
    hide S.Step;
  }

  lemma GateStepKeeps(g: G.Gate, e: G.Event, delay: nat)
    requires G.Inv(g, delay) && G.Ascending(g.changes) && InThePast(g) && G.InTime(g, e, delay)
    ensures G.Inv(G.Step(g, e), delay) && G.Ascending(G.Step(g, e).changes) && InThePast(G.Step(g, e))
  {
    G.StepKeepsInv(g, e, delay);
    G.StepKeepsAscending(g, e);
  }

  lemma StepKeepsInv(st: State, e: Event, user: nat, delay: nat)
    requires Inv(st, user, delay) && Proper(st, e, delay)
    ensures Inv(Step(st, e, user), user, delay)
  {
    if e.Service? {
      ServiceKeepsInv(st, e.call, user, delay);
    } else {
      GateStepKeeps(st.gate, e.event, delay);
      GatewayKeepsLinked(st, e.event, user);
      hide G.Inv;
      hide G.Ascending;
      hide G.Step;
      hide S.Inv;
      hide Linked;
    }
  }

  lemma GatewayKeepsLinked(st: State, g: G.Event, user: nat)
    requires Linked(st, user)
    ensures Linked(Step(st, Gateway(g), user), user)
  {
  }

  lemma ServiceKeepsInv(st: State, c: S.Call, user: nat, delay: nat)
    requires Inv(st, user, delay) && S.Fresh(st.world, c)
    ensures Inv(Step(st, Service(c), user), user, delay)
  {
    ServiceKeepsLinked(st, c, user);
    ServiceKeepsWorld(st.world, c);
    var effect := Effect(st.world.db.versions, S.Step(st.world, c).db.versions, user);
    if effect.Some? { EffectInTime(st.gate, effect.value, delay); GateStepKeeps(st.gate, effect.value, delay); }
    hide S.Step;
    hide S.Inv;
    hide G.Step;
    hide G.Inv;
    hide G.Ascending;
    hide Linked;
  }

  lemma EffectInTime(g: G.Gate, e: G.Event, delay: nat)
    requires e.Create? || e.Bump? || e.Delete?
    ensures G.InTime(g, e, delay)
  {
  }

  // ------------------------------------------------- versions of ended sessions

  /** From the r-th change on the column holds no version of a token whose session was opened before `cut`. */
  ghost predicate OldVersionsPassed(st: State, user: nat, cut: nat, r: nat) {
    && r < |st.gate.changes|
    && forall j, k :: j in st.world.jwts && j.user == user && j.session < cut && r <= k < |st.gate.changes| ==>
         st.gate.changes[k].version != Some(j.version)
  }

  ghost predicate Ended(st: State, user: nat, cut: nat, r: nat, s: int) {
    && user in st.world.everUsers && cut <= st.world.sessionCount && S.NothingOlder(st.world, user, cut)
    && OldVersionsPassed(st, user, cut, r) && st.gate.changes[r].at <= s
  }

  /** A call signs at the current version, so for an ended session it signs nothing. */
  lemma NewTokensAreCurrent(w: S.World, c: S.Call)
    ensures forall j :: j in S.Step(w, c).jwts && j !in w.jwts ==>
              j.user in S.Step(w, c).db.versions && j.version == S.Step(w, c).db.versions[j.user]
  {
  }

  lemma ServiceChangesOf(st: State, c: S.Call, user: nat)
    requires Linked(st, user) && S.SessionsKnown(st.world) && S.Fresh(st.world, c)
    ensures var st' := Step(st, Service(c), user);
            || st'.gate.changes == st.gate.changes
            || (st'.gate.changes == st.gate.changes + [G.Change(st.gate.now, VersionOf(st'.world, user))]
                && VersionOf(st'.world, user) != VersionOf(st.world, user)
                && (user in st.world.db.versions && user in st'.world.db.versions ==>
                      st'.world.db.versions[user] > st.world.db.versions[user]))
  {
    CallsMoveTheColumn(st.world, c, user);
    hide S.Step;
  }

  lemma ServiceKeepsEnded(st: State, c: S.Call, user: nat, cut: nat, r: nat, s: int, delay: nat)
    requires Inv(st, user, delay) && S.Fresh(st.world, c) && Ended(st, user, cut, r, s)
    ensures Ended(Step(st, Service(c), user), user, cut, r, s)
  {
    var st' := Step(st, Service(c), user);
    SessionTheorems.StepKeepsNothingOlder(st.world, c, user, cut);
    NewTokensAreCurrent(st.world, c);
    ServiceChangesOf(st, c, user);
    ServiceKeepsWorld(st.world, c);
    CallsMoveTheColumn(st.world, c, user);
    hide S.Step;
    forall j, k | j in st'.world.jwts && j.user == user && j.session < cut && r <= k < |st'.gate.changes|
      ensures st'.gate.changes[k].version != Some(j.version)
    {
      assert j in st.world.jwts;
    }
  }

  lemma StepKeepsEnded(st: State, e: Event, user: nat, cut: nat, r: nat, s: int, delay: nat)
    requires Inv(st, user, delay) && Proper(st, e, delay) && Ended(st, user, cut, r, s)
    ensures Ended(Step(st, e, user), user, cut, r, s)
  {
    if e.Service? {
      ServiceKeepsEnded(st, e.call, user, cut, r, s, delay);
    }
  }

  lemma {:induction false} RunKeepsEnded(st: State, events: seq<Event>, user: nat, cut: nat, r: nat, s: int, delay: nat)
    requires Inv(st, user, delay) && AllProper(st, events, user, delay) && Ended(st, user, cut, r, s)
    ensures Inv(Run(st, events, user), user, delay) && Ended(Run(st, events, user), user, cut, r, s)
    decreases |events|
  {
    if events != [] {
      StepKeepsInv(st, events[0], user, delay);
      StepKeepsEnded(st, events[0], user, cut, r, s, delay);
      hide Step;
      hide Inv;
      hide Ended;
      RunKeepsEnded(Step(st, events[0], user), events[1..], user, cut, r, s, delay);
    }
  }

  lemma {:induction false} RunKeepsInv(st: State, events: seq<Event>, user: nat, delay: nat)
    requires Inv(st, user, delay) && AllProper(st, events, user, delay)
    ensures Inv(Run(st, events, user), user, delay)
    decreases |events|
  {
    if events != [] {
      StepKeepsInv(st, events[0], user, delay);
      hide Step;
      hide Inv;
      RunKeepsInv(Step(st, events[0], user), events[1..], user, delay);
    }
  }

  /** The revocation itself: its change, or an earlier deletion, is the last word of the column. */
  lemma RevocationEnds(st: State, c: S.Call, user: nat, delay: nat) returns (r: nat)
    requires Inv(st, user, delay) && S.Fresh(st.world, c)
    requires user in st.world.everUsers && S.EndsSessions(st.world, c, user)
    ensures Ended(Step(st, Service(c), user), user, st.world.sessionCount, r, st.gate.now)
  {
    var st' := Step(st, Service(c), user);
    r := |st'.gate.changes| - 1;
    SessionTheorems.RevocationCutsOff(st.world, c, user);
    NewTokensAreCurrent(st.world, c);
    if user in st.world.db.versions { RevocationBumps(st.world, c, user); }
    ServiceKeepsWorld(st.world, c);
    ServiceKeepsLinked(st, c, user);
    ServiceChangesOf(st, c, user);
    hide S.Step;
    forall j | j in st'.world.jwts && j.user == user && j.session < st.world.sessionCount
      ensures st'.gate.changes[r].version != Some(j.version)
    {
      assert G.Current(st'.gate) == VersionOf(st'.world, user);
    }
  }

  lemma RevocationBumps(w: S.World, c: S.Call, user: nat)
    requires S.EndsSessions(w, c, user) && user in w.db.versions
    ensures user in S.Step(w, c).db.versions && S.Step(w, c).db.versions[user] == w.db.versions[user] + 1
  {
  }

  lemma {:induction false} InTwoParts(st: State, first: seq<Event>, second: seq<Event>, user: nat, delay: nat)
    requires AllProper(st, first + second, user, delay)
    ensures AllProper(st, first, user, delay) && AllProper(Run(st, first, user), second, user, delay)
    ensures Run(st, first + second, user) == Run(Run(st, first, user), second, user)
    decreases |first|
  {
    if first == [] {
      assert first + second == second;
    } else {
      assert (first + second)[1..] == first[1..] + second;
      InTwoParts(Step(st, first[0], user), first[1..], second, user, delay);
    }
  }

  /** A version that has passed is accepted no later than 30 s + delay after the change that passed it. */
  lemma PassedVersionIsRefused(st: State, user: nat, cut: nat, r: nat, s: int, delay: nat, j: S.Jwt, a: G.Acceptance)
    requires Inv(st, user, delay) && Ended(st, user, cut, r, s)
    requires j in st.world.jwts && j.user == user && j.session < cut
    requires a in st.gate.accepted && a.version == j.version
    ensures a.at <= s + G.CACHE_TTL_MS + delay
  {
    var changes := st.gate.changes;
    assert G.Justified(st.gate, a, delay);
    var x :| a.at - (G.CACHE_TTL_MS + delay) <= x <= a.at && G.WasCurrent(changes, a.version, x);
    var i :| 0 <= i < |changes| && G.HeldAt(changes, i, a.version, x);
    assert i < r;
    assert i + 1 == r || changes[i + 1].at <= changes[r].at;
  }

  /**
   End to end.  After a revocation, password change or reset at instant s, and whatever
   else happens: no token of a session the user had opened before is let through
   after s + 30 s + delay, also if no cache entry is ever invalidated.
   */
  lemma EndedSessionIsRefused(start: int, before: seq<Event>, c: S.Call, later: seq<Event>, user: nat, delay: nat,
                              j: S.Jwt, a: G.Acceptance)
    requires AllProper(Beginning(start), before + [Service(c)] + later, user, delay)
    requires var st := Run(Beginning(start), before, user);
             user in st.world.everUsers && S.EndsSessions(st.world, c, user) && j.session < st.world.sessionCount
    requires var st' := Run(Beginning(start), before + [Service(c)] + later, user);
             j in st'.world.jwts && j.user == user && a in st'.gate.accepted && a.version == j.version
    ensures a.at <= Run(Beginning(start), before, user).gate.now + G.CACHE_TTL_MS + delay
  {
    var st := Run(Beginning(start), before, user);
    assert before + [Service(c)] + later == before + ([Service(c)] + later);
    InTwoParts(Beginning(start), before, [Service(c)] + later, user, delay);
    assert ([Service(c)] + later)[0] == Service(c) && ([Service(c)] + later)[1..] == later;
    RunKeepsInv(Beginning(start), before, user, delay);
    var revoked := Step(st, Service(c), user);
    var r := RevocationEnds(st, c, user, delay);
    StepKeepsInv(st, Service(c), user, delay);
    hide Inv;
    hide Ended;
    hide Step;
    RunKeepsEnded(revoked, later, user, st.world.sessionCount, r, st.gate.now, delay);
    PassedVersionIsRefused(Run(revoked, later, user), user, st.world.sessionCount, r, st.gate.now, delay, j, a);
  }

  /**
   And live sessions pass.  Whatever has happened: if the user's version has not moved for
   longer than 30 s + delay, every answer to a token signed at it is an acceptance.
   */
  lemma LiveSessionIsAccepted(start: int, events: seq<Event>, e: G.Event, user: nat, delay: nat, j: S.Jwt)
    requires AllProper(Beginning(start), events, user, delay)
    requires var st := Run(Beginning(start), events, user);
             && j in st.world.jwts && j.user == user && VersionOf(st.world, user) == Some(j.version)
             && st.gate.changes != [] && st.gate.changes[|st.gate.changes| - 1].at < st.gate.now - (30_000 + delay)
             && G.InTime(st.gate, e, delay) && G.Answers(st.gate, e, j.version)
    ensures var st := Run(Beginning(start), events, user);
            Step(st, Gateway(e), user).gate.accepted == st.gate.accepted + [G.Acceptance(j.version, st.gate.now)]
  {
    var st := Run(Beginning(start), events, user);
    BeginningKeepsInv(start, user, delay);
    RunKeepsInv(Beginning(start), events, user, delay);
    G.SteadyTokenIsAccepted(st.gate, e, delay, j.version);
    assert !e.Create? && !e.Bump? && !e.Delete?;
    hide G.Step;
    hide G.Inv;
    hide S.Inv;
  }

  lemma BeginningKeepsInv(start: int, user: nat, delay: nat)
    ensures Inv(Beginning(start), user, delay)
  {
  }
}
