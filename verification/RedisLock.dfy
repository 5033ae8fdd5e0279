/** A lock kept as a Redis key with an expiry, whose value names its holder. */
module RedisLock {

  /** `value` stands for the random UUID of one acquisition. */
  datatype Entry = Entry(value: nat, expiresAt: int)

  type Store = map<string, Entry>

  predicate Live(store: Store, key: string, now: int) {
    key in store && now < store[key].expiresAt
  }

  /** `SET key value NX EX`: succeeds exactly on an absent or expired key. */
  function SetNxEx(store: Store, key: string, value: nat, ttl: nat, now: int): (Store, bool) {
    if Live(store, key, now) then (store, false)
    else (store[key := Entry(value, now + ttl)], true)
  }

  /** The release script: delete only if the stored value is the caller's. */
  function SafeRelease(store: Store, key: string, value: nat, now: int): (Store, nat) {
    if Live(store, key, now) && store[key].value == value
    then (map k | k in store && k != key :: store[k], 1)
    else (store, 0)
  }

  // ----------------------------------------------------------------- whole runs

  /** The time a client holds the lock: until expiry or its effective release. */
  datatype Lease = Lease(key: string, from: int, until: int)

  datatype World = World(now: int, store: Store, leases: map<nat, Lease>, deletes: seq<nat>)

  /** Anybody may send any release at any time: late, twice, or for a lock it never held. */
  datatype Op =
    | Tick(elapsed: nat)
    | Acquire(key: string, value: nat, ttl: nat)
    | Release(key: string, value: nat)

  /** A UUID that has acquired once is not used again. */
  predicate FreshValue(w: World, op: Op) {
    op.Acquire? ==> op.value !in w.leases
  }

  function Step(w: World, op: Op): World {
    match op
    case Tick(elapsed) => w.(now := w.now + elapsed)
    case Acquire(key, value, ttl) =>
      var (store, acquired) := SetNxEx(w.store, key, value, ttl, w.now);
      w.(store := store,
         leases := if acquired then w.leases[value := Lease(key, w.now, w.now + ttl)] else w.leases)
    case Release(key, value) =>
      var (store, deleted) := SafeRelease(w.store, key, value, w.now);
      w.(store := store,
         leases := if deleted == 1 && value in w.leases then w.leases[value := w.leases[value].(until := w.now)] else w.leases,
         deletes := if deleted == 1 then w.deletes + [value] else w.deletes)
  }

  function Run(w: World, ops: seq<Op>): World
    decreases |ops|
  {
    if ops == [] then w else Run(Step(w, ops[0]), ops[1..])
  }

  ghost predicate AllFresh(w: World, ops: seq<Op>)
    decreases |ops|
  {
    ops == [] || (FreshValue(w, ops[0]) && AllFresh(Step(w, ops[0]), ops[1..]))
  }

  function Empty(now: int): World {
    World(now, map[], map[], [])
  }

  predicate Overlap(a: Lease, b: Lease) {
    a.key == b.key && a.from < b.until && b.from < a.until
  }

  ghost predicate StoreMatchesLeases(w: World) {
    && (forall k :: Live(w.store, k, w.now) ==>
          var v := w.store[k].value;
          v in w.leases && w.leases[v].key == k && w.leases[v].until == w.store[k].expiresAt)
    && (forall v :: v in w.leases && w.now < w.leases[v].until ==>
          w.leases[v].key in w.store && w.store[w.leases[v].key] == Entry(v, w.leases[v].until))
  }

  ghost predicate LeasesDisjoint(w: World) {
    && (forall v :: v in w.leases ==> w.leases[v].from <= w.now)
    && (forall v, u :: v in w.leases && u in w.leases && v != u ==> !Overlap(w.leases[v], w.leases[u]))
  }

  ghost predicate DeletedOnce(w: World) {
    && (forall i, j :: 0 <= i < j < |w.deletes| ==> w.deletes[i] != w.deletes[j])
    && (forall v :: v in w.deletes ==> v in w.leases && w.leases[v].until <= w.now)
  }

  ghost predicate Inv(w: World) {
    StoreMatchesLeases(w) && LeasesDisjoint(w) && DeletedOnce(w)
  }
}

module RedisLockTheorems {
  import opened RedisLock

  lemma StepKeepsStore(w: World, op: Op)
    requires StoreMatchesLeases(w) && FreshValue(w, op)
    ensures StoreMatchesLeases(Step(w, op))
  {
  }

  lemma StepKeepsDisjoint(w: World, op: Op)
    requires StoreMatchesLeases(w) && LeasesDisjoint(w) && FreshValue(w, op)
    ensures LeasesDisjoint(Step(w, op))
  {
    if op.Acquire? && !Live(w.store, op.key, w.now) {
      assert forall v :: v in w.leases && w.leases[v].key == op.key ==> w.leases[v].until <= w.now;
    }
  }

  lemma StepKeepsDeletes(w: World, op: Op)
    requires StoreMatchesLeases(w) && DeletedOnce(w) && FreshValue(w, op)
    ensures DeletedOnce(Step(w, op))
  {
    if op.Release? && SafeRelease(w.store, op.key, op.value, w.now).1 == 1 {
      assert w.now < w.leases[op.value].until;
      assert op.value !in w.deletes;
    }
  }

  lemma {:induction false} RunKeepsInv(w: World, ops: seq<Op>)
    requires Inv(w) && AllFresh(w, ops)
    ensures Inv(Run(w, ops))
    decreases |ops|
  {
    if ops != [] {
      StepKeepsStore(w, ops[0]);
      StepKeepsDisjoint(w, ops[0]);
      StepKeepsDeletes(w, ops[0]);
      hide Step;
      hide StoreMatchesLeases;
      hide LeasesDisjoint;
      hide DeletedOnce;
      RunKeepsInv(Step(w, ops[0]), ops[1..]);
    }
  }

  /**
   Mutual exclusion over time: whatever is acquired, released and left to expire,
   the lease intervals on one key never overlap, and at each instant the store
   names exactly the client whose lease is running.
   */
  lemma LeasesNeverOverlap(start: int, ops: seq<Op>)
    requires AllFresh(Empty(start), ops)
    ensures var w := Run(Empty(start), ops);
            && (forall v, u :: v in w.leases && u in w.leases && v != u ==> !Overlap(w.leases[v], w.leases[u]))
            && (forall v :: v in w.leases && w.now < w.leases[v].until ==>
                  Live(w.store, w.leases[v].key, w.now) && w.store[w.leases[v].key].value == v)
            && (forall k :: Live(w.store, k, w.now) ==>
                  w.store[k].value in w.leases && w.now < w.leases[w.store[k].value].until)
  {
    RunKeepsInv(Empty(start), ops);
  }

  /** A release, however late or repeated, leaves every other client's running lease in the store. */
  lemma ReleaseSparesOtherHolders(start: int, ops: seq<Op>, key: string, value: nat, other: nat)
    requires AllFresh(Empty(start), ops)
    requires var w := Run(Empty(start), ops); other in w.leases && other != value && w.now < w.leases[other].until
    ensures var w := Run(Empty(start), ops);
            var w' := Step(w, Release(key, value));
            && w'.leases[other] == w.leases[other]
            && Live(w'.store, w.leases[other].key, w'.now)
            && w'.store[w.leases[other].key].value == other
  {
    RunKeepsInv(Empty(start), ops);
  }

  /** One acquisition accounts for at most one effective delete. */
  lemma EachAcquisitionDeletedOnce(start: int, ops: seq<Op>)
    requires AllFresh(Empty(start), ops)
    ensures var w := Run(Empty(start), ops);
            && (forall i, j :: 0 <= i < j < |w.deletes| ==> w.deletes[i] != w.deletes[j])
            && (forall v :: v in w.deletes ==> v in w.leases)
  {
    RunKeepsInv(Empty(start), ops);
  }

  /** An acquisition takes a key that is absent or expired for its whole time to live, and no other. */
  lemma AcquireTakesAFreeKey(w: World, key: string, value: nat, ttl: nat)
    ensures var w' := Step(w, Acquire(key, value, ttl));
            if key in w.store && w.now < w.store[key].expiresAt then w' == w
            else w' == w.(store := w.store[key := Entry(value, w.now + ttl)], leases := w.leases[value := Lease(key, w.now, w.now + ttl)])
  {
  }

  /** A release ends the running lease of its own value at once, and otherwise does nothing. */
  lemma ReleaseEndsItsOwnLease(w: World, key: string, value: nat)
    ensures var w' := Step(w, Release(key, value));
            if key in w.store && w.now < w.store[key].expiresAt && w.store[key].value == value
            then
              && w'.store == w.store - {key} && w'.deletes == w.deletes + [value]
              && (value in w.leases ==> w'.leases == w.leases[value := Lease(w.leases[value].key, w.leases[value].from, w.now)])
            else w' == w
  {
  }
}

/** The client side: the retry loop and the guard that releases on drop. */
module LockClient {
  import opened RedisLock

  /** How one command ends: done, or failed before or after the server ran it. */
  datatype Network = Works | LostRequest | LostReply

  /** What an attempt meets: the server as it is then, and the network. */
  datatype View = View(store: Store, now: int, net: Network)

  datatype Attempted = RedisError(attempt: nat, store: Store) | Acquired(attempt: nat, store: Store) | Contended

  /** Attempts before `n` got an answer, and the answer was that the key is taken. */
  ghost predicate TakenBefore(views: seq<View>, key: string, n: nat)
    requires n <= |views|
  {
    forall i :: 0 <= i < n ==> views[i].net.Works? && Live(views[i].store, key, views[i].now)
  }

  /**
   `views[i]` is the server as attempt i meets it, after whatever other clients
   did during the delay.  The lock is taken by the first attempt that finds the key
   free.  The first error ends the loop: a lost reply may leave the lock set, and an
   expiry of 0 seconds is refused by the server.
   */
  method TryAcquireWithRetry(key: string, value: nat, expirySeconds: nat, maxRetries: nat, views: seq<View>)
    returns (r: Attempted)
    requires |views| == maxRetries
    ensures r.Contended? ==> TakenBefore(views, key, maxRetries) && (maxRetries > 0 ==> expirySeconds > 0)
    ensures r.RedisError? ==>
              && r.attempt < maxRetries && TakenBefore(views, key, r.attempt)
              && (expirySeconds == 0 || !views[r.attempt].net.Works?)
              && r.store == var v := views[r.attempt];
                            if expirySeconds > 0 && v.net.LostReply? && !Live(v.store, key, v.now)
                            then v.store[key := Entry(value, v.now + 1000 * expirySeconds)] else v.store
    ensures r.Acquired? ==>
              && r.attempt < maxRetries && TakenBefore(views, key, r.attempt)
              && expirySeconds > 0 && views[r.attempt].net.Works?
              && !Live(views[r.attempt].store, key, views[r.attempt].now)
              && r.store == views[r.attempt].store[key := Entry(value, views[r.attempt].now + 1000 * expirySeconds)]
  {
    for attempt := 0 to maxRetries
      invariant TakenBefore(views, key, attempt)
      invariant attempt > 0 ==> expirySeconds > 0
    {
      var view := views[attempt];
      if expirySeconds == 0 || view.net.LostRequest? {
        return RedisError(attempt, view.store);
      }
      var (store, acquired) := SetNxEx(view.store, key, value, 1000 * expirySeconds, view.now);
      if view.net.LostReply? {
        return RedisError(attempt, store);
      }
      if acquired {
        return Acquired(attempt, store);
      }
    }
    r := Contended;
  }

  class Server {
    var store: Store
    var now: int

    constructor (store: Store, now: int)
      ensures this.store == store && this.now == now
    {
      this.store, this.now := store, now;
    }
  }

  class LockGuard {
    var client: bool
    var lockKey: string
    var lockValue: nat

    constructor (key: string, value: nat)
      ensures client && lockKey == key && lockValue == value
    {
      client, lockKey, lockValue := true, key, value;
    }

    static method ReleaseLock(client: bool, key: string, value: nat, server: Server, net: Network) returns (ok: bool)
      modifies server`store
      ensures ok == (client && net.Works?)
      ensures server.store ==
              if client && !net.LostRequest? then SafeRelease(old(server.store), key, value, server.now).0
              else old(server.store)
      // the script deletes the key exactly while it lives and holds this value
      ensures var mine := key in old(server.store) && server.now < old(server.store)[key].expiresAt && old(server.store)[key].value == value;
              server.store == if client && !net.LostRequest? && mine then old(server.store) - {key} else old(server.store)
    {
      if !client || net.LostRequest? { return false; }
      if key in server.store && server.now < server.store[key].expiresAt && server.store[key].value == value {
        server.store := map k | k in server.store && k != key :: server.store[k];
      }
      ok := net.Works?;
    }

    /** On failure the fields are put back, so that dropping the guard tries again. */
    method Release(server: Server, net: Network) returns (ok: bool)
      modifies this, server`store
      ensures ok == (old(client) && net.Works?)
      ensures ok ==> !client && lockKey == ""
      ensures !ok ==> client == old(client) && lockKey == old(lockKey) && lockValue == old(lockValue)
      ensures server.store ==
              if old(client) && !net.LostRequest? then SafeRelease(old(server.store), old(lockKey), old(lockValue), server.now).0
              else old(server.store)
    {
      var c, key, value := client, lockKey, lockValue;
      client, lockKey, lockValue := false, "", 0;
      ok := ReleaseLock(c, key, value, server, net);
      if !ok {
        client, lockKey, lockValue := c, key, value;
      }
    }

    method Drop(server: Server, net: Network, runtime: bool)
      modifies this, server`store
      ensures !client
      ensures server.store ==
              if old(client) && old(lockKey) != "" && runtime && !net.LostRequest?
              then SafeRelease(old(server.store), old(lockKey), old(lockValue), server.now).0
              else old(server.store)
    {
      if client {
        client := false;
        var key, value := lockKey, lockValue;
        lockKey, lockValue := "", 0;
        if key != "" && runtime {
          var ok := ReleaseLock(true, key, value, server, net);
        }
      }
    }

    /**
     The end of every guard: an explicit release, then the drop.  Whatever the
     network does, other entries survive; and if either script call reaches the
     server, no live entry of this guard is left.
     */
    method ReleaseThenDrop(server: Server, first: Network, second: Network, runtime: bool)
      requires client && lockKey != ""
      modifies this, server`store
      ensures forall k :: k in old(server.store) ==>
                || (k == old(lockKey) && old(server.store)[k].value == old(lockValue))
                || (k in server.store && server.store[k] == old(server.store)[k])
      ensures forall k :: k in server.store ==> k in old(server.store) && server.store[k] == old(server.store)[k]
      ensures !first.LostRequest? || (runtime && !second.LostRequest?) ==>
                !(Live(server.store, old(lockKey), server.now) && server.store[old(lockKey)].value == old(lockValue))
    {
      var ok := Release(server, first);
      Drop(server, second, runtime);
    }
  }
}
