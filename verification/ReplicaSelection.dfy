/** How one of the healthy replicas is chosen. */
module ReplicaSelection {
  import opened MachineWords

  function Sum(weights: seq<nat>): nat {
    if weights == [] then 0 else weights[0] + Sum(weights[1..])
  }

  /** The position that a roll selects; 0 if the roll is past all weights. */
  function PositionOf(weights: seq<nat>, roll: nat): nat
    decreases |weights|
  {
    if weights == [] || roll < weights[0] then 0
    else if roll - weights[0] < Sum(weights[1..]) then 1 + PositionOf(weights[1..], roll - weights[0])
    else 0
  }

  /** How many of the rolls 0, ..., n - 1 select position j. */
  function RollsFor(weights: seq<nat>, j: nat, n: nat): nat {
    if n == 0 then 0
    else RollsFor(weights, j, n - 1) + if PositionOf(weights, n - 1) == j then 1 else 0
  }

  lemma {:induction false} PositionInInterval(weights: seq<nat>, roll: nat, j: nat)
    requires roll < Sum(weights) && j < |weights|
    ensures PositionOf(weights, roll) < |weights|
    ensures PositionOf(weights, roll) == j <==> Sum(weights[..j]) <= roll < Sum(weights[..j]) + weights[j]
    decreases |weights|
  {
    if j > 0 {
      assert weights[..j][1..] == weights[1..][..j - 1];
      if roll >= weights[0] {
        PositionInInterval(weights[1..], roll - weights[0], j - 1);
      }
    } else if roll >= weights[0] && |weights| > 1 {
      PositionInInterval(weights[1..], roll - weights[0], 0);
    }
  }

  lemma {:induction false} SumSplits(weights: seq<nat>, j: nat)
    requires j < |weights|
    ensures Sum(weights) == Sum(weights[..j]) + weights[j] + Sum(weights[j + 1..])
    decreases j
  {
    if j > 0 {
      SumSplits(weights[1..], j - 1);
      assert weights[..j][1..] == weights[1..][..j - 1];
      assert weights[1..][j..] == weights[j + 1..];
    }
  }

  lemma {:induction false} RollsForPrefix(weights: seq<nat>, j: nat, n: nat)
    requires j < |weights| && n <= Sum(weights)
    ensures var lo := Sum(weights[..j]);
            RollsFor(weights, j, n) == if n <= lo then 0 else if n <= lo + weights[j] then n - lo else weights[j]
    decreases n
  {
    if n > 0 {
      RollsForPrefix(weights, j, n - 1);
      PositionInInterval(weights, n - 1, j);
    }
  }

  /** Exact proportionality: of all rolls in [0, total), replica j gets exactly weights[j]. */
  lemma EachWeightGetsItsRolls(weights: seq<nat>, j: nat)
    requires j < |weights|
    ensures RollsFor(weights, j, Sum(weights)) == weights[j]
  {
    SumSplits(weights, j);
    RollsForPrefix(weights, j, Sum(weights));
  }

  /** Up to 2^32 weights of 32 bits add up without overflowing 64 bits. */
  lemma {:induction false} TotalFitsU64(weights: seq<nat>)
    requires |weights| <= 0x1_0000_0000
    requires forall i :: 0 <= i < |weights| ==> weights[i] <= 0xFFFF_FFFF
    ensures Sum(weights) <= |weights| * 0xFFFF_FFFF < TWO64
    decreases |weights|
  {
    if weights != [] {
      TotalFitsU64(weights[1..]);
    }
  }

  /**
   `select_weighted_index`; `roll` is the random number drawn below the total.
   When all weights are 0 the shared round-robin counter decides.
   */
  method SelectWeightedIndex(healthy: seq<nat>, weights: seq<nat>, counter: nat, roll: nat)
    returns (chosen: nat, counter': nat)
    requires |healthy| == |weights| > 0 && counter < TWO64
    requires Sum(weights) > 0 ==> roll < Sum(weights)
    ensures Sum(weights) > 0 ==>
              && PositionOf(weights, roll) < |healthy|
              && chosen == healthy[PositionOf(weights, roll)] && counter' == counter
    ensures Sum(weights) == 0 ==>
              chosen == healthy[counter % |healthy|] && counter' == (counter + 1) % TWO64
  {
    counter' := counter;
    var total := 0;
    for i := 0 to |weights|
      invariant total + Sum(weights[i..]) == Sum(weights)
    {
      total := total + weights[i];
      assert weights[i..][1..] == weights[i + 1..];
    }
    if total == 0 {
      counter' := (counter + 1) % TWO64;
      return healthy[counter % |healthy|], counter';
    }
    PositionInInterval(weights, roll, 0);
    var left: nat := roll;
    chosen := healthy[0];
    for i := 0 to |weights|
      invariant left < Sum(weights[i..])
      invariant i + PositionOf(weights[i..], left) == PositionOf(weights, roll)
    {
      if left < weights[i] {
        chosen := healthy[i];
        return;
      }
      assert weights[i..][1..] == weights[i + 1..];
      left := left - weights[i];
    }
  }

  // -------------------------------------------------------------- round robin

  /** How many of `picks` consecutive counter values from `counter` select position j of n. */
  function TurnsFor(counter: nat, picks: nat, n: nat, j: nat): nat
    requires n > 0
  {
    if picks == 0 then 0
    else TurnsFor(counter, picks - 1, n, j) + if (counter + picks - 1) % n == j then 1 else 0
  }

  /** The same count, taking the first pick apart. */
  lemma {:induction false} FirstTurn(counter: nat, picks: nat, n: nat, j: nat)
    requires n > 0 && picks > 0
    ensures TurnsFor(counter, picks, n, j) == (if counter % n == j then 1 else 0) + TurnsFor(counter + 1, picks - 1, n, j)
    decreases picks
  {
    if picks > 1 {
      FirstTurn(counter, picks - 1, n, j);
    }
  }

  lemma NextRemainder(x: nat, n: nat)
    requires n > 0
    ensures (x + 1) % n == if x % n + 1 == n then 0 else x % n + 1
    ensures (x + 1) / n == if x % n + 1 == n then x / n + 1 else x / n
  {
    assert x == n * (x / n) + x % n;
    if x % n + 1 == n {
      assert x + 1 == n * (x / n + 1) + 0;
      ModuloUnique(x + 1, n, x / n + 1, 0);
    } else {
      ModuloUnique(x + 1, n, x / n, x % n + 1);
    }
  }

  /** How far position j lies ahead of the counter. */
  function Ahead(counter: nat, n: nat, j: nat): nat
    requires n > 0 && j < n
  {
    if j >= counter % n then j - counter % n else j + n - counter % n
  }

  lemma {:induction false} SumOfRemainders(counter: nat, picks: nat, n: nat)
    requires n > 0
    ensures (counter + picks) % n ==
            (if counter % n + picks % n < n then counter % n + picks % n else counter % n + picks % n - n)
    decreases picks
  {
    if picks == 0 {
      ModuloUnique(0, n, 0, 0);
    } else {
      SumOfRemainders(counter, picks - 1, n);
      NextRemainder(counter + picks - 1, n);
      NextRemainder(picks - 1, n);
    }
  }

  /**
   Fairness: over k consecutive picks from a fixed set of n replicas each one is
   picked floor(k/n) times, and the first k mod n in turn once more.
   */
  lemma {:induction false} RoundRobinIsFair(counter: nat, picks: nat, n: nat, j: nat)
    requires n > 0 && j < n
    ensures TurnsFor(counter, picks, n, j) == picks / n + (if Ahead(counter, n, j) < picks % n then 1 else 0)
    decreases picks
  {
    if picks == 0 {
      ModuloUnique(0, n, 0, 0);
    } else {
      RoundRobinIsFair(counter, picks - 1, n, j);
      NextRemainder(picks - 1, n);
      SumOfRemainders(counter, picks - 1, n);
    }
  }
}
