/** Smooth weighted round-robin: one balanced cycle of endpoint indices. */
module SmoothOrder {

  function Sum(weights: seq<nat>): nat {
    if weights == [] then 0 else Sum(weights[..|weights| - 1]) + weights[|weights| - 1]
  }

  /** How often an index has been picked. */
  function Count(order: seq<nat>, index: nat): nat {
    if order == [] then 0 else
      Count(order[..|order| - 1], index) + if order[|order| - 1] == index then 1 else 0
  }

  /** An index's due share of the picks made so far, less the picks it got, in units of 1/total. */
  function Standing(weights: seq<nat>, order: seq<nat>, index: nat): int
    requires index < |weights|
  {
    |order| * weights[index] - Sum(weights) * Count(order, index)
  }

  /** `k` holds the maximum, and it is the last index that does. */
  predicate IsLastMax(values: seq<int>, k: nat) {
    && k < |values|
    && (forall j | 0 <= j < |values| :: values[j] <= values[k])
    && (forall j | k < j < |values| :: values[j] < values[k])
  }

  /** What every index would stand at if the next pick were free. */
  function Claims(weights: seq<nat>, order: seq<nat>): (r: seq<int>)
    ensures |r| == |weights|
  {
    seq(|weights|, j requires 0 <= j < |weights| => Standing(weights, order, j) + weights[j])
  }

  /** Every pick goes to the largest claim, ties to the last index: a reference that keeps no running
      values. */
  ghost predicate Greedy(weights: seq<nat>, order: seq<nat>) {
    forall t | 0 <= t < |order| :: IsLastMax(Claims(weights, order[..t]), order[t])
  }

  method IndexOfMax(values: array<int>) returns (selected: nat)
    requires values.Length > 0
    ensures IsLastMax(values[..], selected)
  {
    selected := 0;
    for j := 1 to values.Length
      invariant selected < j
      invariant forall i | 0 <= i < j :: values[i] <= values[selected]
      invariant forall i | selected < i < j :: values[i] < values[selected]
    {
      if values[selected] <= values[j] {
        selected := j;
      }
    }
  }

  /** Produces one cycle: as many picks as the weights total, each the reference pick. */
  method SmoothWeightedOrder(weights: seq<nat>) returns (order: seq<nat>)
    ensures |order| == Sum(weights)
    ensures Greedy(weights, order)
  {
    var total := Sum(weights);
    var current := new int[|weights|](_ => 0);
    order := [];
    for t := 0 to total
      invariant |order| == t && Greedy(weights, order)
      invariant forall j | 0 <= j < |weights| :: current[j] == Standing(weights, order, j)
    {
      for j := 0 to |weights|
        invariant forall i | 0 <= i < j :: current[i] == Standing(weights, order, i) + weights[i]
        invariant forall i | j <= i < |weights| :: current[i] == Standing(weights, order, i)
      {
        current[j] := current[j] + weights[j];
      }
      assert |weights| > 0;
      assert current[..] == Claims(weights, order);
      var selected := IndexOfMax(current);
      current[selected] := current[selected] - total;
      ghost var before := order;
      order := order + [selected];
      assert forall i | 0 <= i < t :: order[..i] == before[..i];
      assert order[..t] == before;
      forall j | 0 <= j < |weights| ensures current[j] == Standing(weights, order, j) {
        PickMovesStandings(weights, before, selected, j);
      }
    }
  }

  lemma PickMovesStandings(weights: seq<nat>, order: seq<nat>, selected: nat, j: nat)
    requires j < |weights|
    ensures Standing(weights, order + [selected], j)
            == Standing(weights, order, j) + weights[j] - if j == selected then Sum(weights) else 0
  {
    assert (order + [selected])[..|order|] == order;
    assert (|order| + 1) * weights[j] == |order| * weights[j] + weights[j];
    assert Sum(weights) * (Count(order, j) + 1) == Sum(weights) * Count(order, j) + Sum(weights);
  }

  // ---- Standings always sum to zero ----

  function SumOf(values: seq<int>): int {
    if values == [] then 0 else SumOf(values[..|values| - 1]) + values[|values| - 1]
  }

  function Counts(order: seq<nat>, n: nat): seq<int> {
    seq(n, j requires 0 <= j < n => Count(order, j))
  }

  lemma {:induction false} CountsOfNothing(n: nat)
    ensures SumOf(Counts([], n)) == 0
  {
    if n > 0 {
      CountsOfNothing(n - 1);
      assert Counts([], n)[..n - 1] == Counts([], n - 1);
    }
  }

  lemma {:induction false} OneMoreCounted(order: seq<nat>, pick: nat, n: nat)
    ensures SumOf(Counts(order + [pick], n)) == SumOf(Counts(order, n)) + if pick < n then 1 else 0
  {
    assert (order + [pick])[..|order|] == order;
    if n > 0 {
      OneMoreCounted(order, pick, n - 1);
      assert Counts(order + [pick], n)[..n - 1] == Counts(order + [pick], n - 1);
      assert Counts(order, n)[..n - 1] == Counts(order, n - 1);
    }
  }

  /** Every pick below `n` is counted once. */
  lemma {:induction false} CountsAddUp(order: seq<nat>, n: nat)
    requires forall t | 0 <= t < |order| :: order[t] < n
    ensures SumOf(Counts(order, n)) == |order|
  {
    if order == [] {
      CountsOfNothing(n);
    } else {
      var last := |order| - 1;
      CountsAddUp(order[..last], n);
      OneMoreCounted(order[..last], order[last], n);
      assert order[..last] + [order[last]] == order;
    }
  }

  function ClaimsBelow(weights: seq<nat>, order: seq<nat>, n: nat): seq<int>
    requires n <= |weights|
  {
    Claims(weights, order)[..n]
  }

  lemma OneMoreClaim(picks: nat, total: nat, weight: nat, weights: nat, counts: int, count: int)
    ensures (picks + 1) * weights - total * counts + (picks * weight - total * count + weight)
            == (picks + 1) * (weights + weight) - total * (counts + count)
  {
  }

  lemma {:induction false} ClaimsSum(weights: seq<nat>, order: seq<nat>, n: nat)
    requires n <= |weights|
    ensures SumOf(ClaimsBelow(weights, order, n))
            == (|order| + 1) * Sum(weights[..n]) - Sum(weights) * SumOf(Counts(order, n))
  {
    if n == 0 {
      assert weights[..0] == [];
    } else {
      ClaimsSum(weights, order, n - 1);
      assert ClaimsBelow(weights, order, n)[..n - 1] == ClaimsBelow(weights, order, n - 1);
      assert Counts(order, n)[..n - 1] == Counts(order, n - 1);
      assert weights[..n][..n - 1] == weights[..n - 1];
      OneMoreClaim(|order|, Sum(weights), weights[n - 1], Sum(weights[..n - 1]),
                   SumOf(Counts(order, n - 1)), Count(order, n - 1));
    }
  }

  lemma PositiveSumHasPositive(values: seq<int>, k: nat)
    requires IsLastMax(values, k) && SumOf(values) > 0
    ensures values[k] > 0
  {
    if values[k] <= 0 {
      NonPositiveSum(values);
    }
  }

  lemma {:induction false} NonPositiveSum(values: seq<int>)
    requires forall j | 0 <= j < |values| :: values[j] <= 0
    ensures SumOf(values) <= 0
  {
    if values != [] {
      NonPositiveSum(values[..|values| - 1]);
    }
  }

  lemma GreedyPicksExist(weights: seq<nat>, order: seq<nat>)
    requires Greedy(weights, order)
    ensures forall t | 0 <= t < |order| :: order[t] < |weights|
  {
    forall t | 0 <= t < |order| ensures order[t] < |weights| {
      assert IsLastMax(Claims(weights, order[..t]), order[t]);
    }
  }

  lemma GreedyPrefix(weights: seq<nat>, order: seq<nat>, t: nat)
    requires Greedy(weights, order) && t <= |order|
    ensures Greedy(weights, order[..t])
  {
    forall i | 0 <= i < t ensures IsLastMax(Claims(weights, order[..t][..i]), order[..t][i]) {
      assert order[..t][..i] == order[..i];
    }
  }

  lemma LastMaxIsUnique(values: seq<int>, k: nat, m: nat)
    requires IsLastMax(values, k) && IsLastMax(values, m)
    ensures k == m
  {
    assert values[k] <= values[m] && values[m] <= values[k];
  }

  /** The reference leaves no choice: weights and length determine the order. */
  lemma {:induction false} GreedyIsUnique(weights: seq<nat>, order: seq<nat>, other: seq<nat>)
    requires Greedy(weights, order) && Greedy(weights, other) && |order| == |other|
    ensures order == other
  {
    if order != [] {
      var last := |order| - 1;
      GreedyPrefix(weights, order, last);
      GreedyPrefix(weights, other, last);
      GreedyIsUnique(weights, order[..last], other[..last]);
      LastMaxIsUnique(Claims(weights, order[..last]), order[last], other[last]);
      assert order == order[..last] + [order[last]] && other == other[..last] + [other[last]];
    }
  }

  /** Claims always total exactly one turn. */
  lemma ClaimsTotal(weights: seq<nat>, order: seq<nat>)
    requires Greedy(weights, order)
    ensures SumOf(Claims(weights, order)) == Sum(weights)
  {
    GreedyPicksExist(weights, order);
    CountsAddUp(order, |weights|);
    ClaimsSum(weights, order, |weights|);
    assert weights[..|weights|] == weights;
    assert ClaimsBelow(weights, order, |weights|) == Claims(weights, order);
    OneTurn(|order|, Sum(weights));
  }

  lemma OneTurn(picks: nat, total: nat)
    ensures (picks + 1) * total - total * picks == total
  {
  }

  // ---- The scheduler theorems ----

  lemma {:induction false} StandingsAboveOneTurn(weights: seq<nat>, order: seq<nat>, i: nat)
    requires Greedy(weights, order) && Sum(weights) > 0 && i < |weights|
    ensures 0 < Standing(weights, order, i) + Sum(weights)
  {
    if order != [] {
      var last := |order| - 1;
      var before, pick := order[..last], order[last];
      GreedyPrefix(weights, order, last);
      StandingsAboveOneTurn(weights, before, i);
      assert before + [pick] == order;
      PickMovesStandings(weights, before, pick, i);
      if i == pick {
        ClaimsTotal(weights, before);
        PositiveSumHasPositive(Claims(weights, before), pick);
      }
    }
  }

  /** In every prefix of a greedy order no index is ever a full turn ahead of its share: with t picks
      made and n of them on index i, total * (n - 1) < t * weights[i]. */
  lemma NeverAFullTurnAhead(weights: seq<nat>, order: seq<nat>, t: nat, i: nat)
    requires Greedy(weights, order) && Sum(weights) > 0 && i < |weights| && t <= |order|
    ensures Sum(weights) * (Count(order[..t], i) - 1) < t * weights[i]
  {
    var prefix := order[..t];
    GreedyPrefix(weights, order, t);
    StandingsAboveOneTurn(weights, prefix, i);
    StandingAfter(weights, prefix, t, i);
    TimesOneLess(Sum(weights), Count(prefix, i));
  }

  lemma StandingAfter(weights: seq<nat>, order: seq<nat>, t: nat, i: nat)
    requires i < |weights| && |order| == t
    ensures Standing(weights, order, i) == t * weights[i] - Sum(weights) * Count(order, i)
  {
  }

  lemma TimesOneLess(a: int, n: int)
    ensures a * (n - 1) == a * n - a
  {
  }

  lemma TimesIsMonotone(a: nat, m: int, n: int)
    requires m <= n
    ensures a * m <= a * n
  {
    assert 0 <= a * (n - m);
  }

  lemma {:induction false} CountsAtMostWeights(weights: seq<nat>, order: seq<nat>, n: nat)
    requires n <= |weights|
    requires forall i | 0 <= i < |weights| :: Count(order, i) <= weights[i]
    ensures SumOf(Counts(order, n)) <= Sum(weights[..n])
    ensures SumOf(Counts(order, n)) == Sum(weights[..n]) ==> forall i | 0 <= i < n :: Count(order, i) == weights[i]
  {
    if n == 0 {
      assert weights[..0] == [];
    } else {
      CountsAtMostWeights(weights, order, n - 1);
      assert Counts(order, n)[..n - 1] == Counts(order, n - 1);
      assert weights[..n][..n - 1] == weights[..n - 1];
    }
  }

  lemma AtMostAShare(total: nat, count: nat, weight: nat)
    requires total * (count - 1) < total * weight
    ensures count <= weight
  {
    if count > weight {
      TimesIsMonotone(total, weight, count - 1);
    }
  }

  /** A whole cycle picks every index exactly as often as it weighs, which brings every running value
      back to zero. */
  lemma CycleIsExact(weights: seq<nat>, order: seq<nat>)
    requires Greedy(weights, order) && |order| == Sum(weights)
    ensures forall i | 0 <= i < |weights| :: Count(order, i) == weights[i] && Standing(weights, order, i) == 0
  {
    var total := Sum(weights);
    if total > 0 {
      forall i | 0 <= i < |weights| ensures Count(order, i) <= weights[i] {
        NeverAFullTurnAhead(weights, order, |order|, i);
        assert order[..|order|] == order;
        AtMostAShare(total, Count(order, i), weights[i]);
      }
    } else {
      WeightsOfNothing(weights);
    }
    GreedyPicksExist(weights, order);
    CountsAddUp(order, |weights|);
    assert weights[..|weights|] == weights;
    CountsAtMostWeights(weights, order, |weights|);
  }

  lemma {:induction false} WeightsOfNothing(weights: seq<nat>)
    requires Sum(weights) == 0
    ensures forall i | 0 <= i < |weights| :: weights[i] == 0
  {
    if weights != [] {
      WeightsOfNothing(weights[..|weights| - 1]);
    }
  }

  lemma {:induction false} CountedOccurs(order: seq<nat>, i: nat)
    ensures Count(order, i) > 0 <==> i in order
  {
    if order != [] {
      var last := |order| - 1;
      CountedOccurs(order[..last], i);
      assert order == order[..last] + [order[last]];
    }
  }

  /** So an index is in the cycle exactly when it weighs something. */
  lemma CycleCovers(weights: seq<nat>, order: seq<nat>, i: nat)
    requires Greedy(weights, order) && |order| == Sum(weights) && i < |weights|
    ensures i in order <==> weights[i] > 0
  {
    CycleIsExact(weights, order);
    CountedOccurs(order, i);
  }

  lemma {:induction false} LowerBoundsAddUp(values: seq<int>, low: int, i: nat)
    requires i < |values| && forall j | 0 <= j < |values| :: low <= values[j]
    ensures values[i] + low * (|values| - 1) <= SumOf(values)
  {
    var last := |values| - 1;
    if i < last {
      LowerBoundsAddUp(values[..last], low, i);
      TimesOneLess(low, |values| - 1);
    } else {
      AllAtLeast(values[..last], low);
    }
  }

  lemma {:induction false} AllAtLeast(values: seq<int>, low: int)
    requires forall j | 0 <= j < |values| :: low <= values[j]
    ensures low * |values| <= SumOf(values)
  {
    if values != [] {
      AllAtLeast(values[..|values| - 1], low);
      TimesOneLess(low, |values|);
    }
  }

  lemma NoValueDominates(values: seq<int>, total: nat, i: nat)
    requires SumOf(values) == total && i < |values|
    requires forall j | 0 <= j < |values| :: -(total as int) <= values[j]
    ensures values[i] <= |values| * total
  {
    var low: int := -(total as int);
    LowerBoundsAddUp(values, low, i);
    TimesOneLess(low, |values|);
    assert low * |values| == -(|values| * total);
  }

  /** The other side of fairness: no running value, before or after a pick, falls to minus the total
      or rises above the total times the number of endpoints, so signed 64-bit running values never
      overflow while that product fits. */
  lemma RunningValuesStayBounded(weights: seq<nat>, order: seq<nat>, i: nat)
    requires Greedy(weights, order) && Sum(weights) > 0 && i < |weights|
    ensures 0 < Standing(weights, order, i) + Sum(weights)
    ensures Standing(weights, order, i) <= Claims(weights, order)[i] <= |weights| * Sum(weights)
  {
    var claims := Claims(weights, order);
    forall j | 0 <= j < |weights| ensures -(Sum(weights) as int) <= claims[j] {
      StandingsAboveOneTurn(weights, order, j);
    }
    StandingsAboveOneTurn(weights, order, i);
    ClaimsTotal(weights, order);
    NoValueDominates(claims, Sum(weights), i);
  }
}
