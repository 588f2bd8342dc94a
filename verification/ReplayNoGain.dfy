/** No plan gains from a single pool, however often and in whatever directions it trades there. */
module ReplayNoGain {
  import opened Domain
  import opened FloorMath
  import opened Word256
  import opened LosslessPools
  import opened ReplaySpec
  import opened ReplayConservation

  /** Selling back every unit of the other token would leave at most the entry: holding `source`
      units and facing reserves `x`, `y` that opened with `y0` of the other token. */
  predicate NoBetterOff(source: nat, x: nat, other: nat, y: nat, entry: nat, y0: nat) {
    && (source + x - entry) * y0 <= x * y
    && other + y <= y0
    && (y0 == 0 ==> source <= entry)
  }

  lemma NoBetterOffMeansNoGain(source: nat, x: nat, other: nat, y: nat, entry: nat, y0: nat)
    requires NoBetterOff(source, x, other, y, entry, y0)
    ensures source <= entry
  {
    if source > entry {
      ProductBound(x, y, x, y0);
      assert (source + x - entry) * y0 == (source - entry) * y0 + x * y0;
      ProductBound(1, y0, source - entry, y0);
    }
  }

  lemma HoldingLess(source: nat, x: nat, other: nat, y: nat, entry: nat, y0: nat, source': nat, other': nat)
    requires NoBetterOff(source, x, other, y, entry, y0)
    requires source' <= source && other' <= other
    ensures NoBetterOff(source', x, other', y, entry, y0)
  {
    assert (source + x - entry) * y0 == (source' + x - entry) * y0 + (source - source') * y0;
  }

  /** Selling the source: the input side may saturate and take less than it was given. */
  lemma SellingSource(source: nat, x: nat, other: nat, y: nat, entry: nat, y0: nat,
                      amount: nat, x': nat, out: nat)
    requires NoBetterOff(source, x, other, y, entry, y0)
    requires amount <= source && x <= x' <= x + amount && out <= y
    requires x * y <= (x + amount) * (y - out)
    ensures NoBetterOff(source - amount, x', other + out, y - out, entry, y0)
  {
    var lost, y' := x + amount - x', y - out;
    assert (source - amount + x' - entry) * y0 == (source + x - entry) * y0 - lost * y0;
    ProductBound(lost, y', lost, y0);
    assert (x + amount) * y' == x' * y' + lost * y';
  }

  /** Buying the source back: the other side never saturates, since it opened with all there is. */
  lemma BuyingSource(source: nat, x: nat, other: nat, y: nat, entry: nat, y0: nat, amount: nat, out: nat)
    requires NoBetterOff(source, x, other, y, entry, y0)
    requires 0 < amount <= other && out <= x
    requires y * x <= (y + amount) * (x - out)
    ensures NoBetterOff(source + out, x - out, other - amount, y + amount, entry, y0)
  {
    Commutes(x, y);
    Commutes(x - out, y + amount);
    assert source + out + (x - out) - entry == source + x - entry;
  }

  lemma Commutes(a: nat, b: nat)
    ensures a * b == b * a
  {
  }

  // ---- One step, one stage, the whole run ----

  /** What a stage still commands of a token: what it has credited and what it has yet to spend. */
  function Command(fold: Fold, wallet: Wallet, steps: seq<Step>, stage: nat, token: TokenAddress): nat {
    Balance(fold.next, token) + SpendAll(wallet, steps, stage, token)
  }

  ghost predicate Facing(fold: Fold, source: nat, other: nat, p: PoolRef,
                         a: TokenAddress, b: TokenAddress, entry: nat, y0: nat)
  {
    && p in fold.book && fold.book[p].Trades(a, b) && y0 <= U256_MAX
    && NoBetterOff(source, fold.book[p].ReserveOf(a), other, fold.book[p].ReserveOf(b), entry, y0)
  }

  ghost predicate OnlyPool(steps: seq<Step>, p: PoolRef) {
    forall step <- steps :: !step.kind.Bridge? && (step.kind.Swap? ==> step.kind.pool == p)
  }

  lemma SellingIsFair(pool: Pool, a: TokenAddress, b: TokenAddress, amountIn: U256,
                      heldA: nat, heldB: nat, entry: nat, y0: nat)
    requires pool.Trades(a, b)
    requires NoBetterOff(heldA + amountIn, pool.ReserveOf(a), heldB, pool.ReserveOf(b), entry, y0)
    ensures SwapOf(pool, a, amountIn).Ok?
    ensures var (after, hop) := SwapOf(pool, a, amountIn).value;
            NoBetterOff(heldA, after.ReserveOf(a), heldB + hop.out, after.ReserveOf(b), entry, y0)
  {
    SwapEffect(pool, a, b, amountIn);
    var (after, hop) := SwapOf(pool, a, amountIn).value;
    var x, y := pool.ReserveOf(a), pool.ReserveOf(b);
    SwapKeepsTheProduct(x, y, Capped(amountIn, pool.feePips, pool.LimitOf(a)), amountIn);
    SellingSource(heldA + amountIn, x, heldB, y, entry, y0, amountIn, after.ReserveOf(a), hop.out);
  }

  lemma BuyingIsFair(pool: Pool, a: TokenAddress, b: TokenAddress, amountIn: U256,
                     heldA: nat, heldB: nat, entry: nat, y0: nat)
    requires pool.Trades(b, a) && y0 <= U256_MAX && amountIn > 0
    requires NoBetterOff(heldA, pool.ReserveOf(a), heldB + amountIn, pool.ReserveOf(b), entry, y0)
    ensures SwapOf(pool, b, amountIn).Ok?
    ensures var (after, hop) := SwapOf(pool, b, amountIn).value;
            NoBetterOff(heldA + hop.out, after.ReserveOf(a), heldB, after.ReserveOf(b), entry, y0)
  {
    SwapEffect(pool, b, a, amountIn);
    var (after, hop) := SwapOf(pool, b, amountIn).value;
    var x, y := pool.ReserveOf(a), pool.ReserveOf(b);
    SwapKeepsTheProduct(y, x, Capped(amountIn, pool.feePips, pool.LimitOf(b)), amountIn);
    BuyingSource(heldA, x, heldB + amountIn, y, entry, y0, amountIn, hop.out);
    assert after.ReserveOf(b) == y + amountIn && after.ReserveOf(a) == x - hop.out;
  }

  lemma SwapStaysFair(fold: Fold, wallet: Wallet, step: Step, p: PoolRef,
                      a: TokenAddress, b: TokenAddress, entry: nat, y0: nat, source: nat, other: nat)
    requires step.kind == Swap(p) && Covers(fold.book, [step])
    requires Facing(fold, Balance(fold.next, a) + source + Spend(wallet, step, a),
                    Balance(fold.next, b) + other + Spend(wallet, step, b), p, a, b, entry, y0)
    ensures RunStep(fold, wallet, step).Ok?
    ensures var after := RunStep(fold, wallet, step).value;
            Facing(after, Balance(after.next, a) + source, Balance(after.next, b) + other, p, a, b, entry, y0)
  {
    assert step in [step];
    var amountIn := WeightedAmount(Balance(wallet, step.tokenIn), step.weight);
    if amountIn > 0 {
      var pool := fold.book[p];
      var heldA, heldB := Balance(fold.next, a) + source, Balance(fold.next, b) + other;
      SameTokens(pool, step.tokenIn, step.tokenOut, a, b);
      SwapEffect(pool, step.tokenIn, step.tokenOut, amountIn);
      var (moved, hop) := SwapOf(pool, step.tokenIn, amountIn).value;
      if step.tokenIn == a {
        SellingIsFair(pool, a, b, amountIn, heldA, heldB, entry, y0);
        CreditedLess(fold.next, moved, b, hop.out, a, b, entry, y0, source, other);
      } else {
        BuyingIsFair(pool, a, b, amountIn, heldA, heldB, entry, y0);
        CreditedLess(fold.next, moved, a, hop.out, a, b, entry, y0, source, other);
      }
    }
  }

  /** A credit adds at most its amount, to its own token only. */
  lemma CreditedLess(wallet: Wallet, pool: Pool, paid: TokenAddress, out: U256,
                     a: TokenAddress, b: TokenAddress, entry: nat, y0: nat, source: nat, other: nat)
    requires a != b && paid in {a, b}
    requires NoBetterOff(Balance(wallet, a) + source + (if paid == a then out else 0), pool.ReserveOf(a),
                         Balance(wallet, b) + other + (if paid == b then out else 0), pool.ReserveOf(b), entry, y0)
    ensures var next := Credit(wallet, paid, out);
            NoBetterOff(Balance(next, a) + source, pool.ReserveOf(a), Balance(next, b) + other, pool.ReserveOf(b), entry, y0)
  {
    var next := Credit(wallet, paid, out);
    HoldingLess(Balance(wallet, a) + source + (if paid == a then out else 0), pool.ReserveOf(a),
                Balance(wallet, b) + other + (if paid == b then out else 0), pool.ReserveOf(b), entry, y0,
                Balance(next, a) + source, Balance(next, b) + other);
  }

  lemma SameTokens(pool: Pool, tokenIn: TokenAddress, tokenOut: TokenAddress, a: TokenAddress, b: TokenAddress)
    requires pool.Trades(tokenIn, tokenOut) && pool.Trades(a, b)
    ensures (tokenIn == a && tokenOut == b) || (tokenIn == b && tokenOut == a)
  {
    assert tokenIn in {a, b} && tokenOut in {a, b};
  }

  lemma StepStaysFair(fold: Fold, wallet: Wallet, step: Step, p: PoolRef,
                      a: TokenAddress, b: TokenAddress, entry: nat, y0: nat, source: nat, other: nat)
    requires OnlyPool([step], p) && Covers(fold.book, [step])
    requires Facing(fold, Balance(fold.next, a) + source + Spend(wallet, step, a),
                    Balance(fold.next, b) + other + Spend(wallet, step, b), p, a, b, entry, y0)
    ensures RunStep(fold, wallet, step).Ok?
    ensures var after := RunStep(fold, wallet, step).value;
            Facing(after, Balance(after.next, a) + source, Balance(after.next, b) + other, p, a, b, entry, y0)
  {
    assert step in [step];
    if step.kind.Swap? {
      SwapStaysFair(fold, wallet, step, p, a, b, entry, y0, source, other);
    } else {
      var after := RunStep(fold, wallet, step).value;
      HoldingLess(Balance(fold.next, a) + source + Spend(wallet, step, a), fold.book[p].ReserveOf(a),
                  Balance(fold.next, b) + other + Spend(wallet, step, b), fold.book[p].ReserveOf(b), entry, y0,
                  Balance(after.next, a) + source, Balance(after.next, b) + other);
    }
  }

  lemma {:induction false} StageStaysFair(
      fold: Fold, wallet: Wallet, steps: seq<Step>, stage: nat, all: seq<Step>, p: PoolRef,
      a: TokenAddress, b: TokenAddress, entry: nat, y0: nat)
    requires OnlyPool(all, p) && Within(steps, all) && Covers(fold.book, all)
    requires Facing(fold, Command(fold, wallet, steps, stage, a), Command(fold, wallet, steps, stage, b),
                    p, a, b, entry, y0)
    ensures RunStage(fold, wallet, steps, stage).Ok?
    ensures var after := RunStage(fold, wallet, steps, stage).value;
            Facing(after, Balance(after.next, a), Balance(after.next, b), p, a, b, entry, y0)
    decreases |steps|
  {
    if steps == [] {
    } else if steps[0].stage != stage {
      StageStaysFair(fold, wallet, steps[1..], stage, all, p, a, b, entry, y0);
    } else {
      StepCovers(fold, wallet, steps[0], all);
      StepStaysFair(fold, wallet, steps[0], p, a, b, entry, y0,
                    SpendAll(wallet, steps[1..], stage, a), SpendAll(wallet, steps[1..], stage, b));
      StageStaysFair(RunStep(fold, wallet, steps[0]).value, wallet, steps[1..], stage, all, p, a, b, entry, y0);
    }
  }

  lemma {:induction false} StagesStayFair(
      fold: Fold, steps: seq<Step>, stage: nat, stop: nat, p: PoolRef,
      a: TokenAddress, b: TokenAddress, entry: nat, y0: nat)
    requires stage <= stop
    requires OnlyPool(steps, p) && Covers(fold.book, steps)
    requires forall s: nat, t :: SpentWeight(steps, s, t) <= WEIGHT_SCALE
    requires Facing(fold, Balance(fold.next, a), Balance(fold.next, b), p, a, b, entry, y0)
    ensures RunStages(fold, steps, stage, stop).Ok?
    ensures var after := RunStages(fold, steps, stage, stop).value;
            Facing(after, Balance(after.next, a), Balance(after.next, b), p, a, b, entry, y0)
    decreases stop - stage
  {
    if stage < stop {
      var start := fold.(next := map[]);
      assert SpentWeight(steps, stage, a) <= WEIGHT_SCALE && SpentWeight(steps, stage, b) <= WEIGHT_SCALE;
      SpendAllBound(fold.next, steps, stage, a);
      SpendAllBound(fold.next, steps, stage, b);
      HoldingLess(Balance(fold.next, a), fold.book[p].ReserveOf(a),
                  Balance(fold.next, b), fold.book[p].ReserveOf(b), entry, y0,
                  Command(start, fold.next, steps, stage, a), Command(start, fold.next, steps, stage, b));
      StageConserves(start, fold.next, steps, stage, steps, {a});
      StageStaysFair(start, fold.next, steps, stage, steps, p, a, b, entry, y0);
      StagesStayFair(RunStage(start, fold.next, steps, stage).value, steps, stage + 1, stop, p, a, b, entry, y0);
    }
  }

  /** A replay that trades at one pool only, over any number of stages, in both directions, with any
      carries, fee, limits and saturation, never returns more of the source than it entered with. */
  lemma OnePoolNeverPays(plan: Plan, resolve: Resolver, entry: U256, p: PoolRef)
    requires WellFormed(plan, resolve) && BridgeFree(plan) && NotOverspent(plan)
    requires forall step <- plan.steps :: step.kind.Swap? ==> step.kind.pool == p
    requires plan.outputAsset == plan.sourceAsset
    ensures Replay(plan, resolve, entry).Ok?
    ensures Replay(plan, resolve, entry).value.output <= entry
  {
    var a := plan.sourceAsset;
    OpeningBook(plan, resolve, entry);
    var opening := Opening(plan, resolve, entry).value;
    if p in opening.book && a in {opening.book[p].token0, opening.book[p].token1} {
      var pool := opening.book[p];
      var b := if pool.token0 == a then pool.token1 else pool.token0;
      var step :| step in plan.steps && step.kind == Swap(p);
      assert pool.Trades(step.tokenIn, step.tokenOut);
      assert pool.Trades(a, b);
      StagesStayFair(opening, plan.steps, 0, StageCount(plan.steps), p, a, b, entry, pool.ReserveOf(b));
      var closing := Closing(plan, resolve, entry).value;
      NoBetterOffMeansNoGain(Balance(closing.next, a), closing.book[p].ReserveOf(a),
                             Balance(closing.next, b), closing.book[p].ReserveOf(b), entry, pool.ReserveOf(b));
    } else {
      TokenTotalNeverGrows(plan, resolve, entry, a);
      NoReserves(opening.book, opening.book.Keys, a);
    }
  }

  lemma {:induction false} NoReserves(book: Book, pools: set<PoolRef>, token: TokenAddress)
    requires pools <= book.Keys
    requires forall p <- pools :: book[p].ReserveOf(token) == 0
    ensures ReservesIn(book, pools, token) == 0
    decreases |pools|
  {
    if pools != {} {
      var p :| p in pools;
      ReservesWithout(book, pools, p, token);
      NoReserves(book, pools - {p}, token);
    }
  }

  // ---- The budget a plan must keep ----

  lemma {:induction false} ScaleSpendsExactly(steps: seq<Step>, stage: nat, token: TokenAddress)
    ensures SpendAll(map[token := WEIGHT_SCALE], steps, stage, token) == SpentWeight(steps, stage, token)
  {
    if steps != [] {
      ScaleSpendsExactly(steps[1..], stage, token);
      var weight := steps[0].weight;
      FloorAtLeast(WEIGHT_SCALE * weight, WEIGHT_SCALE, weight);
      FloorAtMost(WEIGHT_SCALE * weight, WEIGHT_SCALE, weight);
    }
  }

  /** A stage keeps within every balance of a token exactly when its scaled weights for that token
      sum to at most the scale; each single step always does. */
  lemma NeverOverspendsExactlyWhenWeightsFit(steps: seq<Step>, stage: nat, token: TokenAddress)
    ensures (forall balance: U256 :: SpendAll(map[token := balance], steps, stage, token) <= balance)
            <==> SpentWeight(steps, stage, token) <= WEIGHT_SCALE
  {
    if SpentWeight(steps, stage, token) <= WEIGHT_SCALE {
      forall balance: U256 ensures SpendAll(map[token := balance], steps, stage, token) <= balance {
        SpendAllBound(map[token := balance], steps, stage, token);
      }
    } else {
      var balance: U256 := WEIGHT_SCALE;
      ScaleSpendsExactly(steps, stage, token);
      assert SpendAll(map[token := balance], steps, stage, token) > balance;
    }
  }

  /** Past that bound a plan pays for nothing: two full-weight carries double the entry. */
  lemma OverspendingCarriesGain(token: TokenAddress, entry: U256, resolve: Resolver)
    requires entry + entry <= U256_MAX
    ensures var carry := Step(0, token, token, Carry, WEIGHT_SCALE);
            Replay(Plan(token, token, [carry, carry]), resolve, entry) == Ok(Outcome(entry + entry, false))
  {
    var carry := Step(0, token, token, Carry, WEIGHT_SCALE);
    var steps := [carry, carry];
    var wallet: Wallet := map[token := entry];
    FloorAtLeast(entry * WEIGHT_SCALE, WEIGHT_SCALE, entry);
    assert WeightedAmount(entry, WEIGHT_SCALE) == entry;
    assert steps[1..] == [carry] && [carry][1..] == [];
    assert BuildBook([carry], resolve, map[]) == BuildBook([], resolve, map[]);
    assert StageCount([carry]) == 1;
    assert StageCount(steps) == 1;
    var start := Fold(map[], map[], false);
    var once := RunStep(start, wallet, carry).value;
    assert RunStage(start, wallet, steps, 0) == RunStage(once, wallet, [carry], 0);
    var twice := RunStep(once, wallet, carry).value;
    assert RunStage(once, wallet, [carry], 0) == RunStage(twice, wallet, [], 0);
    assert Balance(twice.next, token) == entry + entry;
    assert RunStages(Fold(map[], wallet, false), steps, 0, 1) == RunStages(twice, steps, 1, 1);
  }
}
