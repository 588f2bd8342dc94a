/** Plans that reuse a pool across stages and break what is said of the replay's output. Each spends every
    balance it builds up. */
module ReplayExamples {
  import opened Domain
  import opened FloorMath
  import opened Word256
  import opened LosslessPools
  import opened ReplaySpec
  import opened ReplayLimits
  import opened ReplayReuse
  import ReplayConservation

  // ---- Running a short plan ----

  lemma WholeShare(balance: U256)
    ensures WeightedAmount(balance, WEIGHT_SCALE) == balance
  {
    UniqueRemainder(balance * WEIGHT_SCALE, WEIGHT_SCALE, balance, 0);
  }

  function StepsAt(steps: seq<Step>, stage: nat): seq<Step> {
    if steps == [] then [] else
      (if steps[0].stage == stage then [steps[0]] else []) + StepsAt(steps[1..], stage)
  }

  /** A stage runs its own steps and nothing else. */
  lemma {:induction false} StageRunsItsSteps(fold: Fold, wallet: Wallet, steps: seq<Step>, stage: nat, accrual: Accrual)
    ensures RunStage(fold, wallet, steps, stage, accrual) == RunStage(fold, wallet, StepsAt(steps, stage), stage, accrual)
    decreases |steps|
  {
    if steps != [] {
      var rest := StepsAt(steps[1..], stage);
      if steps[0].stage != stage {
        assert StepsAt(steps, stage) == rest;
        StageRunsItsSteps(fold, wallet, steps[1..], stage, accrual);
      } else {
        assert ([steps[0]] + rest)[1..] == rest;
        if RunStep(fold, wallet, steps[0], accrual).Ok? {
          StageRunsItsSteps(RunStep(fold, wallet, steps[0], accrual).value, wallet, steps[1..], stage, accrual);
        }
      }
    }
  }

  lemma RunsOneStep(fold: Fold, wallet: Wallet, step: Step, rest: seq<Step>, accrual: Accrual)
    requires RunStep(fold, wallet, step, accrual).Ok?
    ensures RunStage(fold, wallet, [step] + rest, step.stage, accrual)
            == RunStage(RunStep(fold, wallet, step, accrual).value, wallet, rest, step.stage, accrual)
  {
    assert ([step] + rest)[1..] == rest;
  }

  lemma RunsTwoSteps(fold: Fold, wallet: Wallet, first: Step, second: Step, accrual: Accrual)
    requires first.stage == second.stage
    requires RunStep(fold, wallet, first, accrual).Ok?
    ensures RunStage(fold, wallet, [first, second], first.stage, accrual)
            == RunStep(RunStep(fold, wallet, first, accrual).value, wallet, second, accrual)
  {
    var between := RunStep(fold, wallet, first, accrual).value;
    assert [first, second] == [first] + [second] && [second] == [second] + [];
    RunsOneStep(fold, wallet, first, [second], accrual);
    if RunStep(between, wallet, second, accrual).Ok? {
      RunsOneStep(between, wallet, second, [], accrual);
    }
  }

  /** A swap step, even of nothing, is the pool's sale of its share. */
  lemma SwapsItsShare(fold: Fold, wallet: Wallet, step: Step, pool: Pool, accrual: Accrual)
    requires step.kind.Swap? && step.kind.pool in fold.book && fold.book[step.kind.pool] == pool
    requires pool.Trades(step.tokenIn, step.tokenOut)
    ensures Takes(pool, Sale(step.tokenIn, WeightedAmount(Balance(wallet, step.tokenIn), step.weight)))
    ensures RunStep(fold, wallet, step, accrual).Ok?
    ensures
      var after := RunStep(fold, wallet, step, accrual).value;
      var (moved, out) := Sell(accrual, pool, Sale(step.tokenIn, WeightedAmount(Balance(wallet, step.tokenIn), step.weight)));
      && after.book == fold.book[step.kind.pool := moved]
      && forall token :: Balance(after.next, token)
                         == if token == step.tokenOut then SaturatingAdd(Balance(fold.next, token), out) else Balance(fold.next, token)
  {
    var sale := Sale(step.tokenIn, WeightedAmount(Balance(wallet, step.tokenIn), step.weight));
    SellEffect(accrual, pool, sale, step.tokenOut);
    if sale.amount == 0 {
      NothingSold(accrual, pool, step.tokenIn, step.tokenOut);
      assert fold.book[step.kind.pool := pool] == fold.book;
    }
  }

  lemma NothingSold(accrual: Accrual, pool: Pool, tokenIn: TokenAddress, tokenOut: TokenAddress)
    requires pool.Trades(tokenIn, tokenOut)
    ensures Takes(pool, Sale(tokenIn, 0)) && Sell(accrual, pool, Sale(tokenIn, 0)) == (pool, 0)
  {
    var sale := Sale(tokenIn, 0);
    SellEffect(accrual, pool, sale, tokenOut);
    NothingForNothing(pool.ReserveOf(tokenIn), pool.ReserveOf(tokenOut));
    assert Buys(pool, sale) == 0;
    assert tokenOut in {pool.token0, pool.token1};
  }

  lemma CarriesItsShare(fold: Fold, wallet: Wallet, step: Step, accrual: Accrual)
    requires step.kind.Carry? && step.tokenIn == step.tokenOut
    ensures RunStep(fold, wallet, step, accrual).Ok?
    ensures
      var after := RunStep(fold, wallet, step, accrual).value;
      var share := WeightedAmount(Balance(wallet, step.tokenIn), step.weight);
      && after.book == fold.book
      && forall token :: Balance(after.next, token)
                         == if token == step.tokenOut then SaturatingAdd(Balance(fold.next, token), share) else Balance(fold.next, token)
  {
  }

  lemma RunsOneStage(fold: Fold, steps: seq<Step>, stage: nat, stop: nat, accrual: Accrual)
    requires stage < stop && RunStage(fold.(next := map[]), fold.next, steps, stage, accrual).Ok?
    ensures RunStages(fold, steps, stage, stop, accrual)
            == RunStages(RunStage(fold.(next := map[]), fold.next, steps, stage, accrual).value, steps, stage + 1, stop, accrual)
  {
  }

  // ---- Passing a balance on ----

  /** Hands everything from each token of a chain to the next: a carry where it stays, else a bridge. */
  function Relay(tokens: seq<TokenAddress>): (plan: Plan)
    requires tokens != []
    ensures |plan.steps| == |tokens| - 1
  {
    Plan(tokens[0], tokens[|tokens| - 1],
         seq(|tokens| - 1, k requires 0 <= k < |tokens| - 1 =>
           Step(k, tokens[k], tokens[k + 1], if tokens[k] == tokens[k + 1] then Carry else Bridge, WEIGHT_SCALE)))
  }

  lemma {:induction false} OneStepAStage(steps: seq<Step>, first: nat, stage: nat)
    requires forall k | 0 <= k < |steps| :: steps[k].stage == first + k
    ensures StepsAt(steps, stage) == if first <= stage < first + |steps| then [steps[stage - first]] else []
    decreases |steps|
  {
    if steps != [] {
      OneStepAStage(steps[1..], first + 1, stage);
    }
  }

  lemma RelayStep(wallet: Wallet, book: Book, hit: bool, step: Step, entry: U256)
    requires step.kind == (if step.tokenIn == step.tokenOut then Carry else Bridge) && step.weight == WEIGHT_SCALE
    requires Balance(wallet, step.tokenIn) == entry
    ensures RunStep(Fold(book, map[], hit), wallet, step).Ok?
    ensures Balance(RunStep(Fold(book, map[], hit), wallet, step).value.next, step.tokenOut) == entry
  {
    WholeShare(entry);
  }

  lemma RelayStage(tokens: seq<TokenAddress>, k: nat, fold: Fold, entry: U256)
    requires k < |tokens| - 1 && Balance(fold.next, tokens[k]) == entry
    ensures RunStage(fold.(next := map[]), fold.next, Relay(tokens).steps, k).Ok?
    ensures Balance(RunStage(fold.(next := map[]), fold.next, Relay(tokens).steps, k).value.next, tokens[k + 1]) == entry
  {
    var steps, begun := Relay(tokens).steps, fold.(next := map[]);
    OneStepAStage(steps, 0, k);
    StageRunsItsSteps(begun, fold.next, steps, k, PreFee);
    RelayStep(fold.next, fold.book, fold.hit, steps[k], entry);
    assert [steps[k]] == [steps[k]] + [];
    RunsOneStep(begun, fold.next, steps[k], [], PreFee);
  }

  lemma {:induction false} RelayStages(tokens: seq<TokenAddress>, k: nat, fold: Fold, entry: U256)
    requires k < |tokens| && Balance(fold.next, tokens[k]) == entry
    ensures RunStages(fold, Relay(tokens).steps, k, |tokens| - 1).Ok?
    ensures Balance(RunStages(fold, Relay(tokens).steps, k, |tokens| - 1).value.next, tokens[|tokens| - 1]) == entry
    decreases |tokens| - k
  {
    if k < |tokens| - 1 {
      RelayStage(tokens, k, fold, entry);
      RelayStages(tokens, k + 1, RunStage(fold.(next := map[]), fold.next, Relay(tokens).steps, k).value, entry);
    }
  }

  /** Carries and bridges pass a balance on whole: along any chain of tokens the entry comes out as it went
      in, and a plan without steps is the shortest of them. */
  lemma RelayOutputsItsEntry(tokens: seq<TokenAddress>, resolve: Resolver, entry: U256)
    requires tokens != []
    ensures Replay(Relay(tokens), resolve, entry) == Ok(Outcome(entry, false))
  {
    var plan := Relay(tokens);
    ReplayConservation.OpeningBook(plan, resolve, entry);
    var fold := Opening(plan, resolve, entry).value;
    RelayStages(tokens, 0, fold, entry);
    if |tokens| > 1 {
      assert plan.steps[|tokens| - 2] in plan.steps;
      StageCountIs(plan.steps, |tokens| - 2);
    }
    RelayIsUnflagged(tokens, resolve, entry);
  }

  lemma RelayIsUnflagged(tokens: seq<TokenAddress>, resolve: Resolver, entry: U256)
    requires tokens != [] && Replay(Relay(tokens), resolve, entry).Ok?
    ensures !Replay(Relay(tokens), resolve, entry).value.hitTickLimit
  {
    var plan := Relay(tokens);
    ReplayConservation.OpeningBook(plan, resolve, entry);
    var fold := Opening(plan, resolve, entry).value;
    FlaggedExactlyWhenClamped(plan, resolve, entry);
    assert fold.book == map[] by {
      forall p ensures p !in fold.book {
      }
    }
    StagesNeverClamp(fold, plan.steps, 0, StageCount(plan.steps));
  }

  /** And with nothing to run, what was not the output asset to begin with yields nothing. */
  lemma NoStepsNoOutput(source: TokenAddress, output: TokenAddress, resolve: Resolver, entry: U256)
    ensures Replay(Plan(source, output, []), resolve, entry) == Ok(Outcome(if source == output then entry else 0, false))
  {
  }

  // ---- There and back through one pool ----

  /** Swap everything into the other token, and everything back a stage later. */
  function ThereAndBack(a: TokenAddress, b: TokenAddress, p: PoolRef): Plan {
    Plan(a, a, [Step(0, a, b, Swap(p), WEIGHT_SCALE), Step(1, b, a, Swap(p), WEIGHT_SCALE)])
  }

  lemma ThereAndBackOpens(a: TokenAddress, b: TokenAddress, p: PoolRef, pool: Pool, resolve: Resolver, entry: U256)
    requires resolve(p) == Some(pool)
    ensures Opening(ThereAndBack(a, b, p), resolve, entry) == Ok(Fold(map[p := pool], map[a := entry], false))
    ensures var steps := ThereAndBack(a, b, p).steps;
            StageCount(steps) == 2 && StepsAt(steps, 0) == [steps[0]] && StepsAt(steps, 1) == [steps[1]]
  {
    var steps := ThereAndBack(a, b, p).steps;
    assert steps[1..] == [steps[1]] && [steps[1]][1..] == [];
    assert BuildBook([], resolve, map[p := pool]) == Ok(map[p := pool]);
    assert BuildBook([steps[1]], resolve, map[p := pool]) == Ok(map[p := pool]);
    assert StageCount([]) == 0 && StageCount([steps[1]]) == 2;
    assert StepsAt([], 0) == [] && StepsAt([], 1) == [];
    assert StepsAt([steps[1]], 0) == [] && StepsAt([steps[1]], 1) == [steps[1]];
  }

  /** A stage that swaps the whole of one balance. */
  lemma SwapStage(fold: Fold, steps: seq<Step>, stage: nat, stop: nat, step: Step, pool: Pool, accrual: Accrual) returns (after: Fold)
    requires StepsAt(steps, stage) == [step] && step.stage == stage < stop && step.weight == WEIGHT_SCALE
    requires step.kind.Swap? && step.kind.pool in fold.book && fold.book[step.kind.pool] == pool
    requires pool.Trades(step.tokenIn, step.tokenOut)
    ensures RunStages(fold, steps, stage, stop, accrual) == RunStages(after, steps, stage + 1, stop, accrual)
    ensures Takes(pool, Sale(step.tokenIn, Balance(fold.next, step.tokenIn)))
    ensures
      var (moved, out) := Sell(accrual, pool, Sale(step.tokenIn, Balance(fold.next, step.tokenIn)));
      && after.book == fold.book[step.kind.pool := moved] && Balance(after.next, step.tokenOut) == out
  {
    var begun := fold.(next := map[]);
    WholeShare(Balance(fold.next, step.tokenIn));
    SwapsItsShare(begun, fold.next, step, pool, accrual);
    after := RunStep(begun, fold.next, step, accrual).value;
    StageRunsItsSteps(begun, fold.next, steps, stage, accrual);
    assert [step] == [step] + [];
    RunsOneStep(begun, fold.next, step, [], accrual);
    RunsOneStage(fold, steps, stage, stop, accrual);
  }

  /** Such a plan returns what the pool pays for the two sales. */
  lemma ThereAndBackReturns(a: TokenAddress, b: TokenAddress, p: PoolRef, pool: Pool, resolve: Resolver, entry: U256, accrual: Accrual)
    requires resolve(p) == Some(pool) && pool.Trades(a, b)
    ensures TakesAll(pool, [Sale(a, entry)])
    ensures
      var out := Sell(accrual, pool, Sale(a, entry)).1;
      && TakesAll(pool, [Sale(a, entry), Sale(b, out)])
      && Replay(ThereAndBack(a, b, p), resolve, entry, accrual).Ok?
      && Replay(ThereAndBack(a, b, p), resolve, entry, accrual).value.output
         == Paid(accrual, pool, [Sale(a, entry), Sale(b, out)], a)
  {
    var steps := ThereAndBack(a, b, p).steps;
    ThereAndBackOpens(a, b, p, pool, resolve, entry);
    SellEffect(accrual, pool, Sale(a, entry), b);
    var (moved, out) := Sell(accrual, pool, Sale(a, entry));
    assert {a, b} == {b, a};
    var there := SwapStage(Fold(map[p := pool], map[a := entry], false), steps, 0, 2, steps[0], pool, accrual);
    var back := SwapStage(there, steps, 1, 2, steps[1], moved, accrual);
    PaidForTwo(accrual, pool, Sale(a, entry), Sale(b, out));
  }

  lemma PaidForTwo(accrual: Accrual, pool: Pool, there: Sale, back: Sale)
    requires pool.Trades(there.tokenIn, back.tokenIn)
    ensures TakesAll(pool, [there, back]) && Takes(pool, there) && Takes(Sell(accrual, pool, there).0, back)
    ensures Paid(accrual, pool, [there, back], there.tokenIn) == Sell(accrual, Sell(accrual, pool, there).0, back).1
  {
    RoundTripRuns(accrual, pool, there, back);
    SellEffect(accrual, pool, there, back.tokenIn);
    var moved := Sell(accrual, pool, there).0;
    assert [there, back][1..] == [back] && [back][1..] == [];
    assert Paid(accrual, Sell(accrual, moved, back).0, [], there.tokenIn) == 0;
    assert Paid(accrual, moved, [back], there.tokenIn) == Sell(accrual, moved, back).1;
  }

  /** Under either accrual the amount swapped back is the one payout of the swap there. */
  lemma ThereAndBackIsARoundTrip(a: TokenAddress, b: TokenAddress, p: PoolRef, pool: Pool, resolve: Resolver, entry: U256,
                                 out: U256, accrual: Accrual)
    requires resolve(p) == Some(pool) && pool.Trades(a, b)
    requires out == Payout(pool.ReserveOf(a), pool.ReserveOf(b), Buys(pool, Sale(a, entry)))
    ensures TakesAll(pool, [Sale(a, entry), Sale(b, out)])
    ensures Replay(ThereAndBack(a, b, p), resolve, entry, accrual).Ok?
    ensures Replay(ThereAndBack(a, b, p), resolve, entry, accrual).value.output
            == Paid(accrual, pool, [Sale(a, entry), Sale(b, out)], a)
  {
    SellEffect(accrual, pool, Sale(a, entry), b);
    ThereAndBackReturns(a, b, p, pool, resolve, entry, accrual);
  }

  /** Swapping there and back through one pool, the gate overstates exactly when what the swap there held
      back tips the payout of the swap back over its next unit. */
  lemma ThereAndBackIsSafeExactly(a: TokenAddress, b: TokenAddress, p: PoolRef, pool: Pool, resolve: Resolver, entry: U256)
    requires resolve(p) == Some(pool) && pool.Trades(a, b) && pool.ReserveOf(a) + entry <= U256_MAX
    ensures Replay(ThereAndBack(a, b, p), resolve, entry).Ok? && Replay(ThereAndBack(a, b, p), resolve, entry, Net).Ok?
    ensures
      var (x, y, bought) := (pool.ReserveOf(a), pool.ReserveOf(b), Buys(pool, Sale(a, entry)));
      var out := Payout(x, y, bought);
      Replay(ThereAndBack(a, b, p), resolve, entry).value.output
      <= Replay(ThereAndBack(a, b, p), resolve, entry, Net).value.output
      <==> RoundedAway(y - out, x + bought, Held(pool, Sale(a, entry)), Buys(pool, Sale(b, out)))
  {
    var out: U256 := Payout(pool.ReserveOf(a), pool.ReserveOf(b), Buys(pool, Sale(a, entry)));
    ThereAndBackIsARoundTrip(a, b, p, pool, resolve, entry, out, PreFee);
    ThereAndBackIsARoundTrip(a, b, p, pool, resolve, entry, out, Net);
    RoundTripIsSafeExactly(pool, Sale(a, entry), Sale(b, out));
  }

  /** With 1000 in hand and reserves of 1000 and 1000 at a 10% fee it does: 892 against 848. */
  lemma GateOverstatesThereAndBack(a: TokenAddress, b: TokenAddress, p: PoolRef)
    requires a != b
    ensures
      var resolve: Resolver := _ => Some(Pool(a, b, 1000, 1000, 100_000, 1_000_000, 1_000_000));
      var plan := ThereAndBack(a, b, p);
      && Replay(plan, resolve, 1000).Ok? && Replay(plan, resolve, 1000, Net).Ok?
      && Replay(plan, resolve, 1000).value.output == 892 && Replay(plan, resolve, 1000, Net).value.output == 848
  {
    var pool := Pool(a, b, 1000, 1000, 100_000, 1_000_000, 1_000_000);
    var resolve: Resolver := _ => Some(pool);
    RoundTripOverstates(pool, a, b);
    assert Capped(1000, 100_000, 1_000_000) == 900 && Payout(1000, 1000, 900) == 473;
    ThereAndBackIsARoundTrip(a, b, p, pool, resolve, 1000, 473, PreFee);
    ThereAndBackIsARoundTrip(a, b, p, pool, resolve, 1000, 473, Net);
  }

  // ---- Selling in parts ----

  /** The three tokens and the pool of a plan that sells `a` for `b` in parts, and each part's proceeds
      on for `c` a stage later. */
  datatype Market = Market(a: TokenAddress, b: TokenAddress, c: TokenAddress, p: PoolRef)
  {
    predicate Apart() {
      a != b && b != c && a != c
    }

    /** Sells a share of what is left of `a`, and keeps the rest. */
    function Part(stage: nat, weight: ScaledWeight): seq<Step> {
      [Step(stage, a, b, Swap(p), weight), Step(stage, a, a, Carry, WEIGHT_SCALE - weight)]
    }

    /** Sells on what the stage before was paid, and keeps what was sold on before that. */
    function Exit(stage: nat, q: PoolRef): seq<Step> {
      [Step(stage, b, c, Swap(q), WEIGHT_SCALE), Step(stage, c, c, Carry, WEIGHT_SCALE)]
    }
  }

  lemma {:induction false} StageSplits(fold: Fold, wallet: Wallet, first: seq<Step>, second: seq<Step>, stage: nat, accrual: Accrual)
    requires RunStage(fold, wallet, first, stage, accrual).Ok?
    ensures RunStage(fold, wallet, first + second, stage, accrual)
            == RunStage(RunStage(fold, wallet, first, stage, accrual).value, wallet, second, stage, accrual)
    decreases |first|
  {
    if first == [] {
      assert first + second == second;
    } else {
      assert (first + second)[1..] == first[1..] + second;
      var after := if first[0].stage == stage then RunStep(fold, wallet, first[0], accrual).value else fold;
      StageSplits(after, wallet, first[1..], second, stage, accrual);
    }
  }

  lemma {:induction false} StepsAtSplits(first: seq<Step>, second: seq<Step>, stage: nat)
    ensures StepsAt(first + second, stage) == StepsAt(first, stage) + StepsAt(second, stage)
    decreases |first|
  {
    if first == [] {
      assert first + second == second;
    } else {
      var head := if first[0].stage == stage then [first[0]] else [];
      var rest, other := StepsAt(first[1..], stage), StepsAt(second, stage);
      assert (first + second)[1..] == first[1..] + second;
      StepsAtSplits(first[1..], second, stage);
      assert head + (rest + other) == (head + rest) + other;
    }
  }

  lemma {:induction false} StepsOfOneStage(steps: seq<Step>, own: nat, stage: nat)
    requires forall step <- steps :: step.stage == own
    ensures StepsAt(steps, stage) == if own == stage then steps else []
    decreases |steps|
  {
    if steps != [] {
      StepsOfOneStage(steps[1..], own, stage);
      assert steps == [steps[0]] + steps[1..];
    }
  }

  lemma {:induction false} StageCountIs(steps: seq<Step>, last: nat)
    requires forall step <- steps :: step.stage <= last
    ensures (exists step <- steps :: step.stage == last) ==> StageCount(steps) == last + 1
    ensures StageCount(steps) <= last + 1
    decreases |steps|
  {
    if steps != [] {
      StageCountIs(steps[1..], last);
    }
  }

  /** One part sold and the rest kept. */
  lemma PartRuns(market: Market, stage: nat, weight: ScaledWeight, fold: Fold, wallet: Wallet, pool: Pool, accrual: Accrual)
    requires market.Apart() && market.p in fold.book && fold.book[market.p] == pool && pool.Trades(market.a, market.b)
    requires fold.next == map[]
    ensures Takes(pool, Sale(market.a, WeightedAmount(Balance(wallet, market.a), weight)))
    ensures RunStage(fold, wallet, market.Part(stage, weight), stage, accrual).Ok?
    ensures
      var after := RunStage(fold, wallet, market.Part(stage, weight), stage, accrual).value;
      var (held, amount) := (Balance(wallet, market.a), WeightedAmount(Balance(wallet, market.a), weight));
      var (moved, out) := Sell(accrual, pool, Sale(market.a, amount));
      && after.book == fold.book[market.p := moved]
      && Balance(after.next, market.a) == WeightedAmount(held, WEIGHT_SCALE - weight)
      && Balance(after.next, market.b) == out && Balance(after.next, market.c) == 0
  {
    var steps := market.Part(stage, weight);
    SwapsItsShare(fold, wallet, steps[0], pool, accrual);
    CarriesItsShare(RunStep(fold, wallet, steps[0], accrual).value, wallet, steps[1], accrual);
    RunsTwoSteps(fold, wallet, steps[0], steps[1], accrual);
  }

  /** The proceeds of the stage before sold on, and everything sold on so far kept. */
  lemma ExitRuns(market: Market, stage: nat, q: PoolRef, fold: Fold, wallet: Wallet, pool: Pool, accrual: Accrual)
    requires market.Apart() && q in fold.book && fold.book[q] == pool && pool.Trades(market.b, market.c)
    requires Balance(fold.next, market.c) == 0
    ensures Takes(pool, Sale(market.b, Balance(wallet, market.b)))
    ensures RunStage(fold, wallet, market.Exit(stage, q), stage, accrual).Ok?
    ensures
      var after := RunStage(fold, wallet, market.Exit(stage, q), stage, accrual).value;
      var (moved, out) := Sell(accrual, pool, Sale(market.b, Balance(wallet, market.b)));
      && after.book == fold.book[q := moved]
      && Balance(after.next, market.a) == Balance(fold.next, market.a)
      && Balance(after.next, market.b) == Balance(fold.next, market.b)
      && Balance(after.next, market.c) == SaturatingAdd(out, Balance(wallet, market.c))
  {
    var steps := market.Exit(stage, q);
    WholeShare(Balance(wallet, market.b));
    WholeShare(Balance(wallet, market.c));
    SwapsItsShare(fold, wallet, steps[0], pool, accrual);
    CarriesItsShare(RunStep(fold, wallet, steps[0], accrual).value, wallet, steps[1], accrual);
    RunsTwoSteps(fold, wallet, steps[0], steps[1], accrual);
  }

  /** What a stage starts from: the parted pool as it is by now, and what is held of each token. */
  datatype Stock = Stock(pool: Pool, a: U256, b: U256, c: U256)

  predicate ExitsTrade(market: Market, book: Book, exits: seq<PoolRef>) {
    forall q <- exits :: q in book && book[q].Trades(market.b, market.c)
  }

  /** The stock after a part of `a` is sold, the rest of it kept and nothing else. */
  function AfterPart(accrual: Accrual, market: Market, stock: Stock, weight: ScaledWeight): (r: Stock)
    requires stock.pool.Trades(market.a, market.b)
    ensures r.pool.Trades(market.a, market.b)
  {
    var sale := Sale(market.a, WeightedAmount(stock.a, weight));
    SellEffect(accrual, stock.pool, sale, market.b);
    var (moved, out) := Sell(accrual, stock.pool, sale);
    Stock(moved, WeightedAmount(stock.a, WEIGHT_SCALE - weight), out, 0)
  }

  /** All that is held of `c` once what is held of `b` is sold on. */
  function Banked(accrual: Accrual, market: Market, stock: Stock, exit: Pool): U256
    requires exit.Trades(market.b, market.c)
  {
    assert market.b in {exit.token0, exit.token1};
    SaturatingAdd(Sell(accrual, exit, Sale(market.b, stock.b)).1, stock.c)
  }

  /** The stock after a stage that does both. */
  function AfterStage(accrual: Accrual, market: Market, stock: Stock, weight: ScaledWeight, exit: Pool): (r: Stock)
    requires stock.pool.Trades(market.a, market.b) && exit.Trades(market.b, market.c)
    ensures r.pool.Trades(market.a, market.b)
  {
    AfterPart(accrual, market, stock, weight).(c := Banked(accrual, market, stock, exit))
  }

  /** The fold is in stock, with the given pools still as they were. */
  ghost predicate Holding(market: Market, book: Book, rest: set<PoolRef>, fold: Fold, stock: Stock) {
    && market.p in fold.book && fold.book[market.p] == stock.pool && stock.pool.Trades(market.a, market.b)
    && (forall q <- rest :: q != market.p && q in book && q in fold.book && fold.book[q] == book[q]
                            && book[q].Trades(market.b, market.c))
    && Balance(fold.next, market.a) == stock.a && Balance(fold.next, market.b) == stock.b
    && Balance(fold.next, market.c) == stock.c
  }

  lemma FirstStage(market: Market, steps: seq<Step>, stop: nat, weight: ScaledWeight, book: Book, rest: set<PoolRef>, fold: Fold,
                   stock: Stock, accrual: Accrual) returns (after: Fold)
    requires market.Apart() && Holding(market, book, rest, fold, stock)
    requires StepsAt(steps, 0) == market.Part(0, weight) && 0 < stop
    ensures RunStages(fold, steps, 0, stop, accrual) == RunStages(after, steps, 1, stop, accrual)
    ensures Holding(market, book, rest, after, AfterPart(accrual, market, stock, weight))
  {
    var begun := fold.(next := map[]);
    StageRunsItsSteps(begun, fold.next, steps, 0, accrual);
    PartRuns(market, 0, weight, begun, fold.next, stock.pool, accrual);
    RunsOneStage(fold, steps, 0, stop, accrual);
    after := RunStage(begun, fold.next, steps, 0, accrual).value;
  }

  lemma MiddleStage(market: Market, steps: seq<Step>, stage: nat, stop: nat, weight: ScaledWeight, q: PoolRef, book: Book,
                    rest: set<PoolRef>, fold: Fold, stock: Stock, accrual: Accrual) returns (after: Fold)
    requires market.Apart() && Holding(market, book, rest, fold, stock) && q in rest
    requires StepsAt(steps, stage) == market.Part(stage, weight) + market.Exit(stage, q) && stage < stop
    ensures RunStages(fold, steps, stage, stop, accrual) == RunStages(after, steps, stage + 1, stop, accrual)
    ensures Holding(market, book, rest - {q}, after, AfterStage(accrual, market, stock, weight, book[q]))
  {
    var begun := fold.(next := map[]);
    StageRunsItsSteps(begun, fold.next, steps, stage, accrual);
    PartRuns(market, stage, weight, begun, fold.next, stock.pool, accrual);
    var parted := RunStage(begun, fold.next, market.Part(stage, weight), stage, accrual).value;
    StageSplits(begun, fold.next, market.Part(stage, weight), market.Exit(stage, q), stage, accrual);
    ExitRuns(market, stage, q, parted, fold.next, book[q], accrual);
    RunsOneStage(fold, steps, stage, stop, accrual);
    after := RunStage(begun, fold.next, steps, stage, accrual).value;
  }

  lemma LastStage(market: Market, steps: seq<Step>, stage: nat, q: PoolRef, book: Book, rest: set<PoolRef>, fold: Fold,
                  stock: Stock, accrual: Accrual)
    requires market.Apart() && Holding(market, book, rest, fold, stock) && q in rest
    requires StepsAt(steps, stage) == market.Exit(stage, q)
    ensures RunStages(fold, steps, stage, stage + 1, accrual).Ok?
    ensures Balance(RunStages(fold, steps, stage, stage + 1, accrual).value.next, market.c)
            == Banked(accrual, market, stock, book[q])
  {
    var begun := fold.(next := map[]);
    StageRunsItsSteps(begun, fold.next, steps, stage, accrual);
    ExitRuns(market, stage, q, begun, fold.next, book[q], accrual);
    RunsOneStage(fold, steps, stage, stage + 1, accrual);
  }

  // ---- A plan that sells in parts over its stages ----

  /** The stages from `stage` on: parts of what is left sold while the proceeds before are sold on, each
      through a pool of its own, and last the last proceeds sold on. */
  function StagesOn(market: Market, stage: nat, weights: seq<ScaledWeight>, exits: seq<PoolRef>): (r: seq<seq<Step>>)
    requires |exits| == |weights| + 1
    ensures |r| == |exits| && forall k | 0 <= k < |r| :: forall step <- r[k] :: step.stage == stage + k
    decreases |weights|
  {
    if weights == [] then [market.Exit(stage, exits[0])] else
      [market.Part(stage, weights[0]) + market.Exit(stage, exits[0])] + StagesOn(market, stage + 1, weights[1..], exits[1..])
  }

  function Flat(stages: seq<seq<Step>>): seq<Step> {
    if stages == [] then [] else stages[0] + Flat(stages[1..])
  }

  function SellInParts(market: Market, weights: seq<ScaledWeight>, exits: seq<PoolRef>): Plan
    requires |exits| == |weights| > 0
  {
    Plan(market.a, market.c, Flat([market.Part(0, weights[0])] + StagesOn(market, 1, weights[1..], exits)))
  }

  lemma {:induction false} FlatStages(stages: seq<seq<Step>>, first: nat, stage: nat)
    requires forall k | 0 <= k < |stages| :: forall step <- stages[k] :: step.stage == first + k
    ensures StepsAt(Flat(stages), stage) == if first <= stage < first + |stages| then stages[stage - first] else []
    decreases |stages|
  {
    if stages != [] {
      LaterAreLater(stages, first);
      FlatStages(stages[1..], first + 1, stage);
      StepsAtSplits(stages[0], Flat(stages[1..]), stage);
      StepsOfOneStage(stages[0], first, stage);
    }
  }

  lemma LaterAreLater(stages: seq<seq<Step>>, first: nat)
    requires stages != [] && forall k | 0 <= k < |stages| :: forall step <- stages[k] :: step.stage == first + k
    ensures forall k | 0 <= k < |stages[1..]| :: forall step <- stages[1..][k] :: step.stage == first + 1 + k
  {
    forall k, step | 0 <= k < |stages| - 1 && step in stages[1..][k] ensures step.stage == first + 1 + k {
      assert stages[1..][k] == stages[k + 1];
    }
  }

  lemma {:induction false} FlatIsWithin(stages: seq<seq<Step>>, first: nat)
    requires forall k | 0 <= k < |stages| :: forall step <- stages[k] :: step.stage == first + k
    ensures forall step <- Flat(stages) :: first <= step.stage < first + |stages|
    decreases |stages|
  {
    if stages != [] {
      LaterAreLater(stages, first);
      FlatIsWithin(stages[1..], first + 1);
    }
  }

  lemma {:induction false} InFlat(stages: seq<seq<Step>>, k: nat, step: Step)
    requires k < |stages| && step in stages[k]
    ensures step in Flat(stages)
    decreases |stages|
  {
    if k > 0 {
      InFlat(stages[1..], k - 1, step);
    }
  }

  /** What such stages bring in of `c`, by the pools alone. */
  function Proceeds(accrual: Accrual, market: Market, book: Book, stock: Stock, weights: seq<ScaledWeight>, exits: seq<PoolRef>): U256
    requires stock.pool.Trades(market.a, market.b) && |exits| == |weights| + 1
    requires ExitsTrade(market, book, exits)
    decreases |weights|
  {
    assert exits[0] in exits && forall q <- exits[1..] :: q in exits;
    if weights == [] then Banked(accrual, market, stock, book[exits[0]]) else
      Proceeds(accrual, market, book, AfterStage(accrual, market, stock, weights[0], book[exits[0]]), weights[1..], exits[1..])
  }

  predicate AllDistinct(exits: seq<PoolRef>) {
    forall i, j | 0 <= i < j < |exits| :: exits[i] != exits[j]
  }

  /** The steps are those of the given stages, one after the other. */
  predicate Follows(steps: seq<Step>, stage: nat, stages: seq<seq<Step>>)
    decreases |stages|
  {
    stages != [] ==> StepsAt(steps, stage) == stages[0] && Follows(steps, stage + 1, stages[1..])
  }

  lemma StagesEnd(market: Market, steps: seq<Step>, stage: nat, exits: seq<PoolRef>, book: Book, rest: set<PoolRef>, fold: Fold,
                  stock: Stock, accrual: Accrual)
    requires market.Apart() && |exits| == 1 && exits[0] in rest
    requires Holding(market, book, rest, fold, stock) && ExitsTrade(market, book, exits)
    requires Follows(steps, stage, StagesOn(market, stage, [], exits))
    ensures RunStages(fold, steps, stage, stage + 1, accrual).Ok?
    ensures Balance(RunStages(fold, steps, stage, stage + 1, accrual).value.next, market.c)
            == Proceeds(accrual, market, book, stock, [], exits)
  {
    assert exits[0] in exits;
    LastStage(market, steps, stage, exits[0], book, rest, fold, stock, accrual);
  }

  /** What the stages from one on ask of the exits and the steps. */
  ghost predicate Planned(market: Market, steps: seq<Step>, stage: nat, weights: seq<ScaledWeight>, exits: seq<PoolRef>, book: Book,
                          rest: set<PoolRef>)
  {
    && |exits| == |weights| + 1 && AllDistinct(exits) && (forall q <- exits :: q in rest)
    && ExitsTrade(market, book, exits) && Follows(steps, stage, StagesOn(market, stage, weights, exits))
  }

  lemma LaterStages(market: Market, steps: seq<Step>, stage: nat, weights: seq<ScaledWeight>, exits: seq<PoolRef>, book: Book,
                    rest: set<PoolRef>)
    requires weights != [] && Planned(market, steps, stage, weights, exits, book, rest)
    ensures StepsAt(steps, stage) == market.Part(stage, weights[0]) + market.Exit(stage, exits[0])
    ensures exits[0] in rest && exits[0] in book && book[exits[0]].Trades(market.b, market.c)
    ensures Planned(market, steps, stage + 1, weights[1..], exits[1..], book, rest - {exits[0]})
  {
    assert exits[0] in exits;
    assert StagesOn(market, stage, weights, exits)[1..] == StagesOn(market, stage + 1, weights[1..], exits[1..]);
  }

  /** The run of the stages from one on ends with that much of `c`. */
  ghost predicate EndsWith(market: Market, steps: seq<Step>, stage: nat, stop: nat, fold: Fold, c: U256, accrual: Accrual)
    requires stage <= stop
  {
    RunStages(fold, steps, stage, stop, accrual).Ok? && Balance(RunStages(fold, steps, stage, stop, accrual).value.next, market.c) == c
  }

  lemma OneStageEnds(market: Market, steps: seq<Step>, stage: nat, stop: nat, weights: seq<ScaledWeight>, exits: seq<PoolRef>,
                     book: Book, rest: set<PoolRef>, fold: Fold, stock: Stock, accrual: Accrual) returns (after: Fold, left: Stock)
    requires market.Apart() && weights != [] && Planned(market, steps, stage, weights, exits, book, rest)
    requires Holding(market, book, rest, fold, stock) && stop == stage + |exits|
    ensures Planned(market, steps, stage + 1, weights[1..], exits[1..], book, rest - {exits[0]})
    ensures Holding(market, book, rest - {exits[0]}, after, left)
    ensures Proceeds(accrual, market, book, stock, weights, exits) == Proceeds(accrual, market, book, left, weights[1..], exits[1..])
    ensures forall c :: EndsWith(market, steps, stage + 1, stop, after, c, accrual) ==> EndsWith(market, steps, stage, stop, fold, c, accrual)
  {
    LaterStages(market, steps, stage, weights, exits, book, rest);
    after := MiddleStage(market, steps, stage, stop, weights[0], exits[0], book, rest, fold, stock, accrual);
    left := AfterStage(accrual, market, stock, weights[0], book[exits[0]]);
  }

  lemma {:induction false} StagesOnRun(
      market: Market, steps: seq<Step>, stage: nat, stop: nat, weights: seq<ScaledWeight>, exits: seq<PoolRef>, book: Book,
      rest: set<PoolRef>, fold: Fold, stock: Stock, accrual: Accrual)
    requires market.Apart() && Planned(market, steps, stage, weights, exits, book, rest) && stop == stage + |exits|
    requires Holding(market, book, rest, fold, stock)
    ensures EndsWith(market, steps, stage, stop, fold, Proceeds(accrual, market, book, stock, weights, exits), accrual)
    decreases |weights|
  {
    if weights == [] {
      StagesEnd(market, steps, stage, exits, book, rest, fold, stock, accrual);
    } else {
      var after, left := OneStageEnds(market, steps, stage, stop, weights, exits, book, rest, fold, stock, accrual);
      StagesOnRun(market, steps, stage + 1, stop, weights[1..], exits[1..], book, rest - {exits[0]}, after, left, accrual);
    }
  }

  /** Any plan over such a market starts from its pools as they are resolved. */
  lemma MarketOpens(market: Market, plan: Plan, exits: set<PoolRef>, resolve: Resolver, entry: U256)
    requires market.Apart() && plan.sourceAsset == market.a && market.p !in exits && WellFormed(plan, resolve)
    requires forall q <- {market.p} + exits :: exists step <- plan.steps :: step.kind == Swap(q)
    requires resolve(market.p).Some? && resolve(market.p).value.Trades(market.a, market.b)
    requires forall q <- exits :: resolve(q).Some? && resolve(q).value.Trades(market.b, market.c)
    ensures Opening(plan, resolve, entry).Ok?
    ensures
      var fold := Opening(plan, resolve, entry).value;
      && Holding(market, fold.book, exits, fold, Stock(resolve(market.p).value, entry, 0, 0))
      && forall q <- exits :: q in fold.book && fold.book[q] == resolve(q).value
  {
    ReplayConservation.OpeningBook(plan, resolve, entry);
    assert market.p in {market.p} + exits;
    forall q | q in exits ensures exists step <- plan.steps :: step.kind == Swap(q) {
      assert q in {market.p} + exits;
    }
  }

  lemma {:induction false} StagesOnSwaps(market: Market, stage: nat, weights: seq<ScaledWeight>, exits: seq<PoolRef>, step: Step)
    requires |exits| == |weights| + 1 && step in Flat(StagesOn(market, stage, weights, exits)) && step.kind.Swap?
    ensures (step.kind == Swap(market.p) && step.tokenIn == market.a && step.tokenOut == market.b)
            || (step.kind.pool in exits && step.tokenIn == market.b && step.tokenOut == market.c)
    decreases |weights|
  {
    if weights == [] {
      assert StagesOn(market, stage, weights, exits)[1..] == [];
      assert step in market.Exit(stage, exits[0]);
    } else {
      var first := market.Part(stage, weights[0]) + market.Exit(stage, exits[0]);
      assert StagesOn(market, stage, weights, exits)[1..] == StagesOn(market, stage + 1, weights[1..], exits[1..]);
      if step in first {
        assert step in market.Part(stage, weights[0]) || step in market.Exit(stage, exits[0]);
      } else {
        StagesOnSwaps(market, stage + 1, weights[1..], exits[1..], step);
      }
    }
  }

  lemma {:induction false} ExitsAreSwapped(market: Market, stage: nat, weights: seq<ScaledWeight>, exits: seq<PoolRef>, q: PoolRef)
    requires |exits| == |weights| + 1 && q in exits
    ensures exists step <- Flat(StagesOn(market, stage, weights, exits)) :: step.kind == Swap(q)
    decreases |weights|
  {
    var stages := StagesOn(market, stage, weights, exits);
    if q == exits[0] {
      var exit := market.Exit(stage, q)[0];
      assert exit in market.Exit(stage, q);
      assert exit in stages[0] && exit in Flat(stages);
    } else {
      ExitsAreSwapped(market, stage + 1, weights[1..], exits[1..], q);
      assert stages[1..] == StagesOn(market, stage + 1, weights[1..], exits[1..]);
      var step :| step in Flat(stages[1..]) && step.kind == Swap(q);
      assert step in Flat(stages);
    }
  }

  /** The pools of such a plan, as a resolver finds them. */
  ghost predicate Sells(market: Market, exits: seq<PoolRef>, resolve: Resolver) {
    && market.Apart() && AllDistinct(exits) && market.p !in exits
    && resolve(market.p).Some? && resolve(market.p).value.Trades(market.a, market.b)
    && forall q <- exits :: resolve(q).Some? && resolve(q).value.Trades(market.b, market.c)
  }

  lemma SellInPartsWellFormed(market: Market, weights: seq<ScaledWeight>, exits: seq<PoolRef>, resolve: Resolver)
    requires Sells(market, exits, resolve) && |exits| == |weights| > 0
    ensures WellFormed(SellInParts(market, weights, exits), resolve)
  {
    var plan, part, later := SellInParts(market, weights, exits), market.Part(0, weights[0]), Flat(StagesOn(market, 1, weights[1..], exits));
    assert ([part] + StagesOn(market, 1, weights[1..], exits))[1..] == StagesOn(market, 1, weights[1..], exits);
    assert plan.steps == part + later;
    forall step | step in plan.steps && step.kind.Swap? ensures WellFormedStep(step, resolve) {
      if step !in part {
        StagesOnSwaps(market, 1, weights[1..], exits, step);
      }
    }
  }

  lemma SellInPartsOpens(market: Market, weights: seq<ScaledWeight>, exits: seq<PoolRef>, resolve: Resolver, entry: U256)
    requires Sells(market, exits, resolve) && |exits| == |weights| > 0
    ensures Opening(SellInParts(market, weights, exits), resolve, entry).Ok?
    ensures
      var fold := Opening(SellInParts(market, weights, exits), resolve, entry).value;
      && Holding(market, fold.book, (set q | q in exits), fold, Stock(resolve(market.p).value, entry, 0, 0))
      && forall q <- exits :: q in fold.book && fold.book[q] == resolve(q).value
  {
    var plan, pools := SellInParts(market, weights, exits), (set q | q in exits);
    var part, later := market.Part(0, weights[0]), Flat(StagesOn(market, 1, weights[1..], exits));
    assert ([part] + StagesOn(market, 1, weights[1..], exits))[1..] == StagesOn(market, 1, weights[1..], exits);
    assert plan.steps == part + later;
    SellInPartsWellFormed(market, weights, exits, resolve);
    assert part[0] in plan.steps && part[0].kind == Swap(market.p);
    forall q | q in pools ensures exists step <- plan.steps :: step.kind == Swap(q) {
      ExitsAreSwapped(market, 1, weights[1..], exits, q);
      var step :| step in later && step.kind == Swap(q);
      assert step in plan.steps;
    }
    MarketOpens(market, plan, pools, resolve, entry);
  }

  lemma PartsOfStages(market: Market, weights: seq<ScaledWeight>, exits: seq<PoolRef>) returns (stages: seq<seq<Step>>)
    requires |exits| == |weights| > 0
    ensures stages == [market.Part(0, weights[0])] + StagesOn(market, 1, weights[1..], exits)
    ensures |stages| == |weights| + 1 && SellInParts(market, weights, exits).steps == Flat(stages)
    ensures forall k | 0 <= k < |stages| :: forall step <- stages[k] :: step.stage == 0 + k
  {
    var on := StagesOn(market, 1, weights[1..], exits);
    stages := [market.Part(0, weights[0])] + on;
    forall k: nat, step: Step | k < |stages| && step in stages[k] ensures step.stage == 0 + k {
      assert k > 0 ==> stages[k] == on[k - 1];
    }
  }

  lemma {:induction false} LaterStagesFollow(stages: seq<seq<Step>>, k: nat)
    requires 0 < k <= |stages| && forall j | 0 <= j < |stages| :: forall step <- stages[j] :: step.stage == 0 + j
    ensures Follows(Flat(stages), k, stages[k..])
    decreases |stages| - k
  {
    if k < |stages| {
      FlatStages(stages, 0, k);
      LaterStagesFollow(stages, k + 1);
      assert stages[k..][1..] == stages[k + 1..];
    }
  }

  lemma SellInPartsFollows(market: Market, weights: seq<ScaledWeight>, exits: seq<PoolRef>)
    requires |exits| == |weights| > 0
    ensures
      var steps := SellInParts(market, weights, exits).steps;
      && StepsAt(steps, 0) == market.Part(0, weights[0])
      && Follows(steps, 1, StagesOn(market, 1, weights[1..], exits))
  {
    var stages := PartsOfStages(market, weights, exits);
    FlatStages(stages, 0, 0);
    LaterStagesFollow(stages, 1);
    assert stages[1..] == StagesOn(market, 1, weights[1..], exits);
  }

  lemma SellInPartsCount(market: Market, weights: seq<ScaledWeight>, exits: seq<PoolRef>)
    requires |exits| == |weights| > 0
    ensures StageCount(SellInParts(market, weights, exits).steps) == |weights| + 1
  {
    var stages := PartsOfStages(market, weights, exits);
    var on := StagesOn(market, 1, weights[1..], exits);
    FlatIsWithin(stages, 0);
    LastIsAnExit(market, 1, weights[1..], exits);
    var last := on[|on| - 1][0];
    assert stages[|weights|] == on[|on| - 1] && last in stages[|weights|];
    InFlat(stages, |weights|, last);
    StageCountIs(Flat(stages), |weights|);
  }

  lemma {:induction false} LastIsAnExit(market: Market, stage: nat, weights: seq<ScaledWeight>, exits: seq<PoolRef>)
    requires |exits| == |weights| + 1
    ensures var stages := StagesOn(market, stage, weights, exits); stages[|stages| - 1] != []
    decreases |weights|
  {
    if weights != [] {
      LastIsAnExit(market, stage + 1, weights[1..], exits[1..]);
    }
  }

  lemma PartsRun(market: Market, weights: seq<ScaledWeight>, exits: seq<PoolRef>, steps: seq<Step>, book: Book, rest: set<PoolRef>,
                 fold: Fold, stock: Stock, accrual: Accrual)
    requires market.Apart() && |exits| == |weights| > 0 && AllDistinct(exits) && forall q <- exits :: q in rest
    requires Holding(market, book, rest, fold, stock) && ExitsTrade(market, book, exits)
    requires StepsAt(steps, 0) == market.Part(0, weights[0]) && Follows(steps, 1, StagesOn(market, 1, weights[1..], exits))
    ensures RunStages(fold, steps, 0, |weights| + 1, accrual).Ok?
    ensures Balance(RunStages(fold, steps, 0, |weights| + 1, accrual).value.next, market.c)
            == Proceeds(accrual, market, book, AfterPart(accrual, market, stock, weights[0]), weights[1..], exits)
  {
    var after := FirstStage(market, steps, |weights| + 1, weights[0], book, rest, fold, stock, accrual);
    StagesOnRun(market, steps, 1, |weights| + 1, weights[1..], exits, book, rest, after,
                AfterPart(accrual, market, stock, weights[0]), accrual);
  }

  /** The pools a resolver finds to sell on through. */
  function ExitBook(exits: seq<PoolRef>, resolve: Resolver): Book
    requires forall q <- exits :: resolve(q).Some?
  {
    map q | q in exits :: resolve(q).value
  }

  /** Such a plan outputs what its pools pay, sale by sale. */
  lemma SellInPartsPays(market: Market, weights: seq<ScaledWeight>, exits: seq<PoolRef>, resolve: Resolver, entry: U256, accrual: Accrual)
    requires Sells(market, exits, resolve) && |exits| == |weights| > 0
    ensures Replay(SellInParts(market, weights, exits), resolve, entry, accrual).Ok?
    ensures ExitsTrade(market, ExitBook(exits, resolve), exits)
    ensures Replay(SellInParts(market, weights, exits), resolve, entry, accrual).value.output
            == Proceeds(accrual, market, ExitBook(exits, resolve),
                        AfterPart(accrual, market, Stock(resolve(market.p).value, entry, 0, 0), weights[0]), weights[1..], exits)
  {
    var plan, book, rest := SellInParts(market, weights, exits), ExitBook(exits, resolve), (set q | q in exits);
    var stock := Stock(resolve(market.p).value, entry, 0, 0);
    SellInPartsFollows(market, weights, exits);
    SellInPartsCount(market, weights, exits);
    SellInPartsOpens(market, weights, exits, resolve, entry);
    var fold := Opening(plan, resolve, entry).value;
    assert Holding(market, book, rest, fold, stock);
    PartsRun(market, weights, exits, plan.steps, book, rest, fold, stock, accrual);
  }

  // ---- Two parts: clamping the first leaves more for the second ----

  /** Next to nothing to be had of `c`, and no shortage of it. */
  function Poor(market: Market): Pool {
    Pool(market.b, market.c, 1_000_000, 1, 0, 1_000_000, 1_000_000)
  }

  function Rich(market: Market): Pool {
    Pool(market.b, market.c, 1_000_000_000, 1_000_000_000, 0, 1_000_000, 1_000_000)
  }

  /** One pool to sell in parts through, a rich one to sell the last part on through, and poor ones else. */
  function Resolves(market: Market, pool: Pool, last: PoolRef): Resolver {
    q => if q == market.p then Some(pool) else if q == last then Some(Rich(market)) else Some(Poor(market))
  }

  ghost predicate PoorBut(market: Market, exits: seq<PoolRef>, resolve: Resolver)
    requires exits != []
  {
    && Sells(market, exits, resolve)
    && (forall k | 0 <= k < |exits| - 1 :: resolve(exits[k]).value in {Poor(market), Lift(Poor(market))})
    && resolve(exits[|exits| - 1]).value in {Rich(market), Lift(Rich(market))}
  }

  lemma ResolvesPoorBut(market: Market, pool: Pool, exits: seq<PoolRef>)
    requires market.Apart() && exits != [] && AllDistinct(exits) && market.p !in exits && pool.Trades(market.a, market.b)
    ensures PoorBut(market, exits, Resolves(market, pool, exits[|exits| - 1]))
    ensures PoorBut(market, exits, Lifted(Resolves(market, pool, exits[|exits| - 1])))
  {
  }

  lemma Sold(accrual: Accrual, pool: Pool, sale: Sale, tokenOut: TokenAddress, amount: U256, c: U256, out: U256)
    requires pool.Trades(sale.tokenIn, tokenOut) && sale.amount == amount && Buys(pool, sale) == c
    requires Payout(pool.ReserveOf(sale.tokenIn), pool.ReserveOf(tokenOut), c) == out
    ensures Takes(pool, sale) && Sell(accrual, pool, sale).1 == out
    ensures Sell(accrual, pool, sale).0 == (
      var grown := SaturatingAdd(pool.ReserveOf(sale.tokenIn), if accrual.PreFee? then amount else c);
      if sale.tokenIn == pool.token0 then pool.(reserve0 := grown, reserve1 := pool.reserve1 - out)
      else pool.(reserve1 := grown, reserve0 := pool.reserve0 - out))
  {
    SellEffect(accrual, pool, sale, tokenOut);
    assert tokenOut in {pool.token0, pool.token1};
  }

  /** A small amount sold on through a poor pool brings nothing. */
  lemma PoorPaysNothing(accrual: Accrual, market: Market, stock: Stock, pool: Pool)
    requires market.Apart() && stock.b <= 10_000 && (pool == Poor(market) || pool == Lift(Poor(market)))
    ensures pool.Trades(market.b, market.c) && Banked(accrual, market, stock, pool) == stock.c
  {
    var c := Buys(pool, Sale(market.b, stock.b));
    UniqueRemainder(1 * c, 1_000_000 + c, 0, c);
    SellEffect(accrual, pool, Sale(market.b, stock.b), market.c);
  }

  lemma AlmostAll(c: nat)
    requires 0 < c <= 10_000
    ensures 1_000_000_000 * c / (1_000_000_000 + c) == c - 1
  {
    var d := 1_000_000_000 + c;
    ProductBound(c, c, 10_000, 10_000);
    Distribute(c, 1_000_000_000, c);
    Distribute(d, c - 1, 1);
    UniqueRemainder(1_000_000_000 * c, d, c - 1, d - c * c);
  }

  /** A small amount sold on through the rich pool brings all but one of itself. */
  lemma RichPaysWell(accrual: Accrual, market: Market, stock: Stock, pool: Pool)
    requires market.Apart() && 0 < stock.b <= 10_000 && stock.c == 0 && (pool == Rich(market) || pool == Lift(Rich(market)))
    ensures pool.Trades(market.b, market.c) && Banked(accrual, market, stock, pool) == stock.b - 1
  {
    var sale := Sale(market.b, stock.b);
    UniqueRemainder(stock.b * PIPS_DENOMINATOR, PIPS_DENOMINATOR, stock.b, 0);
    assert Buys(pool, sale) == stock.b;
    AlmostAll(stock.b);
    PayoutIsQuotient(1_000_000_000, 1_000_000_000, stock.b, 1_000_000_000 * stock.b);
    SellEffect(accrual, pool, sale, market.c);
  }

  lemma TwoPartsBring(market: Market, weight: ScaledWeight, q: PoolRef, r: PoolRef, resolve: Resolver, entry: U256, accrual: Accrual,
                      once: Stock, twice: Stock)
    requires PoorBut(market, [q, r], resolve)
    requires once == AfterPart(accrual, market, Stock(resolve(market.p).value, entry, 0, 0), weight) && once.b <= 10_000
    requires twice == AfterPart(accrual, market, once, WEIGHT_SCALE) && 0 < twice.b <= 10_000
    ensures Replay(SellInParts(market, [weight, WEIGHT_SCALE], [q, r]), resolve, entry, accrual).Ok?
    ensures Replay(SellInParts(market, [weight, WEIGHT_SCALE], [q, r]), resolve, entry, accrual).value.output == twice.b - 1
  {
    var weights, exits := [weight, WEIGHT_SCALE], [q, r];
    SellInPartsPays(market, weights, exits, resolve, entry, accrual);
    assert weights[1..] == [WEIGHT_SCALE] && weights[1..][1..] == [] && exits[1..] == [r];
    assert exits[0] in exits && exits[1] in exits;
    var book := ExitBook(exits, resolve);
    PoorPaysNothing(accrual, market, once, book[q]);
    RichPaysWell(accrual, market, twice, book[r]);
    assert AfterStage(accrual, market, once, WEIGHT_SCALE, book[q]) == twice;
    assert Proceeds(accrual, market, book, twice, [], [r]) == twice.b - 1;
  }

  /** What a part leaves, in numbers. */
  lemma PartSold(accrual: Accrual, market: Market, stock: Stock, weight: ScaledWeight, amount: U256, c: U256, out: U256, kept: U256,
                 x: U256, y: U256)
    requires stock.pool.Trades(market.a, market.b) && stock.pool.token0 == market.a
    requires stock.pool.reserve0 == x && stock.pool.reserve1 == y
    requires WeightedAmount(stock.a, weight) == amount && WeightedAmount(stock.a, WEIGHT_SCALE - weight) == kept
    requires Capped(amount, stock.pool.feePips, stock.pool.swapLimit0) == c && Payout(x, y, c) == out
    requires x + amount <= U256_MAX
    ensures AfterPart(accrual, market, stock, weight)
            == Stock(stock.pool.(reserve0 := x + if accrual.PreFee? then amount else c, reserve1 := y - out), kept, out, 0)
  {
    assert market.b in {stock.pool.token0, stock.pool.token1};
    Sold(accrual, stock.pool, Sale(market.a, amount), market.b, amount, c, out);
  }

  /** Nine tenths of 1000 sold and then the rest, clamped to 100 each. */
  lemma ClampedParts(market: Market, pool: Pool) returns (once: Stock, twice: Stock)
    requires market.Apart() && pool == Pool(market.a, market.b, 1000, 1000, 0, 100, 100)
    ensures once.pool.Trades(market.a, market.b) && once.b == 90 && twice.b == 45
    ensures once == AfterPart(PreFee, market, Stock(pool, 1000, 0, 0), 900_000_000)
    ensures twice == AfterPart(PreFee, market, once, WEIGHT_SCALE)
  {
    assert WeightedAmount(1000, 900_000_000) == 900 && WeightedAmount(1000, 100_000_000) == 100;
    assert WeightedAmount(100, WEIGHT_SCALE) == 100 && WeightedAmount(100, 0) == 0;
    assert Capped(900, 0, 100) == 100 && Capped(100, 0, 100) == 100;
    assert Payout(1000, 1000, 100) == 90 && Payout(1900, 910, 100) == 45;
    once := AfterPart(PreFee, market, Stock(pool, 1000, 0, 0), 900_000_000);
    PartSold(PreFee, market, Stock(pool, 1000, 0, 0), 900_000_000, 900, 100, 90, 100, 1000, 1000);
    PartSold(PreFee, market, once, WEIGHT_SCALE, 100, 100, 45, 0, 1900, 910);
    twice := AfterPart(PreFee, market, once, WEIGHT_SCALE);
  }

  /** The same with no boundary. */
  lemma FreeParts(market: Market, pool: Pool) returns (once: Stock, twice: Stock)
    requires market.Apart() && pool == Pool(market.a, market.b, 1000, 1000, 0, U256_MAX, U256_MAX)
    ensures once.pool.Trades(market.a, market.b) && once.b == 473 && twice.b == 26
    ensures once == AfterPart(PreFee, market, Stock(pool, 1000, 0, 0), 900_000_000)
    ensures twice == AfterPart(PreFee, market, once, WEIGHT_SCALE)
  {
    assert WeightedAmount(1000, 900_000_000) == 900 && WeightedAmount(1000, 100_000_000) == 100;
    assert WeightedAmount(100, WEIGHT_SCALE) == 100 && WeightedAmount(100, 0) == 0;
    assert Capped(900, 0, U256_MAX) == 900 && Capped(100, 0, U256_MAX) == 100;
    assert Payout(1000, 1000, 900) == 473 && Payout(1900, 527, 100) == 26;
    once := AfterPart(PreFee, market, Stock(pool, 1000, 0, 0), 900_000_000);
    PartSold(PreFee, market, Stock(pool, 1000, 0, 0), 900_000_000, 900, 900, 473, 100, 1000, 1000);
    PartSold(PreFee, market, once, WEIGHT_SCALE, 100, 100, 26, 0, 1900, 527);
    twice := AfterPart(PreFee, market, once, WEIGHT_SCALE);
  }

  lemma ClampedPlanPays(market: Market, q: PoolRef, r: PoolRef)
    requires market.Apart() && market.p != q && q != r && market.p != r
    ensures
      var resolve := Resolves(market, Pool(market.a, market.b, 1000, 1000, 0, 100, 100), r);
      var plan := SellInParts(market, [900_000_000, WEIGHT_SCALE], [q, r]);
      Replay(plan, resolve, 1000).Ok? && Replay(plan, resolve, 1000).value.output == 44
  {
    var pool := Pool(market.a, market.b, 1000, 1000, 0, 100, 100);
    ResolvesPoorBut(market, pool, [q, r]);
    var once, twice := ClampedParts(market, pool);
    TwoPartsBring(market, 900_000_000, q, r, Resolves(market, pool, r), 1000, PreFee, once, twice);
  }

  lemma FreePlanPays(market: Market, q: PoolRef, r: PoolRef)
    requires market.Apart() && market.p != q && q != r && market.p != r
    ensures
      var resolve := Lifted(Resolves(market, Pool(market.a, market.b, 1000, 1000, 0, 100, 100), r));
      var plan := SellInParts(market, [900_000_000, WEIGHT_SCALE], [q, r]);
      Replay(plan, resolve, 1000).Ok? && Replay(plan, resolve, 1000).value.output == 25
  {
    var pool := Pool(market.a, market.b, 1000, 1000, 0, 100, 100);
    ResolvesPoorBut(market, pool, [q, r]);
    var once, twice := FreeParts(market, Lift(pool));
    TwoPartsBring(market, 900_000_000, q, r, Lifted(Resolves(market, pool, r)), 1000, PreFee, once, twice);
  }

  /** Each clamped hop understates, but a flagged plan that reuses a pool across stages need not: clamping
      an early part leaves more for a later one. Here, with everything spent, the first part's proceeds
      meet a poor pool, and the plan outputs 44 where pools without a boundary would give 25. */
  lemma FlaggedOutputIsNoLowerBound(market: Market, q: PoolRef, r: PoolRef)
    requires market.Apart() && market.p != q && q != r && market.p != r
    ensures
      var resolve := Resolves(market, Pool(market.a, market.b, 1000, 1000, 0, 100, 100), r);
      var plan := SellInParts(market, [900_000_000, WEIGHT_SCALE], [q, r]);
      && WellFormed(plan, resolve)
      && Replay(plan, resolve, 1000) == Ok(Outcome(44, true))
      && Replay(plan, Lifted(resolve), 1000).Ok? && Replay(plan, Lifted(resolve), 1000).value.output == 25
  {
    var resolve := Resolves(market, Pool(market.a, market.b, 1000, 1000, 0, 100, 100), r);
    ClampedPlanPays(market, q, r);
    FreePlanPays(market, q, r);
    ResolvesPoorBut(market, Pool(market.a, market.b, 1000, 1000, 0, 100, 100), [q, r]);
    var plan := SellInParts(market, [900_000_000, WEIGHT_SCALE], [q, r]);
    SellInPartsWellFormed(market, [900_000_000, WEIGHT_SCALE], [q, r], resolve);
    if !Replay(plan, resolve, 1000).value.hitTickLimit {
      UnflaggedReplayIsExact(plan, resolve, 1000);
    }
  }

  // ---- Three parts: the third may be paid more than after-fee accrual would ----

  lemma ThreeProceeds(market: Market, w1: ScaledWeight, exits: seq<PoolRef>, resolve: Resolver, accrual: Accrual,
                      once: Stock, twice: Stock, thrice: Stock)
    requires |exits| == 3 && PoorBut(market, exits, resolve)
    requires once.pool.Trades(market.a, market.b) && once.b <= 10_000 && once.c == 0
    requires twice == AfterPart(accrual, market, once, w1) && twice.b <= 10_000
    requires thrice == AfterPart(accrual, market, twice, WEIGHT_SCALE) && 0 < thrice.b <= 10_000
    ensures ExitsTrade(market, ExitBook(exits, resolve), exits)
    ensures Proceeds(accrual, market, ExitBook(exits, resolve), once, [w1, WEIGHT_SCALE], exits) == thrice.b - 1
  {
    assert exits[0] in exits && exits[1] in exits && exits[2] in exits;
    var book := ExitBook(exits, resolve);
    var later := exits[1..];
    assert later == [exits[1], exits[2]] && later[1..] == [exits[2]];
    assert [w1, WEIGHT_SCALE][1..] == [WEIGHT_SCALE] && [WEIGHT_SCALE][1..] == [];
    PoorPaysNothing(accrual, market, once, book[exits[0]]);
    PoorPaysNothing(accrual, market, twice, book[exits[1]]);
    RichPaysWell(accrual, market, thrice, book[exits[2]]);
    assert Proceeds(accrual, market, book, thrice, [], [exits[2]]) == thrice.b - 1;
    assert Proceeds(accrual, market, book, twice, [WEIGHT_SCALE], later) == thrice.b - 1;
  }

  lemma ThreePartsBring(market: Market, w0: ScaledWeight, w1: ScaledWeight, exits: seq<PoolRef>, resolve: Resolver, entry: U256,
                        accrual: Accrual, once: Stock, twice: Stock, thrice: Stock)
    requires |exits| == 3 && PoorBut(market, exits, resolve)
    requires once == AfterPart(accrual, market, Stock(resolve(market.p).value, entry, 0, 0), w0) && once.b <= 10_000
    requires twice == AfterPart(accrual, market, once, w1) && twice.b <= 10_000
    requires thrice == AfterPart(accrual, market, twice, WEIGHT_SCALE) && 0 < thrice.b <= 10_000
    ensures Replay(SellInParts(market, [w0, w1, WEIGHT_SCALE], exits), resolve, entry, accrual).Ok?
    ensures Replay(SellInParts(market, [w0, w1, WEIGHT_SCALE], exits), resolve, entry, accrual).value.output == thrice.b - 1
  {
    var weights := [w0, w1, WEIGHT_SCALE];
    SellInPartsPays(market, weights, exits, resolve, entry, accrual);
    assert weights[1..] == [w1, WEIGHT_SCALE];
    ThreeProceeds(market, w1, exits, resolve, accrual, once, twice, thrice);
  }

  /** Reuse in one direction, across stages, overstates too: of 1000 sold a tenth, then a fifth of the
      rest, then all that is left, at a 50% fee, with everything spent, the gate makes 506 where
      after-fee accrual makes 469. */
  lemma GateOverstatesOneWayReuse(market: Market, exits: seq<PoolRef>)
    requires market.Apart() && |exits| == 3 && AllDistinct(exits) && market.p !in exits
    ensures
      var resolve := Resolves(market, Pool(market.a, market.b, 10, 10_000, 500_000, 1_000_000, 1_000_000), exits[2]);
      var plan := SellInParts(market, [100_000_000, 200_000_000, WEIGHT_SCALE], exits);
      && Replay(plan, resolve, 1000).Ok? && Replay(plan, resolve, 1000, Net).Ok?
      && Replay(plan, resolve, 1000).value.output == 506 && Replay(plan, resolve, 1000, Net).value.output == 469
  {
    var pool := Pool(market.a, market.b, 10, 10_000, 500_000, 1_000_000, 1_000_000);
    var resolve := Resolves(market, pool, exits[2]);
    ResolvesPoorBut(market, pool, exits);
    ThreePartsSold(market, pool, PreFee);
    ThreePartsSold(market, pool, Net);
    ThreePartsBring(market, 100_000_000, 200_000_000, exits, resolve, 1000, PreFee, PartsDone(PreFee, market, pool, 1),
                    PartsDone(PreFee, market, pool, 2), PartsDone(PreFee, market, pool, 3));
    ThreePartsBring(market, 100_000_000, 200_000_000, exits, resolve, 1000, Net, PartsDone(Net, market, pool, 1),
                    PartsDone(Net, market, pool, 2), PartsDone(Net, market, pool, 3));
  }

  /** The stock after so many of those parts. */
  function PartsDone(accrual: Accrual, market: Market, pool: Pool, n: nat): (r: Stock)
    requires n <= 3 && pool.Trades(market.a, market.b)
    ensures r.pool.Trades(market.a, market.b)
  {
    if n == 0 then Stock(pool, 1000, 0, 0) else
      AfterPart(accrual, market, PartsDone(accrual, market, pool, n - 1), [100_000_000, 200_000_000, WEIGHT_SCALE][n - 1])
  }

  lemma FirstOfThree(market: Market, pool: Pool, accrual: Accrual)
    requires market.Apart() && pool == Pool(market.a, market.b, 10, 10_000, 500_000, 1_000_000, 1_000_000)
    ensures PartsDone(accrual, market, pool, 1)
            == Stock(pool.(reserve0 := if accrual.PreFee? then 110 else 60, reserve1 := 1667), 900, 8333, 0)
  {
    assert WeightedAmount(1000, 100_000_000) == 100 && WeightedAmount(1000, 900_000_000) == 900;
    assert Capped(100, 500_000, 1_000_000) == 50 && Payout(10, 10_000, 50) == 8333;
    PartSold(accrual, market, Stock(pool, 1000, 0, 0), 100_000_000, 100, 50, 8333, 900, 10, 10_000);
    assert PartsDone(accrual, market, pool, 0) == Stock(pool, 1000, 0, 0);
  }

  lemma SecondOfThree(market: Market, pool: Pool, accrual: Accrual)
    requires market.Apart() && pool == Pool(market.a, market.b, 10, 10_000, 500_000, 1_000_000, 1_000_000)
    ensures PartsDone(accrual, market, pool, 2)
            == if accrual.PreFee? then Stock(pool.(reserve0 := 290, reserve1 := 917), 720, 750, 0)
               else Stock(pool.(reserve0 := 150, reserve1 := 667), 720, 1000, 0)
  {
    FirstOfThree(market, pool, accrual);
    var once := PartsDone(accrual, market, pool, 1);
    assert WeightedAmount(900, 200_000_000) == 180 && WeightedAmount(900, 800_000_000) == 720;
    assert Capped(180, 500_000, 1_000_000) == 90 && Payout(110, 1667, 90) == 750 && Payout(60, 1667, 90) == 1000;
    if accrual.PreFee? {
      PartSold(accrual, market, once, 200_000_000, 180, 90, 750, 720, 110, 1667);
    } else {
      PartSold(accrual, market, once, 200_000_000, 180, 90, 1000, 720, 60, 1667);
    }
  }

  lemma ThreePartsSold(market: Market, pool: Pool, accrual: Accrual)
    requires market.Apart() && pool == Pool(market.a, market.b, 10, 10_000, 500_000, 1_000_000, 1_000_000)
    ensures PartsDone(accrual, market, pool, 1).b == 8333
    ensures PartsDone(accrual, market, pool, 2).b == if accrual.PreFee? then 750 else 1000
    ensures PartsDone(accrual, market, pool, 3).b == if accrual.PreFee? then 507 else 470
  {
    FirstOfThree(market, pool, accrual);
    SecondOfThree(market, pool, accrual);
    var twice := PartsDone(accrual, market, pool, 2);
    assert WeightedAmount(720, WEIGHT_SCALE) == 720 && WeightedAmount(720, 0) == 0;
    assert Capped(720, 500_000, 1_000_000) == 360 && Payout(290, 917, 360) == 507 && Payout(150, 667, 360) == 470;
    if accrual.PreFee? {
      PartSold(accrual, market, twice, WEIGHT_SCALE, 720, 360, 507, 0, 290, 917);
    } else {
      PartSold(accrual, market, twice, WEIGHT_SCALE, 720, 360, 470, 0, 150, 667);
    }
  }
}
