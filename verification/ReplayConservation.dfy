/** No replay conjures value: what a token totals over the wallet and every pool never grows. */
module ReplayConservation {
  import opened Domain
  import opened FloorMath
  import opened Word256
  import opened LosslessPools
  import opened ReplaySpec

  // ---- Sums of a token over a set of pools ----

  ghost function ReservesIn(book: Book, pools: set<PoolRef>, token: TokenAddress): nat
    requires pools <= book.Keys
    decreases |pools|
  {
    if pools == {} then 0 else
      var p :| p in pools;
      book[p].ReserveOf(token) + ReservesIn(book, pools - {p}, token)
  }

  ghost function Reserves(book: Book, token: TokenAddress): nat {
    ReservesIn(book, book.Keys, token)
  }

  /** The sum does not depend on which pool is taken out first. */
  lemma {:induction false} ReservesWithout(book: Book, pools: set<PoolRef>, q: PoolRef, token: TokenAddress)
    requires pools <= book.Keys && q in pools
    ensures ReservesIn(book, pools, token) == book[q].ReserveOf(token) + ReservesIn(book, pools - {q}, token)
    decreases |pools|
  {
    var p :| p in pools && ReservesIn(book, pools, token)
                           == book[p].ReserveOf(token) + ReservesIn(book, pools - {p}, token);
    if p != q {
      ReservesWithout(book, pools - {p}, q, token);
      ReservesWithout(book, pools - {q}, p, token);
      assert pools - {p} - {q} == pools - {q} - {p};
    }
  }

  lemma {:induction false} ReservesAgree(book: Book, other: Book, pools: set<PoolRef>, token: TokenAddress)
    requires pools <= book.Keys && pools <= other.Keys
    requires forall p <- pools :: book[p].ReserveOf(token) == other[p].ReserveOf(token)
    ensures ReservesIn(book, pools, token) == ReservesIn(other, pools, token)
    decreases |pools|
  {
    if pools != {} {
      var p :| p in pools;
      ReservesWithout(book, pools, p, token);
      ReservesWithout(other, pools, p, token);
      ReservesAgree(book, other, pools - {p}, token);
    }
  }

  /** Moving one pool moves the sum by exactly what that pool moved. */
  lemma ReservesMoved(book: Book, p: PoolRef, after: Pool, token: TokenAddress)
    requires p in book
    ensures Reserves(book[p := after], token)
            == Reserves(book, token) - book[p].ReserveOf(token) + after.ReserveOf(token)
  {
    var moved := book[p := after];
    assert moved.Keys == book.Keys;
    ReservesWithout(book, book.Keys, p, token);
    ReservesWithout(moved, book.Keys, p, token);
    ReservesAgree(book, moved, book.Keys - {p}, token);
  }

  // ---- Conservation ----

  ghost function Total(fold: Fold, token: TokenAddress): nat {
    Balance(fold.next, token) + Reserves(fold.book, token)
  }

  /** Every swap of the plan finds its pool in the book, trading the step's two tokens. */
  ghost predicate Covers(book: Book, steps: seq<Step>) {
    forall step <- steps :: step.kind.Swap? ==>
      step.kind.pool in book && book[step.kind.pool].Trades(step.tokenIn, step.tokenOut)
  }

  function Spend(wallet: Wallet, step: Step, token: TokenAddress): nat {
    if step.tokenIn == token then WeightedAmount(Balance(wallet, token), step.weight) else 0
  }

  /** What the rest of a stage will take out of the wallet in one token. */
  function SpendAll(wallet: Wallet, steps: seq<Step>, stage: nat, token: TokenAddress): nat {
    if steps == [] then 0 else
      (if steps[0].stage == stage then Spend(wallet, steps[0], token) else 0)
      + SpendAll(wallet, steps[1..], stage, token)
  }

  lemma FloorsAddUp(balance: nat, weight: nat, spent: nat, spentWeight: nat)
    requires spent * WEIGHT_SCALE <= balance * spentWeight
    ensures (balance * weight / WEIGHT_SCALE + spent) * WEIGHT_SCALE <= balance * (weight + spentWeight)
  {
    FloorDivision(balance * weight, WEIGHT_SCALE);
    assert balance * (weight + spentWeight) == balance * weight + balance * spentWeight;
  }

  lemma {:induction false} SpendAllScaled(wallet: Wallet, steps: seq<Step>, stage: nat, token: TokenAddress)
    ensures SpendAll(wallet, steps, stage, token) * WEIGHT_SCALE
            <= Balance(wallet, token) * SpentWeight(steps, stage, token)
  {
    if steps != [] {
      SpendAllScaled(wallet, steps[1..], stage, token);
      FloorsAddUp(Balance(wallet, token), steps[0].weight,
                  SpendAll(wallet, steps[1..], stage, token), SpentWeight(steps[1..], stage, token));
    }
  }

  /** A stage that is not overspent takes at most the whole balance of each token. */
  lemma SpendAllBound(wallet: Wallet, steps: seq<Step>, stage: nat, token: TokenAddress)
    requires SpentWeight(steps, stage, token) <= WEIGHT_SCALE
    ensures SpendAll(wallet, steps, stage, token) <= Balance(wallet, token)
  {
    SpendAllScaled(wallet, steps, stage, token);
    ProductBound(Balance(wallet, token), SpentWeight(steps, stage, token), Balance(wallet, token), WEIGHT_SCALE);
  }

  lemma StepCovers(fold: Fold, wallet: Wallet, step: Step, steps: seq<Step>)
    requires Covers(fold.book, steps) && step in steps
    ensures RunStep(fold, wallet, step).Ok?
    ensures var after := RunStep(fold, wallet, step).value.book;
            after.Keys == fold.book.Keys && Covers(after, steps)
  {
    var amountIn := WeightedAmount(Balance(wallet, step.tokenIn), step.weight);
    if amountIn > 0 && step.kind.Swap? {
      SwapEffect(fold.book[step.kind.pool], step.tokenIn, step.tokenOut, amountIn);
    }
  }

  lemma OtherTokensAbsent(pool: Pool, tokenIn: TokenAddress, tokenOut: TokenAddress, token: TokenAddress)
    requires pool.Trades(tokenIn, tokenOut)
    ensures token != tokenIn && token != tokenOut ==> pool.ReserveOf(token) == 0
  {
    if token != tokenIn && token != tokenOut {
      assert token !in {pool.token0, pool.token1};
    }
  }

  /** One step moves at most its own spend of a token out of the wallet into pools and wallet. */
  lemma StepConserves(fold: Fold, wallet: Wallet, step: Step, token: TokenAddress)
    requires Covers(fold.book, [step]) && !step.kind.Bridge?
    ensures RunStep(fold, wallet, step).Ok?
    ensures Total(RunStep(fold, wallet, step).value, token) <= Total(fold, token) + Spend(wallet, step, token)
  {
    var amountIn := WeightedAmount(Balance(wallet, step.tokenIn), step.weight);
    if amountIn > 0 && step.kind.Swap? {
      assert step in [step];
      var p := step.kind.pool;
      var pool := fold.book[p];
      SwapEffect(pool, step.tokenIn, step.tokenOut, amountIn);
      var after := SwapOf(pool, step.tokenIn, amountIn).value.0;
      ReservesMoved(fold.book, p, after, token);
      OtherTokensAbsent(pool, step.tokenIn, step.tokenOut, token);
      OtherTokensAbsent(after, step.tokenIn, step.tokenOut, token);
    }
  }

  // ---- Sums over a set of tokens ----

  ghost function SumOver(tokens: set<TokenAddress>, f: TokenAddress -> nat): nat
    decreases |tokens|
  {
    if tokens == {} then 0 else
      var t :| t in tokens;
      f(t) + SumOver(tokens - {t}, f)
  }

  lemma {:induction false} SumWithout(tokens: set<TokenAddress>, f: TokenAddress -> nat, u: TokenAddress)
    requires u in tokens
    ensures SumOver(tokens, f) == f(u) + SumOver(tokens - {u}, f)
    decreases |tokens|
  {
    var t :| t in tokens && SumOver(tokens, f) == f(t) + SumOver(tokens - {t}, f);
    if t != u {
      SumWithout(tokens - {t}, f, u);
      SumWithout(tokens - {u}, f, t);
      assert tokens - {t} - {u} == tokens - {u} - {t};
    }
  }

  lemma SumOfOne(t: TokenAddress, f: TokenAddress -> nat)
    ensures SumOver({t}, f) == f(t)
  {
    SumWithout({t}, f, t);
    assert {t} - {t} == {};
  }

  lemma {:induction false} SumBound(tokens: set<TokenAddress>, f: TokenAddress -> nat, g: TokenAddress -> nat, h: TokenAddress -> nat)
    requires forall t <- tokens :: f(t) <= g(t) + h(t)
    ensures SumOver(tokens, f) <= SumOver(tokens, g) + SumOver(tokens, h)
    decreases |tokens|
  {
    if tokens != {} {
      var t :| t in tokens;
      SumWithout(tokens, f, t);
      SumWithout(tokens, g, t);
      SumWithout(tokens, h, t);
      SumBound(tokens - {t}, f, g, h);
    }
  }

  /** A quantity carried by one token only. */
  lemma {:induction false} SumOfSingle(tokens: set<TokenAddress>, u: TokenAddress, amount: nat, f: TokenAddress -> nat)
    requires forall t :: f(t) == if t == u then amount else 0
    ensures SumOver(tokens, f) == if u in tokens then amount else 0
    decreases |tokens|
  {
    if tokens != {} {
      var t :| t in tokens;
      SumWithout(tokens, f, t);
      SumOfSingle(tokens - {t}, u, amount, f);
    }
  }

  // ---- A whole run ----

  ghost predicate Within(steps: seq<Step>, all: seq<Step>) {
    forall step <- steps :: step in all
  }

  /** No bridge leads into the set from outside it. */
  ghost predicate ClosedToBridges(steps: seq<Step>, tokens: set<TokenAddress>) {
    forall step <- steps :: step.kind.Bridge? && step.tokenOut in tokens ==> step.tokenIn in tokens
  }

  ghost function TotalOver(fold: Fold, tokens: set<TokenAddress>): nat {
    SumOver(tokens, t => Total(fold, t))
  }

  ghost function SpendOver(wallet: Wallet, steps: seq<Step>, stage: nat, tokens: set<TokenAddress>): nat {
    SumOver(tokens, t => SpendAll(wallet, steps, stage, t))
  }

  lemma StepConservesOver(fold: Fold, wallet: Wallet, step: Step, tokens: set<TokenAddress>)
    requires Covers(fold.book, [step]) && ClosedToBridges([step], tokens)
    ensures RunStep(fold, wallet, step).Ok?
    ensures TotalOver(RunStep(fold, wallet, step).value, tokens)
            <= TotalOver(fold, tokens) + SumOver(tokens, t => Spend(wallet, step, t))
  {
    assert step in [step];
    if step.kind.Bridge? {
      var after := RunStep(fold, wallet, step).value;
      var amountIn := WeightedAmount(Balance(wallet, step.tokenIn), step.weight);
      var arrives := (t: TokenAddress) => if t == step.tokenOut then amountIn else 0;
      SumBound(tokens, t => Total(after, t), t => Total(fold, t), arrives);
      SumOfSingle(tokens, step.tokenOut, amountIn, arrives);
      SumOfSingle(tokens, step.tokenIn, amountIn, t => Spend(wallet, step, t));
    } else {
      StepCovers(fold, wallet, step, [step]);
      var after := RunStep(fold, wallet, step).value;
      forall t ensures Total(after, t) <= Total(fold, t) + Spend(wallet, step, t) {
        StepConserves(fold, wallet, step, t);
      }
      SumBound(tokens, t => Total(after, t), t => Total(fold, t), t => Spend(wallet, step, t));
    }
  }

  /** A step of another stage spends nothing of this one's. */
  lemma SpendSkips(wallet: Wallet, steps: seq<Step>, stage: nat, tokens: set<TokenAddress>)
    requires steps != [] && steps[0].stage != stage
    ensures SpendOver(wallet, steps[1..], stage, tokens) <= SpendOver(wallet, steps, stage, tokens)
  {
    SumBound(tokens, t => SpendAll(wallet, steps[1..], stage, t), t => SpendAll(wallet, steps, stage, t), t => 0);
    SumOfSingle(tokens, steps[0].tokenIn, 0, t => 0);
  }

  lemma {:induction false} StageConserves(
      fold: Fold, wallet: Wallet, steps: seq<Step>, stage: nat, all: seq<Step>, tokens: set<TokenAddress>)
    requires Covers(fold.book, all) && Within(steps, all) && ClosedToBridges(all, tokens)
    ensures RunStage(fold, wallet, steps, stage).Ok?
    ensures
      var after := RunStage(fold, wallet, steps, stage).value;
      && after.book.Keys == fold.book.Keys && Covers(after.book, all)
      && TotalOver(after, tokens) <= TotalOver(fold, tokens) + SpendOver(wallet, steps, stage, tokens)
    decreases |steps|
  {
    if steps == [] {
    } else if steps[0].stage != stage {
      SpendSkips(wallet, steps, stage, tokens);
      StageConserves(fold, wallet, steps[1..], stage, all, tokens);
    } else {
      StepCovers(fold, wallet, steps[0], all);
      StepConservesOver(fold, wallet, steps[0], tokens);
      StageConserves(RunStep(fold, wallet, steps[0]).value, wallet, steps[1..], stage, all, tokens);
      SpendSplits(wallet, steps, stage, tokens);
    }
  }

  lemma {:induction false} SumAdds(tokens: set<TokenAddress>, f: TokenAddress -> nat, g: TokenAddress -> nat, h: TokenAddress -> nat)
    requires forall t <- tokens :: f(t) == g(t) + h(t)
    ensures SumOver(tokens, f) == SumOver(tokens, g) + SumOver(tokens, h)
    decreases |tokens|
  {
    if tokens != {} {
      var t :| t in tokens;
      SumWithout(tokens, f, t);
      SumWithout(tokens, g, t);
      SumWithout(tokens, h, t);
      SumAdds(tokens - {t}, f, g, h);
    }
  }

  lemma SpendSplits(wallet: Wallet, steps: seq<Step>, stage: nat, tokens: set<TokenAddress>)
    requires steps != [] && steps[0].stage == stage
    ensures SpendOver(wallet, steps, stage, tokens)
            == SumOver(tokens, t => Spend(wallet, steps[0], t)) + SpendOver(wallet, steps[1..], stage, tokens)
  {
    SumAdds(tokens, t => SpendAll(wallet, steps, stage, t),
            t => Spend(wallet, steps[0], t), t => SpendAll(wallet, steps[1..], stage, t));
  }

  /** What a stage starts with, nothing credited and all to spend, is no more than it was handed. */
  lemma StageOpens(fold: Fold, steps: seq<Step>, stage: nat, tokens: set<TokenAddress>)
    requires forall t :: SpentWeight(steps, stage, t) <= WEIGHT_SCALE
    ensures TotalOver(fold.(next := map[]), tokens) + SpendOver(fold.next, steps, stage, tokens) <= TotalOver(fold, tokens)
  {
    var start := fold.(next := map[]);
    var both := (t: TokenAddress) => Total(start, t) + SpendAll(fold.next, steps, stage, t);
    forall t ensures both(t) <= Total(fold, t) {
      assert SpentWeight(steps, stage, t) <= WEIGHT_SCALE;
      SpendAllBound(fold.next, steps, stage, t);
    }
    SumAdds(tokens, both, t => Total(start, t), t => SpendAll(fold.next, steps, stage, t));
    SumBound(tokens, both, t => Total(fold, t), t => 0);
    SumOfSingle(tokens, TokenAddress(Address(0), Ethereum), 0, t => 0);
  }

  lemma {:induction false} StagesConserve(
      fold: Fold, steps: seq<Step>, stage: nat, stop: nat, tokens: set<TokenAddress>)
    requires stage <= stop
    requires Covers(fold.book, steps) && ClosedToBridges(steps, tokens)
    requires forall s: nat, t :: SpentWeight(steps, s, t) <= WEIGHT_SCALE
    ensures RunStages(fold, steps, stage, stop).Ok?
    ensures TotalOver(RunStages(fold, steps, stage, stop).value, tokens) <= TotalOver(fold, tokens)
    decreases stop - stage
  {
    if stage < stop {
      var start := fold.(next := map[]);
      StageOpens(fold, steps, stage, tokens);
      StageConserves(start, fold.next, steps, stage, steps, tokens);
      StagesConserve(RunStage(start, fold.next, steps, stage).value, steps, stage + 1, stop, tokens);
    }
  }

  lemma {:induction false} BookCovers(steps: seq<Step>, resolve: Resolver, book: Book)
    requires forall step <- steps :: WellFormedStep(step, resolve)
    requires forall p <- book :: resolve(p) == Some(book[p])
    ensures
      var built := BuildBook(steps, resolve, book);
      && built.Ok? && book.Keys <= built.value.Keys
      && (forall p <- built.value :: resolve(p) == Some(built.value[p]))
      && (forall p <- built.value :: p in book || exists step <- steps :: step.kind == Swap(p))
      && Covers(built.value, steps)
    decreases |steps|
  {
    if steps != [] {
      var step := steps[0];
      assert WellFormedStep(step, resolve);
      if !step.kind.Swap? || step.kind.pool in book {
        BookCovers(steps[1..], resolve, book);
      } else {
        BookCovers(steps[1..], resolve, book[step.kind.pool := resolve(step.kind.pool).value]);
      }
    }
  }

  /** The pools a replay opens are exactly those its swaps name, each as the resolver gave it. */
  lemma OpeningBook(plan: Plan, resolve: Resolver, entry: U256)
    requires WellFormed(plan, resolve)
    ensures Opening(plan, resolve, entry).Ok?
    ensures
      var book := Opening(plan, resolve, entry).value.book;
      && Covers(book, plan.steps)
      && (forall p <- book :: resolve(p) == Some(book[p]) && exists step <- plan.steps :: step.kind == Swap(p))
  {
    BookCovers(plan.steps, resolve, map[]);
  }

  /** Over any plan that overspends no token, whatever its pools, fees, limits, carries, bridges and
      directions: what a set of tokens totals over the wallet and all reserves never grows, as long as
      no bridge leads into the set from outside. */
  lemma TotalsNeverGrow(plan: Plan, resolve: Resolver, entry: U256, tokens: set<TokenAddress>)
    requires WellFormed(plan, resolve) && NotOverspent(plan) && ClosedToBridges(plan.steps, tokens)
    ensures Opening(plan, resolve, entry).Ok? && Closing(plan, resolve, entry).Ok?
    ensures TotalOver(Closing(plan, resolve, entry).value, tokens) <= TotalOver(Opening(plan, resolve, entry).value, tokens)
  {
    OpeningBook(plan, resolve, entry);
    StagesConserve(Opening(plan, resolve, entry).value, plan.steps, 0, StageCount(plan.steps), tokens);
  }

  /** Without bridges, so does each token's own total. */
  lemma TokenTotalNeverGrows(plan: Plan, resolve: Resolver, entry: U256, token: TokenAddress)
    requires WellFormed(plan, resolve) && BridgeFree(plan) && NotOverspent(plan)
    ensures Opening(plan, resolve, entry).Ok? && Closing(plan, resolve, entry).Ok?
    ensures Total(Closing(plan, resolve, entry).value, token) <= Total(Opening(plan, resolve, entry).value, token)
  {
    TotalsNeverGrow(plan, resolve, entry, {token});
    SumOfOne(token, t => Total(Opening(plan, resolve, entry).value, t));
    SumOfOne(token, t => Total(Closing(plan, resolve, entry).value, t));
  }

  // ---- Saturation never happens when the opening totals fit a word ----

  /** Neither addition of this step saturates. */
  ghost predicate StepFits(fold: Fold, wallet: Wallet, step: Step) {
    var amountIn := WeightedAmount(Balance(wallet, step.tokenIn), step.weight);
    amountIn > 0 ==>
      if step.kind.Swap? then
        step.kind.pool in fold.book && SwapOf(fold.book[step.kind.pool], step.tokenIn, amountIn).Ok? ==>
          var pool := fold.book[step.kind.pool];
          var out := SwapOf(pool, step.tokenIn, amountIn).value.1.out;
          && pool.ReserveOf(step.tokenIn) + amountIn <= U256_MAX
          && Balance(fold.next, step.tokenOut) + out <= U256_MAX
      else
        step.kind.Bridge? || step.tokenIn == step.tokenOut ==>
          Balance(fold.next, step.tokenOut) + amountIn <= U256_MAX
  }

  ghost predicate StageFits(fold: Fold, wallet: Wallet, steps: seq<Step>, stage: nat)
    decreases |steps|
  {
    steps != [] ==>
      if steps[0].stage != stage then StageFits(fold, wallet, steps[1..], stage)
      else
        && StepFits(fold, wallet, steps[0])
        && (RunStep(fold, wallet, steps[0]).Ok? ==>
              StageFits(RunStep(fold, wallet, steps[0]).value, wallet, steps[1..], stage))
  }

  ghost predicate StagesFit(fold: Fold, steps: seq<Step>, stage: nat, stop: nat)
    requires stage <= stop
    decreases stop - stage
  {
    stage < stop ==>
      var start := fold.(next := map[]);
      && StageFits(start, fold.next, steps, stage)
      && (RunStage(start, fold.next, steps, stage).Ok? ==>
            StagesFit(RunStage(start, fold.next, steps, stage).value, steps, stage + 1, stop))
  }

  ghost predicate PoolsKeepProduct(before: Book, after: Book) {
    forall p <- before :: p in after &&
      before[p].reserve0 * before[p].reserve1 <= after[p].reserve0 * after[p].reserve1
  }

  lemma PartOfSum(tokens: set<TokenAddress>, f: TokenAddress -> nat, t: TokenAddress)
    requires t in tokens
    ensures f(t) <= SumOver(tokens, f)
  {
    SumWithout(tokens, f, t);
  }

  /** For each token, a set it belongs to that no bridge leads into from outside. */
  type Grouping = TokenAddress -> set<TokenAddress>

  ghost predicate Groups(group: Grouping, steps: seq<Step>) {
    forall t :: t in group(t) && ClosedToBridges(steps, group(t))
  }

  /** What the groups total, with what is still to be spent of them, fits a word. */
  ghost predicate RoomFor(group: Grouping, fold: Fold, wallet: Wallet, steps: seq<Step>, stage: nat) {
    forall t :: TotalOver(fold, group(t)) + SpendOver(wallet, steps, stage, group(t)) <= U256_MAX
  }

  lemma RoomForOne(group: Grouping, fold: Fold, wallet: Wallet, steps: seq<Step>, stage: nat, all: seq<Step>, t: TokenAddress, u: TokenAddress)
    requires Groups(group, all) && RoomFor(group, fold, wallet, steps, stage)
    requires steps != [] && steps[0].stage == stage && u in group(t)
    ensures Total(fold, t) + Spend(wallet, steps[0], u) <= U256_MAX
  {
    var tokens := group(t);
    assert t in tokens && TotalOver(fold, tokens) + SpendOver(wallet, steps, stage, tokens) <= U256_MAX;
    SpendSplits(wallet, steps, stage, tokens);
    PartOfSum(tokens, v => Total(fold, v), t);
    PartOfSum(tokens, v => Spend(wallet, steps[0], v), u);
  }

  lemma StepFitsItsTotals(group: Grouping, fold: Fold, wallet: Wallet, steps: seq<Step>, stage: nat, all: seq<Step>)
    requires Covers(fold.book, all) && steps != [] && steps[0] in all && steps[0].stage == stage
    requires Groups(group, all) && RoomFor(group, fold, wallet, steps, stage)
    ensures StepFits(fold, wallet, steps[0])
  {
    var step := steps[0];
    var amountIn := WeightedAmount(Balance(wallet, step.tokenIn), step.weight);
    RoomForOne(group, fold, wallet, steps, stage, all, step.tokenIn, step.tokenIn);
    RoomForOne(group, fold, wallet, steps, stage, all, step.tokenOut, step.tokenOut);
    if step.kind.Bridge? {
      assert ClosedToBridges(all, group(step.tokenOut));
      RoomForOne(group, fold, wallet, steps, stage, all, step.tokenOut, step.tokenIn);
    }
    if amountIn > 0 && step.kind.Swap? {
      var p := step.kind.pool;
      SwapEffect(fold.book[p], step.tokenIn, step.tokenOut, amountIn);
      ReservesWithout(fold.book, fold.book.Keys, p, step.tokenIn);
      ReservesWithout(fold.book, fold.book.Keys, p, step.tokenOut);
    }
  }

  lemma StepKeepsProducts(fold: Fold, wallet: Wallet, step: Step)
    requires Covers(fold.book, [step]) && StepFits(fold, wallet, step)
    ensures RunStep(fold, wallet, step).Ok?
    ensures PoolsKeepProduct(fold.book, RunStep(fold, wallet, step).value.book)
  {
    var amountIn := WeightedAmount(Balance(wallet, step.tokenIn), step.weight);
    if amountIn > 0 && step.kind.Swap? {
      assert step in [step];
      var pool := fold.book[step.kind.pool];
      SwapEffect(pool, step.tokenIn, step.tokenOut, amountIn);
      ReserveProductNeverFalls(pool, step.tokenIn, step.tokenOut, amountIn);
    }
  }

  lemma RoomAfterStep(group: Grouping, fold: Fold, wallet: Wallet, steps: seq<Step>, stage: nat, all: seq<Step>)
    requires Covers(fold.book, all) && steps != [] && steps[0] in all && steps[0].stage == stage
    requires Groups(group, all) && RoomFor(group, fold, wallet, steps, stage)
    ensures RunStep(fold, wallet, steps[0]).Ok?
    ensures RoomFor(group, RunStep(fold, wallet, steps[0]).value, wallet, steps[1..], stage)
  {
    StepCovers(fold, wallet, steps[0], all);
    var after := RunStep(fold, wallet, steps[0]).value;
    forall t ensures TotalOver(after, group(t)) + SpendOver(wallet, steps[1..], stage, group(t)) <= U256_MAX {
      assert ClosedToBridges(all, group(t));
      assert TotalOver(fold, group(t)) + SpendOver(wallet, steps, stage, group(t)) <= U256_MAX;
      StepConservesOver(fold, wallet, steps[0], group(t));
      SpendSplits(wallet, steps, stage, group(t));
    }
  }

  lemma {:induction false} StageFitsItsTotals(
      group: Grouping, fold: Fold, wallet: Wallet, steps: seq<Step>, stage: nat, all: seq<Step>)
    requires Covers(fold.book, all) && Within(steps, all)
    requires Groups(group, all) && RoomFor(group, fold, wallet, steps, stage)
    ensures StageFits(fold, wallet, steps, stage)
    ensures RunStage(fold, wallet, steps, stage).Ok?
    ensures PoolsKeepProduct(fold.book, RunStage(fold, wallet, steps, stage).value.book)
    decreases |steps|
  {
    if steps == [] {
    } else if steps[0].stage != stage {
      forall t ensures TotalOver(fold, group(t)) + SpendOver(wallet, steps[1..], stage, group(t)) <= U256_MAX {
        SpendSkips(wallet, steps, stage, group(t));
      }
      StageFitsItsTotals(group, fold, wallet, steps[1..], stage, all);
    } else {
      assert steps[0] in steps;
      StepCovers(fold, wallet, steps[0], all);
      StepFitsItsTotals(group, fold, wallet, steps, stage, all);
      RoomAfterStep(group, fold, wallet, steps, stage, all);
      StepKeepsProducts(fold, wallet, steps[0]);
      StageFitsItsTotals(group, RunStep(fold, wallet, steps[0]).value, wallet, steps[1..], stage, all);
    }
  }

  lemma {:induction false} StagesFitTheirTotals(group: Grouping, fold: Fold, steps: seq<Step>, stage: nat, stop: nat)
    requires stage <= stop
    requires Covers(fold.book, steps) && Groups(group, steps)
    requires forall s: nat, t :: SpentWeight(steps, s, t) <= WEIGHT_SCALE
    requires forall t :: TotalOver(fold, group(t)) <= U256_MAX
    ensures StagesFit(fold, steps, stage, stop)
    ensures RunStages(fold, steps, stage, stop).Ok?
    ensures PoolsKeepProduct(fold.book, RunStages(fold, steps, stage, stop).value.book)
    decreases stop - stage
  {
    if stage < stop {
      var start := fold.(next := map[]);
      forall t ensures TotalOver(start, group(t)) + SpendOver(fold.next, steps, stage, group(t)) <= U256_MAX {
        StageOpens(fold, steps, stage, group(t));
      }
      StageFitsItsTotals(group, start, fold.next, steps, stage, steps);
      var after := RunStage(start, fold.next, steps, stage).value;
      forall t ensures TotalOver(after, group(t)) <= U256_MAX && Covers(after.book, steps) {
        assert ClosedToBridges(steps, group(t));
        StageConserves(start, fold.next, steps, stage, steps, group(t));
      }
      StageConserves(start, fold.next, steps, stage, steps, {});
      StagesFitTheirTotals(group, after, steps, stage + 1, stop);
    }
  }

  /** When each token lies in a set no bridge leads into from outside, whose opening total fits a word, no
      addition anywhere in the run saturates, and every pool ends with at least the reserve product it
      opened with. Without bridges the sets can be the single tokens. */
  lemma NothingSaturates(plan: Plan, resolve: Resolver, entry: U256, group: Grouping)
    requires WellFormed(plan, resolve) && NotOverspent(plan) && Groups(group, plan.steps)
    requires Opening(plan, resolve, entry).Ok?
    requires forall t :: TotalOver(Opening(plan, resolve, entry).value, group(t)) <= U256_MAX
    ensures StagesFit(Opening(plan, resolve, entry).value, plan.steps, 0, StageCount(plan.steps))
    ensures Closing(plan, resolve, entry).Ok?
    ensures PoolsKeepProduct(Opening(plan, resolve, entry).value.book, Closing(plan, resolve, entry).value.book)
  {
    OpeningBook(plan, resolve, entry);
    StagesFitTheirTotals(group, Opening(plan, resolve, entry).value, plan.steps, 0, StageCount(plan.steps));
  }

  lemma NothingSaturatesWithoutBridges(plan: Plan, resolve: Resolver, entry: U256)
    requires WellFormed(plan, resolve) && BridgeFree(plan) && NotOverspent(plan)
    requires Opening(plan, resolve, entry).Ok?
    requires forall t :: Total(Opening(plan, resolve, entry).value, t) <= U256_MAX
    ensures StagesFit(Opening(plan, resolve, entry).value, plan.steps, 0, StageCount(plan.steps))
    ensures Closing(plan, resolve, entry).Ok?
    ensures PoolsKeepProduct(Opening(plan, resolve, entry).value.book, Closing(plan, resolve, entry).value.book)
  {
    var group: Grouping := t => {t};
    forall t ensures TotalOver(Opening(plan, resolve, entry).value, group(t)) <= U256_MAX {
      SumOfOne(t, u => Total(Opening(plan, resolve, entry).value, u));
    }
    NothingSaturates(plan, resolve, entry, group);
  }

  // ---- Exactly what is conserved ----

  /** A carry keeps its token, as a well-formed plan's do. */
  predicate CarriesOwnToken(steps: seq<Step>) {
    forall step <- steps :: step.kind.Carry? ==> step.tokenIn == step.tokenOut
  }

  /** No bridge leads into the set or out of it. */
  predicate SealedToBridges(steps: seq<Step>, tokens: set<TokenAddress>) {
    forall step <- steps :: step.kind.Bridge? ==> (step.tokenIn in tokens <==> step.tokenOut in tokens)
  }

  lemma StepMovesExactly(fold: Fold, wallet: Wallet, step: Step, token: TokenAddress)
    requires Covers(fold.book, [step]) && StepFits(fold, wallet, step)
    ensures RunStep(fold, wallet, step).Ok?
    ensures
      var share := WeightedAmount(Balance(wallet, step.tokenIn), step.weight);
      var lands := if step.kind.Swap? then step.tokenIn else step.tokenOut;
      var dropped := step.kind.Carry? && step.tokenIn != step.tokenOut;
      Total(RunStep(fold, wallet, step).value, token) == Total(fold, token) + if token == lands && !dropped then share else 0
  {
    var share := WeightedAmount(Balance(wallet, step.tokenIn), step.weight);
    if share > 0 && step.kind.Swap? {
      assert step in [step];
      var p := step.kind.pool;
      var pool := fold.book[p];
      SwapEffect(pool, step.tokenIn, step.tokenOut, share);
      var after := SwapOf(pool, step.tokenIn, share).value.0;
      ReservesMoved(fold.book, p, after, token);
      OtherTokensAbsent(pool, step.tokenIn, step.tokenOut, token);
      OtherTokensAbsent(after, step.tokenIn, step.tokenOut, token);
    }
  }

  /** While nothing saturates, a step raises what a set of tokens totals over the next wallet and the
      reserves by exactly the share it spends, if the token that share lands in is in the set: its own token
      for a swap, whose payout only changes hands, and the token led to for a carry or a bridge. A carry to
      another token is dropped, and raises nothing. */
  lemma StepRaisesByItsShare(fold: Fold, wallet: Wallet, step: Step, tokens: set<TokenAddress>)
    requires Covers(fold.book, [step]) && StepFits(fold, wallet, step)
    ensures RunStep(fold, wallet, step).Ok?
    ensures
      var share := WeightedAmount(Balance(wallet, step.tokenIn), step.weight);
      var lands := if step.kind.Swap? then step.tokenIn else step.tokenOut;
      var dropped := step.kind.Carry? && step.tokenIn != step.tokenOut;
      TotalOver(RunStep(fold, wallet, step).value, tokens)
      == TotalOver(fold, tokens) + if lands in tokens && !dropped then share else 0
  {
    var share := WeightedAmount(Balance(wallet, step.tokenIn), step.weight);
    var lands := if step.kind.Swap? then step.tokenIn else step.tokenOut;
    var landing := if step.kind.Carry? && step.tokenIn != step.tokenOut then 0 else share;
    StepMovesExactly(fold, wallet, step, lands);
    var after := RunStep(fold, wallet, step).value;
    var raised := (t: TokenAddress) => if t == lands then landing else 0;
    forall t ensures Total(after, t) == Total(fold, t) + raised(t) {
      StepMovesExactly(fold, wallet, step, t);
    }
    SumAdds(tokens, t => Total(after, t), t => Total(fold, t), raised);
    SumOfSingle(tokens, lands, landing, raised);
  }

  lemma StepSpendsExactly(fold: Fold, wallet: Wallet, step: Step, tokens: set<TokenAddress>)
    requires Covers(fold.book, [step]) && StepFits(fold, wallet, step)
    requires CarriesOwnToken([step]) && SealedToBridges([step], tokens)
    ensures RunStep(fold, wallet, step).Ok?
    ensures TotalOver(RunStep(fold, wallet, step).value, tokens)
            == TotalOver(fold, tokens) + SumOver(tokens, t => Spend(wallet, step, t))
  {
    assert step in [step];
    StepRaisesByItsShare(fold, wallet, step, tokens);
    SumOfSingle(tokens, step.tokenIn, WeightedAmount(Balance(wallet, step.tokenIn), step.weight), t => Spend(wallet, step, t));
  }

  lemma {:induction false} SpendSkipsExactly(wallet: Wallet, steps: seq<Step>, stage: nat, tokens: set<TokenAddress>)
    requires steps != [] && steps[0].stage != stage
    ensures SpendOver(wallet, steps, stage, tokens) == SpendOver(wallet, steps[1..], stage, tokens)
  {
    SumAdds(tokens, t => SpendAll(wallet, steps, stage, t), t => SpendAll(wallet, steps[1..], stage, t), t => 0);
    SumOfSingle(tokens, steps[0].tokenIn, 0, t => 0);
  }

  lemma NothingToSpend(wallet: Wallet, stage: nat, tokens: set<TokenAddress>)
    ensures SpendOver(wallet, [], stage, tokens) == 0
  {
    SumOfSingle(tokens, TokenAddress(Address(0), Ethereum), 0, t => SpendAll(wallet, [], stage, t));
  }

  lemma {:induction false} StageSpendsExactly(fold: Fold, wallet: Wallet, steps: seq<Step>, stage: nat, all: seq<Step>, tokens: set<TokenAddress>)
    requires Covers(fold.book, all) && Within(steps, all) && StageFits(fold, wallet, steps, stage)
    requires CarriesOwnToken(all) && SealedToBridges(all, tokens)
    ensures RunStage(fold, wallet, steps, stage).Ok?
    ensures Covers(RunStage(fold, wallet, steps, stage).value.book, all)
    ensures TotalOver(RunStage(fold, wallet, steps, stage).value, tokens)
            == TotalOver(fold, tokens) + SpendOver(wallet, steps, stage, tokens)
    decreases |steps|
  {
    if steps == [] {
      NothingToSpend(wallet, stage, tokens);
    } else if steps[0].stage != stage {
      SpendSkipsExactly(wallet, steps, stage, tokens);
      StageSpendsExactly(fold, wallet, steps[1..], stage, all, tokens);
    } else {
      assert steps[0] in steps;
      StepCovers(fold, wallet, steps[0], all);
      StepSpendsExactly(fold, wallet, steps[0], tokens);
      SpendSplits(wallet, steps, stage, tokens);
      StageSpendsExactly(RunStep(fold, wallet, steps[0]).value, wallet, steps[1..], stage, all, tokens);
    }
  }

  /** What the stages of a run hold of the tokens and do not spend. */
  ghost function UnspentOver(fold: Fold, steps: seq<Step>, stage: nat, stop: nat, tokens: set<TokenAddress>): int
    requires stage <= stop
    decreases stop - stage
  {
    if stage == stop then 0 else
      var ran := RunStage(fold.(next := map[]), fold.next, steps, stage);
      SumOver(tokens, t => Balance(fold.next, t)) - SpendOver(fold.next, steps, stage, tokens)
      + if ran.Ok? then UnspentOver(ran.value, steps, stage + 1, stop, tokens) else 0
  }

  lemma {:induction false} StagesLoseExactly(fold: Fold, steps: seq<Step>, stage: nat, stop: nat, tokens: set<TokenAddress>)
    requires stage <= stop && Covers(fold.book, steps) && StagesFit(fold, steps, stage, stop)
    requires CarriesOwnToken(steps) && SealedToBridges(steps, tokens)
    ensures RunStages(fold, steps, stage, stop).Ok?
    ensures TotalOver(RunStages(fold, steps, stage, stop).value, tokens) + UnspentOver(fold, steps, stage, stop, tokens)
            == TotalOver(fold, tokens)
    decreases stop - stage
  {
    if stage < stop {
      var start := fold.(next := map[]);
      StageSpendsExactly(start, fold.next, steps, stage, steps, tokens);
      SumAdds(tokens, t => Total(fold, t), t => Total(start, t), t => Balance(fold.next, t));
      StagesLoseExactly(RunStage(start, fold.next, steps, stage).value, steps, stage + 1, stop, tokens);
    }
  }

  /** Over any plan while nothing saturates, what a set of tokens totals over the wallet and all reserves
      falls by exactly what the stages leave unspent of it, as long as carries keep their token and no
      bridge crosses the set's border: nothing else is gained or lost, by any swap, carry or bridge. */
  lemma TotalsFallByWhatIsUnspent(plan: Plan, resolve: Resolver, entry: U256, group: Grouping, tokens: set<TokenAddress>)
    requires WellFormed(plan, resolve) && NotOverspent(plan) && Groups(group, plan.steps)
    requires Opening(plan, resolve, entry).Ok?
    requires forall t :: TotalOver(Opening(plan, resolve, entry).value, group(t)) <= U256_MAX
    requires CarriesOwnToken(plan.steps) && SealedToBridges(plan.steps, tokens)
    ensures Closing(plan, resolve, entry).Ok?
    ensures TotalOver(Closing(plan, resolve, entry).value, tokens)
            + UnspentOver(Opening(plan, resolve, entry).value, plan.steps, 0, StageCount(plan.steps), tokens)
            == TotalOver(Opening(plan, resolve, entry).value, tokens)
  {
    OpeningBook(plan, resolve, entry);
    NothingSaturates(plan, resolve, entry, group);
    StagesLoseExactly(Opening(plan, resolve, entry).value, plan.steps, 0, StageCount(plan.steps), tokens);
  }
}
