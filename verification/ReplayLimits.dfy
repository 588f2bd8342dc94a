/** What the tick-limit flag of a replay promises. */
module ReplayLimits {
  import opened Domain
  import opened FloorMath
  import opened Word256
  import opened LosslessPools
  import opened ReplaySpec

  /** The pool with no tick boundary in reach. */
  function Lift(pool: Pool): Pool {
    pool.(swapLimit0 := U256_MAX, swapLimit1 := U256_MAX)
  }

  function LiftBook(book: Book): Book {
    map p | p in book :: Lift(book[p])
  }

  function LiftFold(fold: Fold): Fold {
    fold.(book := LiftBook(fold.book))
  }

  function Lifted(resolve: Resolver): Resolver {
    p => match resolve(p) case None => None case Some(pool) => Some(Lift(pool))
  }

  lemma PayoutGrows(x: U256, y: U256, c: U256, d: U256)
    requires c <= d
    ensures Payout(x, y, c) <= Payout(x, y, d)
  {
    if x + c > 0 {
      var out := Payout(x, y, c);
      PayoutKeepsTheProduct(x, y, c);
      ProductBound(x + c, y - out, x + d, y - out);
      PayoutIsTheLargestKeepingTheProduct(x, y, d, out);
    }
  }

  /** A clamped hop pays at most what the same hop would pay with no boundary, and an unclamped one
      pays exactly that. */
  lemma ClampedHopUnderstates(pool: Pool, tokenIn: TokenAddress, amountIn: U256)
    requires tokenIn == pool.token0 || tokenIn == pool.token1
    ensures
      var (hop, free) := (SwapOf(pool, tokenIn, amountIn).value.1, SwapOf(Lift(pool), tokenIn, amountIn).value.1);
      !free.hitLimit && hop.out <= free.out && (!hop.hitLimit ==> hop.out == free.out)
  {
    var (x, y) := if tokenIn == pool.token0 then (pool.reserve0, pool.reserve1) else (pool.reserve1, pool.reserve0);
    var limit := if tokenIn == pool.token0 then pool.swapLimit0 else pool.swapLimit1;
    PayoutGrows(x, y, Capped(amountIn, pool.feePips, limit), Capped(amountIn, pool.feePips, U256_MAX));
  }

  lemma UnclampedSwapLifts(pool: Pool, tokenIn: TokenAddress, amountIn: U256)
    requires SwapOf(pool, tokenIn, amountIn).Ok? && !SwapOf(pool, tokenIn, amountIn).value.1.hitLimit
    ensures var (after, hop) := SwapOf(pool, tokenIn, amountIn).value;
            SwapOf(Lift(pool), tokenIn, amountIn) == Ok((Lift(after), hop))
  {
  }

  lemma StepLifts(fold: Fold, wallet: Wallet, step: Step)
    requires RunStep(fold, wallet, step).Ok? && !RunStep(fold, wallet, step).value.hit
    ensures RunStep(LiftFold(fold), wallet, step) == Ok(LiftFold(RunStep(fold, wallet, step).value))
  {
    var amountIn := WeightedAmount(Balance(wallet, step.tokenIn), step.weight);
    if amountIn > 0 && step.kind.Swap? {
      var p := step.kind.pool;
      UnclampedSwapLifts(fold.book[p], step.tokenIn, amountIn);
      var after := RunStep(fold, wallet, step).value;
      assert LiftBook(after.book) == LiftBook(fold.book)[p := Lift(after.book[p])];
    }
  }

  lemma {:induction false} StageLifts(fold: Fold, wallet: Wallet, steps: seq<Step>, stage: nat)
    requires RunStage(fold, wallet, steps, stage).Ok?
    ensures fold.hit ==> RunStage(fold, wallet, steps, stage).value.hit
    ensures !RunStage(fold, wallet, steps, stage).value.hit ==>
      RunStage(LiftFold(fold), wallet, steps, stage) == Ok(LiftFold(RunStage(fold, wallet, steps, stage).value))
    decreases |steps|
  {
    if steps == [] {
    } else if steps[0].stage != stage {
      StageLifts(fold, wallet, steps[1..], stage);
    } else {
      var after := RunStep(fold, wallet, steps[0]).value;
      StageLifts(after, wallet, steps[1..], stage);
      if !after.hit {
        StepLifts(fold, wallet, steps[0]);
      }
    }
  }

  lemma {:induction false} StagesLift(fold: Fold, steps: seq<Step>, stage: nat, stop: nat)
    requires stage <= stop && RunStages(fold, steps, stage, stop).Ok?
    ensures fold.hit ==> RunStages(fold, steps, stage, stop).value.hit
    ensures !RunStages(fold, steps, stage, stop).value.hit ==>
      RunStages(LiftFold(fold), steps, stage, stop) == Ok(LiftFold(RunStages(fold, steps, stage, stop).value))
    decreases stop - stage
  {
    if stage < stop {
      var start := fold.(next := map[]);
      StageLifts(start, fold.next, steps, stage);
      StagesLift(RunStage(start, fold.next, steps, stage).value, steps, stage + 1, stop);
      assert LiftFold(start) == LiftFold(fold).(next := map[]);
    }
  }

  lemma {:induction false} BookLifts(steps: seq<Step>, resolve: Resolver, book: Book)
    ensures BuildBook(steps, Lifted(resolve), LiftBook(book))
            == match BuildBook(steps, resolve, book) case Err(error) => Err(error) case Ok(built) => Ok(LiftBook(built))
    decreases |steps|
  {
    if steps != [] {
      var step := steps[0];
      if !step.kind.Swap? || step.kind.pool in book {
        BookLifts(steps[1..], resolve, book);
      } else if resolve(step.kind.pool).Some? {
        var pool := resolve(step.kind.pool).value;
        BookLifts(steps[1..], resolve, book[step.kind.pool := pool]);
        assert LiftBook(book[step.kind.pool := pool]) == LiftBook(book)[step.kind.pool := Lift(pool)];
      }
    }
  }

  /** An unflagged replay is exact: it is the replay of the same plan over pools without any tick
      boundary, reserves and output alike. */
  lemma UnflaggedReplayIsExact(plan: Plan, resolve: Resolver, entry: U256)
    requires Replay(plan, resolve, entry).Ok? && !Replay(plan, resolve, entry).value.hitTickLimit
    ensures Replay(plan, Lifted(resolve), entry) == Replay(plan, resolve, entry)
    ensures Closing(plan, Lifted(resolve), entry) == Ok(LiftFold(Closing(plan, resolve, entry).value))
  {
    BookLifts(plan.steps, resolve, map[]);
    assert LiftBook(map[]) == map[];
    var opening := Opening(plan, resolve, entry).value;
    StagesLift(opening, plan.steps, 0, StageCount(plan.steps));
  }

  /** A replay opens exactly when every pool it swaps through can be produced. */
  lemma {:induction false} OpensExactlyWhenPoolsResolve(steps: seq<Step>, resolve: Resolver, book: Book)
    ensures BuildBook(steps, resolve, book).Ok? <==>
            forall step <- steps :: step.kind.Swap? && step.kind.pool !in book ==> resolve(step.kind.pool).Some?
    ensures BuildBook(steps, resolve, book).Err? ==> BuildBook(steps, resolve, book).error == PoolNotFound
    decreases |steps|
  {
    if steps != [] {
      var step := steps[0];
      assert steps == [step] + steps[1..];
      if !step.kind.Swap? || step.kind.pool in book {
        OpensExactlyWhenPoolsResolve(steps[1..], resolve, book);
      } else if resolve(step.kind.pool).Some? {
        OpensExactlyWhenPoolsResolve(steps[1..], resolve, book[step.kind.pool := resolve(step.kind.pool).value]);
      } else {
        assert step in steps;
      }
    }
  }

  // ---- What raises the flag, and what makes a replay fail ----

  /** The step is a swap whose input, after the fee, is more than the pool takes on that side. */
  predicate Clamps(fold: Fold, wallet: Wallet, step: Step) {
    var amount := WeightedAmount(Balance(wallet, step.tokenIn), step.weight);
    && step.kind.Swap? && amount > 0 && step.kind.pool in fold.book
    && var pool := fold.book[step.kind.pool];
       AfterFee(amount, pool.feePips) > if step.tokenIn == pool.token0 then pool.swapLimit0 else pool.swapLimit1
  }

  predicate StageClamps(fold: Fold, wallet: Wallet, steps: seq<Step>, stage: nat)
    decreases |steps|
  {
    if steps == [] then false
    else if steps[0].stage != stage then StageClamps(fold, wallet, steps[1..], stage)
    else
      || Clamps(fold, wallet, steps[0])
      || (RunStep(fold, wallet, steps[0]).Ok? && StageClamps(RunStep(fold, wallet, steps[0]).value, wallet, steps[1..], stage))
  }

  predicate StagesClamp(fold: Fold, steps: seq<Step>, stage: nat, stop: nat)
    requires stage <= stop
    decreases stop - stage
  {
    if stage == stop then false else
      var ran := RunStage(fold.(next := map[]), fold.next, steps, stage);
      || StageClamps(fold.(next := map[]), fold.next, steps, stage)
      || (ran.Ok? && StagesClamp(ran.value, steps, stage + 1, stop))
  }

  lemma {:induction false} StageFlagsClamps(fold: Fold, wallet: Wallet, steps: seq<Step>, stage: nat)
    requires RunStage(fold, wallet, steps, stage).Ok?
    ensures RunStage(fold, wallet, steps, stage).value.hit <==> fold.hit || StageClamps(fold, wallet, steps, stage)
    decreases |steps|
  {
    if steps == [] {
    } else if steps[0].stage != stage {
      StageFlagsClamps(fold, wallet, steps[1..], stage);
    } else {
      StageFlagsClamps(RunStep(fold, wallet, steps[0]).value, wallet, steps[1..], stage);
    }
  }

  lemma {:induction false} StagesFlagClamps(fold: Fold, steps: seq<Step>, stage: nat, stop: nat)
    requires stage <= stop && RunStages(fold, steps, stage, stop).Ok?
    ensures RunStages(fold, steps, stage, stop).value.hit <==> fold.hit || StagesClamp(fold, steps, stage, stop)
    decreases stop - stage
  {
    if stage < stop {
      var begun := fold.(next := map[]);
      StageFlagsClamps(begun, fold.next, steps, stage);
      StagesFlagClamps(RunStage(begun, fold.next, steps, stage).value, steps, stage + 1, stop);
    }
  }

  /** A replay is flagged exactly when the after-fee input of some swap that was run exceeded the limit of
      its side. */
  lemma FlaggedExactlyWhenClamped(plan: Plan, resolve: Resolver, entry: U256)
    requires Replay(plan, resolve, entry).Ok?
    ensures Replay(plan, resolve, entry).value.hitTickLimit <==>
            StagesClamp(Opening(plan, resolve, entry).value, plan.steps, 0, StageCount(plan.steps))
  {
    StagesFlagClamps(Opening(plan, resolve, entry).value, plan.steps, 0, StageCount(plan.steps));
  }

  predicate Boundless(book: Book) {
    forall p <- book :: book[p].swapLimit0 == U256_MAX && book[p].swapLimit1 == U256_MAX
  }

  lemma {:induction false} StageNeverClamps(fold: Fold, wallet: Wallet, steps: seq<Step>, stage: nat)
    requires Boundless(fold.book)
    ensures !StageClamps(fold, wallet, steps, stage)
    ensures RunStage(fold, wallet, steps, stage).Ok? ==> Boundless(RunStage(fold, wallet, steps, stage).value.book)
    decreases |steps|
  {
    if steps == [] {
    } else if steps[0].stage != stage {
      StageNeverClamps(fold, wallet, steps[1..], stage);
    } else if RunStep(fold, wallet, steps[0]).Ok? {
      StageNeverClamps(RunStep(fold, wallet, steps[0]).value, wallet, steps[1..], stage);
    }
  }

  lemma {:induction false} StagesNeverClamp(fold: Fold, steps: seq<Step>, stage: nat, stop: nat)
    requires stage <= stop
    requires Boundless(fold.book)
    ensures !StagesClamp(fold, steps, stage, stop)
    decreases stop - stage
  {
    if stage < stop {
      var ran := RunStage(fold.(next := map[]), fold.next, steps, stage);
      StageNeverClamps(fold.(next := map[]), fold.next, steps, stage);
      if ran.Ok? {
        StagesNeverClamp(ran.value, steps, stage + 1, stop);
      }
    }
  }

  /** Over pools without a boundary no replay is flagged. */
  lemma BoundlessReplayIsUnflagged(plan: Plan, resolve: Resolver, entry: U256)
    requires Replay(plan, Lifted(resolve), entry).Ok?
    ensures !Replay(plan, Lifted(resolve), entry).value.hitTickLimit
  {
    BookLifts(plan.steps, resolve, map[]);
    assert LiftBook(map[]) == map[];
    FlaggedExactlyWhenClamped(plan, Lifted(resolve), entry);
    StagesNeverClamp(Opening(plan, Lifted(resolve), entry).value, plan.steps, 0, StageCount(plan.steps));
  }

  /** A step fails exactly when it has something to swap and its pool is not in the book or does not hold
      the token, and says which. */
  lemma StepFailsExactly(fold: Fold, wallet: Wallet, step: Step)
    ensures
      var ran := RunStep(fold, wallet, step);
      var swaps := step.kind.Swap? && WeightedAmount(Balance(wallet, step.tokenIn), step.weight) > 0;
      && (ran == Err(PoolNotFound) <==> swaps && step.kind.pool !in fold.book)
      && (ran == Err(TokenNotInPool) <==>
            && swaps && step.kind.pool in fold.book
            && step.tokenIn != fold.book[step.kind.pool].token0 && step.tokenIn != fold.book[step.kind.pool].token1)
  {
  }
}
