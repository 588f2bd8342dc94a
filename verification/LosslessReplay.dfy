/** The imperative replay: it mutates a book of pool objects and swaps one wallet for the next. */
module LosslessReplay {
  import opened Domain
  import opened Word256
  import opened LosslessPools
  import opened ReplaySpec

  /** The book of the replay holds one object per pool, and no object twice. */
  ghost predicate Owned(book: map<PoolRef, LosslessPool>) {
    forall p, q :: p in book && q in book && p != q ==> book[p] != book[q]
  }

  ghost function ViewOf(book: map<PoolRef, LosslessPool>): Book
    reads book.Values
  {
    map p | p in book :: book[p].View()
  }

  method BuildPools(steps: seq<Step>, resolve: Resolver)
    returns (r: Result<map<PoolRef, LosslessPool>, ReplayError>)
    ensures match BuildBook(steps, resolve, map[])
            case Err(error) => r == Err(error)
            case Ok(book) => r.Ok? && Owned(r.value) && fresh(r.value.Values) && ViewOf(r.value) == book
  {
    var book: map<PoolRef, LosslessPool> := map[];
    for i := 0 to |steps|
      invariant Owned(book)
      invariant forall p <- book :: fresh(book[p])
      invariant BuildBook(steps[i..], resolve, ViewOf(book)) == BuildBook(steps, resolve, map[])
    {
      var step := steps[i];
      assert steps[i..][1..] == steps[i + 1..];
      if step.kind.Swap? && step.kind.pool !in book {
        match resolve(step.kind.pool) {
          case None => return Err(PoolNotFound);
          case Some(pool) =>
            var entry := new LosslessPool(pool);
            ghost var before := ViewOf(book);
            book := book[step.kind.pool := entry];
            assert ViewOf(book) == before[step.kind.pool := pool];
        }
      }
    }
    return Ok(book);
  }

  /** One step of a stage: swap, carry or bridge the weighted share of the wallet's balance. */
  method ReplayStep(book: map<PoolRef, LosslessPool>, balances: Wallet, next: Wallet, step: Step)
    returns (r: Result<(Wallet, bool), ReplayError>)
    requires Owned(book)
    modifies book.Values
    ensures var result := RunStep(Fold(old(ViewOf(book)), next, false), balances, step);
            if result.Err? then r == Err(result.error)
            else r == Ok((result.value.next, result.value.hit)) && ViewOf(book) == result.value.book
  {
    var available := Balance(balances, step.tokenIn);
    var amountIn := WeightedAmount(available, step.weight);
    if amountIn == 0 {
      return Ok((next, false));
    }
    match step.kind {
      case Swap(pool) =>
        if pool !in book {
          return Err(PoolNotFound);
        }
        ghost var before := ViewOf(book);
        var hop := book[pool].Swap(step.tokenIn, amountIn);
        if hop.Err? {
          return Err(hop.error);
        }
        assert ViewOf(book) == before[pool := book[pool].View()];
        return Ok((Credit(next, step.tokenOut, hop.value.out), hop.value.hitLimit));
      case Carry =>
        if step.tokenIn == step.tokenOut {
          return Ok((Credit(next, step.tokenOut, amountIn), false));
        }
        return Ok((next, false));
      case Bridge =>
        return Ok((Credit(next, step.tokenOut, amountIn), false));
    }
  }

  /** Replays `plan` over pools built by `resolve`, starting from the whole entry. */
  method ReplayPlanLossless(plan: Plan, resolve: Resolver, entryAmount: U256)
    returns (r: Result<Outcome, ReplayError>)
    ensures r == Replay(plan, resolve, entryAmount)
  {
    var built := BuildPools(plan.steps, resolve);
    if built.Err? {
      return Err(built.error);
    }
    var book := built.value;
    var balances: Wallet := map[plan.sourceAsset := entryAmount];
    var hitTickLimit := false;

    var stageCount := StageCount(plan.steps);
    if stageCount == 0 {
      return Ok(Outcome(Balance(balances, plan.outputAsset), false));
    }

    ghost var whole := RunStages(Fold(ViewOf(book), balances, false), plan.steps, 0, stageCount);
    for stage := 0 to stageCount
      invariant Owned(book) && fresh(book.Values)
      invariant RunStages(Fold(ViewOf(book), balances, hitTickLimit), plan.steps, stage, stageCount) == whole
    {
      var next: Wallet := map[];
      ghost var stageResult := RunStage(Fold(ViewOf(book), next, hitTickLimit), balances, plan.steps, stage);
      for i := 0 to |plan.steps|
        invariant Owned(book) && fresh(book.Values)
        invariant RunStage(Fold(ViewOf(book), next, hitTickLimit), balances, plan.steps[i..], stage) == stageResult
      {
        assert plan.steps[i..][1..] == plan.steps[i + 1..];
        if plan.steps[i].stage == stage {
          FlagIsCarried(ViewOf(book), next, hitTickLimit, balances, plan.steps[i]);
          var stepped := ReplayStep(book, balances, next, plan.steps[i]);
          if stepped.Err? {
            return Err(stepped.error);
          }
          next := stepped.value.0;
          hitTickLimit := hitTickLimit || stepped.value.1;
        }
      }
      balances := next;
    }
    return Ok(Outcome(Balance(balances, plan.outputAsset), hitTickLimit));
  }

  /** The clamp flag of a step joins whatever was raised before it. */
  lemma FlagIsCarried(book: Book, next: Wallet, hit: bool, wallet: Wallet, step: Step)
    ensures RunStep(Fold(book, next, hit), wallet, step)
            == match RunStep(Fold(book, next, false), wallet, step)
               case Err(error) => Err(error)
               case Ok(fold) => Ok(fold.(hit := hit || fold.hit))
  {
  }
}
