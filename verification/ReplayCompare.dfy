/** Two replays of one plan side by side: the program's own, and one over pools with more room before
    the tick boundary, or whose reserves accrue only what bought, or both. */
module ReplayCompare {
  import opened Domain
  import opened FloorMath
  import opened Word256
  import opened LosslessPools
  import opened ReplaySpec
  import opened ReplayConservation
  import opened ReplayLimits
  import opened ReplayReuse

  // ---- One pool ----

  /** The same pool, no deeper on either side and with no less room before its boundaries. */
  predicate Ahead(pool: Pool, rival: Pool) {
    && rival == pool.(reserve0 := rival.reserve0, reserve1 := rival.reserve1,
                      swapLimit0 := rival.swapLimit0, swapLimit1 := rival.swapLimit1)
    && rival.reserve0 <= pool.reserve0 && rival.reserve1 <= pool.reserve1
    && pool.swapLimit0 <= rival.swapLimit0 && pool.swapLimit1 <= rival.swapLimit1
  }

  /** How far a pool's reserve of a token stands above its rival's. */
  function Lead(pool: Pool, rival: Pool, token: TokenAddress): nat
    requires Ahead(pool, rival)
  {
    pool.ReserveOf(token) - rival.ReserveOf(token)
  }

  lemma SwapUnderEffect(accrual: Accrual, pool: Pool, tokenIn: TokenAddress, tokenOut: TokenAddress, amount: U256)
    requires pool.Trades(tokenIn, tokenOut)
    ensures SwapUnder(accrual, pool, tokenIn, amount).Ok?
    ensures
      var (after, hop) := SwapUnder(accrual, pool, tokenIn, amount).value;
      var x, y, c := pool.ReserveOf(tokenIn), pool.ReserveOf(tokenOut), Capped(amount, pool.feePips, pool.LimitOf(tokenIn));
      && hop.out == Payout(x, y, c)
      && after.ReserveOf(tokenIn) == SaturatingAdd(x, if accrual.PreFee? then amount else c)
      && after.ReserveOf(tokenOut) == y - hop.out
      && after == pool.(reserve0 := after.reserve0, reserve1 := after.reserve1)
      && after.Trades(tokenIn, tokenOut)
  {
    SwapEffect(pool, tokenIn, tokenOut, amount);
    assert tokenIn in {pool.token0, pool.token1} && tokenOut in {pool.token0, pool.token1};
  }

  /** What is left of a payout side is no less in the deeper pool with the smaller purchase. */
  lemma LeadsAfterPaying(x: U256, y: U256, x': U256, y': U256, c: U256, c': U256)
    requires x' <= x && y' <= y && c <= c'
    ensures y' - Payout(x', y', c') <= y - Payout(x, y, c)
  {
    DeeperKeepsMore(x, y, x', y', c');
    PayoutGrows(x, y, c, c');
  }

  /** The same amount swapped on both sides: what the pool pays less it stays ahead by, and under the
      program's own accrual the lead on the input side never grows. */
  lemma SwapsCompare(accrual: Accrual, pool: Pool, rival: Pool, tokenIn: TokenAddress, tokenOut: TokenAddress, amount: U256)
    requires Ahead(pool, rival) && pool.Trades(tokenIn, tokenOut)
    ensures SwapOf(pool, tokenIn, amount).Ok? && SwapUnder(accrual, rival, tokenIn, amount).Ok?
    ensures
      var (after, hop) := SwapOf(pool, tokenIn, amount).value;
      var (rivalAfter, rivalHop) := SwapUnder(accrual, rival, tokenIn, amount).value;
      && Ahead(after, rivalAfter)
      && hop.out + Lead(after, rivalAfter, tokenOut) == rivalHop.out + Lead(pool, rival, tokenOut)
      && (accrual.PreFee? ==> Lead(after, rivalAfter, tokenIn) <= Lead(pool, rival, tokenIn))
  {
    assert tokenIn in {pool.token0, pool.token1} && tokenOut in {pool.token0, pool.token1};
    assert pool.token0 in {tokenIn, tokenOut} && pool.token1 in {tokenIn, tokenOut};
    SwapUnderEffect(PreFee, pool, tokenIn, tokenOut, amount);
    SwapUnderEffect(accrual, rival, tokenIn, tokenOut, amount);
    LeadsAfterPaying(pool.ReserveOf(tokenIn), pool.ReserveOf(tokenOut), rival.ReserveOf(tokenIn), rival.ReserveOf(tokenOut),
                     Capped(amount, pool.feePips, pool.LimitOf(tokenIn)), Capped(amount, pool.feePips, rival.LimitOf(tokenIn)));
  }

  lemma {:induction false} BoundedRunFallsBehind(pool: Pool, rival: Pool, sales: seq<Sale>, token: TokenAddress)
    requires Ahead(pool, rival) && TakesAll(pool, sales) && token in {pool.token0, pool.token1}
    ensures Paid(PreFee, pool, sales, token) <= Paid(PreFee, rival, sales, token) + Lead(pool, rival, token)
    decreases |sales|
  {
    if sales != [] {
      var sale := sales[0];
      var other := OtherToken(pool, sale.tokenIn);
      SwapsCompare(PreFee, pool, rival, sale.tokenIn, other, sale.amount);
      BoundedRunFallsBehind(Sell(PreFee, pool, sale).0, Sell(PreFee, rival, sale).0, sales[1..], token);
    }
  }

  /** Over any run of swaps through one pool at given amounts, in any directions, at any fee and even
      saturating, the pool pays of each token in all at most what it would with no boundary. */
  lemma ClampedRunUnderstates(pool: Pool, sales: seq<Sale>, token: TokenAddress)
    requires TakesAll(pool, sales) && token in {pool.token0, pool.token1}
    ensures TakesAll(Lift(pool), sales)
    ensures Paid(PreFee, pool, sales, token) <= Paid(PreFee, Lift(pool), sales, token)
  {
    BoundedRunFallsBehind(pool, Lift(pool), sales, token);
  }

  // ---- One step over pools neither side has used ----

  /** The pools of a plan, as the program finds them and as the rival does. */
  datatype Race = Race(accrual: Accrual, steps: seq<Step>, start: Book, rival: Book)
  {
    ghost predicate Fair() {
      && Covers(start, steps)
      && forall step <- steps :: step.kind.Swap? ==> Roomier(step.kind.pool)
    }

    /** The rival finds the same reserves, and no less room. */
    predicate Roomier(p: PoolRef) {
      && p in start && p in rival && Ahead(start[p], rival[p])
      && start[p].reserve0 == rival[p].reserve0 && start[p].reserve1 == rival[p].reserve1
    }

    predicate Untouched(fold: Fold, other: Fold, p: PoolRef) {
      && p in start && p in rival && p in fold.book && p in other.book
      && fold.book[p] == start[p] && other.book[p] == rival[p]
    }

    predicate AllUntouched(fold: Fold, other: Fold, pools: set<PoolRef>) {
      forall p <- pools :: Untouched(fold, other, p)
    }
  }

  ghost predicate Poorer(wallet: Wallet, other: Wallet) {
    forall token :: Balance(wallet, token) <= Balance(other, token)
  }

  lemma WeightedAmountGrows(balance: U256, other: U256, weight: ScaledWeight)
    requires balance <= other
    ensures WeightedAmount(balance, weight) <= WeightedAmount(other, weight)
  {
    ProductBound(balance, weight, other, weight);
    FloorGrows(balance * weight, other * weight, WEIGHT_SCALE);
  }

  lemma AfterFeeGrows(amount: U256, other: U256, feePips: U32)
    requires amount <= other
    ensures AfterFee(amount, feePips) <= AfterFee(other, feePips)
  {
    var keep := if feePips <= PIPS_DENOMINATOR then PIPS_DENOMINATOR - feePips else 0;
    ProductBound(amount, keep, other, keep);
    FloorGrows(amount * keep, other * keep, PIPS_DENOMINATOR);
  }

  /** From the same reserves, less to sell and less room pays no more. */
  lemma PoorerHopPaysNoMore(accrual: Accrual, pool: Pool, rival: Pool, tokenIn: TokenAddress, tokenOut: TokenAddress,
                            amount: U256, more: U256)
    requires Ahead(pool, rival) && pool.reserve0 == rival.reserve0 && pool.reserve1 == rival.reserve1
    requires amount <= more && pool.Trades(tokenIn, tokenOut)
    ensures SwapOf(pool, tokenIn, amount).Ok? && SwapUnder(accrual, rival, tokenIn, more).Ok?
    ensures SwapOf(pool, tokenIn, amount).value.1.out <= SwapUnder(accrual, rival, tokenIn, more).value.1.out
  {
    SwapUnderEffect(PreFee, pool, tokenIn, tokenOut, amount);
    SwapUnderEffect(accrual, rival, tokenIn, tokenOut, more);
    AfterFeeGrows(amount, more, pool.feePips);
    PayoutGrows(pool.ReserveOf(tokenIn), pool.ReserveOf(tokenOut), Capped(amount, pool.feePips, pool.LimitOf(tokenIn)),
                Capped(more, pool.feePips, rival.LimitOf(tokenIn)));
  }

  lemma CreditGrows(wallet: Wallet, other: Wallet, token: TokenAddress, amount: U256, more: U256)
    requires Poorer(wallet, other) && amount <= more
    ensures Poorer(Credit(wallet, token, amount), Credit(other, token, more))
    ensures Poorer(wallet, Credit(other, token, more))
  {
    forall t
      ensures Balance(Credit(wallet, token, amount), t) <= Balance(Credit(other, token, more), t)
      ensures Balance(wallet, t) <= Balance(Credit(other, token, more), t)
    {
      assert Balance(wallet, t) <= Balance(other, t);
    }
  }

  /** A step moves at most the pool it names. */
  lemma StepMovesOnePool(fold: Fold, wallet: Wallet, step: Step, accrual: Accrual, p: PoolRef)
    requires RunStep(fold, wallet, step, accrual).Ok? && p in fold.book && step.kind != Swap(p)
    ensures var after := RunStep(fold, wallet, step, accrual).value.book; p in after && after[p] == fold.book[p]
  {
  }

  lemma UsedUp(race: Race, fold: Fold, other: Fold, wallet: Wallet, otherWallet: Wallet, step: Step, pools: set<PoolRef>)
    requires race.AllUntouched(fold, other, pools)
    requires RunStep(fold, wallet, step).Ok? && RunStep(other, otherWallet, step, race.accrual).Ok?
    requires step.kind.Swap? ==> step.kind.pool !in pools
    ensures race.AllUntouched(RunStep(fold, wallet, step).value, RunStep(other, otherWallet, step, race.accrual).value, pools)
  {
    forall p | p in pools
      ensures race.Untouched(RunStep(fold, wallet, step).value, RunStep(other, otherWallet, step, race.accrual).value, p)
    {
      assert race.Untouched(fold, other, p);
      StepMovesOnePool(fold, wallet, step, PreFee, p);
      StepMovesOnePool(other, otherWallet, step, race.accrual, p);
    }
  }

  /** The pools of the swaps from a stage on. */
  function PoolsFrom(steps: seq<Step>, stage: nat): set<PoolRef> {
    set step <- steps | step.kind.Swap? && stage <= step.stage :: step.kind.pool
  }

  /** The pools of the swaps of one stage. */
  function PoolsAt(steps: seq<Step>, stage: nat): set<PoolRef> {
    set step <- steps | step.kind.Swap? && step.stage == stage :: step.kind.pool
  }

  /** No pool is swapped through by two steps, but within the given stage. */
  predicate ReusedOnlyIn(steps: seq<Step>, stage: nat) {
    forall i, j | 0 <= i < j < |steps| && steps[i].kind.Swap? && steps[j].kind == steps[i].kind ::
      steps[i].stage == stage && steps[j].stage == stage
  }

  /** No pool is swapped through by two steps. */
  predicate EachPoolOnce(steps: seq<Step>) {
    forall i, j | 0 <= i < j < |steps| && steps[i].kind.Swap? :: steps[j].kind != steps[i].kind
  }

  /** A pool swapped through in a stage is done with afterwards. */
  lemma StagesShareNoPool(steps: seq<Step>, shared: nat, stage: nat)
    requires ReusedOnlyIn(steps, shared)
    ensures PoolsAt(steps, stage) !! PoolsFrom(steps, stage + 1)
    ensures PoolsAt(steps, stage) <= PoolsFrom(steps, stage)
    ensures PoolsFrom(steps, stage + 1) <= PoolsFrom(steps, stage)
  {
    forall p | p in PoolsAt(steps, stage) ensures p !in PoolsFrom(steps, stage + 1) {
      var i :| 0 <= i < |steps| && steps[i].stage == stage && steps[i].kind == Swap(p);
      forall j | 0 <= j < |steps| && steps[j].kind == Swap(p) ensures steps[j].stage <= stage {
        assert i < j || j < i || i == j;
      }
    }
  }

  // ---- While both sides agree ----

  /** Both sides hold the same, and neither has used the given pools. */
  ghost predicate Level(race: Race, fold: Fold, other: Fold, pools: set<PoolRef>) {
    fold.next == other.next && fold.hit == other.hit && race.AllUntouched(fold, other, pools)
  }

  lemma StepStaysLevel(race: Race, fold: Fold, other: Fold, wallet: Wallet, step: Step, pools: set<PoolRef>)
    requires race.Fair() && step in race.steps && Level(race, fold, other, pools)
    requires step.kind.Swap? ==> step.kind.pool in pools && race.start[step.kind.pool] == race.rival[step.kind.pool]
    ensures RunStep(fold, wallet, step).Ok? && RunStep(other, wallet, step, race.accrual).Ok?
    ensures Level(race, RunStep(fold, wallet, step).value, RunStep(other, wallet, step, race.accrual).value,
                  if step.kind.Swap? then pools - {step.kind.pool} else pools)
  {
    var amount := WeightedAmount(Balance(wallet, step.tokenIn), step.weight);
    if step.kind.Swap? {
      assert race.Untouched(fold, other, step.kind.pool);
      SwapUnderEffect(PreFee, race.start[step.kind.pool], step.tokenIn, step.tokenOut, amount);
      UsedUp(race, fold, other, wallet, wallet, step, pools - {step.kind.pool});
    } else {
      UsedUp(race, fold, other, wallet, wallet, step, pools);
    }
  }

  lemma {:induction false} StageStaysLevel(race: Race, fold: Fold, other: Fold, wallet: Wallet, steps: seq<Step>,
                                           stage: nat, shared: nat, pools: set<PoolRef>, later: set<PoolRef>)
    requires race.Fair() && Within(steps, race.steps) && ReusedOnlyIn(steps, shared) && stage != shared
    requires Level(race, fold, other, pools) && later <= pools
    requires PoolsAt(steps, stage) <= pools - later
    requires forall p <- PoolsAt(steps, stage) :: p in race.start && p in race.rival && race.start[p] == race.rival[p]
    ensures RunStage(fold, wallet, steps, stage).Ok? && RunStage(other, wallet, steps, stage, race.accrual).Ok?
    ensures Level(race, RunStage(fold, wallet, steps, stage).value, RunStage(other, wallet, steps, stage, race.accrual).value, later)
    decreases |steps|
  {
    if steps != [] {
      var step, rest := steps[0], steps[1..];
      assert step in steps && PoolsAt(rest, stage) <= PoolsAt(steps, stage);
      if step.stage != stage {
        StageStaysLevel(race, fold, other, wallet, rest, stage, shared, pools, later);
      } else {
        assert step.kind.Swap? ==> step.kind.pool in PoolsAt(steps, stage);
        StepStaysLevel(race, fold, other, wallet, step, pools);
        OneFewerPool(steps, stage, shared);
        StageStaysLevel(race, RunStep(fold, wallet, step).value, RunStep(other, wallet, step, race.accrual).value, wallet,
                        rest, stage, shared, if step.kind.Swap? then pools - {step.kind.pool} else pools, later);
      }
    }
  }

  /** Outside the shared stage a step's pool is not met again. */
  lemma OneFewerPool(steps: seq<Step>, stage: nat, shared: nat)
    requires steps != [] && steps[0].stage == stage != shared && ReusedOnlyIn(steps, shared)
    ensures steps[0].kind.Swap? ==> steps[0].kind.pool !in PoolsAt(steps[1..], stage)
  {
    if steps[0].kind.Swap? {
      forall j | 0 <= j < |steps| - 1 ensures steps[1..][j].kind != steps[0].kind {
        assert steps[1..][j] == steps[j + 1];
      }
    }
  }

  // ---- Once the program has fallen behind ----

  /** The program's side holds no more of anything, and neither has used the given pools. */
  ghost predicate Behind(race: Race, fold: Fold, other: Fold, pools: set<PoolRef>) {
    Poorer(fold.next, other.next) && race.AllUntouched(fold, other, pools)
  }

  lemma StepStaysBehind(race: Race, fold: Fold, other: Fold, wallet: Wallet, otherWallet: Wallet, step: Step, pools: set<PoolRef>)
    requires race.Fair() && step in race.steps && Behind(race, fold, other, pools) && Poorer(wallet, otherWallet)
    requires step.kind.Swap? ==> step.kind.pool in pools
    ensures RunStep(fold, wallet, step).Ok? && RunStep(other, otherWallet, step, race.accrual).Ok?
    ensures Behind(race, RunStep(fold, wallet, step).value, RunStep(other, otherWallet, step, race.accrual).value,
                   if step.kind.Swap? then pools - {step.kind.pool} else pools)
  {
    var amount := WeightedAmount(Balance(wallet, step.tokenIn), step.weight);
    var more := WeightedAmount(Balance(otherWallet, step.tokenIn), step.weight);
    WeightedAmountGrows(Balance(wallet, step.tokenIn), Balance(otherWallet, step.tokenIn), step.weight);
    if step.kind.Swap? {
      var p := step.kind.pool;
      var pool, rival := race.start[p], race.rival[p];
      assert race.Untouched(fold, other, p);
      PoorerHopPaysNoMore(race.accrual, pool, rival, step.tokenIn, step.tokenOut, amount, more);
      CreditGrows(fold.next, other.next, step.tokenOut, SwapOf(pool, step.tokenIn, amount).value.1.out,
                  SwapUnder(race.accrual, rival, step.tokenIn, more).value.1.out);
      UsedUp(race, fold, other, wallet, otherWallet, step, pools - {p});
    } else {
      CreditGrows(fold.next, other.next, step.tokenOut, amount, more);
      UsedUp(race, fold, other, wallet, otherWallet, step, pools);
    }
  }

  lemma {:induction false} StageStaysBehind(race: Race, fold: Fold, other: Fold, wallet: Wallet, otherWallet: Wallet, steps: seq<Step>,
                                            stage: nat, shared: nat, pools: set<PoolRef>, later: set<PoolRef>)
    requires race.Fair() && Within(steps, race.steps) && ReusedOnlyIn(steps, shared) && stage != shared
    requires Behind(race, fold, other, pools) && later <= pools && Poorer(wallet, otherWallet)
    requires PoolsAt(steps, stage) <= pools - later
    ensures RunStage(fold, wallet, steps, stage).Ok? && RunStage(other, otherWallet, steps, stage, race.accrual).Ok?
    ensures Behind(race, RunStage(fold, wallet, steps, stage).value,
                   RunStage(other, otherWallet, steps, stage, race.accrual).value, later)
    decreases |steps|
  {
    if steps != [] {
      var step, rest := steps[0], steps[1..];
      assert step in steps && PoolsAt(rest, stage) <= PoolsAt(steps, stage);
      if step.stage != stage {
        StageStaysBehind(race, fold, other, wallet, otherWallet, rest, stage, shared, pools, later);
      } else {
        assert step.kind.Swap? ==> step.kind.pool in PoolsAt(steps, stage);
        StepStaysBehind(race, fold, other, wallet, otherWallet, step, pools);
        OneFewerPool(steps, stage, shared);
        StageStaysBehind(race, RunStep(fold, wallet, step).value, RunStep(other, otherWallet, step, race.accrual).value,
                         wallet, otherWallet, rest, stage, shared,
                         if step.kind.Swap? then pools - {step.kind.pool} else pools, later);
      }
    }
  }

  // ---- The stage in which pools are reused ----

  /** Every pool swapped through in a stage is swapped through in one direction there. */
  predicate OneWayIn(steps: seq<Step>, stage: nat) {
    forall a, b | a in steps && b in steps && a.stage == stage && b.stage == stage && a.kind.Swap? && b.kind == a.kind ::
      a.tokenIn == b.tokenIn
  }

  /** The stage's pools whose reserve of a token only payouts set apart: all of them under the program's
      own accrual, else those the stage never sells that token through. */
  function Counted(race: Race, stage: nat, token: TokenAddress): (r: set<PoolRef>)
    ensures r <= PoolsAt(race.steps, stage)
  {
    set p <- PoolsAt(race.steps, stage) | race.accrual.PreFee? ||
      forall step <- race.steps :: step.stage == stage && step.kind == Swap(p) ==> step.tokenIn != token
  }

  ghost predicate PoolsAhead(race: Race, stage: nat, fold: Fold, other: Fold) {
    forall p <- PoolsAt(race.steps, stage) :: p in fold.book && p in other.book && Ahead(fold.book[p], other.book[p])
  }

  /** What the program's side has been paid of a token, with the reserves still to be paid from, is no
      more than the rival's, unless the rival's is past counting. */
  ghost predicate PaidUp(race: Race, stage: nat, fold: Fold, other: Fold, token: TokenAddress)
    requires PoolsAhead(race, stage, fold, other)
  {
    || Balance(other.next, token) == U256_MAX
    || Balance(fold.next, token) + ReservesIn(fold.book, Counted(race, stage, token), token)
       <= Balance(other.next, token) + ReservesIn(other.book, Counted(race, stage, token), token)
  }

  ghost predicate Leads(race: Race, stage: nat, fold: Fold, other: Fold) {
    && Covers(fold.book, race.steps)
    && PoolsAhead(race, stage, fold, other)
    && forall token :: PaidUp(race, stage, fold, other, token)
  }

  lemma ReservesInMoved(book: Book, pools: set<PoolRef>, p: PoolRef, after: Pool, token: TokenAddress)
    requires pools <= book.Keys && p in book
    ensures ReservesIn(book[p := after], pools, token)
            == ReservesIn(book, pools, token) + if p in pools then after.ReserveOf(token) - book[p].ReserveOf(token) else 0
  {
    var moved := book[p := after];
    if p in pools {
      ReservesWithout(book, pools, p, token);
      ReservesWithout(moved, pools, p, token);
      ReservesAgree(book, moved, pools - {p}, token);
    } else {
      ReservesAgree(book, moved, pools, token);
    }
  }

  lemma {:induction false} ReservesBehind(book: Book, other: Book, pools: set<PoolRef>, token: TokenAddress)
    requires pools <= book.Keys && pools <= other.Keys
    requires forall p <- pools :: Ahead(book[p], other[p])
    ensures ReservesIn(other, pools, token) <= ReservesIn(book, pools, token)
    decreases |pools|
  {
    if pools != {} {
      var p :| p in pools;
      ReservesWithout(book, pools, p, token);
      ReservesWithout(other, pools, p, token);
      ReservesBehind(book, other, pools - {p}, token);
    }
  }

  /** A sale pays from a counted pool, and leaves every counted lead no larger than what it paid less. */
  lemma SwapCounts(race: Race, stage: nat, fold: Fold, other: Fold, step: Step, amount: U256, token: TokenAddress)
    requires step in race.steps && step.stage == stage && step.kind.Swap?
    requires Leads(race, stage, fold, other) && (race.accrual.Net? ==> OneWayIn(race.steps, stage))
    ensures step.kind.pool in PoolsAt(race.steps, stage)
    ensures fold.book[step.kind.pool].Trades(step.tokenIn, step.tokenOut)
    ensures SwapOf(fold.book[step.kind.pool], step.tokenIn, amount).Ok?
    ensures SwapUnder(race.accrual, other.book[step.kind.pool], step.tokenIn, amount).Ok?
    ensures
      var p := step.kind.pool;
      var (after, hop) := SwapOf(fold.book[p], step.tokenIn, amount).value;
      var (otherAfter, otherHop) := SwapUnder(race.accrual, other.book[p], step.tokenIn, amount).value;
      && Ahead(after, otherAfter)
      && (token == step.tokenOut ==> p in Counted(race, stage, token))
      && (p in Counted(race, stage, token) ==>
            var (paid, otherPaid) := if token == step.tokenOut then (hop.out, otherHop.out) else (0, 0);
            paid + Lead(after, otherAfter, token) <= otherPaid + Lead(fold.book[p], other.book[p], token))
  {
    var p := step.kind.pool;
    assert p in PoolsAt(race.steps, stage);
    var pool, rival := fold.book[p], other.book[p];
    SwapsCompare(race.accrual, pool, rival, step.tokenIn, step.tokenOut, amount);
    SwapUnderEffect(PreFee, pool, step.tokenIn, step.tokenOut, amount);
    OtherTokensAbsent(pool, step.tokenIn, step.tokenOut, token);
    OtherTokensAbsent(SwapOf(pool, step.tokenIn, amount).value.0, step.tokenIn, step.tokenOut, token);
  }

  /** Paying on both sides out of what is counted keeps a token paid up. */
  lemma PayingKeepsPaidUp(held: U256, paid: U256, otherHeld: U256, otherPaid: U256, counted: nat, otherCounted: nat,
                          left: nat, otherLeft: nat)
    requires otherHeld == U256_MAX || held + counted <= otherHeld + otherCounted
    requires paid + left + otherCounted <= otherPaid + otherLeft + counted
    ensures SaturatingAdd(otherHeld, otherPaid) == U256_MAX
            || SaturatingAdd(held, paid) + left <= SaturatingAdd(otherHeld, otherPaid) + otherLeft
  {
  }

  /** What one swap of a stage makes of both sides. */
  lemma SwapMoves(race: Race, stage: nat, fold: Fold, other: Fold, wallet: Wallet, step: Step)
    requires step in race.steps && step.stage == stage && step.kind.Swap?
    requires Leads(race, stage, fold, other) && (race.accrual.Net? ==> OneWayIn(race.steps, stage))
    requires WeightedAmount(Balance(wallet, step.tokenIn), step.weight) > 0
    ensures RunStep(fold, wallet, step).Ok? && RunStep(other, wallet, step, race.accrual).Ok?
    ensures PoolsAhead(race, stage, RunStep(fold, wallet, step).value, RunStep(other, wallet, step, race.accrual).value)
  {
    var p, amount := step.kind.pool, WeightedAmount(Balance(wallet, step.tokenIn), step.weight);
    SwapCounts(race, stage, fold, other, step, amount, step.tokenOut);
  }

  /** What is counted of a token, before and after a swap. */
  lemma SwapMovesCounted(race: Race, stage: nat, fold: Fold, other: Fold, step: Step, amount: U256, token: TokenAddress)
    requires step in race.steps && step.stage == stage && step.kind.Swap?
    requires Leads(race, stage, fold, other) && (race.accrual.Net? ==> OneWayIn(race.steps, stage))
    requires SwapOf(fold.book[step.kind.pool], step.tokenIn, amount).Ok?
    requires step.kind.pool in other.book && SwapUnder(race.accrual, other.book[step.kind.pool], step.tokenIn, amount).Ok?
    ensures
      var (p, counted) := (step.kind.pool, Counted(race, stage, token));
      var (pool, hop) := SwapOf(fold.book[p], step.tokenIn, amount).value;
      var (rival, otherHop) := SwapUnder(race.accrual, other.book[p], step.tokenIn, amount).value;
      var (paid, otherPaid) := if token == step.tokenOut then (hop.out, otherHop.out) else (0, 0);
      && counted <= fold.book.Keys && counted <= other.book.Keys
      && paid + ReservesIn(fold.book[p := pool], counted, token) + ReservesIn(other.book, counted, token)
         <= otherPaid + ReservesIn(other.book[p := rival], counted, token) + ReservesIn(fold.book, counted, token)
  {
    var p, counted := step.kind.pool, Counted(race, stage, token);
    SwapCounts(race, stage, fold, other, step, amount, token);
    ReservesInMoved(fold.book, counted, p, SwapOf(fold.book[p], step.tokenIn, amount).value.0, token);
    ReservesInMoved(other.book, counted, p, SwapUnder(race.accrual, other.book[p], step.tokenIn, amount).value.0, token);
  }

  lemma SwapKeepsPaidUp(race: Race, stage: nat, fold: Fold, other: Fold, wallet: Wallet, step: Step, token: TokenAddress)
    requires step in race.steps && step.stage == stage && step.kind.Swap?
    requires Leads(race, stage, fold, other) && (race.accrual.Net? ==> OneWayIn(race.steps, stage))
    requires WeightedAmount(Balance(wallet, step.tokenIn), step.weight) > 0
    requires RunStep(fold, wallet, step).Ok? && RunStep(other, wallet, step, race.accrual).Ok?
    requires PoolsAhead(race, stage, RunStep(fold, wallet, step).value, RunStep(other, wallet, step, race.accrual).value)
    ensures PaidUp(race, stage, RunStep(fold, wallet, step).value, RunStep(other, wallet, step, race.accrual).value, token)
  {
    var p, amount := step.kind.pool, WeightedAmount(Balance(wallet, step.tokenIn), step.weight);
    assert p in PoolsAt(race.steps, stage);
    var (pool, hop) := SwapOf(fold.book[p], step.tokenIn, amount).value;
    var (rival, otherHop) := SwapUnder(race.accrual, other.book[p], step.tokenIn, amount).value;
    var counted := Counted(race, stage, token);
    SwapMovesCounted(race, stage, fold, other, step, amount, token);
    assert PaidUp(race, stage, fold, other, token);
    var (paid, otherPaid) := if token == step.tokenOut then (hop.out, otherHop.out) else (0, 0);
    PayingKeepsPaidUp(Balance(fold.next, token), paid, Balance(other.next, token), otherPaid,
                      ReservesIn(fold.book, counted, token), ReservesIn(other.book, counted, token),
                      ReservesIn(fold.book[p := pool], counted, token), ReservesIn(other.book[p := rival], counted, token));
  }

  lemma StepLeads(race: Race, stage: nat, fold: Fold, other: Fold, wallet: Wallet, step: Step, later: set<PoolRef>)
    requires step in race.steps && step.stage == stage
    requires Leads(race, stage, fold, other) && (race.accrual.Net? ==> OneWayIn(race.steps, stage))
    requires race.AllUntouched(fold, other, later) && later !! PoolsAt(race.steps, stage)
    ensures RunStep(fold, wallet, step).Ok? && RunStep(other, wallet, step, race.accrual).Ok?
    ensures Leads(race, stage, RunStep(fold, wallet, step).value, RunStep(other, wallet, step, race.accrual).value)
    ensures race.AllUntouched(RunStep(fold, wallet, step).value, RunStep(other, wallet, step, race.accrual).value, later)
  {
    StepCovers(fold, wallet, step, race.steps);
    var amount := WeightedAmount(Balance(wallet, step.tokenIn), step.weight);
    if step.kind.Swap? && amount > 0 {
      SwapMoves(race, stage, fold, other, wallet, step);
      forall token
        ensures PaidUp(race, stage, RunStep(fold, wallet, step).value, RunStep(other, wallet, step, race.accrual).value, token)
      {
        SwapKeepsPaidUp(race, stage, fold, other, wallet, step, token);
      }
    } else if amount > 0 {
      forall token
        ensures PaidUp(race, stage, RunStep(fold, wallet, step).value, RunStep(other, wallet, step, race.accrual).value, token)
      {
        assert PaidUp(race, stage, fold, other, token);
      }
    }
    assert step.kind.Swap? ==> step.kind.pool in PoolsAt(race.steps, stage);
    UsedUp(race, fold, other, wallet, wallet, step, later);
  }

  lemma {:induction false} StageLeads(race: Race, stage: nat, fold: Fold, other: Fold, wallet: Wallet, steps: seq<Step>,
                                      later: set<PoolRef>)
    requires Within(steps, race.steps)
    requires Leads(race, stage, fold, other) && (race.accrual.Net? ==> OneWayIn(race.steps, stage))
    requires race.AllUntouched(fold, other, later) && later !! PoolsAt(race.steps, stage)
    ensures RunStage(fold, wallet, steps, stage).Ok? && RunStage(other, wallet, steps, stage, race.accrual).Ok?
    ensures Behind(race, RunStage(fold, wallet, steps, stage).value,
                   RunStage(other, wallet, steps, stage, race.accrual).value, later)
    decreases |steps|
  {
    if steps == [] {
      forall token ensures Balance(fold.next, token) <= Balance(other.next, token) {
        assert PaidUp(race, stage, fold, other, token);
        ReservesBehind(fold.book, other.book, Counted(race, stage, token), token);
      }
    } else if steps[0].stage != stage {
      StageLeads(race, stage, fold, other, wallet, steps[1..], later);
    } else {
      assert steps[0] in steps;
      StepLeads(race, stage, fold, other, wallet, steps[0], later);
      StageLeads(race, stage, RunStep(fold, wallet, steps[0]).value, RunStep(other, wallet, steps[0], race.accrual).value,
                 wallet, steps[1..], later);
    }
  }

  // ---- Whole plans ----

  /** Where both sides stand before a stage: agreeing up to the shared one, the program behind after it. */
  ghost predicate Standing(race: Race, shared: nat, fold: Fold, other: Fold, stage: nat) {
    && Covers(fold.book, race.steps)
    && (stage <= shared ==> Level(race, fold, other, PoolsFrom(race.steps, stage)))
    && (shared < stage ==> Behind(race, fold, other, PoolsFrom(race.steps, stage)))
  }

  ghost predicate Comparable(race: Race, shared: nat) {
    && race.Fair() && ReusedOnlyIn(race.steps, shared)
    && (race.accrual.Net? ==> OneWayIn(race.steps, shared))
    && forall step <- race.steps :: step.kind.Swap? && step.stage < shared ==>
         race.start[step.kind.pool] == race.rival[step.kind.pool]
  }

  lemma SharedStageOpens(race: Race, shared: nat, fold: Fold, other: Fold)
    requires Comparable(race, shared) && Standing(race, shared, fold, other, shared)
    ensures Leads(race, shared, fold.(next := map[]), other.(next := map[]))
  {
    var begun, otherBegun := fold.(next := map[]), other.(next := map[]);
    forall p | p in PoolsAt(race.steps, shared)
      ensures race.Untouched(fold, other, p) && race.Roomier(p)
    {
      var step :| step in race.steps && step.kind == Swap(p) && step.stage == shared;
      assert p in PoolsFrom(race.steps, shared);
    }
    forall token ensures PaidUp(race, shared, begun, otherBegun, token) {
      ReservesAgree(fold.book, other.book, Counted(race, shared, token), token);
    }
  }

  lemma StageRaces(race: Race, shared: nat, fold: Fold, other: Fold, stage: nat)
    requires Comparable(race, shared) && Standing(race, shared, fold, other, stage)
    ensures RunStage(fold.(next := map[]), fold.next, race.steps, stage).Ok?
    ensures RunStage(other.(next := map[]), other.next, race.steps, stage, race.accrual).Ok?
    ensures Standing(race, shared, RunStage(fold.(next := map[]), fold.next, race.steps, stage).value,
                     RunStage(other.(next := map[]), other.next, race.steps, stage, race.accrual).value, stage + 1)
  {
    var pools, later := PoolsFrom(race.steps, stage), PoolsFrom(race.steps, stage + 1);
    var begun, otherBegun := fold.(next := map[]), other.(next := map[]);
    StagesShareNoPool(race.steps, shared, stage);
    StageConserves(begun, fold.next, race.steps, stage, race.steps, {});
    if stage < shared {
      StageStaysLevel(race, begun, otherBegun, fold.next, race.steps, stage, shared, pools, later);
    } else if stage == shared {
      SharedStageOpens(race, shared, fold, other);
      StageLeads(race, shared, begun, otherBegun, fold.next, race.steps, later);
    } else {
      StageStaysBehind(race, begun, otherBegun, fold.next, other.next, race.steps, stage, shared, pools, later);
    }
  }

  lemma {:induction false} StagesRace(race: Race, shared: nat, fold: Fold, other: Fold, stage: nat, stop: nat)
    requires Comparable(race, shared) && Standing(race, shared, fold, other, stage) && stage <= stop
    ensures RunStages(fold, race.steps, stage, stop).Ok? && RunStages(other, race.steps, stage, stop, race.accrual).Ok?
    ensures Standing(race, shared, RunStages(fold, race.steps, stage, stop).value,
                     RunStages(other, race.steps, stage, stop, race.accrual).value, stop)
    decreases stop - stage
  {
    if stage < stop {
      StageRaces(race, shared, fold, other, stage);
      StagesRace(race, shared, RunStage(fold.(next := map[]), fold.next, race.steps, stage).value,
                 RunStage(other.(next := map[]), other.next, race.steps, stage, race.accrual).value, stage + 1, stop);
    }
  }

  /** The rival's pools: the same, with no less room. */
  ghost predicate Widens(resolve: Resolver, wider: Resolver) {
    forall p :: match resolve(p)
                case None => wider(p).None?
                case Some(pool) => wider(p).Some? && Ahead(pool, wider(p).value)
                                   && pool.reserve0 == wider(p).value.reserve0 && pool.reserve1 == wider(p).value.reserve1
  }

  ghost predicate ComparablePlans(plan: Plan, resolve: Resolver, wider: Resolver, accrual: Accrual, shared: nat) {
    && WellFormed(plan, resolve) && Widens(resolve, wider) && ReusedOnlyIn(plan.steps, shared)
    && (accrual.Net? ==> OneWayIn(plan.steps, shared))
    && forall step <- plan.steps :: step.kind.Swap? && step.stage < shared ==> resolve(step.kind.pool) == wider(step.kind.pool)
  }

  lemma PlansStart(plan: Plan, resolve: Resolver, wider: Resolver, accrual: Accrual, shared: nat, entry: U256) returns (race: Race)
    requires ComparablePlans(plan, resolve, wider, accrual, shared)
    ensures Opening(plan, resolve, entry).Ok? && Opening(plan, wider, entry).Ok?
    ensures race.steps == plan.steps && race.accrual == accrual && Comparable(race, shared)
    ensures Standing(race, shared, Opening(plan, resolve, entry).value, Opening(plan, wider, entry).value, 0)
  {
    forall step | step in plan.steps && step.kind.Swap? ensures WellFormedStep(step, wider) {
      assert WellFormedStep(step, resolve);
      assert Ahead(resolve(step.kind.pool).value, wider(step.kind.pool).value);
    }
    OpeningBook(plan, resolve, entry);
    OpeningBook(plan, wider, entry);
    var fold, other := Opening(plan, resolve, entry).value, Opening(plan, wider, entry).value;
    race := Race(accrual, plan.steps, fold.book, other.book);
    forall step | step in plan.steps && step.kind.Swap? ensures race.Roomier(step.kind.pool) {
      assert step.kind.pool in fold.book && step.kind.pool in other.book;
    }
  }

  /** Where every pool that is reused is reused within one stage, the program's output is at most that
      of the same plan over pools with more room, in either accrual: under the other accrual each reused
      pool must be used in one direction, and the extra room must not have been used before that stage. */
  lemma ReuseInOneStageNeverOverstates(plan: Plan, resolve: Resolver, wider: Resolver, accrual: Accrual, shared: nat, entry: U256)
    requires ComparablePlans(plan, resolve, wider, accrual, shared)
    ensures Replay(plan, resolve, entry).Ok? && Replay(plan, wider, entry, accrual).Ok?
    ensures Replay(plan, resolve, entry).value.output <= Replay(plan, wider, entry, accrual).value.output
  {
    var race := PlansStart(plan, resolve, wider, accrual, shared, entry);
    var stop := StageCount(plan.steps);
    StagesRace(race, shared, Opening(plan, resolve, entry).value, Opening(plan, wider, entry).value, 0, stop);
    var fold, other := Closing(plan, resolve, entry).value, Closing(plan, wider, entry, accrual).value;
    assert Balance(fold.next, plan.outputAsset) <= Balance(other.next, plan.outputAsset);
  }

  /** The gate never overstates a plan whose reused pools are all reused within one stage, each in one
      direction: after-fee accrual would output at least as much. */
  lemma GateNeverOverstatesReuseInOneStage(plan: Plan, resolve: Resolver, shared: nat, entry: U256)
    requires WellFormed(plan, resolve) && ReusedOnlyIn(plan.steps, shared) && OneWayIn(plan.steps, shared)
    ensures Replay(plan, resolve, entry).Ok? && Replay(plan, resolve, entry, Net).Ok?
    ensures Replay(plan, resolve, entry).value.output <= Replay(plan, resolve, entry, Net).value.output
  {
    ReuseInOneStageNeverOverstates(plan, resolve, resolve, Net, shared, entry);
  }

  /** Without reuse the accrual makes no difference at all. */
  lemma AccrualNeedsReuse(plan: Plan, resolve: Resolver, entry: U256)
    requires WellFormed(plan, resolve) && EachPoolOnce(plan.steps)
    ensures Replay(plan, resolve, entry).Ok?
    ensures Replay(plan, resolve, entry, Net) == Replay(plan, resolve, entry)
  {
    var stop := StageCount(plan.steps);
    assert OneWayIn(plan.steps, stop);
    var race := PlansStart(plan, resolve, resolve, Net, stop, entry);
    StagesRace(race, stop, Opening(plan, resolve, entry).value, Opening(plan, resolve, entry).value, 0, stop);
  }

  lemma LiftingWidens(resolve: Resolver)
    ensures Widens(resolve, Lifted(resolve))
  {
  }

  /** A flagged output is a lower bound for every plan that reuses pools, if at all, only in the first
      stage that swaps: whatever its stages, weights, fees, directions, carries and bridges, it outputs at
      most what pools without any tick boundary would give, and exactly that when unflagged. */
  lemma OutputIsALowerBound(plan: Plan, resolve: Resolver, shared: nat, entry: U256)
    requires WellFormed(plan, resolve) && ReusedOnlyIn(plan.steps, shared)
    requires forall step <- plan.steps :: step.kind.Swap? ==> shared <= step.stage
    ensures Replay(plan, resolve, entry).Ok? && Replay(plan, Lifted(resolve), entry).Ok?
    ensures Replay(plan, resolve, entry).value.output <= Replay(plan, Lifted(resolve), entry).value.output
    ensures !Replay(plan, resolve, entry).value.hitTickLimit ==>
      Replay(plan, resolve, entry).value.output == Replay(plan, Lifted(resolve), entry).value.output
  {
    LiftingWidens(resolve);
    ReuseInOneStageNeverOverstates(plan, resolve, Lifted(resolve), PreFee, shared, entry);
    if !Replay(plan, resolve, entry).value.hitTickLimit {
      UnflaggedReplayIsExact(plan, resolve, entry);
    }
  }

  /** In particular for every plan that uses each pool once. */
  lemma OutputIsALowerBoundWithoutReuse(plan: Plan, resolve: Resolver, entry: U256)
    requires WellFormed(plan, resolve) && EachPoolOnce(plan.steps)
    ensures Replay(plan, resolve, entry).Ok? && Replay(plan, Lifted(resolve), entry).Ok?
    ensures Replay(plan, resolve, entry).value.output <= Replay(plan, Lifted(resolve), entry).value.output
  {
    OutputIsALowerBound(plan, resolve, 0, entry);
  }
}
