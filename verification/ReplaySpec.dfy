/** The staged replay of an execution plan, as functions on values. */
module ReplaySpec {
  import opened Domain
  import opened FloorMath
  import opened Word256
  import opened LosslessPools

  /** The fixed-point denominator of a step's weight. */
  const WEIGHT_SCALE: nat := 1_000_000_000

  /** A step's weight, already clamped and scaled to parts of `WEIGHT_SCALE`. */
  type ScaledWeight = n: nat | n <= WEIGHT_SCALE

  datatype StepKind = Swap(pool: PoolRef) | Carry | Bridge

  datatype Step = Step(
    stage: nat, tokenIn: TokenAddress, tokenOut: TokenAddress, kind: StepKind, weight: ScaledWeight)

  datatype Plan = Plan(sourceAsset: TokenAddress, outputAsset: TokenAddress, steps: seq<Step>)

  datatype Outcome = Outcome(output: U256, hitTickLimit: bool)

  type Book = map<PoolRef, Pool>
  type Wallet = map<TokenAddress, U256>
  type Resolver = PoolRef -> Option<Pool>

  function Balance(wallet: Wallet, token: TokenAddress): U256 {
    if token in wallet then wallet[token] else 0
  }

  function Credit(wallet: Wallet, token: TokenAddress, amount: U256): Wallet {
    wallet[token := SaturatingAdd(Balance(wallet, token), amount)]
  }

  lemma ScaledShareBound(balance: nat, weight: nat)
    requires weight <= WEIGHT_SCALE
    ensures balance * weight / WEIGHT_SCALE <= balance
  {
    ProductBound(balance, weight, balance, WEIGHT_SCALE);
    FloorAtMost(balance * weight, WEIGHT_SCALE, balance);
  }

  function WeightedAmount(balance: U256, weight: ScaledWeight): (r: U256)
    ensures r <= balance
  {
    ScaledShareBound(balance, weight);
    WideningMul(balance, weight) / WEIGHT_SCALE
  }

  /** A share is the largest amount within its weight of the balance. */
  lemma WeightedAmountIsTheLargestShare(balance: U256, weight: ScaledWeight, amount: nat)
    ensures amount <= WeightedAmount(balance, weight) <==> amount * 1_000_000_000 <= balance * weight
  {
    FloorAtLeast(balance * weight, WEIGHT_SCALE, amount);
  }

  /** What a stage is building: the moved pools, the next wallet, and whether a hop was clamped. */
  datatype Fold = Fold(book: Book, next: Wallet, hit: bool)

  /** One step, in the program's accrual unless another is asked for. */
  function RunStep(fold: Fold, wallet: Wallet, step: Step, accrual: Accrual := PreFee): Result<Fold, ReplayError> {
    var amountIn := WeightedAmount(Balance(wallet, step.tokenIn), step.weight);
    if amountIn == 0 then Ok(fold) else
    match step.kind
    case Swap(pool) =>
      if pool !in fold.book then Err(PoolNotFound) else (
        match SwapUnder(accrual, fold.book[pool], step.tokenIn, amountIn)
        case Err(error) => Err(error)
        case Ok((after, hop)) =>
          Ok(Fold(fold.book[pool := after], Credit(fold.next, step.tokenOut, hop.out),
                  fold.hit || hop.hitLimit)))
    case Carry =>
      if step.tokenIn == step.tokenOut
      then Ok(fold.(next := Credit(fold.next, step.tokenOut, amountIn)))
      else Ok(fold)
    case Bridge =>
      Ok(fold.(next := Credit(fold.next, step.tokenOut, amountIn)))
  }

  function RunStage(fold: Fold, wallet: Wallet, steps: seq<Step>, stage: nat, accrual: Accrual := PreFee): Result<Fold, ReplayError>
    decreases |steps|
  {
    if steps == [] then Ok(fold)
    else if steps[0].stage != stage then RunStage(fold, wallet, steps[1..], stage, accrual)
    else
      match RunStep(fold, wallet, steps[0], accrual)
      case Err(error) => Err(error)
      case Ok(after) => RunStage(after, wallet, steps[1..], stage, accrual)
  }

  /** The stages from `stage` up to but excluding `stop`; the result's `next` is the final wallet. */
  function RunStages(fold: Fold, steps: seq<Step>, stage: nat, stop: nat, accrual: Accrual := PreFee): Result<Fold, ReplayError>
    requires stage <= stop
    decreases stop - stage
  {
    if stage == stop then Ok(fold) else
    match RunStage(fold.(next := map[]), fold.next, steps, stage, accrual)
    case Err(error) => Err(error)
    case Ok(after) => RunStages(after, steps, stage + 1, stop, accrual)
  }

  /** One past the last stage of a plan, and zero for a plan without steps. */
  function StageCount(steps: seq<Step>): (n: nat)
    ensures forall step <- steps :: step.stage < n
    ensures n == 0 <==> steps == []
  {
    if steps == [] then 0 else
      var rest := StageCount(steps[1..]);
      if steps[0].stage < rest then rest else steps[0].stage + 1
  }

  function BuildBook(steps: seq<Step>, resolve: Resolver, book: Book): Result<Book, ReplayError> {
    if steps == [] then Ok(book)
    else if !steps[0].kind.Swap? || steps[0].kind.pool in book then BuildBook(steps[1..], resolve, book)
    else
      match resolve(steps[0].kind.pool)
      case None => Err(PoolNotFound)
      case Some(pool) => BuildBook(steps[1..], resolve, book[steps[0].kind.pool := pool])
  }

  /** The fold a replay starts from: the resolved pools and the whole entry in the source asset. */
  function Opening(plan: Plan, resolve: Resolver, entry: U256): Result<Fold, ReplayError> {
    match BuildBook(plan.steps, resolve, map[])
    case Err(error) => Err(error)
    case Ok(book) => Ok(Fold(book, map[plan.sourceAsset := entry], false))
  }

  /** The fold a replay ends in. */
  function Closing(plan: Plan, resolve: Resolver, entry: U256, accrual: Accrual := PreFee): Result<Fold, ReplayError> {
    match Opening(plan, resolve, entry)
    case Err(error) => Err(error)
    case Ok(fold) => RunStages(fold, plan.steps, 0, StageCount(plan.steps), accrual)
  }

  function Replay(plan: Plan, resolve: Resolver, entry: U256, accrual: Accrual := PreFee): Result<Outcome, ReplayError> {
    match Closing(plan, resolve, entry, accrual)
    case Err(error) => Err(error)
    case Ok(fold) => Ok(Outcome(Balance(fold.next, plan.outputAsset), fold.hit))
  }

  /** A swap names the two tokens of a pool the resolver can produce. */
  predicate WellFormedStep(step: Step, resolve: Resolver) {
    step.kind.Swap? ==>
      var pool := resolve(step.kind.pool);
      pool.Some? && pool.value.Trades(step.tokenIn, step.tokenOut)
  }

  predicate WellFormed(plan: Plan, resolve: Resolver) {
    forall step <- plan.steps :: WellFormedStep(step, resolve)
  }

  predicate BridgeFree(plan: Plan) {
    forall step <- plan.steps :: !step.kind.Bridge?
  }

  /** The scaled weights a stage spends one token with. */
  function SpentWeight(steps: seq<Step>, stage: nat, token: TokenAddress): nat {
    if steps == [] then 0 else
      (if steps[0].stage == stage && steps[0].tokenIn == token then steps[0].weight else 0)
      + SpentWeight(steps[1..], stage, token)
  }

  /** No stage spends more than the whole of any token. */
  ghost predicate NotOverspent(plan: Plan) {
    forall stage: nat, token :: SpentWeight(plan.steps, stage, token) <= WEIGHT_SCALE
  }
}
