/** One constant-product pool of the integer replay: its swap, and what a swap can and cannot do. */
module LosslessPools {
  import opened Domain
  import opened FloorMath
  import opened Word256

  /** The fee denominator: `feePips` is parts per million of the input taken as fee. */
  const PIPS_DENOMINATOR: nat := 1_000_000

  datatype ReplayError = PoolNotFound | TokenNotInPool

  datatype Hop = Hop(out: U256, hitLimit: bool)

  /** The value of a pool entry: what the in-place object below stands for at one moment. */
  datatype Pool = Pool(
    token0: TokenAddress, token1: TokenAddress,
    reserve0: U256, reserve1: U256, feePips: U32,
    swapLimit0: U256, swapLimit1: U256)
  {
    predicate Trades(tokenIn: TokenAddress, tokenOut: TokenAddress) {
      tokenIn != tokenOut && {tokenIn, tokenOut} == {token0, token1}
    }

    function ReserveOf(token: TokenAddress): U256 {
      if token == token0 then reserve0 else if token == token1 then reserve1 else 0
    }

    function LimitOf(token: TokenAddress): U256 {
      if token == token0 then swapLimit0 else swapLimit1
    }
  }

  function AfterFee(amountIn: U256, feePips: U32): (r: U256)
    ensures r <= amountIn
  {
    var keep := if feePips <= PIPS_DENOMINATOR then PIPS_DENOMINATOR - feePips else 0;
    ProductBound(amountIn, keep, amountIn, PIPS_DENOMINATOR);
    FloorAtMost(amountIn * keep, PIPS_DENOMINATOR, amountIn);
    WideningMul(amountIn, keep) / PIPS_DENOMINATOR
  }

  /** What a fee leaves is the largest amount within the share it keeps: nothing from 100% on. */
  lemma AfterFeeIsTheLargestKept(amountIn: U256, feePips: U32, amount: nat)
    ensures feePips <= 1_000_000 ==>
      (amount <= AfterFee(amountIn, feePips) <==> amount * 1_000_000 <= amountIn * (1_000_000 - feePips))
    ensures 1_000_000 <= feePips ==> AfterFee(amountIn, feePips) == 0
  {
    if feePips <= PIPS_DENOMINATOR {
      FloorAtLeast(amountIn * (PIPS_DENOMINATOR - feePips), PIPS_DENOMINATOR, amount);
    }
    if PIPS_DENOMINATOR <= feePips {
      UniqueRemainder(amountIn * 0, PIPS_DENOMINATOR, 0, 0);
    }
  }

  function Capped(amountIn: U256, feePips: U32, limit: U256): (r: U256)
    ensures r <= amountIn && r <= limit
  {
    var afterFee := AfterFee(amountIn, feePips);
    if afterFee > limit then limit else afterFee
  }

  /** A pool cannot owe more than it holds. */
  lemma ShareBound(x: nat, y: nat, c: nat)
    requires x + c > 0
    ensures y * c / (x + c) <= y
  {
    ProductBound(y, c, y, x + c);
    FloorAtMost(y * c, x + c, y);
  }

  /** What a pool holding `x` and `y` pays out of `y` for `c` arriving on the `x` side. */
  function Payout(x: U256, y: U256, c: U256): (out: U256)
    ensures out <= y
  {
    var denominator := WideningAdd(x, c);
    if denominator == 0 then 0 else
      ShareBound(x, y, c);
      WideningMul(y, c) / denominator
  }

  function Quote(x: U256, y: U256, limit: U256, feePips: U32, amountIn: U256): Hop {
    Hop(Payout(x, y, Capped(amountIn, feePips, limit)), AfterFee(amountIn, feePips) > limit)
  }

  lemma ExpandRemainder(x: nat, y: nat, c: nat, z: nat)
    ensures (x + c) * (y - z) == x * y + y * c - z * (x + c)
  {
  }

  /** The payout is the largest withdrawal that leaves the reserve product, taken over the capped
      input, no lower than it was. */
  lemma PayoutIsTheLargestKeepingTheProduct(x: U256, y: U256, c: U256, z: U256)
    requires x + c > 0 && z <= y
    ensures z <= Payout(x, y, c) <==> x * y <= (x + c) * (y - z)
  {
    FloorAtLeast(y * c, x + c, z);
    ExpandRemainder(x, y, c, z);
  }

  lemma PayoutKeepsTheProduct(x: U256, y: U256, c: U256)
    ensures x * y <= (x + c) * (y - Payout(x, y, c))
  {
    if x + c > 0 {
      PayoutIsTheLargestKeepingTheProduct(x, y, c, Payout(x, y, c));
    }
  }

  /** A pool that takes fees has a gap between what arrives and what buys. */
  lemma SwapKeepsTheProduct(x: U256, y: U256, c: U256, a: nat)
    requires c <= a
    ensures x * y <= (x + a) * (y - Payout(x, y, c))
  {
    PayoutKeepsTheProduct(x, y, c);
    var rest := y - Payout(x, y, c);
    ProductBound(x + c, rest, x + a, rest);
  }

  function SwapOf(pool: Pool, tokenIn: TokenAddress, amountIn: U256): Result<(Pool, Hop), ReplayError> {
    if tokenIn == pool.token0 then
      var hop := Quote(pool.reserve0, pool.reserve1, pool.swapLimit0, pool.feePips, amountIn);
      Ok((pool.(reserve0 := SaturatingAdd(pool.reserve0, amountIn),
                reserve1 := SaturatingSub(pool.reserve1, hop.out)), hop))
    else if tokenIn == pool.token1 then
      var hop := Quote(pool.reserve1, pool.reserve0, pool.swapLimit1, pool.feePips, amountIn);
      Ok((pool.(reserve1 := SaturatingAdd(pool.reserve1, amountIn),
                reserve0 := SaturatingSub(pool.reserve0, hop.out)), hop))
    else
      Err(TokenNotInPool)
  }

  /** Which part of an input a reserve keeps: all of it, as the program has it, or only what bought. */
  datatype Accrual = PreFee | Net

  /** The swap under either convention; under `PreFee` it is the program's own. */
  function SwapUnder(accrual: Accrual, pool: Pool, tokenIn: TokenAddress, amountIn: U256): Result<(Pool, Hop), ReplayError> {
    match SwapOf(pool, tokenIn, amountIn)
    case Err(error) => Err(error)
    case Ok((after, hop)) =>
      if accrual.PreFee? then Ok((after, hop)) else
      var grown := SaturatingAdd(pool.ReserveOf(tokenIn), Capped(amountIn, pool.feePips, pool.LimitOf(tokenIn)));
      Ok((if tokenIn == pool.token0 then after.(reserve0 := grown) else after.(reserve1 := grown), hop))
  }

  /** What a swap does to the two reserves, whichever way round the pool names its tokens: the
      output side loses exactly the payout, the input side gains the whole pre-fee input unless it
      saturates, and the payout is at most what keeps the product over the capped input. */
  lemma SwapEffect(pool: Pool, tokenIn: TokenAddress, tokenOut: TokenAddress, amountIn: U256)
    requires pool.Trades(tokenIn, tokenOut)
    ensures SwapOf(pool, tokenIn, amountIn).Ok?
    ensures
      var (after, hop) := SwapOf(pool, tokenIn, amountIn).value;
      var x, y := pool.ReserveOf(tokenIn), pool.ReserveOf(tokenOut);
      var c := Capped(amountIn, pool.feePips, pool.LimitOf(tokenIn));
      && hop.out == Payout(x, y, c)
      && (hop.hitLimit <==> AfterFee(amountIn, pool.feePips) > pool.LimitOf(tokenIn))
      && after.ReserveOf(tokenIn) == SaturatingAdd(x, amountIn)
      && after.ReserveOf(tokenOut) == y - hop.out
      && after == pool.(reserve0 := after.reserve0, reserve1 := after.reserve1)
      && after.Trades(tokenIn, tokenOut)
  {
    assert tokenIn in {pool.token0, pool.token1} && tokenOut in {pool.token0, pool.token1};
    assert pool.token0 in {tokenIn, tokenOut} && pool.token1 in {tokenIn, tokenOut};
  }

  lemma ProductEitherWay(pool: Pool, a: TokenAddress, b: TokenAddress)
    requires pool.Trades(a, b)
    ensures pool.reserve0 * pool.reserve1 == pool.ReserveOf(a) * pool.ReserveOf(b)
  {
    assert a in {pool.token0, pool.token1} && b in {pool.token0, pool.token1};
  }

  /** The reserve product never falls across a swap as long as the input that buys fits the input-side
      reserve, whether or not the rest of the input does. */
  lemma ReserveProductNeverFalls(pool: Pool, tokenIn: TokenAddress, tokenOut: TokenAddress, amountIn: U256)
    requires pool.Trades(tokenIn, tokenOut)
    requires pool.ReserveOf(tokenIn) + Capped(amountIn, pool.feePips, pool.LimitOf(tokenIn)) <= U256_MAX
    ensures SwapOf(pool, tokenIn, amountIn).Ok?
    ensures
      var after := SwapOf(pool, tokenIn, amountIn).value.0;
      pool.reserve0 * pool.reserve1 <= after.reserve0 * after.reserve1
  {
    SwapEffect(pool, tokenIn, tokenOut, amountIn);
    ProductEitherWay(pool, tokenIn, tokenOut);
    ProductEitherWay(SwapOf(pool, tokenIn, amountIn).value.0, tokenIn, tokenOut);
    var x := pool.ReserveOf(tokenIn);
    SwapKeepsTheProduct(x, pool.ReserveOf(tokenOut), Capped(amountIn, pool.feePips, pool.LimitOf(tokenIn)),
                        SaturatingAdd(x, amountIn) - x);
  }

  /** The fit is needed: a full input side absorbs the input without growing, and the product falls. */
  lemma ReserveProductFallsWhenSaturated(token0: TokenAddress, token1: TokenAddress)
    requires token0 != token1
    ensures
      var pool := Pool(token0, token1, U256_MAX, 2, 0, U256_MAX, U256_MAX);
      var after := SwapOf(pool, token0, U256_MAX).value.0;
      after.reserve0 * after.reserve1 < pool.reserve0 * pool.reserve1
  {
    var pool := Pool(token0, token1, U256_MAX, 2, 0, U256_MAX, U256_MAX);
    assert AfterFee(U256_MAX, 0) == U256_MAX;
    assert Payout(U256_MAX, 2, U256_MAX) == 1;
  }

  /** The mutable entry of the replay's book. Both directions share one entry. */
  class LosslessPool {
    const token0: TokenAddress
    const token1: TokenAddress
    var reserve0: U256
    var reserve1: U256
    const feePips: U32
    const swapLimit0: U256
    const swapLimit1: U256

    constructor (pool: Pool)
      ensures View() == pool
    {
      token0, token1 := pool.token0, pool.token1;
      reserve0, reserve1 := pool.reserve0, pool.reserve1;
      feePips := pool.feePips;
      swapLimit0, swapLimit1 := pool.swapLimit0, pool.swapLimit1;
    }

    ghost function View(): Pool
      reads this
    {
      Pool(token0, token1, reserve0, reserve1, feePips, swapLimit0, swapLimit1)
    }

    /** Swaps `amountIn` of `tokenIn` for the other token. Every narrowing back to 256 bits is in
        range, and a token the pool does not hold changes nothing. */
    method Swap(tokenIn: TokenAddress, amountIn: U256) returns (r: Result<Hop, ReplayError>)
      modifies this`reserve0, this`reserve1
      ensures match SwapOf(old(View()), tokenIn, amountIn)
              case Ok((after, hop)) => r == Ok(hop) && View() == after
              case Err(error) => r == Err(error) && View() == old(View())
    {
      var forward := tokenIn == token0;
      var x: U256, y: U256, limit: U256;
      if forward {
        x, y, limit := reserve0, reserve1, swapLimit0;
      } else if tokenIn == token1 {
        x, y, limit := reserve1, reserve0, swapLimit1;
      } else {
        return Err(TokenNotInPool);
      }

      var keep := if feePips <= PIPS_DENOMINATOR then PIPS_DENOMINATOR - feePips else 0;
      var afterFee := WideningMul(amountIn, keep) / PIPS_DENOMINATOR;
      assert afterFee == AfterFee(amountIn, feePips);
      var hitLimit := afterFee > limit;
      var capped: U256 := if hitLimit then limit else afterFee;

      var denominator := WideningAdd(x, capped);
      var out := if denominator == 0 then 0 else WideningMul(y, capped) / denominator;
      assert out == Payout(x, y, capped);

      if forward {
        reserve0 := SaturatingAdd(reserve0, amountIn);
        reserve1 := SaturatingSub(reserve1, out);
      } else {
        reserve1 := SaturatingAdd(reserve1, amountIn);
        reserve0 := SaturatingSub(reserve0, out);
      }
      return Ok(Hop(out, hitLimit));
    }
  }
}
