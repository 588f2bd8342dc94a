/** Selling into one pool more than once: what splitting costs, and what the replay's convention of
    adding the pre-fee input to the reserves does to later hops. */
module ReplayReuse {
  import opened Domain
  import opened FloorMath
  import opened Word256
  import opened LosslessPools

  function Sum(amounts: seq<nat>): nat {
    if amounts == [] then 0 else amounts[0] + Sum(amounts[1..])
  }

  datatype Sale = Sale(tokenIn: TokenAddress, amount: U256)

  predicate Takes(pool: Pool, sale: Sale) {
    pool.token0 != pool.token1 && (sale.tokenIn == pool.token0 || sale.tokenIn == pool.token1)
  }

  predicate TakesAll(pool: Pool, sales: seq<Sale>) {
    forall i | 0 <= i < |sales| :: Takes(pool, sales[i])
  }

  function Buys(pool: Pool, sale: Sale): U256 {
    Capped(sale.amount, pool.feePips, pool.LimitOf(sale.tokenIn))
  }

  /** One sale: the replay's swap, its input-side reserve grown by what the convention accrues. */
  function Sell(accrual: Accrual, pool: Pool, sale: Sale): (r: (Pool, U256))
    requires Takes(pool, sale)
    ensures r.0 == pool.(reserve0 := r.0.reserve0, reserve1 := r.0.reserve1)
  {
    var (after, hop) := SwapUnder(accrual, pool, sale.tokenIn, sale.amount).value;
    (after, hop.out)
  }

  /** The pool after a run of sales in any directions. */
  function Trade(accrual: Accrual, pool: Pool, sales: seq<Sale>): (r: Pool)
    requires TakesAll(pool, sales)
    ensures r == pool.(reserve0 := r.reserve0, reserve1 := r.reserve1)
    decreases |sales|
  {
    if sales == [] then pool else Trade(accrual, Sell(accrual, pool, sales[0]).0, sales[1..])
  }

  /** What each sale of a run pays. */
  function Payouts(accrual: Accrual, pool: Pool, sales: seq<Sale>): seq<nat>
    requires TakesAll(pool, sales)
    decreases |sales|
  {
    if sales == [] then [] else
      var (after, out) := Sell(accrual, pool, sales[0]);
      [out] + Payouts(accrual, after, sales[1..])
  }

  /** What a run pays of one of the pool's tokens: a sale of the other token pays it. */
  function Paid(accrual: Accrual, pool: Pool, sales: seq<Sale>, token: TokenAddress): nat
    requires TakesAll(pool, sales)
    decreases |sales|
  {
    if sales == [] then 0 else
      var (after, out) := Sell(accrual, pool, sales[0]);
      (if sales[0].tokenIn != token then out else 0) + Paid(accrual, after, sales[1..], token)
  }

  function Sales(tokenIn: TokenAddress, amounts: seq<U256>): (r: seq<Sale>)
    ensures |r| == |amounts| && forall i | 0 <= i < |r| :: r[i] == Sale(tokenIn, amounts[i])
  {
    seq(|amounts|, i requires 0 <= i < |amounts| => Sale(tokenIn, amounts[i]))
  }

  /** What one sale pays and what it does to either reserve. */
  lemma SellEffect(accrual: Accrual, pool: Pool, sale: Sale, tokenOut: TokenAddress)
    requires pool.Trades(sale.tokenIn, tokenOut)
    ensures Takes(pool, sale)
    ensures
      var (after, out) := Sell(accrual, pool, sale);
      var x, y := pool.ReserveOf(sale.tokenIn), pool.ReserveOf(tokenOut);
      && out == Payout(x, y, Buys(pool, sale))
      && after.ReserveOf(sale.tokenIn) == SaturatingAdd(x, if accrual.PreFee? then sale.amount else Buys(pool, sale))
      && after.ReserveOf(tokenOut) == y - out
      && after.Trades(sale.tokenIn, tokenOut)
  {
    assert sale.tokenIn in {pool.token0, pool.token1};
    SwapEffect(pool, sale.tokenIn, tokenOut, sale.amount);
  }

  lemma SalesTaken(pool: Pool, tokenIn: TokenAddress, tokenOut: TokenAddress, amounts: seq<U256>)
    requires pool.Trades(tokenIn, tokenOut)
    ensures TakesAll(pool, Sales(tokenIn, amounts))
    ensures amounts != [] ==> Sales(tokenIn, amounts)[1..] == Sales(tokenIn, amounts[1..])
  {
    assert tokenIn in {pool.token0, pool.token1} && tokenOut in {pool.token0, pool.token1};
  }

  /** What successive sales into reserves `x`, `y` leave of `y`. */
  function Left(x: U256, y: U256, limit: U256, feePips: U32, amounts: seq<U256>): (r: U256)
    ensures r <= y
    decreases |amounts|
  {
    if amounts == [] then y else
      var c := Capped(amounts[0], feePips, limit);
      Left(SaturatingAdd(x, amounts[0]), y - Payout(x, y, c), limit, feePips, amounts[1..])
  }

  /** The replay's swaps in one direction, as arithmetic on the two reserves. */
  lemma {:induction false} OneWaySales(pool: Pool, tokenIn: TokenAddress, tokenOut: TokenAddress, amounts: seq<U256>)
    requires pool.Trades(tokenIn, tokenOut)
    ensures TakesAll(pool, Sales(tokenIn, amounts))
    ensures
      var sales := Sales(tokenIn, amounts);
      var left := Left(pool.ReserveOf(tokenIn), pool.ReserveOf(tokenOut), pool.LimitOf(tokenIn), pool.feePips, amounts);
      && Trade(PreFee, pool, sales).ReserveOf(tokenOut) == left
      && Paid(PreFee, pool, sales, tokenOut) == pool.ReserveOf(tokenOut) - left
    decreases |amounts|
  {
    SalesTaken(pool, tokenIn, tokenOut, amounts);
    if amounts != [] {
      SellEffect(PreFee, pool, Sale(tokenIn, amounts[0]), tokenOut);
      OneWaySales(Sell(PreFee, pool, Sale(tokenIn, amounts[0])).0, tokenIn, tokenOut, amounts[1..]);
    }
  }

  // ---- Splitting one sale into many ----

  /** Whatever is left over keeps the product over all that arrived, or over all that bought. */
  lemma CarryProductOver(x: nat, y: nat, added: nat, buying: nat, rest: nat, later: nat, last: nat)
    requires buying <= added && last <= rest
    requires x * y <= (x + buying) * rest
    requires (x + added) * rest <= (x + added + later) * last
    ensures x * y <= (x + buying + later) * last
  {
    var gap := added - buying;
    assert (x + added) * rest == (x + buying) * rest + gap * rest;
    assert (x + added + later) * last == (x + buying + later) * last + gap * last;
    ProductBound(gap, last, gap, rest);
  }

  function Buying(limit: U256, feePips: U32, amounts: seq<U256>): nat
    decreases |amounts|
  {
    if amounts == [] then 0 else Capped(amounts[0], feePips, limit) + Buying(limit, feePips, amounts[1..])
  }

  lemma {:induction false} SalesKeepTheProduct(x: U256, y: U256, limit: U256, feePips: U32, amounts: seq<U256>)
    requires x + Sum(amounts) <= U256_MAX
    ensures x * y <= (x + Buying(limit, feePips, amounts)) * Left(x, y, limit, feePips, amounts)
    decreases |amounts|
  {
    if amounts != [] {
      var c := Capped(amounts[0], feePips, limit);
      var rest := y - Payout(x, y, c);
      PayoutKeepsTheProduct(x, y, c);
      SalesKeepTheProduct(x + amounts[0], rest, limit, feePips, amounts[1..]);
      CarryProductOver(x, y, amounts[0], c, rest, Buying(limit, feePips, amounts[1..]),
                       Left(x, y, limit, feePips, amounts));
    }
  }

  /** Fees round up: parts taxed one by one buy no more than the whole taxed once. */
  lemma {:induction false} PartsBuyNoMore(limit: U256, feePips: U32, amounts: seq<U256>)
    requires Sum(amounts) <= U256_MAX
    ensures Buying(limit, feePips, amounts) <= AfterFee(Sum(amounts), feePips)
    decreases |amounts|
  {
    if amounts != [] {
      PartsBuyNoMore(limit, feePips, amounts[1..]);
      FeeOfSum(amounts[0], Sum(amounts[1..]), feePips);
    }
  }

  lemma FeeOfSum(a: U256, b: U256, feePips: U32)
    requires a + b <= U256_MAX
    ensures AfterFee(a, feePips) + AfterFee(b, feePips) <= AfterFee(a + b, feePips)
  {
    var keep := if feePips <= PIPS_DENOMINATOR then PIPS_DENOMINATOR - feePips else 0;
    FloorOfSum(a * keep, b * keep, PIPS_DENOMINATOR);
    assert (a + b) * keep == a * keep + b * keep;
  }

  lemma PartsLeaveMore(x: U256, y: U256, limit: U256, feePips: U32, amounts: seq<U256>)
    requires x + Sum(amounts) <= U256_MAX
    ensures y - Payout(x, y, AfterFee(Sum(amounts), feePips)) <= Left(x, y, limit, feePips, amounts)
  {
    var left, bought := Left(x, y, limit, feePips, amounts), Buying(limit, feePips, amounts);
    var whole := AfterFee(Sum(amounts), feePips);
    PartsBuyNoMore(limit, feePips, amounts);
    if x + whole == 0 {
      NothingBought(x, y, limit, feePips, amounts);
    } else {
      SalesKeepTheProduct(x, y, limit, feePips, amounts);
      ProductBound(x + bought, left, x + whole, left);
      PayoutIsTheLargestKeepingTheProduct(x, y, whole, y - left);
    }
  }

  /** At any fee, selling in parts never pays more than selling the whole at once, as long as the
      single sale is not clamped at the tick boundary. */
  lemma SplittingNeverPaysMore(pool: Pool, tokenIn: TokenAddress, tokenOut: TokenAddress, amounts: seq<U256>)
    requires pool.Trades(tokenIn, tokenOut)
    requires pool.ReserveOf(tokenIn) + Sum(amounts) <= U256_MAX
    requires SwapOf(pool, tokenIn, Sum(amounts)).Ok? && !SwapOf(pool, tokenIn, Sum(amounts)).value.1.hitLimit
    ensures TakesAll(pool, Sales(tokenIn, amounts))
    ensures Paid(PreFee, pool, Sales(tokenIn, amounts), tokenOut) <= SwapOf(pool, tokenIn, Sum(amounts)).value.1.out
  {
    SwapEffect(pool, tokenIn, tokenOut, Sum(amounts));
    OneWaySales(pool, tokenIn, tokenOut, amounts);
    PartsLeaveMore(pool.ReserveOf(tokenIn), pool.ReserveOf(tokenOut), pool.LimitOf(tokenIn), pool.feePips, amounts);
  }

  lemma {:induction false} NothingBought(x: U256, y: U256, limit: U256, feePips: U32, amounts: seq<U256>)
    requires Buying(limit, feePips, amounts) == 0
    ensures Left(x, y, limit, feePips, amounts) == y
    decreases |amounts|
  {
    if amounts != [] {
      assert Payout(x, y, 0) == 0;
      NothingBought(SaturatingAdd(x, amounts[0]), y, limit, feePips, amounts[1..]);
    }
  }

  // ---- At zero fee a split loses at most one unit a cut ----

  lemma WholeInputBuys(amount: U256, limit: U256)
    requires amount <= limit
    ensures Capped(amount, 0, limit) == AfterFee(amount, 0) == amount
  {
    FloorAtLeast(amount * PIPS_DENOMINATOR, PIPS_DENOMINATOR, amount);
  }

  lemma OneMoreEach(product: nat, d: nat, e: nat, m: nat, n: nat, first: nat, last: nat)
    requires d <= e && first == m + 1 && last == n + 1 && d * m <= product <= e * n
    ensures d * first <= e * last
  {
    Distribute(d, m, 1);
    Distribute(e, n, 1);
  }

  /** What a purchase leaves is the least that keeps the product over the whole input side. */
  lemma LeavesTheLeast(x: U256, y: U256, c: U256, whole: nat, rest: U256)
    requires whole == x + c > 0 && rest <= y
    ensures y - Payout(x, y, c) <= rest <==> x * y <= whole * rest
  {
    PayoutIsTheLargestKeepingTheProduct(x, y, c, y - rest);
  }

  /** Rounding up twice on the way to the same total is at most one above rounding up once. */
  lemma NestedCeilings(x: U256, y: U256, a: U256, s: U256)
    requires x + a + s <= U256_MAX
    ensures
      var first := y - Payout(x, y, a);
      first - Payout(x + a, first, s) <= y - Payout(x, y, a + s) + 1
  {
    var first: U256, once: U256 := y - Payout(x, y, a), y - Payout(x, y, a + s);
    if once < first && x + a > 0 {
      NestedOnce(x, y, a, x + a, x + a + s, s, first, first - 1, once, once + 1);
    }
  }

  lemma NestedOnce(x: U256, y: U256, a: U256, d: U256, e: U256, s: U256, first: U256, m: U256, once: U256, last: U256)
    requires 0 < d == x + a && e == d + s && first == m + 1 && last == once + 1 && last <= first
    requires first == y - Payout(x, y, a) && once == y - Payout(x, y, a + s)
    ensures first - Payout(d, first, s) <= last
  {
    LeavesTheLeast(x, y, a + s, e, once);
    LeavesTheLeast(x, y, a, d, m);
    OneMoreEach(x * y, d, e, m, once, first, last);
    LeavesTheLeast(d, first, s, e, last);
  }

  lemma {:induction false} FreeSplitLosesOnePerCut(x: U256, y: U256, limit: U256, amounts: seq<U256>)
    requires amounts != [] && Sum(amounts) <= limit && x + Sum(amounts) <= U256_MAX
    ensures Left(x, y, limit, 0, amounts) <= y - Payout(x, y, Sum(amounts)) + |amounts| - 1
    decreases |amounts|
  {
    var a, s := amounts[0], Sum(amounts[1..]);
    WholeInputBuys(a, limit);
    if |amounts| > 1 {
      NestedCeilings(x, y, a, s);
      FreeSplitLosesOnePerCut(x + a, y - Payout(x, y, a), limit, amounts[1..]);
    }
  }

  /** At zero fee, with no hop clamped, n successive sales pay at most what one sale of the whole
      pays, and at most n - 1 units less. */
  lemma ReuseConsolidates(pool: Pool, tokenIn: TokenAddress, tokenOut: TokenAddress, amounts: seq<U256>)
    requires pool.Trades(tokenIn, tokenOut) && pool.feePips == 0 && amounts != []
    requires Sum(amounts) <= pool.LimitOf(tokenIn) && pool.ReserveOf(tokenIn) + Sum(amounts) <= U256_MAX
    ensures TakesAll(pool, Sales(tokenIn, amounts)) && SwapOf(pool, tokenIn, Sum(amounts)).Ok?
    ensures
      var split := Paid(PreFee, pool, Sales(tokenIn, amounts), tokenOut);
      var whole := SwapOf(pool, tokenIn, Sum(amounts)).value.1.out;
      split <= whole <= split + |amounts| - 1
  {
    WholeInputBuys(Sum(amounts), pool.LimitOf(tokenIn));
    SwapEffect(pool, tokenIn, tokenOut, Sum(amounts));
    SplittingNeverPaysMore(pool, tokenIn, tokenOut, amounts);
    OneWaySales(pool, tokenIn, tokenOut, amounts);
    FreeSplitLosesOnePerCut(pool.ReserveOf(tokenIn), pool.ReserveOf(tokenOut), pool.LimitOf(tokenIn), amounts);
  }

  // ---- Pre-fee accrual against accruing only what bought ----

  /** What suffices to keep a product in a deeper pool suffices in a shallower one. */
  lemma ShallowerNeedsNoMore(x: nat, y: nat, x': nat, y': nat, c: nat, rest: nat)
    requires x' <= x && rest <= y' <= y
    requires x * y <= (x + c) * rest
    ensures x' * y' <= (x' + c) * rest
  {
    ProductBound(x, y', x, y);
    var short := y' - rest;
    Distribute(x, short, rest);
    Distribute(x', short, rest);
    Distribute(rest, x, c);
    Distribute(rest, x', c);
    ProductBound(x', short, x, short);
  }

  lemma Distribute(a: nat, m: nat, n: nat)
    ensures a * (m + n) == a * m + a * n
  {
  }

  /** A deeper pool keeps more of its output side for the same purchase. */
  lemma DeeperKeepsMore(x: U256, y: U256, x': U256, y': U256, c: U256)
    requires x' <= x && y' <= y
    ensures y' - Payout(x', y', c) <= y - Payout(x, y, c)
  {
    var rest := y - Payout(x, y, c);
    if rest < y' && x' + c > 0 {
      PayoutKeepsTheProduct(x, y, c);
      ShallowerNeedsNoMore(x, y, x', y', c, rest);
      PayoutIsTheLargestKeepingTheProduct(x', y', c, y' - rest);
    }
  }

  /** The same pool, its reserves at least as deep. */
  predicate Deeper(pool: Pool, net: Pool) {
    && net == pool.(reserve0 := net.reserve0, reserve1 := net.reserve1)
    && net.reserve0 <= pool.reserve0 && net.reserve1 <= pool.reserve1
  }

  /** The input one sale does not buy with: its fee, and what the tick boundary cuts off. */
  function Held(pool: Pool, sale: Sale): nat {
    sale.amount - Buys(pool, sale)
  }

  /** All that a run's sales of one token hold back. */
  function HeldBack(pool: Pool, sales: seq<Sale>, token: TokenAddress): nat {
    if sales == [] then 0 else
      (if sales[0].tokenIn == token then Held(pool, sales[0]) else 0) + HeldBack(pool, sales[1..], token)
  }

  function Sold(sales: seq<Sale>, token: TokenAddress): nat {
    if sales == [] then 0 else
      (if sales[0].tokenIn == token then sales[0].amount else 0) + Sold(sales[1..], token)
  }

  lemma OtherToken(pool: Pool, token: TokenAddress) returns (other: TokenAddress)
    requires pool.token0 != pool.token1 && token in {pool.token0, pool.token1}
    ensures pool.Trades(token, other) && pool.Trades(other, token)
    ensures (token == pool.token0 && other == pool.token1) || (token == pool.token1 && other == pool.token0)
  {
    other := if token == pool.token0 then pool.token1 else pool.token0;
    assert {token, other} == {pool.token0, pool.token1} == {other, token};
  }

  /** How far the replay's reserve of a token stands above the after-fee one. */
  function Gap(pool: Pool, net: Pool, token: TokenAddress): nat
    requires Deeper(pool, net)
  {
    pool.ReserveOf(token) - net.ReserveOf(token)
  }

  /** One sale in both conventions: whatever extra it pays comes out of the gap, which otherwise grows
      by at most what the sale held back. */
  lemma SaleCompares(pool: Pool, net: Pool, sale: Sale, token: TokenAddress)
    requires Deeper(pool, net) && Takes(pool, sale) && token in {pool.token0, pool.token1}
    ensures
      var (after, out) := Sell(PreFee, pool, sale);
      var (netAfter, netOut) := Sell(Net, net, sale);
      && Deeper(after, netAfter)
      && (sale.tokenIn != token ==> out + Gap(after, netAfter, token) == netOut + Gap(pool, net, token))
      && (sale.tokenIn == token ==> Gap(after, netAfter, token) <= Gap(pool, net, token) + Held(pool, sale))
      && (sale.tokenIn == token && pool.ReserveOf(token) + sale.amount <= U256_MAX ==>
            && Gap(after, netAfter, token) == Gap(pool, net, token) + Held(pool, sale)
            && after.ReserveOf(token) == pool.ReserveOf(token) + sale.amount)
      && (sale.tokenIn != token ==> after.ReserveOf(token) <= pool.ReserveOf(token))
  {
    var other := OtherToken(pool, sale.tokenIn);
    SellEffect(PreFee, pool, sale, other);
    SellEffect(Net, net, sale, other);
    DeeperKeepsMore(pool.ReserveOf(sale.tokenIn), pool.ReserveOf(other),
                    net.ReserveOf(sale.tokenIn), net.ReserveOf(other), Buys(pool, sale));
  }

  lemma {:induction false} RunsCompare(pool: Pool, net: Pool, sales: seq<Sale>, token: TokenAddress)
    requires Deeper(pool, net) && TakesAll(pool, sales) && token in {pool.token0, pool.token1}
    ensures
      var (after, netAfter) := (Trade(PreFee, pool, sales), Trade(Net, net, sales));
      var (over, under) := (Paid(PreFee, pool, sales, token), Paid(Net, net, sales, token));
      && Deeper(after, netAfter)
      && over + Gap(after, netAfter, token) <= under + Gap(pool, net, token) + HeldBack(pool, sales, token)
      && (pool.ReserveOf(token) + Sold(sales, token) <= U256_MAX ==>
            over + Gap(after, netAfter, token) == under + Gap(pool, net, token) + HeldBack(pool, sales, token))
    decreases |sales|
  {
    if sales != [] {
      SaleCompares(pool, net, sales[0], token);
      var after := Sell(PreFee, pool, sales[0]).0;
      RunsCompare(after, Sell(Net, net, sales[0]).0, sales[1..], token);
      HeldBackIsTheSame(pool, after, sales[1..], token);
    }
  }

  lemma {:induction false} HeldBackIsTheSame(pool: Pool, after: Pool, sales: seq<Sale>, token: TokenAddress)
    requires after == pool.(reserve0 := after.reserve0, reserve1 := after.reserve1)
    ensures HeldBack(after, sales, token) == HeldBack(pool, sales, token)
  {
    if sales != [] {
      HeldBackIsTheSame(pool, after, sales[1..], token);
    }
  }

  /** Over any run of sales in any directions, at any fee, limits and reserves: the replay's pool is at
      least as deep on both sides as one whose reserves grow only by what bought, and it overpays each
      token by at most what the run's own sales of that token held back. While no sum of sales exceeds
      a word the overpayment is exactly that less the depth still left over. */
  lemma ReuseOverstatesByWhatIsHeldBack(pool: Pool, sales: seq<Sale>, token: TokenAddress)
    requires TakesAll(pool, sales) && token in {pool.token0, pool.token1}
    ensures
      var (after, netAfter) := (Trade(PreFee, pool, sales), Trade(Net, pool, sales));
      var (over, under) := (Paid(PreFee, pool, sales, token), Paid(Net, pool, sales, token));
      && Deeper(after, netAfter)
      && over <= under + HeldBack(pool, sales, token)
      && (pool.ReserveOf(token) + Sold(sales, token) <= U256_MAX ==>
            over + (after.ReserveOf(token) - netAfter.ReserveOf(token)) == under + HeldBack(pool, sales, token))
  {
    RunsCompare(pool, pool, sales, token);
  }

  // ---- When the replay never overstates ----

  /** Some sale holds back input of a token that a later sale is paid in. */
  predicate PaysAfterHoldingBack(pool: Pool, sales: seq<Sale>, token: TokenAddress) {
    exists i, j :: 0 <= i < j < |sales| &&
      sales[i].tokenIn == token && Held(pool, sales[i]) > 0 && sales[j].tokenIn != token
  }

  lemma {:induction false} PaysOnlyItsOther(accrual: Accrual, pool: Pool, sales: seq<Sale>, token: TokenAddress)
    requires TakesAll(pool, sales) && forall sale <- sales :: sale.tokenIn == token
    ensures Paid(accrual, pool, sales, token) == 0
    decreases |sales|
  {
    if sales != [] {
      PaysOnlyItsOther(accrual, Sell(accrual, pool, sales[0]).0, sales[1..], token);
    }
  }

  lemma {:induction false} PaidBeforeHeldBack(pool: Pool, net: Pool, sales: seq<Sale>, token: TokenAddress)
    requires Deeper(pool, net) && TakesAll(pool, sales) && token in {pool.token0, pool.token1}
    requires !PaysAfterHoldingBack(pool, sales, token)
    ensures Paid(PreFee, pool, sales, token) <= Paid(Net, net, sales, token) + Gap(pool, net, token)
    decreases |sales|
  {
    if sales != [] {
      var after := Sell(PreFee, pool, sales[0]).0;
      if sales[0].tokenIn == token && Held(pool, sales[0]) > 0 {
        assert forall j | 1 <= j < |sales| :: sales[j].tokenIn == token;
        PaysOnlyItsOther(PreFee, pool, sales, token);
      } else {
        SaleCompares(pool, net, sales[0], token);
        forall i, j | 0 <= i < j < |sales| - 1
          ensures !(sales[1..][i].tokenIn == token && Held(after, sales[1..][i]) > 0 && sales[1..][j].tokenIn != token)
        {
          assert sales[1..][i] == sales[i + 1] && sales[1..][j] == sales[j + 1];
        }
        PaidBeforeHeldBack(after, Sell(Net, net, sales[0]).0, sales[1..], token);
      }
    }
  }

  /** A run overstates no token, unless a sale that held some of it back comes before one paid in it;
      so a run that never sells a token never overstates it. */
  lemma ReuseNeverOverstatesUnlessItDrawsOnWhatItHeld(pool: Pool, sales: seq<Sale>, token: TokenAddress)
    requires TakesAll(pool, sales) && token in {pool.token0, pool.token1}
    requires !PaysAfterHoldingBack(pool, sales, token)
    ensures Paid(PreFee, pool, sales, token) <= Paid(Net, pool, sales, token)
  {
    PaidBeforeHeldBack(pool, pool, sales, token);
  }

  /** Reusing a pool in one direction, at any fee and limit, the replay never pays more in total than
      a pool whose reserves grow only by the after-fee input would. */
  lemma OneWayReuseNeverOverstates(pool: Pool, tokenIn: TokenAddress, tokenOut: TokenAddress, amounts: seq<U256>)
    requires pool.Trades(tokenIn, tokenOut)
    ensures TakesAll(pool, Sales(tokenIn, amounts))
    ensures Paid(PreFee, pool, Sales(tokenIn, amounts), tokenOut) <= Paid(Net, pool, Sales(tokenIn, amounts), tokenOut)
  {
    SalesTaken(pool, tokenIn, tokenOut, amounts);
    assert tokenOut in {pool.token0, pool.token1};
    ReuseNeverOverstatesUnlessItDrawsOnWhatItHeld(pool, Sales(tokenIn, amounts), tokenOut);
  }

  // ---- Which shapes of reuse are safe whatever the amounts ----

  /** The sales of given tokens in given amounts. */
  function Zipped(tokens: seq<TokenAddress>, amounts: seq<U256>): (r: seq<Sale>)
    requires |tokens| == |amounts|
    ensures |r| == |tokens| && forall i | 0 <= i < |r| :: r[i] == Sale(tokens[i], amounts[i])
  {
    seq(|tokens|, i requires 0 <= i < |tokens| => Sale(tokens[i], amounts[i]))
  }

  ghost predicate NeverOverstates(token0: TokenAddress, token1: TokenAddress, tokens: seq<TokenAddress>, token: TokenAddress) {
    forall pool: Pool, amounts: seq<U256> |
      pool.token0 == token0 && pool.token1 == token1 && |amounts| == |tokens| && TakesAll(pool, Zipped(tokens, amounts)) ::
      Paid(PreFee, pool, Zipped(tokens, amounts), token) <= Paid(Net, pool, Zipped(tokens, amounts), token)
  }

  /** A sale of the token comes before a sale paid in it. */
  predicate SoldThenPaid(tokens: seq<TokenAddress>, token: TokenAddress) {
    exists i, j :: 0 <= i < j < |tokens| && tokens[i] == token && tokens[j] != token
  }

  lemma {:induction false} IdleSales(accrual: Accrual, pool: Pool, sales: seq<Sale>, token: TokenAddress)
    requires TakesAll(pool, sales) && forall sale <- sales :: sale.amount == 0
    ensures Trade(accrual, pool, sales) == pool && Paid(accrual, pool, sales, token) == 0
    decreases |sales|
  {
    if sales != [] {
      var sale := sales[0];
      assert sale in sales;
      var other := OtherToken(pool, sale.tokenIn);
      assert Buys(pool, sale) == 0;
      NothingForNothing(pool.ReserveOf(sale.tokenIn), pool.ReserveOf(other));
      SellEffect(accrual, pool, sale, other);
      assert Sell(accrual, pool, sale) == (pool, 0);
      IdleSales(accrual, pool, sales[1..], token);
    }
  }

  lemma NothingForNothing(x: U256, y: U256)
    ensures Payout(x, y, 0) == 0
  {
    assert y * 0 == 0;
  }

  lemma {:induction false} IdleSalesFirst(accrual: Accrual, pool: Pool, idle: seq<Sale>, rest: seq<Sale>, token: TokenAddress)
    requires TakesAll(pool, idle) && TakesAll(pool, rest) && forall sale <- idle :: sale.amount == 0
    ensures TakesAll(pool, idle + rest)
    ensures Paid(accrual, pool, idle + rest, token) == Paid(accrual, pool, rest, token)
    decreases |idle|
  {
    if idle == [] {
      assert idle + rest == rest;
    } else {
      assert (idle + rest)[1..] == idle[1..] + rest;
      IdleSales(accrual, pool, [idle[0]], token);
      assert [idle[0]][1..] == [];
      assert Trade(accrual, Sell(accrual, pool, idle[0]).0, []) == pool;
      IdleSalesFirst(accrual, pool, idle[1..], rest, token);
    }
  }

  /** Sales that move nothing may stand anywhere around two that do. */
  lemma OnlyTwoSell(accrual: Accrual, pool: Pool, sales: seq<Sale>, i: nat, j: nat, token: TokenAddress)
    requires TakesAll(pool, sales) && i < j < |sales|
    requires forall k | 0 <= k < |sales| && k != i && k != j :: sales[k].amount == 0
    ensures TakesAll(pool, [sales[i], sales[j]])
    ensures Paid(accrual, pool, sales, token) == Paid(accrual, pool, [sales[i], sales[j]], token)
  {
    assert sales == sales[..i] + sales[i..];
    IdleSalesFirst(accrual, pool, sales[..i], sales[i..], token);
    FirstAndLaterSell(accrual, pool, sales[i..], j - i, token);
  }

  lemma FirstAndLaterSell(accrual: Accrual, pool: Pool, sales: seq<Sale>, j: nat, token: TokenAddress)
    requires TakesAll(pool, sales) && 0 < j < |sales|
    requires forall k | 0 < k < |sales| && k != j :: sales[k].amount == 0
    ensures TakesAll(pool, [sales[0], sales[j]])
    ensures Paid(accrual, pool, sales, token) == Paid(accrual, pool, [sales[0], sales[j]], token)
  {
    var one := Sell(accrual, pool, sales[0]).0;
    OnlyFirstSells(accrual, one, sales[j..], token);
    assert sales[1..] == sales[1..j] + sales[j..];
    IdleSalesFirst(accrual, one, sales[1..j], sales[j..], token);
    assert [sales[0], sales[j]][1..] == [sales[j]];
  }

  lemma OnlyFirstSells(accrual: Accrual, pool: Pool, sales: seq<Sale>, token: TokenAddress)
    requires TakesAll(pool, sales) && sales != []
    requires forall k | 0 < k < |sales| :: sales[k].amount == 0
    ensures Paid(accrual, pool, sales, token) == Paid(accrual, pool, [sales[0]], token)
  {
    var after := Sell(accrual, pool, sales[0]).0;
    IdleSales(accrual, after, sales[1..], token);
    assert [sales[0]][1..] == [];
    assert Paid(accrual, after, [], token) == 0;
  }

  /** Sell 1000 into reserves of 1000 and 1000 at a 10% fee, sell the 473 received back: the replay
      returns 892 where after-fee accrual returns 848. */
  lemma RoundTripOverstates(pool: Pool, there: TokenAddress, back: TokenAddress)
    requires pool.Trades(there, back) && pool.reserve0 == pool.reserve1 == 1000 && pool.feePips == 100_000
    requires pool.swapLimit0 == pool.swapLimit1 == 1_000_000
    ensures
      var sales := [Sale(there, 1000), Sale(back, 473)];
      && TakesAll(pool, sales)
      && Payouts(PreFee, pool, sales) == [473, 892] && Payouts(Net, pool, sales) == [473, 848]
      && Paid(PreFee, pool, sales, there) == 892 && Paid(Net, pool, sales, there) == 848
  {
    var sales := [Sale(there, 1000), Sale(back, 473)];
    assert there in {pool.token0, pool.token1} && back in {pool.token0, pool.token1};
    assert Capped(1000, 100_000, 1_000_000) == 900 && Capped(473, 100_000, 1_000_000) == 425;
    assert Payout(1000, 1000, 900) == 473 && Payout(527, 2000, 425) == 892 && Payout(527, 1900, 425) == 848;
    RoundTripRuns(PreFee, pool, sales[0], sales[1]);
    RoundTripRuns(Net, pool, sales[0], sales[1]);
  }

  /** A sale, and one of the other token after it. */
  lemma RoundTripRuns(accrual: Accrual, pool: Pool, there: Sale, back: Sale)
    requires pool.Trades(there.tokenIn, back.tokenIn)
    ensures TakesAll(pool, [there, back])
    ensures
      var (x, y) := (pool.ReserveOf(there.tokenIn), pool.ReserveOf(back.tokenIn));
      var out := Payout(x, y, Buys(pool, there));
      var grown := SaturatingAdd(x, if accrual.PreFee? then there.amount else Buys(pool, there));
      var returned := Payout(y - out, grown, Buys(pool, back));
      && Payouts(accrual, pool, [there, back]) == [out, returned]
      && Paid(accrual, pool, [there, back], there.tokenIn) == returned
  {
    assert there.tokenIn in {pool.token0, pool.token1} && back.tokenIn in {pool.token0, pool.token1};
    SellEffect(accrual, pool, there, back.tokenIn);
    var after := Sell(accrual, pool, there).0;
    SellEffect(accrual, after, back, there.tokenIn);
    var last := Sell(accrual, after, back).0;
    assert [there, back][1..] == [back] && [back][1..] == [];
    assert Payouts(accrual, last, []) == [] && Paid(accrual, last, [], there.tokenIn) == 0;
    assert Payouts(accrual, after, [back]) == [Sell(accrual, after, back).1];
  }

  /** The amounts that show it: nothing is sold but at the two places. */
  function RoundTripAmounts(n: nat, i: nat, j: nat): (r: seq<U256>)
    ensures |r| == n && forall k | 0 <= k < n :: r[k] == if k == i then 1000 else if k == j then 473 else 0
  {
    seq<U256>(n, k => if k == i then 1000 else if k == j then 473 else 0)
  }

  lemma RoundTripAnywhereOverstates(pool: Pool, tokens: seq<TokenAddress>, i: nat, j: nat)
    requires i < j < |tokens| && pool.Trades(tokens[i], tokens[j])
    requires pool.reserve0 == pool.reserve1 == 1000 && pool.feePips == 100_000
    requires pool.swapLimit0 == pool.swapLimit1 == 1_000_000
    requires forall k | 0 <= k < |tokens| :: tokens[k] == pool.token0 || tokens[k] == pool.token1
    ensures
      var sales := Zipped(tokens, RoundTripAmounts(|tokens|, i, j));
      && TakesAll(pool, sales)
      && Paid(PreFee, pool, sales, tokens[i]) == 892 && Paid(Net, pool, sales, tokens[i]) == 848
  {
    var sales := Zipped(tokens, RoundTripAmounts(|tokens|, i, j));
    RoundTripOverstates(pool, tokens[i], tokens[j]);
    assert pool.token0 != pool.token1;
    OnlyTwoSell(PreFee, pool, sales, i, j, tokens[i]);
    OnlyTwoSell(Net, pool, sales, i, j, tokens[i]);
  }

  lemma SoldThenPaidOverstates(token0: TokenAddress, token1: TokenAddress, tokens: seq<TokenAddress>, token: TokenAddress)
    requires token0 != token1 && token in {token0, token1}
    requires forall t <- tokens :: t in {token0, token1}
    requires SoldThenPaid(tokens, token)
    ensures !NeverOverstates(token0, token1, tokens, token)
  {
    var i: nat, j: nat :| i < j < |tokens| && tokens[i] == token && tokens[j] != token;
    var pool := Pool(token0, token1, 1000, 1000, 100_000, 1_000_000, 1_000_000);
    forall k | 0 <= k < |tokens| ensures tokens[k] == token0 || tokens[k] == token1 {
      assert tokens[k] in tokens;
    }
    var other := OtherToken(pool, token);
    assert tokens[j] == other;
    RoundTripAnywhereOverstates(pool, tokens, i, j);
  }

  /** A shape of reuse never overstates a token, whatever the pool's reserves, fee and limits and
      whatever the amounts, exactly when no sale of that token comes before a sale paid in it. */
  lemma ReuseIsSafeExactlyWhenPaidFirst(token0: TokenAddress, token1: TokenAddress, tokens: seq<TokenAddress>, token: TokenAddress)
    requires token0 != token1 && token in {token0, token1}
    requires forall t <- tokens :: t in {token0, token1}
    ensures NeverOverstates(token0, token1, tokens, token) <==> !SoldThenPaid(tokens, token)
  {
    if SoldThenPaid(tokens, token) {
      SoldThenPaidOverstates(token0, token1, tokens, token);
    } else {
      forall pool: Pool, amounts: seq<U256> |
        pool.token0 == token0 && pool.token1 == token1 && |amounts| == |tokens| && TakesAll(pool, Zipped(tokens, amounts))
        ensures Paid(PreFee, pool, Zipped(tokens, amounts), token) <= Paid(Net, pool, Zipped(tokens, amounts), token)
      {
        ReuseNeverOverstatesUnlessItDrawsOnWhatItHeld(pool, Zipped(tokens, amounts), token);
      }
    }
  }

  // ---- Two hops, exactly ----

  /** The remainder a payout rounds away leaves room for what more depth on the paying side would add. */
  predicate RoundedAway(x: U256, y: U256, more: nat, c: U256) {
    x + c == 0 || y * c % (x + c) + more * c < x + c
  }

  lemma PayoutIsQuotient(x: U256, y: U256, c: U256, n: nat)
    requires x + c > 0 && n == y * c
    ensures Payout(x, y, c) == n / (x + c)
  {
  }

  /** A payout from a deeper pool, as one quotient of two parts. */
  lemma DeeperPayout(x: U256, y: U256, more: nat, c: U256, n: nat, extra: nat)
    requires y + more <= U256_MAX && x + c > 0 && n == y * c && extra == more * c
    ensures Payout(x, y, c) == n / (x + c) && Payout(x, y + more, c) == (n + extra) / (x + c)
  {
    Distribute(c, y, more);
    PayoutIsQuotient(x, y, c, n);
    PayoutIsQuotient(x, y + more, c, n + extra);
  }

  lemma DepthTips(x: U256, y: U256, more: nat, c: U256)
    requires y + more <= U256_MAX
    ensures Payout(x, y + more, c) <= Payout(x, y, c) <==> RoundedAway(x, y, more, c)
  {
    if x + c > 0 {
      var n, extra := y * c, more * c;
      DeeperPayout(x, y, more, c, n, extra);
      FloorGrowsExactly(n + extra, n, extra, x + c);
    }
  }

  /** What a sale of the other token returns after a first sale, in either convention. */
  lemma RoundTripReturns(pool: Pool, there: Sale, back: Sale, rest: U256, bought: U256)
    requires pool.Trades(there.tokenIn, back.tokenIn)
    requires pool.ReserveOf(there.tokenIn) + there.amount <= U256_MAX
    requires bought == pool.ReserveOf(there.tokenIn) + Buys(pool, there)
    requires rest == pool.ReserveOf(back.tokenIn) - Payout(pool.ReserveOf(there.tokenIn), pool.ReserveOf(back.tokenIn), Buys(pool, there))
    ensures TakesAll(pool, [there, back])
    ensures Paid(PreFee, pool, [there, back], there.tokenIn) == Payout(rest, bought + Held(pool, there), Buys(pool, back))
    ensures Paid(Net, pool, [there, back], there.tokenIn) == Payout(rest, bought, Buys(pool, back))
  {
    RoundTripRuns(PreFee, pool, there, back);
    RoundTripRuns(Net, pool, there, back);
  }

  /** A round trip overstates exactly when what the sale there held back is enough to tip the payout
      of the sale back over its next unit. */
  lemma RoundTripIsSafeExactly(pool: Pool, there: Sale, back: Sale)
    requires pool.Trades(there.tokenIn, back.tokenIn)
    requires pool.ReserveOf(there.tokenIn) + there.amount <= U256_MAX
    ensures TakesAll(pool, [there, back])
    ensures
      var (x, y) := (pool.ReserveOf(there.tokenIn), pool.ReserveOf(back.tokenIn));
      var rest := y - Payout(x, y, Buys(pool, there));
      Paid(PreFee, pool, [there, back], there.tokenIn) <= Paid(Net, pool, [there, back], there.tokenIn)
      <==> RoundedAway(rest, x + Buys(pool, there), Held(pool, there), Buys(pool, back))
  {
    var (x, y) := (pool.ReserveOf(there.tokenIn), pool.ReserveOf(back.tokenIn));
    var rest: U256, bought: U256 := y - Payout(x, y, Buys(pool, there)), x + Buys(pool, there);
    RoundTripReturns(pool, there, back, rest, bought);
    DepthTips(rest, bought, Held(pool, there), Buys(pool, back));
  }

  /** What more depth on the paying side is worth to a sale. */
  function Drawn(x: U256, more: nat, c: U256): nat {
    if x + c == 0 then 0 else more * c / (x + c)
  }

  lemma DepthPays(x: U256, y: U256, more: nat, c: U256)
    requires y + more <= U256_MAX
    ensures Payout(x, y, c) + Drawn(x, more, c) <= Payout(x, y + more, c) <= Payout(x, y, c) + Drawn(x, more, c) + 1
  {
    if x + c > 0 {
      var n, extra := y * c, more * c;
      DeeperPayout(x, y, more, c, n, extra);
      FloorOfParts(n + extra, n, extra, x + c);
    }
  }

  /** By how much: a round trip overpays what the sale there held back, drawn at the rate of the sale
      back, give or take one unit. */
  lemma RoundTripOverpays(pool: Pool, there: Sale, back: Sale)
    requires pool.Trades(there.tokenIn, back.tokenIn)
    requires pool.ReserveOf(there.tokenIn) + there.amount <= U256_MAX
    ensures TakesAll(pool, [there, back])
    ensures
      var (x, y) := (pool.ReserveOf(there.tokenIn), pool.ReserveOf(back.tokenIn));
      var over := Paid(PreFee, pool, [there, back], there.tokenIn) - Paid(Net, pool, [there, back], there.tokenIn);
      var drawn := Drawn(y - Payout(x, y, Buys(pool, there)), Held(pool, there), Buys(pool, back));
      drawn <= over <= drawn + 1
  {
    var (x, y) := (pool.ReserveOf(there.tokenIn), pool.ReserveOf(back.tokenIn));
    var rest: U256, bought: U256 := y - Payout(x, y, Buys(pool, there)), x + Buys(pool, there);
    RoundTripReturns(pool, there, back, rest, bought);
    DepthPays(rest, bought, Held(pool, there), Buys(pool, back));
  }

  lemma OneWayTwiceRuns(accrual: Accrual, pool: Pool, first: Sale, second: Sale, tokenOut: TokenAddress)
    requires pool.Trades(first.tokenIn, tokenOut) && second.tokenIn == first.tokenIn
    ensures TakesAll(pool, [first, second])
    ensures
      var (x, y) := (pool.ReserveOf(first.tokenIn), pool.ReserveOf(tokenOut));
      var out := Payout(x, y, Buys(pool, first));
      var grown := SaturatingAdd(x, if accrual.PreFee? then first.amount else Buys(pool, first));
      Payouts(accrual, pool, [first, second]) == [out, Payout(grown, y - out, Buys(pool, second))]
  {
    assert first.tokenIn in {pool.token0, pool.token1} && tokenOut in {pool.token0, pool.token1};
    SellEffect(accrual, pool, first, tokenOut);
    var after := Sell(accrual, pool, first).0;
    SellEffect(accrual, after, second, tokenOut);
    assert [first, second][1..] == [second] && [second][1..] == [];
    assert Payouts(accrual, Sell(accrual, after, second).0, []) == [];
    assert Payouts(accrual, after, [second]) == [Sell(accrual, after, second).1];
  }

  /** Hop by hop: the first pays the same in either convention, and the second in the same direction
      never pays more than under after-fee accrual. */
  lemma SecondHopNeverPaysMore(pool: Pool, first: Sale, second: Sale, tokenOut: TokenAddress)
    requires pool.Trades(first.tokenIn, tokenOut) && second.tokenIn == first.tokenIn
    ensures TakesAll(pool, [first, second])
    ensures
      var (over, under) := (Payouts(PreFee, pool, [first, second]), Payouts(Net, pool, [first, second]));
      |over| == |under| == 2 && over[0] == under[0] && over[1] <= under[1]
  {
    OneWayTwiceRuns(PreFee, pool, first, second, tokenOut);
    OneWayTwiceRuns(Net, pool, first, second, tokenOut);
    var (x, y) := (pool.ReserveOf(first.tokenIn), pool.ReserveOf(tokenOut));
    var rest := y - Payout(x, y, Buys(pool, first));
    DeeperKeepsMore(SaturatingAdd(x, first.amount), rest, SaturatingAdd(x, Buys(pool, first)), rest, Buys(pool, second));
  }

  /** A third hop can pay more, its total apart: selling 2, 3 and 5 into reserves of 3 and 3 at a 1% fee
      pays 0, 0, 1 against 0, 1, 0. */
  lemma ThirdHopMayPayMore(token0: TokenAddress, token1: TokenAddress)
    requires token0 != token1
    ensures
      var pool := Pool(token0, token1, 3, 3, 10_000, 1000, 1000);
      var sales := Sales(token0, [2, 3, 5]);
      && TakesAll(pool, sales)
      && Payouts(PreFee, pool, sales) == [0, 0, 1] && Payouts(Net, pool, sales) == [0, 1, 0]
  {
    var pool := Pool(token0, token1, 3, 3, 10_000, 1000, 1000);
    var sales := Sales(token0, [2, 3, 5]);
    assert Capped(2, 10_000, 1000) == 1 && Capped(3, 10_000, 1000) == 2 && Capped(5, 10_000, 1000) == 4;
    assert Payout(3, 3, 1) == 0 && Payout(5, 3, 2) == 0 && Payout(8, 3, 4) == 1;
    assert Payout(4, 3, 2) == 1 && Payout(6, 2, 4) == 0;
    assert sales == [Sale(token0, 2), Sale(token0, 3), Sale(token0, 5)];
    assert sales[1..] == [Sale(token0, 3), Sale(token0, 5)];
    assert sales[1..][1..] == [Sale(token0, 5)];
    assert sales[1..][1..][1..] == [];
    assert Payouts(PreFee, pool.(reserve0 := 8), sales[1..][1..]) == [1];
    assert Payouts(PreFee, pool.(reserve0 := 5), sales[1..]) == [0, 1];
    assert Payouts(Net, pool.(reserve0 := 6, reserve1 := 2), sales[1..][1..]) == [0];
    assert Payouts(Net, pool.(reserve0 := 4), sales[1..]) == [1, 0];
  }

  /** Sales of one token, one by one, pay in all exactly what the other reserve lost. */
  lemma {:induction false} PayoutsAddUp(accrual: Accrual, pool: Pool, tokenIn: TokenAddress, tokenOut: TokenAddress, amounts: seq<U256>)
    requires pool.Trades(tokenIn, tokenOut)
    ensures TakesAll(pool, Sales(tokenIn, amounts))
    ensures
      var sales := Sales(tokenIn, amounts);
      Sum(Payouts(accrual, pool, sales)) == Paid(accrual, pool, sales, tokenOut)
      == pool.ReserveOf(tokenOut) - Trade(accrual, pool, sales).ReserveOf(tokenOut)
    decreases |amounts|
  {
    SalesTaken(pool, tokenIn, tokenOut, amounts);
    if amounts != [] {
      var sale := Sale(tokenIn, amounts[0]);
      SellEffect(accrual, pool, sale, tokenOut);
      var (after, out) := Sell(accrual, pool, sale);
      PayoutsAddUp(accrual, after, tokenIn, tokenOut, amounts[1..]);
      var rest := Payouts(accrual, after, Sales(tokenIn, amounts[1..]));
      assert ([out] + rest)[1..] == rest;
    }
  }
}
