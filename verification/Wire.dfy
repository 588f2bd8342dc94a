/** The data-plane messages, and the parsing and projection primitives the client calls but does not own. */
module Wire {
  import opened Domain

  /** One pool's on-chain identity as text; the chain is implicit. */
  datatype PoolQuery = V3Query(address: string) | V4Query(poolId: string)

  datatype SliceRequest = SliceRequest(pools: seq<PoolQuery>)

  datatype WirePoolState = WirePoolState(sqrtPriceX96: string, tick: int, liquidity: string)

  datatype PoolCompleteness = Complete(state: WirePoolState) | Incomplete

  datatype PoolSlice = PoolSlice(key: PoolQuery, state: PoolCompleteness)

  datatype SliceResponse = SliceResponse(blockHash: string, confirmations: nat, pools: seq<PoolSlice>)

  datatype PoolMetaEntry = PoolMetaEntry(
    key: PoolQuery, token0: string, token1: string, feePips: nat, tickSpacing: nat)

  datatype TokenMetaEntry = TokenMetaEntry(address: string, decimals: nat)

  datatype PoolsMetaResponse = PoolsMetaResponse(pools: seq<PoolMetaEntry>, tokens: seq<TokenMetaEntry>)

  datatype HealthResponse =
    | AwaitingAnchor
    | Running(finalizedNumber: nat, finalizedHash: string, canonical: string, pools: nat, inFlight: nat,
              wsMiss: nat, behind: Option<nat>)

  /** A pool's current-tick state, parsed. */
  datatype PoolState = PoolState(sqrtPriceX96: nat, tick: int, liquidity: U128)

  datatype PoolFee = Static(pips: nat, tickSpacing: nat)

  datatype ReserveValues = ReserveValues(
    token0: real, token1: real, feeMultiplier: real, maxSwap0: real, maxSwap1: real)
  {
    function Inverse(): ReserveValues {
      ReserveValues(token1, token0, feeMultiplier, maxSwap1, maxSwap0)
    }
  }

  /** One direction of one pool, as the optimizer sees it. */
  datatype PoolReserves = PoolReserves(
    token0: TokenAddress, token1: TokenAddress, poolId: PoolRef, value: ReserveValues)
  {
    function Inverse(): PoolReserves {
      PoolReserves(token1, token0, poolId, value.Inverse())
    }
  }

  /** The route an optimizer session is for, and its constraints. */
  datatype OptimizationSession = OptimizationSession(
    sourceAsset: TokenAddress, outputAsset: TokenAddress,
    bridges: set<(TokenAddress, TokenAddress)>, whitelist: Option<set<TokenAddress>>)

  /** Code outside this model, one function each: hex parsing, the reserve arithmetic of one pool, and
      whether a reserve set covers a session's route. Every theorem holds whatever they compute. */
  datatype Outside = Outside(
    addressOf: string -> Option<Address>,
    hashOf: string -> Option<nat>,
    u160Of: string -> Option<nat>,
    u128Of: string -> Option<U128>,
    reserveValues: (PoolRef, PoolState, PoolFee, TokenAddress, TokenAddress, nat, nat) -> Result<ReserveValues, string>,
    reachesRoute: (seq<PoolReserves>, OptimizationSession) -> bool)
}
