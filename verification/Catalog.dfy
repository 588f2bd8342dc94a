/** The validated pool catalog: what of the server's offer can be used, and how a slice projects onto it. */
module Catalogs {
  import opened Domain
  import opened Wire
  import Text

  datatype HexFault = HexFault(field: string, value: string)

  datatype CatalogFault = BadHex(fault: HexFault) | MissingDecimals(pool: PoolRef, token: Address)

  datatype WireAdapterError = HexParse(fault: HexFault) | Projection(detail: string)

  const MAX_DECIMALS: nat := 36

  datatype PoolEntry = PoolEntry(
    token0: TokenAddress, token1: TokenAddress, fee: PoolFee, token0Decimals: nat, token1Decimals: nat)

  datatype Catalog = Catalog(
    chain: ChainKey, pools: map<PoolRef, PoolEntry>, request: SliceRequest, excluded: seq<CatalogFault>)

  // ---- Parsing wire fields ----

  function ParseAddress(outside: Outside, value: string, field: string): Result<Address, HexFault> {
    match outside.addressOf(value)
    case Some(address) => Ok(address)
    case None => Err(HexFault(field, value))
  }

  function PoolRefOf(outside: Outside, key: PoolQuery, chain: ChainKey): Result<PoolRef, HexFault> {
    match key
    case V3Query(text) =>
      (match ParseAddress(outside, text, "pool.address")
       case Ok(address) => Ok(PoolRef(UniswapV3(address), chain))
       case Err(fault) => Err(fault))
    case V4Query(text) =>
      (match outside.hashOf(text)
       case Some(hash) => Ok(PoolRef(UniswapV4(hash), chain))
       case None => Err(HexFault("pool.pool_id", text)))
  }

  function Strip0x(value: string): string {
    if "0x" <= value || "0X" <= value then value[2..] else value
  }

  function ParsePoolState(outside: Outside, state: WirePoolState): Result<PoolState, HexFault> {
    match outside.u160Of(Strip0x(state.sqrtPriceX96))
    case None => Err(HexFault("sqrt_price_x96", state.sqrtPriceX96))
    case Some(price) =>
      match outside.u128Of(Strip0x(state.liquidity))
      case None => Err(HexFault("liquidity", state.liquidity))
      case Some(liquidity) =>
        if -0x80_0000 <= state.tick < 0x80_0000
        then Ok(PoolState(price, state.tick, liquidity))
        else Err(HexFault("tick", Text.Decimal(state.tick)))
  }

  // ---- The catalog ----

  type Decimals = map<Address, nat>

  /** The decimals in force for a token: the last entry that names it with a usable value. */
  function DecimalsOf(outside: Outside, tokens: seq<TokenMetaEntry>, address: Address): Option<nat> {
    if tokens == [] then None else
      var last := tokens[|tokens| - 1];
      if outside.addressOf(last.address) == Some(address) && last.decimals <= MAX_DECIMALS then Some(last.decimals)
      else DecimalsOf(outside, tokens[..|tokens| - 1], address)
  }

  /** The decimals table agrees with the entries it was read from. */
  ghost predicate Tabulates(outside: Outside, decimals: Decimals, tokens: seq<TokenMetaEntry>) {
    forall address :: DecimalsOf(outside, tokens, address)
                      == if address in decimals then Some(decimals[address]) else None
  }

  /** Whether one offered pool can be used: its identity and metadata, or why not. */
  function Classify(outside: Outside, entry: PoolMetaEntry, chain: ChainKey, tokens: seq<TokenMetaEntry>)
    : Result<(PoolRef, PoolEntry), CatalogFault>
  {
    match PoolRefOf(outside, entry.key, chain)
    case Err(fault) => Err(BadHex(fault))
    case Ok(pool) =>
      match ParseAddress(outside, entry.token0, "pool.token0")
      case Err(fault) => Err(BadHex(fault))
      case Ok(token0) =>
        match ParseAddress(outside, entry.token1, "pool.token1")
        case Err(fault) => Err(BadHex(fault))
        case Ok(token1) =>
          var decimals0, decimals1 := DecimalsOf(outside, tokens, token0), DecimalsOf(outside, tokens, token1);
          if decimals0.Some? && decimals1.Some? then
            Ok((pool, PoolEntry(TokenAddress(token0, chain), TokenAddress(token1, chain),
                                Static(entry.feePips, entry.tickSpacing), decimals0.value, decimals1.value)))
          else
            Err(MissingDecimals(pool, if decimals0.Some? then token1 else token0))
  }

  /** The catalog of a run of offered pools, each entry either usable or excluded with its reason. */
  function Resolve(outside: Outside, meta: PoolsMetaResponse, chain: ChainKey, n: nat): Catalog
    requires n <= |meta.pools|
  {
    if n == 0 then Catalog(chain, map[], SliceRequest([]), []) else
      var before := Resolve(outside, meta, chain, n - 1);
      var entry := meta.pools[n - 1];
      match Classify(outside, entry, chain, meta.tokens)
      case Ok((pool, usable)) =>
        before.(pools := before.pools[pool := usable], request := SliceRequest(before.request.pools + [entry.key]))
      case Err(fault) => before.(excluded := before.excluded + [fault])
  }

  function Parsed(outside: Outside, meta: PoolsMetaResponse, chain: ChainKey): Catalog {
    Resolve(outside, meta, chain, |meta.pools|)
  }

  method ReadDecimals(outside: Outside, tokens: seq<TokenMetaEntry>) returns (decimals: Decimals)
    ensures Tabulates(outside, decimals, tokens)
  {
    decimals := map[];
    for i := 0 to |tokens|
      invariant Tabulates(outside, decimals, tokens[..i])
    {
      assert tokens[..i + 1][..i] == tokens[..i];
      var address := outside.addressOf(tokens[i].address);
      if address.Some? && tokens[i].decimals <= MAX_DECIMALS {
        decimals := decimals[address.value := tokens[i].decimals];
      }
    }
    assert tokens[..|tokens|] == tokens;
  }

  method Parse(outside: Outside, meta: PoolsMetaResponse, chain: ChainKey) returns (catalog: Catalog)
    ensures catalog == Parsed(outside, meta, chain)
  {
    var decimals := ReadDecimals(outside, meta.tokens);
    var pools: map<PoolRef, PoolEntry> := map[];
    var request: seq<PoolQuery> := [];
    var excluded: seq<CatalogFault> := [];
    for i := 0 to |meta.pools|
      invariant Catalog(chain, pools, SliceRequest(request), excluded) == Resolve(outside, meta, chain, i)
    {
      var entry := meta.pools[i];
      var pool, token0, token1 :=
        PoolRefOf(outside, entry.key, chain),
        ParseAddress(outside, entry.token0, "pool.token0"), ParseAddress(outside, entry.token1, "pool.token1");
      if pool.Err? {
        excluded := excluded + [BadHex(pool.error)];
      } else if token0.Err? {
        excluded := excluded + [BadHex(token0.error)];
      } else if token1.Err? {
        excluded := excluded + [BadHex(token1.error)];
      } else if token0.value in decimals && token1.value in decimals {
        pools := pools[pool.value := PoolEntry(
          TokenAddress(token0.value, chain), TokenAddress(token1.value, chain),
          Static(entry.feePips, entry.tickSpacing), decimals[token0.value], decimals[token1.value])];
        request := request + [entry.key];
      } else {
        var token := if token0.value in decimals then token1.value else token0.value;
        excluded := excluded + [MissingDecimals(pool.value, token)];
      }
    }
    catalog := Catalog(chain, pools, SliceRequest(request), excluded);
  }

  /** The request asks for exactly the pools the catalog holds. */
  ghost predicate Answers(outside: Outside, catalog: Catalog) {
    && (forall key <- catalog.request.pools ::
          PoolRefOf(outside, key, catalog.chain).Ok? && PoolRefOf(outside, key, catalog.chain).value in catalog.pools)
    && (forall pool <- catalog.pools :: Asks(outside, catalog, pool))
  }

  ghost predicate Asks(outside: Outside, catalog: Catalog, pool: PoolRef) {
    exists key <- catalog.request.pools :: PoolRefOf(outside, key, catalog.chain) == Ok(pool)
  }

  lemma OneMorePool(outside: Outside, before: Catalog, key: PoolQuery, pool: PoolRef, entry: PoolEntry)
    requires Answers(outside, before) && PoolRefOf(outside, key, before.chain) == Ok(pool)
    requires |before.pools| <= |before.request.pools|
    ensures var after := before.(pools := before.pools[pool := entry], request := SliceRequest(before.request.pools + [key]));
            Answers(outside, after) && |after.pools| <= |after.request.pools|
  {
    var after := before.(pools := before.pools[pool := entry], request := SliceRequest(before.request.pools + [key]));
    assert after.request.pools[|before.request.pools|] == key;
    forall p | p in after.pools ensures Asks(outside, after, p) {
      if p != pool {
        assert Asks(outside, before, p);
        var k :| k in before.request.pools && PoolRefOf(outside, k, before.chain) == Ok(p);
        assert k in after.request.pools;
      }
    }
    assert after.pools.Keys == before.pools.Keys + {pool};
  }

  lemma ClassifiedRef(outside: Outside, entry: PoolMetaEntry, chain: ChainKey, tokens: seq<TokenMetaEntry>)
    requires Classify(outside, entry, chain, tokens).Ok?
    ensures PoolRefOf(outside, entry.key, chain) == Ok(Classify(outside, entry, chain, tokens).value.0)
  {
  }

  /** Every offered entry is accounted for, duplicates included, and the request asks for exactly the
      pools the catalog holds. */
  lemma {:induction false} CatalogAccountsForEveryEntry(outside: Outside, meta: PoolsMetaResponse, chain: ChainKey, n: nat)
    requires n <= |meta.pools|
    ensures
      var catalog := Resolve(outside, meta, chain, n);
      && catalog.chain == chain
      && |catalog.request.pools| + |catalog.excluded| == n
      && |catalog.pools| <= |catalog.request.pools|
      && Answers(outside, catalog)
  {
    if n > 0 {
      CatalogAccountsForEveryEntry(outside, meta, chain, n - 1);
      var before, entry := Resolve(outside, meta, chain, n - 1), meta.pools[n - 1];
      var classified := Classify(outside, entry, chain, meta.tokens);
      if classified.Ok? {
        ClassifiedRef(outside, entry, chain, meta.tokens);
        OneMorePool(outside, before, entry.key, classified.value.0, classified.value.1);
      } else {
        ExcludingAnswers(outside, before, before.excluded + [classified.error]);
      }
    }
  }

  lemma ExcludingAnswers(outside: Outside, before: Catalog, excluded: seq<CatalogFault>)
    requires Answers(outside, before)
    ensures Answers(outside, before.(excluded := excluded))
  {
    forall pool | pool in before.pools ensures Asks(outside, before.(excluded := excluded), pool) {
      assert Asks(outside, before, pool);
    }
  }

  /** A pool is held exactly when some entry is usable for it. */
  lemma {:induction false} HeldWhenUsed(outside: Outside, meta: PoolsMetaResponse, chain: ChainKey, n: nat, pool: PoolRef)
    requires n <= |meta.pools|
    ensures pool in Resolve(outside, meta, chain, n).pools <==> exists i :: 0 <= i < n && Uses(outside, meta, chain, i, pool)
  {
    if n > 0 {
      HeldWhenUsed(outside, meta, chain, n - 1, pool);
      if Uses(outside, meta, chain, n - 1, pool) {
        assert pool in Resolve(outside, meta, chain, n).pools;
      } else {
        assert pool in Resolve(outside, meta, chain, n).pools <==> pool in Resolve(outside, meta, chain, n - 1).pools;
      }
    }
  }

  /** What is held for a pool is its last usable entry. */
  lemma {:induction false} LastUsableEntryWins(outside: Outside, meta: PoolsMetaResponse, chain: ChainKey, n: nat, i: nat, pool: PoolRef)
    requires i < n <= |meta.pools| && Uses(outside, meta, chain, i, pool)
    requires forall j | i < j < n :: !Uses(outside, meta, chain, j, pool)
    ensures pool in Resolve(outside, meta, chain, n).pools
    ensures Resolve(outside, meta, chain, n).pools[pool] == Classify(outside, meta.pools[i], chain, meta.tokens).value.1
  {
    if i < n - 1 {
      assert !Uses(outside, meta, chain, n - 1, pool);
      LastUsableEntryWins(outside, meta, chain, n - 1, i, pool);
    }
  }

  predicate Uses(outside: Outside, meta: PoolsMetaResponse, chain: ChainKey, i: nat, pool: PoolRef)
    requires i < |meta.pools|
  {
    var entry := Classify(outside, meta.pools[i], chain, meta.tokens);
    entry.Ok? && entry.value.0 == pool
  }

  /** How many of the offers before one are usable. */
  function UsableBefore(outside: Outside, meta: PoolsMetaResponse, chain: ChainKey, n: nat): (r: nat)
    requires n <= |meta.pools|
    ensures r <= n
  {
    if n == 0 then 0 else
      UsableBefore(outside, meta, chain, n - 1) + if Classify(outside, meta.pools[n - 1], chain, meta.tokens).Ok? then 1 else 0
  }

  /** Every offer has its place in the order it came: a usable one among the pools asked for, by its own
      key, and any other among the excluded, by its own fault. */
  lemma {:induction false} OffersKeepTheirOrder(outside: Outside, meta: PoolsMetaResponse, chain: ChainKey, n: nat, i: nat)
    requires i < n <= |meta.pools|
    ensures
      var (catalog, usable) := (Resolve(outside, meta, chain, n), UsableBefore(outside, meta, chain, n));
      |catalog.request.pools| == usable && |catalog.excluded| == n - usable
    ensures
      var (catalog, before) := (Resolve(outside, meta, chain, n), UsableBefore(outside, meta, chain, i));
      match Classify(outside, meta.pools[i], chain, meta.tokens)
      case Ok(_) => before < |catalog.request.pools| && catalog.request.pools[before] == meta.pools[i].key
      case Err(fault) => i - before < |catalog.excluded| && catalog.excluded[i - before] == fault
  {
    if n == 1 {
      assert Resolve(outside, meta, chain, 0) == Catalog(chain, map[], SliceRequest([]), []);
    } else {
      OffersKeepTheirOrder(outside, meta, chain, n - 1, if i < n - 1 then i else 0);
    }
  }

  // ---- Projecting a slice ----

  /** The identity order pools are sorted by: key first, then chain. */
  function ChainRank(chain: ChainKey): nat {
    match chain
    case Ethereum => 0 case Arbitrum => 1 case Base => 2 case Optimism => 3
    case Polygon => 4 case Bnb => 5 case Avalanche => 6
  }

  predicate KeyBelow(a: ProtocolPoolKey, b: ProtocolPoolKey) {
    match (a, b)
    case (UniswapV3(x), UniswapV3(y)) => x.bits < y.bits
    case (UniswapV4(x), UniswapV4(y)) => x < y
    case (UniswapV3(_), UniswapV4(_)) => true
    case (UniswapV4(_), UniswapV3(_)) => false
  }

  predicate Below(a: PoolRef, b: PoolRef) {
    KeyBelow(a.key, b.key) || (a.key == b.key && ChainRank(a.chain) < ChainRank(b.chain))
  }

  lemma BelowIsAStrictTotalOrder(a: PoolRef, b: PoolRef, c: PoolRef)
    ensures !Below(a, a)
    ensures a == b || Below(a, b) || Below(b, a)
    ensures Below(a, b) && Below(b, c) ==> Below(a, c)
  {
  }

  /** What one slice entry contributes: nothing, one pool's forward reserves, or a fault. */
  function Contribution(outside: Outside, catalog: Catalog, entry: PoolSlice): Result<Option<PoolReserves>, WireAdapterError> {
    if entry.state.Incomplete? then Ok(None) else
    match PoolRefOf(outside, entry.key, catalog.chain)
    case Err(fault) => Err(HexParse(fault))
    case Ok(pool) =>
      if pool !in catalog.pools then Ok(None) else
      var held := catalog.pools[pool];
      match ParsePoolState(outside, entry.state.state)
      case Err(fault) => Err(HexParse(fault))
      case Ok(state) =>
        match outside.reserveValues(pool, state, held.fee, held.token0, held.token1, held.token0Decimals, held.token1Decimals)
        case Err(detail) => Err(Projection(detail))
        case Ok(value) => Ok(Some(PoolReserves(held.token0, held.token1, pool, value)))
  }

  /** The contributions of a run of entries in order, or the first fault among them. */
  function Collect(outside: Outside, catalog: Catalog, entries: seq<PoolSlice>): Result<seq<PoolReserves>, WireAdapterError> {
    if entries == [] then Ok([]) else
    match Collect(outside, catalog, entries[..|entries| - 1])
    case Err(error) => Err(error)
    case Ok(before) =>
      match Contribution(outside, catalog, entries[|entries| - 1])
      case Err(error) => Err(error)
      case Ok(None) => Ok(before)
      case Ok(Some(reserve)) => Ok(before + [reserve])
  }

  /** Inserts after everything not above it, which keeps equal keys in arrival order. */
  function Insert(sorted: seq<PoolReserves>, reserve: PoolReserves): seq<PoolReserves> {
    if sorted == [] || !Below(reserve.poolId, sorted[|sorted| - 1].poolId) then sorted + [reserve]
    else Insert(sorted[..|sorted| - 1], reserve) + [sorted[|sorted| - 1]]
  }

  /** A stable sort by pool identity. */
  function SortedByPool(reserves: seq<PoolReserves>): seq<PoolReserves> {
    if reserves == [] then [] else Insert(SortedByPool(reserves[..|reserves| - 1]), reserves[|reserves| - 1])
  }

  /** Each reserve followed by its inverse. */
  function BothWays(reserves: seq<PoolReserves>): (r: seq<PoolReserves>)
    ensures |r| == 2 * |reserves|
    ensures forall i | 0 <= i < |reserves| :: r[2 * i] == reserves[i] && r[2 * i + 1] == reserves[i].Inverse()
  {
    if reserves == [] then [] else
      var last := reserves[|reserves| - 1];
      BothWays(reserves[..|reserves| - 1]) + [last, last.Inverse()]
  }

  function Projected(outside: Outside, catalog: Catalog, slice: SliceResponse): Result<seq<PoolReserves>, WireAdapterError> {
    match Collect(outside, catalog, slice.pools)
    case Err(error) => Err(error)
    case Ok(reserves) => Ok(BothWays(SortedByPool(reserves)))
  }

  method Project(outside: Outside, catalog: Catalog, slice: SliceResponse)
    returns (r: Result<seq<PoolReserves>, WireAdapterError>)
    ensures r == Projected(outside, catalog, slice)
  {
    var projected: seq<PoolReserves> := [];
    for i := 0 to |slice.pools|
      invariant Collect(outside, catalog, slice.pools[..i]) == Ok(projected)
    {
      assert slice.pools[..i + 1][..i] == slice.pools[..i];
      var entry := slice.pools[i];
      if entry.state.Incomplete? {
        continue;
      }
      var contributed := Contribution(outside, catalog, entry);
      if contributed.Err? {
        FaultsPersist(outside, catalog, slice.pools, i + 1);
        return Err(contributed.error);
      }
      if contributed.value.Some? {
        projected := projected + [contributed.value.value];
      }
    }
    assert slice.pools[..|slice.pools|] == slice.pools;
    var sorted := SortedByPool(projected);
    var reserves: seq<PoolReserves> := [];
    for i := 0 to |sorted|
      invariant reserves == BothWays(sorted[..i])
    {
      assert sorted[..i + 1][..i] == sorted[..i];
      reserves := reserves + [sorted[i], sorted[i].Inverse()];
    }
    assert sorted[..|sorted|] == sorted;
    return Ok(reserves);
  }

  lemma {:induction false} FaultsPersist(outside: Outside, catalog: Catalog, entries: seq<PoolSlice>, n: nat)
    requires n <= |entries| && Collect(outside, catalog, entries[..n]).Err?
    ensures Collect(outside, catalog, entries) == Collect(outside, catalog, entries[..n])
  {
    if n < |entries| {
      assert entries[..|entries| - 1][..n] == entries[..n];
      FaultsPersist(outside, catalog, entries[..|entries| - 1], n);
    } else {
      assert entries[..n] == entries;
    }
  }

  // ---- The projection depends only on which pools arrived ----

  predicate Contributes(outside: Outside, catalog: Catalog, entry: PoolSlice) {
    Contribution(outside, catalog, entry).Ok? && Contribution(outside, catalog, entry).value.Some?
  }

  function ReserveOf(outside: Outside, catalog: Catalog, entry: PoolSlice): PoolReserves
    requires Contributes(outside, catalog, entry)
  {
    Contribution(outside, catalog, entry).value.value
  }

  /** No two entries contribute the same pool. */
  ghost predicate DistinctPools(outside: Outside, catalog: Catalog, entries: seq<PoolSlice>) {
    forall i, j | 0 <= i < j < |entries| &&
                  Contributes(outside, catalog, entries[i]) && Contributes(outside, catalog, entries[j]) ::
      ReserveOf(outside, catalog, entries[i]).poolId != ReserveOf(outside, catalog, entries[j]).poolId
  }

  ghost predicate ComesFrom(outside: Outside, catalog: Catalog, entries: seq<PoolSlice>, reserve: PoolReserves) {
    exists entry <- entries :: Contributes(outside, catalog, entry) && ReserveOf(outside, catalog, entry) == reserve
  }

  /** Complete, and one of the catalog's pools. */
  predicate Listed(outside: Outside, catalog: Catalog, entry: PoolSlice) {
    && entry.state.Complete?
    && PoolRefOf(outside, entry.key, catalog.chain).Ok?
    && PoolRefOf(outside, entry.key, catalog.chain).value in catalog.pools
  }

  /** A slice collects exactly when none of its entries is at fault, and then it holds exactly what
      its contributing entries contribute: incomplete and unlisted pools cost only themselves. */
  lemma {:induction false} CollectsWhatContributes(outside: Outside, catalog: Catalog, entries: seq<PoolSlice>)
    ensures Collect(outside, catalog, entries).Ok? <==> forall entry <- entries :: Contribution(outside, catalog, entry).Ok?
    ensures Collect(outside, catalog, entries).Ok? ==>
      forall reserve :: reserve in Collect(outside, catalog, entries).value <==> ComesFrom(outside, catalog, entries, reserve)
  {
    if entries != [] {
      var last := |entries| - 1;
      var before, entry := entries[..last], entries[last];
      CollectsWhatContributes(outside, catalog, before);
      assert entries == before + [entry];
      if Collect(outside, catalog, entries).Ok? {
        forall reserve
          ensures ComesFrom(outside, catalog, entries, reserve) <==>
                  ComesFrom(outside, catalog, before, reserve)
                  || (Contributes(outside, catalog, entry) && ReserveOf(outside, catalog, entry) == reserve)
        {
          if ComesFrom(outside, catalog, before, reserve) {
            var e :| e in before && Contributes(outside, catalog, e) && ReserveOf(outside, catalog, e) == reserve;
            assert e in entries;
          }
        }
      }
    }
  }

  predicate DistinctIds(reserves: seq<PoolReserves>) {
    forall i, j | 0 <= i < j < |reserves| :: reserves[i].poolId != reserves[j].poolId
  }

  lemma {:induction false} DistinctPoolsCollectDistinctly(outside: Outside, catalog: Catalog, entries: seq<PoolSlice>)
    requires DistinctPools(outside, catalog, entries) && Collect(outside, catalog, entries).Ok?
    ensures DistinctIds(Collect(outside, catalog, entries).value)
  {
    if entries != [] {
      var last := |entries| - 1;
      var before := entries[..last];
      DistinctPoolsCollectDistinctly(outside, catalog, before);
      CollectsWhatContributes(outside, catalog, before);
      var collected := Collect(outside, catalog, before).value;
      if Contributes(outside, catalog, entries[last]) {
        forall i | 0 <= i < |collected|
          ensures collected[i].poolId != ReserveOf(outside, catalog, entries[last]).poolId
        {
          assert collected[i] in collected;
          var entry :| entry in before && Contributes(outside, catalog, entry) && ReserveOf(outside, catalog, entry) == collected[i];
          var k :| 0 <= k < last && before[k] == entry;
          assert entries[k] == entry;
        }
      }
    }
  }

  predicate StrictlySorted(reserves: seq<PoolReserves>) {
    forall i, j | 0 <= i < j < |reserves| :: Below(reserves[i].poolId, reserves[j].poolId)
  }

  lemma {:induction false} InsertKeepsOrder(sorted: seq<PoolReserves>, reserve: PoolReserves)
    requires StrictlySorted(sorted)
    requires forall other <- sorted :: other.poolId != reserve.poolId
    ensures StrictlySorted(Insert(sorted, reserve))
    ensures forall other :: other in Insert(sorted, reserve) <==> other in sorted || other == reserve
  {
    if sorted != [] {
      var last := |sorted| - 1;
      var before, top := sorted[..last], sorted[last];
      assert sorted == before + [top];
      BelowIsAStrictTotalOrder(reserve.poolId, top.poolId, top.poolId);
      if Below(reserve.poolId, top.poolId) {
        InsertKeepsOrder(before, reserve);
        var inserted := Insert(before, reserve);
        forall i | 0 <= i < |inserted| ensures Below(inserted[i].poolId, top.poolId) {
          assert inserted[i] in inserted;
        }
      } else {
        forall i | 0 <= i < |sorted| ensures Below(sorted[i].poolId, reserve.poolId) {
          BelowIsAStrictTotalOrder(sorted[i].poolId, top.poolId, reserve.poolId);
        }
      }
    }
  }

  lemma {:induction false} SortKeepsElements(reserves: seq<PoolReserves>)
    requires DistinctIds(reserves)
    ensures StrictlySorted(SortedByPool(reserves))
    ensures forall reserve :: reserve in SortedByPool(reserves) <==> reserve in reserves
  {
    if reserves != [] {
      var last := |reserves| - 1;
      SortKeepsElements(reserves[..last]);
      assert reserves == reserves[..last] + [reserves[last]];
      InsertKeepsOrder(SortedByPool(reserves[..last]), reserves[last]);
    }
  }

  // ---- The sort, pools repeated or not ----

  predicate Sorted(reserves: seq<PoolReserves>) {
    forall i, j | 0 <= i < j < |reserves| :: !Below(reserves[j].poolId, reserves[i].poolId)
  }

  /** The reserves of one pool, in the order they stand. */
  function OfPool(reserves: seq<PoolReserves>, pool: PoolRef): seq<PoolReserves> {
    if reserves == [] then [] else
      var last := reserves[|reserves| - 1];
      OfPool(reserves[..|reserves| - 1], pool) + if last.poolId == pool then [last] else []
  }

  ghost predicate Agree(reserves: seq<PoolReserves>, other: seq<PoolReserves>) {
    forall pool :: OfPool(reserves, pool) == OfPool(other, pool)
  }

  lemma OneMoreOfPool(reserves: seq<PoolReserves>, reserve: PoolReserves, pool: PoolRef)
    ensures OfPool(reserves + [reserve], pool) == OfPool(reserves, pool) + if reserve.poolId == pool then [reserve] else []
  {
    assert (reserves + [reserve])[..|reserves|] == reserves;
  }

  lemma {:induction false} InsertAgrees(sorted: seq<PoolReserves>, reserve: PoolReserves, pool: PoolRef)
    ensures OfPool(Insert(sorted, reserve), pool) == OfPool(sorted + [reserve], pool)
    decreases |sorted|
  {
    if sorted != [] && Below(reserve.poolId, sorted[|sorted| - 1].poolId) {
      var before, top := sorted[..|sorted| - 1], sorted[|sorted| - 1];
      InsertAgrees(before, reserve, pool);
      assert sorted == before + [top];
      OneMoreOfPool(Insert(before, reserve), top, pool);
      OneMoreOfPool(before, reserve, pool);
      OneMoreOfPool(before, top, pool);
      OneMoreOfPool(sorted, reserve, pool);
      BelowIsAStrictTotalOrder(reserve.poolId, reserve.poolId, reserve.poolId);
    }
  }

  lemma {:induction false} InsertKeepsAll(sorted: seq<PoolReserves>, reserve: PoolReserves)
    ensures multiset(Insert(sorted, reserve)) == multiset(sorted + [reserve])
    decreases |sorted|
  {
    if sorted != [] && Below(reserve.poolId, sorted[|sorted| - 1].poolId) {
      InsertKeepsAll(sorted[..|sorted| - 1], reserve);
      assert sorted == sorted[..|sorted| - 1] + [sorted[|sorted| - 1]];
    }
  }

  lemma OneMoreOnTop(sorted: seq<PoolReserves>, top: PoolReserves)
    requires Sorted(sorted) && forall reserve <- sorted :: !Below(top.poolId, reserve.poolId)
    ensures Sorted(sorted + [top])
  {
    forall i | 0 <= i < |sorted| ensures !Below(top.poolId, sorted[i].poolId) {
      assert sorted[i] in sorted;
    }
  }

  lemma {:induction false} InsertSorts(sorted: seq<PoolReserves>, reserve: PoolReserves)
    requires Sorted(sorted)
    ensures Sorted(Insert(sorted, reserve))
    decreases |sorted|
  {
    if sorted != [] {
      var before, top := sorted[..|sorted| - 1], sorted[|sorted| - 1];
      if Below(reserve.poolId, top.poolId) {
        InsertSorts(before, reserve);
        forall other | other in Insert(before, reserve) ensures !Below(top.poolId, other.poolId) {
          InsertKeepsAll(before, reserve);
          assert other in multiset(before + [reserve]);
          BelowIsAStrictTotalOrder(top.poolId, reserve.poolId, top.poolId);
        }
        OneMoreOnTop(Insert(before, reserve), top);
      } else {
        forall other | other in sorted ensures !Below(reserve.poolId, other.poolId) {
          BelowIsAStrictTotalOrder(reserve.poolId, other.poolId, top.poolId);
          BelowIsAStrictTotalOrder(other.poolId, top.poolId, reserve.poolId);
        }
        OneMoreOnTop(sorted, reserve);
      }
    }
  }

  /** Sorting puts pools in order, keeps every reserve as often as it came, and leaves the reserves of
      one pool in the order they came. */
  lemma {:induction false} SortIsStable(reserves: seq<PoolReserves>)
    ensures Sorted(SortedByPool(reserves)) && Agree(SortedByPool(reserves), reserves)
    ensures multiset(SortedByPool(reserves)) == multiset(reserves)
  {
    if reserves != [] {
      var last := |reserves| - 1;
      var before := SortedByPool(reserves[..last]);
      SortIsStable(reserves[..last]);
      InsertSorts(before, reserves[last]);
      InsertKeepsAll(before, reserves[last]);
      assert reserves == reserves[..last] + [reserves[last]];
      forall pool ensures OfPool(SortedByPool(reserves), pool) == OfPool(reserves, pool) {
        InsertAgrees(before, reserves[last], pool);
        assert OfPool(before, pool) == OfPool(reserves[..last], pool);
        OneMoreOfPool(before, reserves[last], pool);
      }
    }
  }

  lemma {:induction false} HeldOfPool(reserves: seq<PoolReserves>, pool: PoolRef)
    ensures forall reserve :: reserve in OfPool(reserves, pool) <==> reserve in reserves && reserve.poolId == pool
  {
    if reserves != [] {
      var last := |reserves| - 1;
      HeldOfPool(reserves[..last], pool);
      assert reserves == reserves[..last] + [reserves[last]];
    }
  }

  lemma AgreeingTop(reserves: seq<PoolReserves>, other: seq<PoolReserves>)
    requires Sorted(reserves) && Sorted(other) && Agree(reserves, other) && reserves != []
    ensures other != [] && other[|other| - 1] == reserves[|reserves| - 1]
    ensures Agree(reserves[..|reserves| - 1], other[..|other| - 1])
  {
    var top := reserves[|reserves| - 1];
    HeldOfPool(reserves, top.poolId);
    HeldOfPool(other, top.poolId);
    assert OfPool(reserves, top.poolId) == OfPool(other, top.poolId);
    assert top in other;
    var otherTop := other[|other| - 1];
    HeldOfPool(reserves, otherTop.poolId);
    HeldOfPool(other, otherTop.poolId);
    assert OfPool(reserves, otherTop.poolId) == OfPool(other, otherTop.poolId);
    assert otherTop in reserves;
    BelowIsAStrictTotalOrder(top.poolId, otherTop.poolId, top.poolId);
    var before, otherBefore := reserves[..|reserves| - 1], other[..|other| - 1];
    assert OfPool(before, top.poolId) + [top] == OfPool(otherBefore, top.poolId) + [otherTop];
    assert (OfPool(before, top.poolId) + [top])[|OfPool(before, top.poolId)|] == top;
    forall pool ensures OfPool(before, pool) == OfPool(otherBefore, pool) {
      assert OfPool(reserves, pool) == OfPool(other, pool);
      assert OfPool(before, pool) == OfPool(before + [top], pool)[..|OfPool(before, pool)|] by {
        OneMoreOfPool(before, top, pool);
      }
    }
  }

  /** That leaves one result: any sort that is stable gives this one. */
  lemma {:induction false} StableSortIsUnique(reserves: seq<PoolReserves>, other: seq<PoolReserves>)
    requires Sorted(reserves) && Sorted(other) && Agree(reserves, other)
    ensures reserves == other
    decreases |reserves|
  {
    if reserves != [] {
      AgreeingTop(reserves, other);
      var before, otherBefore := reserves[..|reserves| - 1], other[..|other| - 1];
      StableSortIsUnique(before, otherBefore);
      assert reserves == before + [reserves[|reserves| - 1]] && other == otherBefore + [other[|other| - 1]];
    } else if other != [] {
      AgreeingTop(other, reserves);
    }
  }

  lemma StrictlySortedTop(reserves: seq<PoolReserves>, other: seq<PoolReserves>)
    requires StrictlySorted(reserves) && StrictlySorted(other) && reserves != [] && other != []
    requires forall reserve :: reserve in reserves <==> reserve in other
    ensures reserves[|reserves| - 1] == other[|other| - 1]
  {
    var top, otherTop := reserves[|reserves| - 1], other[|other| - 1];
    assert top in other && otherTop in reserves;
    BelowIsAStrictTotalOrder(top.poolId, otherTop.poolId, top.poolId);
  }

  lemma SameElementsBothEmpty(reserves: seq<PoolReserves>, other: seq<PoolReserves>)
    requires forall reserve <- reserves :: reserve in other
    ensures other == [] ==> reserves == []
  {
    if reserves != [] {
      assert reserves[0] in other;
    }
  }

  /** A strictly sorted sequence is determined by its elements. */
  lemma {:induction false} StrictlySortedIsUnique(reserves: seq<PoolReserves>, other: seq<PoolReserves>)
    requires StrictlySorted(reserves) && StrictlySorted(other)
    requires forall reserve :: reserve in reserves <==> reserve in other
    ensures reserves == other
  {
    if reserves == [] {
      SameElementsBothEmpty(other, reserves);
    } else if other == [] {
      SameElementsBothEmpty(reserves, other);
    } else {
      StrictlySortedTop(reserves, other);
      var before, otherBefore := reserves[..|reserves| - 1], other[..|other| - 1];
      var top := reserves[|reserves| - 1];
      assert reserves == before + [top] && other == otherBefore + [top];
      BelowIsAStrictTotalOrder(top.poolId, top.poolId, top.poolId);
      assert top !in before && top !in otherBefore;
      forall reserve ensures reserve in before <==> reserve in otherBefore {
        assert reserve in before <==> reserve in reserves && reserve != top;
        assert reserve in otherBefore <==> reserve in other && reserve != top;
      }
      StrictlySortedIsUnique(before, otherBefore);
    }
  }

  /** Two slices reporting the same entries in any order, on distinct pools, project alike: both fail
      or both succeed, and on success with the same sorted sequence. */
  lemma ProjectionIgnoresOrder(outside: Outside, catalog: Catalog, slice: SliceResponse, other: SliceResponse)
    requires forall entry :: entry in slice.pools <==> entry in other.pools
    requires DistinctPools(outside, catalog, slice.pools) && DistinctPools(outside, catalog, other.pools)
    ensures Projected(outside, catalog, slice).Ok? <==> Projected(outside, catalog, other).Ok?
    ensures Projected(outside, catalog, slice).Ok? ==> Projected(outside, catalog, slice) == Projected(outside, catalog, other)
  {
    CollectsWhatContributes(outside, catalog, slice.pools);
    CollectsWhatContributes(outside, catalog, other.pools);
    if Projected(outside, catalog, slice).Ok? {
      var mine, theirs := Collect(outside, catalog, slice.pools).value, Collect(outside, catalog, other.pools).value;
      assert forall reserve :: reserve in mine <==> reserve in theirs;
      DistinctPoolsCollectDistinctly(outside, catalog, slice.pools);
      DistinctPoolsCollectDistinctly(outside, catalog, other.pools);
      SortKeepsElements(mine);
      SortKeepsElements(theirs);
      StrictlySortedIsUnique(SortedByPool(mine), SortedByPool(theirs));
    }
  }

  /** The forward entry of a pair. */
  ghost predicate IsForward(reserves: seq<PoolReserves>, reserve: PoolReserves) {
    exists i :: 0 <= i < |reserves| / 2 && reserves[2 * i] == reserve
  }

  lemma ForwardOf(sorted: seq<PoolReserves>, reserve: PoolReserves)
    ensures IsForward(BothWays(sorted), reserve) <==> reserve in sorted
  {
    var reserves := BothWays(sorted);
    if reserve in sorted {
      var i :| 0 <= i < |sorted| && sorted[i] == reserve;
      assert reserves[2 * i] == reserve;
    }
    if IsForward(reserves, reserve) {
      var i :| 0 <= i < |reserves| / 2 && reserves[2 * i] == reserve;
      assert sorted[i] == reserve;
    }
  }

  lemma PairsInOrder(sorted: seq<PoolReserves>)
    requires StrictlySorted(sorted)
    ensures
      var reserves := BothWays(sorted);
      && |reserves| % 2 == 0
      && (forall i | 0 <= i < |reserves| / 2 :: reserves[2 * i + 1] == reserves[2 * i].Inverse())
      && (forall i, j | 0 <= i < j < |reserves| / 2 :: Below(reserves[2 * i].poolId, reserves[2 * j].poolId))
  {
  }

  lemma ContributesWhenListed(outside: Outside, catalog: Catalog, entry: PoolSlice)
    requires Contribution(outside, catalog, entry).Ok?
    ensures Contributes(outside, catalog, entry) <==> Listed(outside, catalog, entry)
  {
  }

  /** A slice on distinct pools projects to sorted forward and inverse pairs, one for each entry that
      is complete and listed in the catalog, and none for any other. */
  lemma ProjectionIsExact(outside: Outside, catalog: Catalog, slice: SliceResponse)
    requires DistinctPools(outside, catalog, slice.pools) && Projected(outside, catalog, slice).Ok?
    ensures forall entry <- slice.pools :: Contributes(outside, catalog, entry) <==> Listed(outside, catalog, entry)
    ensures
      var reserves := Projected(outside, catalog, slice).value;
      && |reserves| % 2 == 0
      && (forall i | 0 <= i < |reserves| / 2 :: reserves[2 * i + 1] == reserves[2 * i].Inverse())
      && (forall i, j | 0 <= i < j < |reserves| / 2 :: Below(reserves[2 * i].poolId, reserves[2 * j].poolId))
      && (forall reserve :: IsForward(reserves, reserve) <==> ComesFrom(outside, catalog, slice.pools, reserve))
  {
    CollectsWhatContributes(outside, catalog, slice.pools);
    forall entry | entry in slice.pools ensures Contributes(outside, catalog, entry) <==> Listed(outside, catalog, entry) {
      ContributesWhenListed(outside, catalog, entry);
    }
    DistinctPoolsCollectDistinctly(outside, catalog, slice.pools);
    var collected := Collect(outside, catalog, slice.pools).value;
    var sorted := SortedByPool(collected);
    SortKeepsElements(collected);
    PairsInOrder(sorted);
    forall reserve ensures IsForward(BothWays(sorted), reserve) <==> ComesFrom(outside, catalog, slice.pools, reserve) {
      ForwardOf(sorted, reserve);
    }
  }

  /** The order pools are sorted by: v3 before v4, then by address or id, then by chain in its declared order. */
  lemma PoolsSortByKeyThenChain(a: PoolRef, b: PoolRef)
    ensures a.key.UniswapV3? && b.key.UniswapV4? ==> Below(a, b)
    ensures a.key.UniswapV3? && b.key.UniswapV3? && a.key.address.bits < b.key.address.bits ==> Below(a, b)
    ensures a.key.UniswapV4? && b.key.UniswapV4? && a.key.poolId < b.key.poolId ==> Below(a, b)
    ensures a.key == b.key ==>
      var chains := [Ethereum, Arbitrum, Base, Optimism, Polygon, Bnb, Avalanche];
      Below(a, b) <==> exists i, j :: 0 <= i < j < 7 && chains[i] == a.chain && chains[j] == b.chain
  {
    var chains := [Ethereum, Arbitrum, Base, Optimism, Polygon, Bnb, Avalanche];
    assert chains[ChainRank(a.chain)] == a.chain && chains[ChainRank(b.chain)] == b.chain;
  }

  /** Of each pair the second is the first the other way round: tokens, their amounts and their limits
      exchanged, the pool and its fee the same. */
  lemma PairsMirror(outside: Outside, catalog: Catalog, slice: SliceResponse, i: nat)
    requires Projected(outside, catalog, slice).Ok? && 2 * i + 1 < |Projected(outside, catalog, slice).value|
    ensures
      var reserves := Projected(outside, catalog, slice).value;
      var (there, back) := (reserves[2 * i], reserves[2 * i + 1]);
      && back.token0 == there.token1 && back.token1 == there.token0 && back.poolId == there.poolId
      && back.value.token0 == there.value.token1 && back.value.token1 == there.value.token0
      && back.value.maxSwap0 == there.value.maxSwap1 && back.value.maxSwap1 == there.value.maxSwap0
      && back.value.feeMultiplier == there.value.feeMultiplier
  {
  }

  // ---- From the wire to the reserves ----

  /** Entry `j` is the last to give the token usable decimals. */
  predicate LastDecimals(outside: Outside, tokens: seq<TokenMetaEntry>, address: Address, j: nat) {
    && j < |tokens| && outside.addressOf(tokens[j].address) == Some(address) && tokens[j].decimals <= 36
    && forall i | j < i < |tokens| :: outside.addressOf(tokens[i].address) != Some(address) || 36 < tokens[i].decimals
  }

  /** A token's decimals are those of the last entry that names it with at most 36. */
  lemma {:induction false} DecimalsAreTheLast(outside: Outside, tokens: seq<TokenMetaEntry>, address: Address, j: nat)
    requires LastDecimals(outside, tokens, address, j)
    ensures DecimalsOf(outside, tokens, address) == Some(tokens[j].decimals)
    decreases |tokens|
  {
    var last := |tokens| - 1;
    if j < last {
      assert forall i | 0 <= i < last :: tokens[..last][i] == tokens[i];
      DecimalsAreTheLast(outside, tokens[..last], address, j);
    }
  }

  lemma {:induction false} DecimalsComeFromAnEntry(outside: Outside, tokens: seq<TokenMetaEntry>, address: Address)
    ensures DecimalsOf(outside, tokens, address).Some? <==> exists j: nat :: LastDecimals(outside, tokens, address, j)
    decreases |tokens|
  {
    if tokens != [] {
      var last := |tokens| - 1;
      var before := tokens[..last];
      assert forall i | 0 <= i < last :: before[i] == tokens[i];
      DecimalsComeFromAnEntry(outside, before, address);
      if outside.addressOf(tokens[last].address) == Some(address) && tokens[last].decimals <= MAX_DECIMALS {
        assert LastDecimals(outside, tokens, address, last);
      } else {
        forall j: nat | LastDecimals(outside, before, address, j) ensures LastDecimals(outside, tokens, address, j) {
        }
        forall j: nat | LastDecimals(outside, tokens, address, j) ensures LastDecimals(outside, before, address, j) {
        }
      }
    }
  }

  /** The identity a pool's text stands for. */
  predicate Identifies(outside: Outside, key: PoolQuery, chain: ChainKey, pool: PoolRef) {
    && pool.chain == chain
    && match key
       case V3Query(text) => pool.key.UniswapV3? && outside.addressOf(text) == Some(pool.key.address)
       case V4Query(text) => pool.key.UniswapV4? && outside.hashOf(text) == Some(pool.key.poolId)
  }

  lemma RefIdentifies(outside: Outside, key: PoolQuery, chain: ChainKey, pool: PoolRef)
    ensures PoolRefOf(outside, key, chain) == Ok(pool) <==> Identifies(outside, key, chain, pool)
  {
  }

  /** What the catalog holds for a pool, read off the offer: both tokens in the entry's order, its fee and
      spacing, and each token's own decimals. */
  ghost predicate Offers(outside: Outside, meta: PoolsMetaResponse, chain: ChainKey, offer: PoolMetaEntry, pool: PoolRef, held: PoolEntry) {
    && Identifies(outside, offer.key, chain, pool)
    && held.token0.chain == chain && outside.addressOf(offer.token0) == Some(held.token0.address)
    && held.token1.chain == chain && outside.addressOf(offer.token1) == Some(held.token1.address)
    && held.fee == Static(offer.feePips, offer.tickSpacing)
    && (exists j: nat :: LastDecimals(outside, meta.tokens, held.token0.address, j) && held.token0Decimals == meta.tokens[j].decimals)
    && (exists j: nat :: LastDecimals(outside, meta.tokens, held.token1.address, j) && held.token1Decimals == meta.tokens[j].decimals)
  }

  lemma DecimalsGiven(outside: Outside, tokens: seq<TokenMetaEntry>, address: Address, decimals: nat)
    requires DecimalsOf(outside, tokens, address) == Some(decimals)
    ensures exists j: nat :: LastDecimals(outside, tokens, address, j) && decimals == tokens[j].decimals
  {
    DecimalsComeFromAnEntry(outside, tokens, address);
    var j: nat :| LastDecimals(outside, tokens, address, j);
    DecimalsAreTheLast(outside, tokens, address, j);
  }

  /** An entry is usable for a pool exactly when it identifies it, both its tokens parse and both have usable
      decimals; and then it is held as it was offered. */
  lemma UsableAsOffered(outside: Outside, meta: PoolsMetaResponse, chain: ChainKey, i: nat, pool: PoolRef)
    requires i < |meta.pools|
    ensures
      var offer := meta.pools[i];
      Uses(outside, meta, chain, i, pool) <==>
        && Identifies(outside, offer.key, chain, pool)
        && outside.addressOf(offer.token0).Some? && outside.addressOf(offer.token1).Some?
        && (exists j: nat :: LastDecimals(outside, meta.tokens, outside.addressOf(offer.token0).value, j))
        && (exists j: nat :: LastDecimals(outside, meta.tokens, outside.addressOf(offer.token1).value, j))
    ensures Uses(outside, meta, chain, i, pool) ==>
      Offers(outside, meta, chain, meta.pools[i], pool, Classify(outside, meta.pools[i], chain, meta.tokens).value.1)
  {
    var offer := meta.pools[i];
    RefIdentifies(outside, offer.key, chain, pool);
    if outside.addressOf(offer.token0).Some? && outside.addressOf(offer.token1).Some? {
      DecimalsComeFromAnEntry(outside, meta.tokens, outside.addressOf(offer.token0).value);
      DecimalsComeFromAnEntry(outside, meta.tokens, outside.addressOf(offer.token1).value);
    }
    if Uses(outside, meta, chain, i, pool) {
      var held := Classify(outside, offer, chain, meta.tokens).value.1;
      DecimalsGiven(outside, meta.tokens, held.token0.address, held.token0Decimals);
      DecimalsGiven(outside, meta.tokens, held.token1.address, held.token1Decimals);
    }
  }

  /** Why an offer is left out: the first of pool, token0 and token1 that does not parse, with its text, and
      else the first of its tokens without usable decimals. */
  lemma ExcludedForItsFirstFault(outside: Outside, offer: PoolMetaEntry, chain: ChainKey, tokens: seq<TokenMetaEntry>, fault: CatalogFault)
    requires Classify(outside, offer, chain, tokens) == Err(fault)
    ensures
      match fault
      case MissingDecimals(pool, token) =>
        && Identifies(outside, offer.key, chain, pool)
        && !(exists j: nat :: LastDecimals(outside, tokens, token, j))
        && outside.addressOf(offer.token0).Some? && outside.addressOf(offer.token1).Some?
        && (outside.addressOf(offer.token0) == Some(token)
            || (outside.addressOf(offer.token1) == Some(token)
                && exists j: nat :: LastDecimals(outside, tokens, outside.addressOf(offer.token0).value, j)))
      case BadHex(HexFault(field, value)) =>
        || (field == "pool.address" && offer.key == V3Query(value) && outside.addressOf(value).None?)
        || (field == "pool.pool_id" && offer.key == V4Query(value) && outside.hashOf(value).None?)
        || ((exists pool :: Identifies(outside, offer.key, chain, pool)) && (
             || (field == "pool.token0" && value == offer.token0 && outside.addressOf(value).None?)
             || (field == "pool.token1" && value == offer.token1 && outside.addressOf(value).None?
                 && outside.addressOf(offer.token0).Some?)))
  {
    if PoolRefOf(outside, offer.key, chain).Ok? {
      RefIdentifies(outside, offer.key, chain, PoolRefOf(outside, offer.key, chain).value);
      if outside.addressOf(offer.token0).Some? && outside.addressOf(offer.token1).Some? {
        DecimalsComeFromAnEntry(outside, tokens, outside.addressOf(offer.token0).value);
        DecimalsComeFromAnEntry(outside, tokens, outside.addressOf(offer.token1).value);
      }
    }
  }

  lemma Strip0xStripsThePrefix(digits: string)
    ensures Strip0x("0x" + digits) == digits && Strip0x("0X" + digits) == digits
    ensures (|digits| < 2 || digits[0] != '0' || digits[1] !in "xX") ==> Strip0x(digits) == digits
  {
    assert ("0x" + digits)[2..] == digits && ("0X" + digits)[2..] == digits;
  }

  /** The state a slice reports for a pool: each text in its own field, and the tick in 24 bits. */
  predicate Reports(outside: Outside, report: WirePoolState, state: PoolState) {
    && outside.u160Of(Strip0x(report.sqrtPriceX96)) == Some(state.sqrtPriceX96)
    && outside.u128Of(Strip0x(report.liquidity)) == Some(state.liquidity)
    && report.tick == state.tick && -8_388_608 <= state.tick <= 8_388_607
  }

  lemma ParsesWhatIsReported(outside: Outside, report: WirePoolState, state: PoolState)
    ensures ParsePoolState(outside, report) == Ok(state) <==> Reports(outside, report, state)
  {
  }

  /** From the wire to the optimizer: a complete slice entry for a pool, with the last offer usable for it,
      puts forward exactly the reserves whose tokens are the offer's in its order, and whose value is what
      the reserve arithmetic makes of the reported price, tick and liquidity, the offered fee and the two
      tokens with their own decimals. */
  lemma ReservesComeFromTheWire(
      outside: Outside, meta: PoolsMetaResponse, chain: ChainKey, slice: SliceResponse, i: nat, entry: PoolSlice, pool: PoolRef,
      state: PoolState, value: ReserveValues)
    returns (held: PoolEntry)
    requires i < |meta.pools| && Uses(outside, meta, chain, i, pool)
    requires forall j | i < j < |meta.pools| :: !Uses(outside, meta, chain, j, pool)
    requires entry in slice.pools && Identifies(outside, entry.key, chain, pool)
    requires entry.state.Complete? && Reports(outside, entry.state.state, state)
    requires Projected(outside, Parsed(outside, meta, chain), slice).Ok?
    ensures Offers(outside, meta, chain, meta.pools[i], pool, held)
    ensures outside.reserveValues(pool, state, held.fee, held.token0, held.token1, held.token0Decimals, held.token1Decimals) == Ok(value) ==>
      IsForward(Projected(outside, Parsed(outside, meta, chain), slice).value, PoolReserves(held.token0, held.token1, pool, value))
  {
    var catalog := Parsed(outside, meta, chain);
    UsableAsOffered(outside, meta, chain, i, pool);
    LastUsableEntryWins(outside, meta, chain, |meta.pools|, i, pool);
    CatalogAccountsForEveryEntry(outside, meta, chain, |meta.pools|);
    held := catalog.pools[pool];
    RefIdentifies(outside, entry.key, chain, pool);
    ParsesWhatIsReported(outside, entry.state.state, state);
    if outside.reserveValues(pool, state, held.fee, held.token0, held.token1, held.token0Decimals, held.token1Decimals) == Ok(value) {
      var reserve := PoolReserves(held.token0, held.token1, pool, value);
      assert Contribution(outside, catalog, entry) == Ok(Some(reserve));
      CollectsWhatContributes(outside, catalog, slice.pools);
      var collected := Collect(outside, catalog, slice.pools).value;
      assert ComesFrom(outside, catalog, slice.pools, reserve);
      SortIsStable(collected);
      assert reserve in multiset(SortedByPool(collected));
      ForwardOf(SortedByPool(collected), reserve);
    }
  }
}
