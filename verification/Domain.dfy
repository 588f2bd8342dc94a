/** Identifiers and small datatypes shared by every component. */
module Domain {

  datatype Option<+T> = None | Some(value: T)

  datatype Result<+T, +E> = Ok(value: T) | Err(error: E)

  /** The chains the client knows how to speak to, in declaration order. */
  datatype ChainKey = Ethereum | Arbitrum | Base | Optimism | Polygon | Bnb | Avalanche

  /** A 20-byte contract address, as the number its bytes spell. */
  datatype Address = Address(bits: nat)

  /** A token contract stamped with the chain it lives on. */
  datatype TokenAddress = TokenAddress(address: Address, chain: ChainKey)

  /** The protocol-specific identity of a pool. */
  datatype ProtocolPoolKey = UniswapV3(address: Address) | UniswapV4(poolId: nat)

  /** A pool's full identity, the key of every pool-indexed map. */
  datatype PoolRef = PoolRef(key: ProtocolPoolKey, chain: ChainKey)

  type U32 = x: int | 0 <= x < 0x1_0000_0000

  const U128_MAX: nat := 0xFFFF_FFFF_FFFF_FFFF_FFFF_FFFF_FFFF_FFFF

  type U128 = x: int | 0 <= x <= U128_MAX
}
