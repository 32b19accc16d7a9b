/** The chain as both versions of swapTokens see it, and the route they build before swapping. */
module Onchain {
  import opened Outcomes
  import opened Tokens
  import opened PoolUtils

  /** The SwapRouter02 address both versions approve and call. */
  const SWAP_ROUTER: string := "0x2626664c2603336E57B271c5C0b26F421741e481"

  /** The gas limit both versions pass to exactInputSingle. */
  const GAS_LIMIT: nat := 10000000

  /** getPoolImmutables: the pool's token0, token1 and fee. */
  datatype Immutables = Immutables(token0: string, token1: string, fee: nat)

  /** The exactInputSingle parameters. */
  datatype SwapParams = SwapParams(
    tokenIn: string,
    tokenOut: string,
    fee: nat,
    recipient: string,
    amountIn: nat,
    amountOutMinimum: nat,
    sqrtPriceLimitX96: nat)

  /** An ERC-20 approve call: the token contract, the spender and the allowance. */
  datatype Approval = Approval(token: string, spender: string, amount: nat)

  /** What swapTokens sends: the approval, then the swap. */
  datatype SwapRequest = SwapRequest(approval: Approval, params: SwapParams, gasLimit: nat)

  /** The answers of the chain, each call either returning or throwing:
      - pools: what findPool reads per fee tier;
      - immutables, slot0: getPoolImmutables and getPoolState, by pool address;
      - quote: the floating-point minimum-output computation of tradingLogic.js
        (pool address, amount in wei, whether the input is token0), which reads slot0 again;
      - approve: whether the approve transaction was accepted;
      - submit: whether the swap was sent and its receipt awaited without error. */
  datatype Chain = Chain(
    pools: PoolProbe,
    immutables: string -> Call<Immutables>,
    slot0: string -> Call<nat>,
    quote: (string, nat, bool) -> Call<nat>,
    approve: Approval -> bool,
    submit: SwapParams -> bool)

  /** What swapTokens has gathered before it prices the swap. */
  datatype Route = Route(tokenIn: TokenConfig, tokenOut: TokenConfig, pool: PoolChoice, immutables: Immutables, sqrtPriceX96: nat)

  /** The common first half of both swapTokens: the configuration check, findPool on the two
      addresses, then the pool's immutables and its slot0. */
  function FindRoute(reg: Registry, chain: Chain, tokenInSymbol: string, tokenOutSymbol: string): (r: Result<Route>)
    ensures LookupToken(reg, tokenInSymbol).None? || LookupToken(reg, tokenOutSymbol).None? ==>
              r == Err(UnknownPair(tokenInSymbol, tokenOutSymbol))
    ensures LookupToken(reg, tokenInSymbol).Some? && LookupToken(reg, tokenOutSymbol).Some? ==>
              (r.Err? <==> || SelectPool(LookupToken(reg, tokenInSymbol).value.address, LookupToken(reg, tokenOutSymbol).value.address, chain.pools).Err?
                           || chain.immutables(SelectPool(LookupToken(reg, tokenInSymbol).value.address, LookupToken(reg, tokenOutSymbol).value.address, chain.pools).value.poolAddress).Threw?
                           || chain.slot0(SelectPool(LookupToken(reg, tokenInSymbol).value.address, LookupToken(reg, tokenOutSymbol).value.address, chain.pools).value.poolAddress).Threw?)
    ensures r.Ok? ==>
              && LookupToken(reg, tokenInSymbol) == Some(r.value.tokenIn)
              && LookupToken(reg, tokenOutSymbol) == Some(r.value.tokenOut)
              && SelectPool(r.value.tokenIn.address, r.value.tokenOut.address, chain.pools) == Ok(r.value.pool)
              && chain.immutables(r.value.pool.poolAddress) == Returned(r.value.immutables)
              && chain.slot0(r.value.pool.poolAddress) == Returned(r.value.sqrtPriceX96)
  {
    var tokenIn := LookupToken(reg, tokenInSymbol);
    var tokenOut := LookupToken(reg, tokenOutSymbol);
    if tokenIn.None? || tokenOut.None? then Err(UnknownPair(tokenInSymbol, tokenOutSymbol))
    else
      match SelectPool(tokenIn.value.address, tokenOut.value.address, chain.pools)
      case Err(f) => Err(f)
      case Ok(pool) =>
        match chain.immutables(pool.poolAddress)
        case Threw => Err(RpcFailed)
        case Returned(immutables) =>
          match chain.slot0(pool.poolAddress)
          case Threw => Err(RpcFailed)
          case Returned(sqrtPriceX96) => Ok(Route(tokenIn.value, tokenOut.value, pool, immutables, sqrtPriceX96))
  }
}
