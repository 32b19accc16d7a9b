/** Outcomes of the calls the trading bot awaits, and the exceptions it raises. */
module Outcomes {

  datatype Option<+T> = None | Some(value: T)

  /** What an awaited external call (an RPC read, an HTTP request, a file read) did. */
  datatype Call<+T> = Threw | Returned(value: T)

  /** The exceptions the modelled code throws, or lets escape from a callee. */
  datatype Fault =
    | UnknownToken(symbol: string)                        // no configuration or no address for a symbol
    | UnknownPair(tokenIn: string, tokenOut: string)      // swapTokens: either symbol unconfigured
    | FeedFailed(symbol: string)                          // the price API request failed
    | RpcFailed                                           // a contract call or transaction submission threw
    | MissingTimeframe(symbol: string, timeframe: string) // `.find` gave undefined, then a field was read
    | NoBestToken                                         // `bestToken.symbol` read while bestToken is null
    | NoWethBalance                                       // `wethBalance.rawBalance` read while it is undefined
    | NoPool                                              // findPool: no valid pool for the pair
    | TooManyDecimals                                     // parseUnits("0.001", d) with d < 3
    | SwapFailed                                          // the swap transaction was not confirmed

  datatype Result<+T> = Ok(value: T) | Err(fault: Fault)
}
