# UniswapTrader, modelled in Dafny

UniswapTrader is a Node.js bot that trades a wallet's tokens on Uniswap V3 on Base. It rotates
the wallet's holdings on the strength of the price changes that the DEXTools price feed reports.
This project models the bot's core, one Dafny module per source file:

- **PriceMonitor** (`priceMonitor.js`) turns the feed's 5m/1h/6h/24h variations into price
  changes, each rounded to hundredths with a sign flag. It also polls every configured token,
  dropping the ones that fail.
- **PoolUtils** (`poolUtils.js`) reads each fee tier's pool metrics and picks the deployed pool
  with the most liquidity.
- **UniswapTrader** (`uniswapTrader.js`) holds:
  - the integer minimum-output formula;
  - the first `swapTokens`, which sells 0.001 of a token and always routes token0 to token1;
  - the balance sweep.
- **TradingLogic** (`tradingLogic.js`) holds the second `swapTokens` and the strategy, which
  works as follows:
  - When WETH rose more than 1% over 1h or 6h, it sells every other holding above one whole
    token, except the best-rising token, and waits for each swap. It then spends the WETH
    balance on that token.
  - Otherwise it sells every other holding above one whole token for WETH.
- **TradeLogger** (`tradeLogger.js`) keeps the trade journal. The journal is a JSON list that
  is loaded, appended to and rewritten on every save.

Four shared modules support these:
- **Outcomes** holds `Option`, `Call` (an external call that returned or threw), `Result` and
  the faults.
- **Tokens** holds the token configuration and the balance record.
- **Seqs** holds the order-preserving filter behind every `filter` and every loop that pushes
  only the entries that succeed.
- **Onchain** holds the blockchain as a record of call results, and the route that both
  `swapTokens` build.

Every network call is a function-typed parameter. A read returns `Returned(v)` or `Threw`. The
approval and the submission of a swap (the `approve` and `submit` fields of `Chain`) are plain
booleans that say whether the call went through. An exception is an `Err` carrying a `Fault`.

The model keeps these behaviours of the code:
- **The price-change sign.** `isPositive` is decided on the raw variation, before the percentage
  is rounded to hundredths. `PriceMonitor.SignAgreesOutsideRoundingBand` proves that
  `isPositive == (percentage >= 0)` holds exactly when the raw variation lies outside
  (-0.005, 0). Inside that band, a variation such as -0.004 gives percentage 0 with
  `isPositive` false.
- **The zero-minimum fallback.** In `tradingLogic.js`, a floating-point minimum-output
  computation that throws gives a minimum output of 0, so that swap accepts any output amount.
- **WETH rising with no candidate.** The code dereferences `bestToken.symbol` before it tests
  `bestToken`, so the strategy aborts with `NoBestToken` and the "Keeping WETH" branch is never
  reached.
- **What the code does not have.** There is no trailing stop, no entry-price journal and no
  scheduler with retries. None of the modelled files calls `saveTrade`, and only `saveTrade` reads the journal.

## Model

| member | source | states |
|---|---|---|
| Tokens.LookupToken | priceMonitor.js:6-10 | A found entry is in the configuration under that symbol; nothing is found exactly when no entry has the symbol |
| Tokens.LookupFindsEntry | priceMonitor.js:6 | With distinct symbols, looking up any configured symbol returns its own entry |
| Seqs.FilterSpec | priceMonitor.js:59-68 | The filtered list holds exactly the accepted positions, in increasing order, each mapped by the step function |
| PriceMonitor.ToFixed2 | priceMonitor.js:19 | `toFixed(2)` on an exact real: within 0.005 of the input, a whole number of hundredths, and never of the opposite sign |
| PriceMonitor.GetPriceChanges | priceMonitor.js:5-54 | Fails with UnknownToken when the symbol or its address is missing, and with FeedFailed when the feed throws; otherwise returns the symbol, the configured name and four changes 5m/1h/6h/24h. A null variation gives (0, positive); a value gives the rounded percentage and a sign flag that is true iff the value is >= 0 |
| PriceMonitor.SignAgreesOutsideRoundingBand | priceMonitor.js:19-20 | `isPositive == (percentage >= 0)` holds exactly when the raw variation is outside (-0.005, 0) |
| PriceMonitor.GetAllPriceChanges | priceMonitor.js:56-71 | The loop's results equal the order-preserving filter of successful getPriceChanges over the configured symbols |
| PriceMonitor.AllPriceChangesSpec | priceMonitor.js:59-68 | At most one entry per configured token; the entries are exactly the symbols whose getPriceChanges succeeded, in key order, each equal to that result |
| PriceMonitor.AllPriceChangesNames | priceMonitor.js:45-48 | With distinct symbols, each collected entry carries the configured name of its own token |
| PoolUtils.GetPoolMetrics | poolUtils.js:8-36 | Fails with RpcFailed iff the state, liquidity or swap-event call throws. Otherwise: swap count = number of events, last swap = the last event's block or 0, liquidity = raw / 10^18, sqrtPriceX96 from the state |
| PoolUtils.Candidate | poolUtils.js:49-76 | A tier gives no pool iff getPool throws or returns an empty or zero address, getCode throws or returns "0x", or the metrics fail; a pool it gives has that tier's fee, address and metrics |
| PoolUtils.SelectFromSpec | poolUtils.js:45-77 | The pool kept has positive liquidity, at least that of every valid tier, and strictly more than every earlier tier (the first maximum wins) |
| PoolUtils.FindPoolSpec | poolUtils.js:38-92 | Fails with NoPool iff no tier has a valid pool with positive liquidity; otherwise the fee is one of 100/500/3000/10000, the address is non-zero and the liquidity is the first maximum |
| PoolUtils.FindPool | poolUtils.js:38-92 | The loop over the fee tiers returns the pool that SelectPool specifies |
| Onchain.FindRoute | uniswapTrader.js:38-59 | UnknownPair when either symbol is unconfigured; otherwise fails iff findPool, the immutables call or the slot0 call fails; a route carries exactly the configured tokens, the chosen pool and what those calls returned |
| UniswapTrader.Price | uniswapTrader.js:24 | price · 2^192 <= sqrtPriceX96² < (price+1) · 2^192 |
| UniswapTrader.ExpectedOutput | uniswapTrader.js:27 | expected · 10^d0 <= amountIn · price · 10^d1 < (expected+1) · 10^d0 |
| UniswapTrader.CalculateMinimumOutput | uniswapTrader.js:22-34 | minimum · 100 <= expected · 93 < (minimum+1) · 100, hence minimum <= expected |
| UniswapTrader.SmallSqrtPriceGivesZero | uniswapTrader.js:24-31 | Any sqrtPriceX96 below 2^96 gives price 0 and a minimum output of 0 |
| UniswapTrader.MinimumOutputMonotoneInAmount | uniswapTrader.js:27-31 | A larger amount never gives a smaller minimum output |
| UniswapTrader.MinimumOutputMonotoneInPrice | uniswapTrader.js:24-31 | A larger sqrtPriceX96 never gives a smaller minimum output |
| UniswapTrader.ParseThousandth | uniswapTrader.js:76-80 | parseUnits("0.001", d) succeeds iff d >= 3 and then gives 10^d / 1000 |
| UniswapTrader.SwapTokens | uniswapTrader.js:36-129 | UnknownPair when either symbol is unconfigured; route failures propagate; decimals below 3 give TooManyDecimals; a found route with decimals >= 3 and an accepted approval always gives the request. The amount is a thousandth of a token, and the approval is for 100000 times that amount to the router. The parameters always send token0 for token1 with the integer minimum output, price limit 0 and gas limit 10000000 |
| UniswapTrader.GetTokenBalance | uniswapTrader.js:131-160 | Succeeds iff every balanceOf call returns. It gives one entry per configured token, in order, with symbol, name and address copied, the raw balance as read, and formatted · 10^decimals = raw |
| TradingLogic.SwapTokens | tradingLogic.js:73-163 | UnknownPair when either symbol is unconfigured; route failures propagate. The direction follows a case-insensitive comparison of token0 with the input address. The approval and amountIn are exactly `amount`, and the minimum output is the quote, or 0 when the quote throws. A failed approve gives RpcFailed, and a found route with an accepted approval always gives the request |
| TradingLogic.SwapSendsInputToken | tradingLogic.js:118-143 | On a pool of the two requested tokens, the swap sends the input token and receives the output token, whichever the pool calls token0 |
| TradingLogic.FindChangeSpec | tradingLogic.js:169-170 | `find` returns the first change of that timeframe, and nothing exactly when no change has it |
| TradingLogic.FindBalanceSpec | tradingLogic.js:174 | `find` returns the first balance of that symbol, and nothing exactly when no balance has it |
| TradingLogic.WethPositive | tradingLogic.js:178-179 | Fails (TypeError) iff the 1h change is missing, or it does not decide and the 6h change is missing; otherwise true iff the 1h or 6h change is positive and above 1% |
| TradingLogic.BestTokenSpec | tradingLogic.js:185-207 | Fails iff some token lacks its 1h or 6h change; finds nothing iff no token has a positive 1h or 6h change; otherwise the token found has the greatest positive change and no earlier token reached it |
| TradingLogic.FindBestToken | tradingLogic.js:185-207 | The loop, with -Infinity as None, returns what BestToken specifies, including its errors |
| TradingLogic.NonWethSpec | tradingLogic.js:193 | The ranked tokens are exactly the market's snapshots whose symbol is not WETH |
| TradingLogic.SellsSpec | tradingLogic.js:212-214 | The sells are exactly the non-WETH balances above 1.0 other than the excluded symbol, in balance order, each selling its whole raw balance for WETH |
| TradingLogic.WethWindowMissingAborts | tradingLogic.js:178-183 | A WETH snapshot without its 1h or 6h change aborts before any swap, even when the 1h change already decided |
| TradingLogic.NotRisingPlan | tradingLogic.js:235-249 | WETH not rising: the plan sells every non-WETH balance above 1.0 for WETH, in order, and buys nothing |
| TradingLogic.RisingPlan | tradingLogic.js:188-231 | WETH rising with a best token: sells every other holding except the best token, then spends the WETH balance read before the sells on the best token, which is a non-WETH first maximum of the market |
| TradingLogic.NoCandidateAborts | tradingLogic.js:209-234 | WETH rising while no other token has a positive window: the run aborts with NoBestToken before any swap |
| TradingLogic.MissingWindowAborts | tradingLogic.js:195-199 | WETH rising while some other token lacks a window: the run aborts with a missing-timeframe error before any swap |
| TradingLogic.AbortsBeforeSwapping | tradingLogic.js:165-256 | Every failure except a missing WETH balance happens before the first swap |
| TradingLogic.PlanDirections | tradingLogic.js:165-256 | Every planned swap sells a non-WETH token for WETH, except possibly the last swap of a completed plan, which buys a non-WETH token with WETH |
| TradingLogic.MonitoredWindowsNeverMissing | tradingLogic.js:168-197 | Fed by getPriceChanges('WETH') and getAllPriceChanges, the strategy never fails for a missing timeframe |
| TradingLogic.RunSwaps | tradingLogic.js:218-224 | The swaps confirmed are a prefix of the list, each executed successfully; the loop stops at the first failure with that swap's error, and succeeds iff all were confirmed |
| TradingLogic.ExecuteTradingStrategy | tradingLogic.js:165-256 | The run confirms a prefix of the planned swaps and stops at the first failing one with its error; a run that confirms every swap ends as the plan does |
| TradeLogger.LoadTrades | tradeLogger.js:8-19 | A missing, unreadable or unparsable file loads as the empty list; otherwise the parsed value is returned as is |
| TradeLogger.Stamp | tradeLogger.js:24-27 | The record has every field of the trade plus a timestamp equal to now, which overrides any timestamp in the trade |
| TradeLogger.Saved | tradeLogger.js:21-33 | After a successful write, the loaded list is the previous list with the stamped record appended; a failed write, or a loaded value that is not a list, leaves the file unchanged |
| TradeLogger.TradeFile.SaveTrade | tradeLogger.js:21-33 | The file's new content is the one Saved gives; no error escapes |
| TradeLogger.SaveKeepsEarlierRecords | tradeLogger.js:23-28 | A save keeps every earlier record in place and in order, and adds exactly one record at the end |
| TradeLogger.CorruptFileReplaced | tradeLogger.js:10-28 | A missing or unreadable file is replaced by a list holding only the new record |
| TradeLogger.SaveTwiceKeepsBoth | tradeLogger.js:24 | Saving the same trade twice stores two identical records: there is no deduplication |
| TradeLogger.FailedSaveChangesNothing | tradeLogger.js:28-32 | After a failed write, or on a file holding a non-list, the next load returns what it returned before |

## Left out

- Logging (`console.log`/`console.error`) is not modelled. Neither are the `main()` run at module load in `uniswapTrader.js` and the dotenv configuration.
- `withRateLimit`, `delay` and the 2-second pause between feed requests only wait, so they are not modelled.
- `getTokenPrice` and `getChainIds` are the HTTP requests to DEXTools. They become the `PriceFeed` parameter.
- The blockchain calls become the fields of `Chain`: getPool, getCode, slot0, liquidity, queryFilter, approve, exactInputSingle and `wait()`.
- `walletUtils.js` is not part of this model. Its `getTokenBalance` has the same text as the one in `uniswapTrader.js`, so `UniswapTrader.GetTokenBalance` stands for both. The `balances` input of the strategy is its result.
- `helpers.js` is not part of this model. Its `getPoolImmutables`/`getPoolState` are the `immutables` and `slot0` calls.
- Wallet and contract construction (`new ethers.Wallet`, `connect`, `new ethers.Contract`) is left out: it has no effect the model can observe.
- The `tick` field of the pool metrics is left out, because nothing reads it.
- TradingLogic.SwapTokens: the floating-point minimum-output computation (`tradingLogic.js:30-65`, doubles, `toFixed` and `parseUnits`) is not modelled. It becomes the `quote` result, and only its fallback to 0 when it throws is modelled.
- PriceMonitor.ToFixed2: computes on exact reals rather than IEEE doubles, so a variation whose double lies just beside a rounding midpoint may round the other way in the source.
- PoolUtils.GetPoolMetrics: `Number(liquidity) / 1e18` is computed exactly. Liquidity comparisons therefore do not model the precision a double loses above 2^53.
- UniswapTrader.CalculateMinimumOutput: `BigInt(10 ** d)` is taken as exact, but the double `10 ** d` is inexact above 10^22.
- UniswapTrader.SwapTokens: returns the request it sends. The source does not await `exactInputSingle` and returns nothing, so a failure of that call is never observed by its caller.
- Tokens.SameAddress: lower-cases ASCII letters only. Addresses are hexadecimal, so nothing else occurs.
- Formatted balances are exact reals (`raw / 10^decimals`), where the source has a decimal string read back with `parseFloat`. Only the comparison with 1 uses them.
- Configuration key order is the order of the registry sequence; integer-like keys, which JavaScript enumerates first, are not modelled.
- TradeLogger.Saved: the `JSON.stringify`/`JSON.parse` round trip is taken to return the same value. Values that do not survive it (undefined, functions, NaN) are not modelled.
- TradeLogger.Saved: a failed `writeFileSync` is taken to leave the file as it was; a partial write is not modelled.
- The order of an object's keys is not modelled: records are maps.
- The clock (`new Date().toISOString()`) is the `now` parameter.
- UniswapTrader.ParseThousandth: ethers is not part of this model. Its `parseUnits` is taken to reject a value with more fractional digits than the token has decimals, which happens for decimals below 3.
