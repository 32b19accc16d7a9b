/** uniswapTrader.js: the BigInt minimum output, the fixed-size swap and the balance sweep. */
module UniswapTrader {
  import opened Outcomes
  import opened Tokens
  import opened PoolUtils
  import opened Onchain

  /** 2^96, the fixed-point unit of sqrtPriceX96. */
  const Q96: nat := 0x1_0000_0000_0000_0000_0000_0000

  /** 2^192. */
  const Q192: nat := Q96 * Q96

  /** The allowance is this many times the swapped amount. */
  const APPROVAL_MULTIPLIER: nat := 100000

  lemma DivBounds(x: nat, d: nat)
    requires d > 0
    ensures (x / d) * d <= x < (x / d) * d + d
  {
    assert x == (x / d) * d + x % d;
  }

  /** BigInt division of non-negative operands. */
  function FloorDiv(x: nat, d: nat): (q: nat)
    requires d > 0
    ensures q * d <= x < q * d + d
  {
    DivBounds(x, d);
    x / d
  }

  lemma MulMonotone(a: nat, b: nat, c: nat)
    requires a <= b
    ensures a * c <= b * c
  {
  }

  lemma DivMonotone(a: nat, b: nat, d: nat)
    requires a <= b && d > 0
    ensures a / d <= b / d
  {
    DivBounds(a, d);
    DivBounds(b, d);
    if a / d > b / d {
      MulMonotone(b / d + 1, a / d, d);
    }
  }

  /** price = sqrtPriceX96² / 2^192, floored. */
  function Price(sqrtPriceX96: nat): (p: nat)
    ensures p * Q192 <= sqrtPriceX96 * sqrtPriceX96 < (p + 1) * Q192
  {
    FloorDiv(sqrtPriceX96 * sqrtPriceX96, Q192)
  }

  /** expectedOutput = amountIn · price · 10^decimals1 / 10^decimals0, floored. */
  function ExpectedOutput(amountIn: nat, price: nat, decimals0: nat, decimals1: nat): (e: nat)
    ensures e * Pow10(decimals0) <= amountIn * price * Pow10(decimals1) < (e + 1) * Pow10(decimals0)
  {
    FloorDiv(amountIn * price * Pow10(decimals1), Pow10(decimals0))
  }

  /** calculateMinimumOutput: 93% of the expected output, floored. */
  function CalculateMinimumOutput(amountIn: nat, sqrtPriceX96: nat, decimals0: nat, decimals1: nat): (m: nat)
    ensures m * 100 <= ExpectedOutput(amountIn, Price(sqrtPriceX96), decimals0, decimals1) * 93
                     < (m + 1) * 100
    ensures m <= ExpectedOutput(amountIn, Price(sqrtPriceX96), decimals0, decimals1)
  {
    var expectedOutput := ExpectedOutput(amountIn, Price(sqrtPriceX96), decimals0, decimals1);
    FloorDiv(expectedOutput * 93, 100)
  }

  /** A square root price below 2^96 means a price below 1, which floors to 0: no minimum at all. */
  lemma SmallSqrtPriceGivesZero(amountIn: nat, sqrtPriceX96: nat, decimals0: nat, decimals1: nat)
    requires sqrtPriceX96 < Q96
    ensures Price(sqrtPriceX96) == 0
    ensures CalculateMinimumOutput(amountIn, sqrtPriceX96, decimals0, decimals1) == 0
  {
    MulMonotone(sqrtPriceX96, Q96, sqrtPriceX96);
    MulMonotone(sqrtPriceX96, Q96 - 1, Q96);
    assert sqrtPriceX96 * sqrtPriceX96 < Q192;
    assert ExpectedOutput(amountIn, 0, decimals0, decimals1) == 0;
  }

  /** A larger amount never lowers the minimum output. */
  lemma MinimumOutputMonotoneInAmount(amountIn1: nat, amountIn2: nat, sqrtPriceX96: nat, decimals0: nat, decimals1: nat)
    requires amountIn1 <= amountIn2
    ensures CalculateMinimumOutput(amountIn1, sqrtPriceX96, decimals0, decimals1)
            <= CalculateMinimumOutput(amountIn2, sqrtPriceX96, decimals0, decimals1)
  {
    var price := Price(sqrtPriceX96);
    MulMonotone(amountIn1, amountIn2, price);
    MulMonotone(amountIn1 * price, amountIn2 * price, Pow10(decimals1));
    DivMonotone(amountIn1 * price * Pow10(decimals1), amountIn2 * price * Pow10(decimals1), Pow10(decimals0));
    var e1 := ExpectedOutput(amountIn1, price, decimals0, decimals1);
    var e2 := ExpectedOutput(amountIn2, price, decimals0, decimals1);
    MulMonotone(e1, e2, 93);
    DivMonotone(e1 * 93, e2 * 93, 100);
  }

  /** A higher pool price never lowers the minimum output. */
  lemma MinimumOutputMonotoneInPrice(amountIn: nat, sqrtPriceX961: nat, sqrtPriceX962: nat, decimals0: nat, decimals1: nat)
    requires sqrtPriceX961 <= sqrtPriceX962
    ensures CalculateMinimumOutput(amountIn, sqrtPriceX961, decimals0, decimals1)
            <= CalculateMinimumOutput(amountIn, sqrtPriceX962, decimals0, decimals1)
  {
    MulMonotone(sqrtPriceX961, sqrtPriceX962, sqrtPriceX961);
    MulMonotone(sqrtPriceX961, sqrtPriceX962, sqrtPriceX962);
    DivMonotone(sqrtPriceX961 * sqrtPriceX961, sqrtPriceX962 * sqrtPriceX962, Q192);
    var p1 := Price(sqrtPriceX961);
    var p2 := Price(sqrtPriceX962);
    MulMonotone(p1, p2, amountIn);
    assert amountIn * p1 <= amountIn * p2;
    MulMonotone(amountIn * p1, amountIn * p2, Pow10(decimals1));
    DivMonotone(amountIn * p1 * Pow10(decimals1), amountIn * p2 * Pow10(decimals1), Pow10(decimals0));
    var e1 := ExpectedOutput(amountIn, p1, decimals0, decimals1);
    var e2 := ExpectedOutput(amountIn, p2, decimals0, decimals1);
    MulMonotone(e1, e2, 93);
    DivMonotone(e1 * 93, e2 * 93, 100);
  }

  /** ethers.parseUnits("0.001", decimals): a thousandth of a whole token in its smallest unit. */
  function ParseThousandth(decimals: nat): (r: Result<nat>)
    ensures r.Ok? <==> decimals >= 3
    ensures r.Ok? ==> r.value * 1000 == Pow10(decimals)
    ensures r.Err? ==> r.fault == TooManyDecimals
  {
    if decimals >= 3 then Pow10Thousand(decimals); Ok(Pow10(decimals - 3)) else Err(TooManyDecimals)
  }

  /** swapTokens(tokenIn, tokenOut): swaps 0.001 of the input token, always as token0 to token1,
      after approving 100000 times that amount. The swap is sent and not awaited. */
  function SwapTokens(reg: Registry, wallet: string, chain: Chain, tokenInSymbol: string, tokenOutSymbol: string): (r: Result<SwapRequest>)
    ensures LookupToken(reg, tokenInSymbol).None? || LookupToken(reg, tokenOutSymbol).None? ==>
              r == Err(UnknownPair(tokenInSymbol, tokenOutSymbol))
    ensures FindRoute(reg, chain, tokenInSymbol, tokenOutSymbol).Err? ==>
              r == Err(FindRoute(reg, chain, tokenInSymbol, tokenOutSymbol).fault)
    ensures FindRoute(reg, chain, tokenInSymbol, tokenOutSymbol).Ok? && FindRoute(reg, chain, tokenInSymbol, tokenOutSymbol).value.tokenIn.decimals < 3 ==>
              r == Err(TooManyDecimals)
    ensures r.Ok? ==>
              var route := FindRoute(reg, chain, tokenInSymbol, tokenOutSymbol).value;
              var req := r.value;
              && req.params.tokenIn == route.immutables.token0
              && req.params.tokenOut == route.immutables.token1
              && req.params.fee == route.immutables.fee
              && req.params.recipient == wallet
              && req.params.amountIn * 1000 == Pow10(route.tokenIn.decimals)
              && req.params.amountOutMinimum == CalculateMinimumOutput(req.params.amountIn, route.sqrtPriceX96, route.tokenIn.decimals, route.tokenOut.decimals)
              && req.params.sqrtPriceLimitX96 == 0
              && req.approval == Approval(route.tokenIn.address, SWAP_ROUTER, req.params.amountIn * APPROVAL_MULTIPLIER)
              && chain.approve(req.approval)
              && req.gasLimit == GAS_LIMIT
    ensures r.Err? && FindRoute(reg, chain, tokenInSymbol, tokenOutSymbol).Ok? && FindRoute(reg, chain, tokenInSymbol, tokenOutSymbol).value.tokenIn.decimals >= 3 ==>
              r.fault == RpcFailed
    ensures var route := FindRoute(reg, chain, tokenInSymbol, tokenOutSymbol);
            route.Ok? && route.value.tokenIn.decimals >= 3
            && chain.approve(Approval(route.value.tokenIn.address, SWAP_ROUTER, Pow10(route.value.tokenIn.decimals - 3) * APPROVAL_MULTIPLIER))
            ==> r.Ok?
  {
    match FindRoute(reg, chain, tokenInSymbol, tokenOutSymbol)
    case Err(f) => Err(f)
    case Ok(route) =>
      match ParseThousandth(route.tokenIn.decimals)
      case Err(f) => Err(f)
      case Ok(amountIn) =>
        var minimumOutput := CalculateMinimumOutput(amountIn, route.sqrtPriceX96, route.tokenIn.decimals, route.tokenOut.decimals);
        var approval := Approval(route.tokenIn.address, SWAP_ROUTER, amountIn * APPROVAL_MULTIPLIER);
        if !chain.approve(approval) then Err(RpcFailed)
        else
          Ok(SwapRequest(
            approval,
            SwapParams(route.immutables.token0, route.immutables.token1, route.immutables.fee, wallet, amountIn, minimumOutput, 0),
            GAS_LIMIT))
  }

  /** The entry pushed for one configured token. */
  function BalanceEntry(token: TokenConfig, raw: nat): TokenBalance
  {
    TokenBalance(token.symbol, raw, Formatted(raw, token.decimals), token.name, token.address)
  }

  /** getTokenBalance(owner): one balanceOf per configured token, in key order; a failing call
      ends the sweep with that error. */
  method GetTokenBalance(reg: Registry, owner: string, balanceOf: (string, string) -> Call<nat>)
    returns (r: Result<seq<TokenBalance>>)
    ensures r.Ok? <==> forall i :: 0 <= i < |reg| ==> balanceOf(reg[i].address, owner).Returned?
    ensures r.Err? ==> r.fault == RpcFailed
    ensures r.Ok? ==> |r.value| == |reg|
    ensures r.Ok? ==> forall i :: 0 <= i < |reg| ==>
              && r.value[i].symbol == reg[i].symbol
              && r.value[i].name == reg[i].name
              && r.value[i].address == reg[i].address
              && r.value[i].rawBalance == balanceOf(reg[i].address, owner).value
              && r.value[i].formattedBalance * Pow10(reg[i].decimals) as real == r.value[i].rawBalance as real
  {
    var balances: seq<TokenBalance> := [];
    for i := 0 to |reg|
      invariant |balances| == i
      invariant forall j :: 0 <= j < i ==>
                  balanceOf(reg[j].address, owner).Returned? && balances[j] == BalanceEntry(reg[j], balanceOf(reg[j].address, owner).value)
    {
      var balance := balanceOf(reg[i].address, owner);
      if balance.Threw? {
        r := Err(RpcFailed);
        return;
      }
      balances := balances + [BalanceEntry(reg[i], balance.value)];
    }
    r := Ok(balances);
  }
}
