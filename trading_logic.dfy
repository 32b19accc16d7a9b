/** tradingLogic.js: the rotation strategy. When WETH is rising, every other holding above one
    whole token except the best-rising token is sold for WETH, then the WETH balance buys the best
    token; otherwise every other holding above one whole token is sold for WETH. */
module TradingLogic {
  import opened Outcomes
  import opened Tokens
  import opened Seqs
  import opened PriceMonitor
  import opened PoolUtils
  import opened Onchain

  // ---------------------------------------------------------------------------------------------
  // swapTokens
  // ---------------------------------------------------------------------------------------------

  /** calculateMinimumOutput's catch: when the floating-point computation throws, the minimum is 0. */
  function MinimumOutputOrZero(quote: Call<nat>): nat
  {
    match quote
    case Threw => 0
    case Returned(m) => m
  }

  /** swapTokens(tokenIn, tokenOut, amount): the route, the direction read off token0, an approval
      of exactly `amount`, and exactInputSingle parameters sending `amount`. */
  function SwapTokens(reg: Registry, wallet: string, chain: Chain, tokenInSymbol: string, tokenOutSymbol: string, amount: nat)
    : (r: Result<SwapRequest>)
    ensures LookupToken(reg, tokenInSymbol).None? || LookupToken(reg, tokenOutSymbol).None? ==>
              r == Err(UnknownPair(tokenInSymbol, tokenOutSymbol))
    ensures FindRoute(reg, chain, tokenInSymbol, tokenOutSymbol).Err? ==>
              r == Err(FindRoute(reg, chain, tokenInSymbol, tokenOutSymbol).fault)
    ensures r.Err? && FindRoute(reg, chain, tokenInSymbol, tokenOutSymbol).Ok? ==> r.fault == RpcFailed
    ensures FindRoute(reg, chain, tokenInSymbol, tokenOutSymbol).Ok?
            && chain.approve(Approval(FindRoute(reg, chain, tokenInSymbol, tokenOutSymbol).value.tokenIn.address, SWAP_ROUTER, amount))
            ==> r.Ok?
    ensures r.Ok? ==>
              var route := FindRoute(reg, chain, tokenInSymbol, tokenOutSymbol).value;
              var token0Input := SameAddress(route.immutables.token0, route.tokenIn.address);
              var req := r.value;
              && (token0Input ==> req.params.tokenIn == route.immutables.token0 && req.params.tokenOut == route.immutables.token1)
              && (!token0Input ==> req.params.tokenIn == route.immutables.token1 && req.params.tokenOut == route.immutables.token0)
              && req.params.amountIn == amount
              && req.approval == Approval(route.tokenIn.address, SWAP_ROUTER, amount)
              && chain.approve(req.approval)
              && (chain.quote(route.pool.poolAddress, amount, token0Input).Threw? ==> req.params.amountOutMinimum == 0)
              && (chain.quote(route.pool.poolAddress, amount, token0Input).Returned? ==>
                    req.params.amountOutMinimum == chain.quote(route.pool.poolAddress, amount, token0Input).value)
              && req.params.fee == route.immutables.fee
              && req.params.recipient == wallet
              && req.params.sqrtPriceLimitX96 == 0
              && req.gasLimit == GAS_LIMIT
  {
    match FindRoute(reg, chain, tokenInSymbol, tokenOutSymbol)
    case Err(f) => Err(f)
    case Ok(route) =>
      var isToken0Input := SameAddress(route.immutables.token0, route.tokenIn.address);
      var minimumOutput := MinimumOutputOrZero(chain.quote(route.pool.poolAddress, amount, isToken0Input));
      var approval := Approval(route.tokenIn.address, SWAP_ROUTER, amount);
      if !chain.approve(approval) then Err(RpcFailed)
      else
        Ok(SwapRequest(
          approval,
          SwapParams(
            if isToken0Input then route.immutables.token0 else route.immutables.token1,
            if isToken0Input then route.immutables.token1 else route.immutables.token0,
            route.immutables.fee, wallet, amount, minimumOutput, 0),
          GAS_LIMIT))
  }

  /** A pool whose two tokens are the addresses `a` and `b`, in either order. */
  predicate PairOf(immutables: Immutables, a: string, b: string)
  {
    || (SameAddress(immutables.token0, a) && SameAddress(immutables.token1, b))
    || (SameAddress(immutables.token0, b) && SameAddress(immutables.token1, a))
  }

  /** On a pool of the two requested tokens, the swap sends the input token and receives the
      output token, whichever of the two the pool calls token0. */
  lemma SwapSendsInputToken(reg: Registry, wallet: string, chain: Chain, tokenInSymbol: string, tokenOutSymbol: string, amount: nat)
    requires SwapTokens(reg, wallet, chain, tokenInSymbol, tokenOutSymbol, amount).Ok?
    requires var route := FindRoute(reg, chain, tokenInSymbol, tokenOutSymbol).value;
             PairOf(route.immutables, route.tokenIn.address, route.tokenOut.address)
    ensures var route := FindRoute(reg, chain, tokenInSymbol, tokenOutSymbol).value;
            var params := SwapTokens(reg, wallet, chain, tokenInSymbol, tokenOutSymbol, amount).value.params;
            SameAddress(params.tokenIn, route.tokenIn.address) && SameAddress(params.tokenOut, route.tokenOut.address)
  {
  }

  // ---------------------------------------------------------------------------------------------
  // The signals
  // ---------------------------------------------------------------------------------------------

  /** `priceChanges.find(change => change.timeframe === tf)`. */
  function FindChange(changes: seq<PriceChange>, timeframe: string): Option<PriceChange>
  {
    if changes == [] then None
    else if changes[0].timeframe == timeframe then Some(changes[0])
    else FindChange(changes[1..], timeframe)
  }

  /** The change found is the first one for the timeframe; none is found exactly when the
      timeframe is absent. */
  lemma {:induction false} FindChangeSpec(changes: seq<PriceChange>, timeframe: string)
    ensures FindChange(changes, timeframe).None? <==> forall i :: 0 <= i < |changes| ==> changes[i].timeframe != timeframe
    ensures FindChange(changes, timeframe).Some? ==>
              exists i :: 0 <= i < |changes| && changes[i] == FindChange(changes, timeframe).value
                && changes[i].timeframe == timeframe
                && forall j :: 0 <= j < i ==> changes[j].timeframe != timeframe
  {
    if changes != [] && changes[0].timeframe != timeframe {
      FindChangeSpec(changes[1..], timeframe);
      if FindChange(changes, timeframe).Some? {
        var i :| 0 <= i < |changes| - 1 && changes[1..][i] == FindChange(changes, timeframe).value
                 && changes[1..][i].timeframe == timeframe
                 && forall j :: 0 <= j < i ==> changes[1..][j].timeframe != timeframe;
        assert changes[i + 1] == changes[1..][i];
        assert forall j :: 1 <= j < i + 1 ==> changes[j] == changes[1..][j - 1];
      }
    } else if changes != [] {
      assert changes[0].timeframe == timeframe;
    }
  }

  /** `allBalances.find(balance => balance.symbol === symbol)`. */
  function FindBalance(balances: seq<TokenBalance>, symbol: string): Option<TokenBalance>
  {
    if balances == [] then None
    else if balances[0].symbol == symbol then Some(balances[0])
    else FindBalance(balances[1..], symbol)
  }

  /** The balance found is the first one for the symbol; none is found exactly when the
      symbol is absent. */
  lemma {:induction false} FindBalanceSpec(balances: seq<TokenBalance>, symbol: string)
    ensures FindBalance(balances, symbol).None? <==> forall i :: 0 <= i < |balances| ==> balances[i].symbol != symbol
    ensures FindBalance(balances, symbol).Some? ==>
              exists i :: 0 <= i < |balances| && balances[i] == FindBalance(balances, symbol).value
                && balances[i].symbol == symbol
                && forall j :: 0 <= j < i ==> balances[j].symbol != symbol
  {
    if balances != [] && balances[0].symbol != symbol {
      FindBalanceSpec(balances[1..], symbol);
      if FindBalance(balances, symbol).Some? {
        var i :| 0 <= i < |balances| - 1 && balances[1..][i] == FindBalance(balances, symbol).value
                 && balances[1..][i].symbol == symbol
                 && forall j :: 0 <= j < i ==> balances[1..][j].symbol != symbol;
        assert balances[i + 1] == balances[1..][i];
        assert forall j :: 1 <= j < i + 1 ==> balances[j] == balances[1..][j - 1];
      }
    } else if balances != [] {
      assert balances[0].symbol == symbol;
    }
  }

  /** A change that counts as a rise for WETH: positive and strictly above 1%. */
  predicate Rising(c: PriceChange)
  {
    c.isPositive && c.percentage > 1.0
  }

  /** isWethPositive, including the TypeError raised when a window it reads is missing; the 6h
      window is only read when the 1h window does not already decide. */
  function WethPositive(oneHour: Option<PriceChange>, sixHour: Option<PriceChange>): (r: Result<bool>)
    ensures r.Err? <==> oneHour.None? || (!Rising(oneHour.value) && sixHour.None?)
    ensures oneHour.None? ==> r == Err(MissingTimeframe(WETH, "1h"))
    ensures oneHour.Some? && !Rising(oneHour.value) && sixHour.None? ==> r == Err(MissingTimeframe(WETH, "6h"))
    ensures r.Ok? ==> (r.value <==> Rising(oneHour.value) || Rising(sixHour.value))
  {
    match oneHour
    case None => Err(MissingTimeframe(WETH, "1h"))
    case Some(c1) =>
      if c1.isPositive && c1.percentage > 1.0 then Ok(true)
      else
        match sixHour
        case None => Err(MissingTimeframe(WETH, "6h"))
        case Some(c6) => Ok(c6.isPositive && c6.percentage > 1.0)
  }

  // ---------------------------------------------------------------------------------------------
  // The best token
  // ---------------------------------------------------------------------------------------------

  /** bestToken with highestChange. */
  datatype Best = Best(token: PriceSnapshot, change: real)

  /** A token can be ranked only when it has both a 1h and a 6h window. */
  predicate HasWindows(t: PriceSnapshot)
  {
    FindChange(t.priceChanges, "1h").Some? && FindChange(t.priceChanges, "6h").Some?
  }

  function PositiveGain(c: Option<PriceChange>): seq<real>
  {
    if c.Some? && c.value.isPositive then [c.value.percentage] else []
  }

  /** The percentages of a token's positive 1h and 6h windows. */
  function Gains(t: PriceSnapshot): seq<real>
  {
    PositiveGain(FindChange(t.priceChanges, "1h")) + PositiveGain(FindChange(t.priceChanges, "6h"))
  }

  /** One comparison: strictly greater replaces, so the earlier of two equal changes stays. */
  function Consider(best: Option<Best>, token: PriceSnapshot, c: PriceChange): Option<Best>
  {
    if c.isPositive && (best.None? || c.percentage > best.value.change) then Some(Best(token, c.percentage)) else best
  }

  /** One iteration of the loop: 1h, then 6h, each read throwing when its window is missing. */
  function ScanToken(best: Option<Best>, token: PriceSnapshot): Result<Option<Best>>
  {
    match FindChange(token.priceChanges, "1h")
    case None => Err(MissingTimeframe(token.symbol, "1h"))
    case Some(oneHour) =>
      var afterOneHour := Consider(best, token, oneHour);
      match FindChange(token.priceChanges, "6h")
      case None => Err(MissingTimeframe(token.symbol, "6h"))
      case Some(sixHour) => Ok(Consider(afterOneHour, token, sixHour))
  }

  /** The outcome of the loop over `tokens`. */
  function BestToken(tokens: seq<PriceSnapshot>): Result<Option<Best>>
    decreases |tokens|
  {
    if tokens == [] then Ok(None)
    else
      match BestToken(tokens[..|tokens| - 1])
      case Err(f) => Err(f)
      case Ok(best) => ScanToken(best, tokens[|tokens| - 1])
  }

  /** One token: the scan fails exactly when the token lacks a window. */
  lemma ScanTokenFails(best: Option<Best>, token: PriceSnapshot)
    ensures ScanToken(best, token).Ok? <==> HasWindows(token)
    ensures ScanToken(best, token).Err? ==> ScanToken(best, token).fault.MissingTimeframe?
  {
  }

  /** One token: no token is held afterwards exactly when none was and this one has no gain. */
  lemma ScanTokenNone(best: Option<Best>, token: PriceSnapshot)
    requires ScanToken(best, token).Ok?
    ensures ScanToken(best, token).value.None? <==> best.None? && Gains(token) == []
  {
  }

  /** One token: the change held afterwards bounds this token's gains and the earlier change. */
  lemma ScanTokenBound(best: Option<Best>, token: PriceSnapshot)
    requires ScanToken(best, token).Ok? && ScanToken(best, token).value.Some?
    ensures forall g :: g in Gains(token) ==> g <= ScanToken(best, token).value.value.change
    ensures best.Some? ==> best.value.change <= ScanToken(best, token).value.value.change
  {
  }

  /** One token: a replaced best is this token, at one of its gains, strictly above the old one. */
  lemma ScanTokenReplaces(best: Option<Best>, token: PriceSnapshot)
    requires ScanToken(best, token).Ok? && ScanToken(best, token).value.Some?
    requires ScanToken(best, token).value != best
    ensures ScanToken(best, token).value.value.token == token
    ensures ScanToken(best, token).value.value.change in Gains(token)
    ensures best.Some? ==> ScanToken(best, token).value.value.change > best.value.change
  {
  }

  /** An error met in the first `j` tokens is the loop's error. */
  lemma {:induction false} BestTokenErrorPersists(tokens: seq<PriceSnapshot>, j: nat)
    requires j <= |tokens| && BestToken(tokens[..j]).Err?
    ensures BestToken(tokens) == BestToken(tokens[..j])
    decreases |tokens| - j
  {
    if j < |tokens| {
      assert tokens[..j + 1][..j] == tokens[..j];
      BestTokenErrorPersists(tokens, j + 1);
    } else {
      assert tokens[..j] == tokens;
    }
  }

  /** The loop fails exactly when some token lacks a window, and then with a missing window. */
  lemma {:induction false} BestTokenFails(tokens: seq<PriceSnapshot>)
    ensures BestToken(tokens).Ok? <==> forall i :: 0 <= i < |tokens| ==> HasWindows(tokens[i])
    ensures BestToken(tokens).Err? ==> BestToken(tokens).fault.MissingTimeframe?
    decreases |tokens|
  {
    if tokens != [] {
      var n := |tokens| - 1;
      var p := tokens[..n];
      BestTokenFails(p);
      if BestToken(p).Ok? {
        ScanTokenFails(BestToken(p).value, tokens[n]);
        assert BestToken(tokens) == ScanToken(BestToken(p).value, tokens[n]);
        assert forall i :: 0 <= i < n ==> p[i] == tokens[i];
      } else {
        assert !HasWindows(tokens[..n][0]) || exists i :: 0 <= i < n && !HasWindows(p[i]);
      }
    }
  }

  /** The loop ends without a token exactly when no token has a positive 1h or 6h window. */
  lemma {:induction false} BestTokenNone(tokens: seq<PriceSnapshot>)
    requires BestToken(tokens).Ok?
    ensures BestToken(tokens).value.None? <==> forall i :: 0 <= i < |tokens| ==> Gains(tokens[i]) == []
    decreases |tokens|
  {
    if tokens != [] {
      var n := |tokens| - 1;
      var p := tokens[..n];
      var prev := BestToken(p);
      assert prev.Ok?;
      BestTokenNone(p);
      ScanTokenNone(prev.value, tokens[n]);
      assert BestToken(tokens) == ScanToken(prev.value, tokens[n]);
      assert forall i :: 0 <= i < n ==> p[i] == tokens[i];
    }
  }

  /** The token found carries a change no positive window exceeds. */
  lemma {:induction false} BestTokenBound(tokens: seq<PriceSnapshot>)
    requires BestToken(tokens).Ok? && BestToken(tokens).value.Some?
    ensures forall i, g :: 0 <= i < |tokens| && g in Gains(tokens[i]) ==> g <= BestToken(tokens).value.value.change
    decreases |tokens|
  {
    var n := |tokens| - 1;
    var p := tokens[..n];
    var prev := BestToken(p);
    assert prev.Ok?;
    assert BestToken(tokens) == ScanToken(prev.value, tokens[n]);
    ScanTokenBound(prev.value, tokens[n]);
    assert forall i :: 0 <= i < n ==> p[i] == tokens[i];
    if prev.value.Some? {
      BestTokenBound(p);
    } else {
      BestTokenNone(p);
    }
  }

  /** The token found is one whose positive window reached that change, and no earlier token
      reached it. */
  lemma {:induction false} BestTokenFirst(tokens: seq<PriceSnapshot>)
    requires BestToken(tokens).Ok? && BestToken(tokens).value.Some?
    ensures var b := BestToken(tokens).value.value;
            exists i :: 0 <= i < |tokens| && tokens[i] == b.token && b.change in Gains(tokens[i])
              && forall j, g :: 0 <= j < i && g in Gains(tokens[j]) ==> g < b.change
    decreases |tokens|
  {
    var n := |tokens| - 1;
    var p := tokens[..n];
    var prev := BestToken(p);
    assert prev.Ok?;
    assert BestToken(tokens) == ScanToken(prev.value, tokens[n]);
    var b := BestToken(tokens).value.value;
    assert forall i :: 0 <= i < n ==> p[i] == tokens[i];
    if prev.value == Some(b) {
      BestTokenFirst(p);
      var i :| 0 <= i < n && p[i] == b.token && b.change in Gains(p[i])
               && forall j, g :: 0 <= j < i && g in Gains(p[j]) ==> g < b.change;
      assert tokens[i] == b.token;
    } else {
      ScanTokenReplaces(prev.value, tokens[n]);
      if prev.value.Some? {
        BestTokenBound(p);
      } else {
        BestTokenNone(p);
      }
      assert tokens[n] == b.token && b.change in Gains(tokens[n]);
    }
  }

  /** The best token is the first-seen maximum over the positive 1h and 6h windows. */
  ghost predicate FirstMaximum(tokens: seq<PriceSnapshot>, b: Best)
  {
    && (forall i, g :: 0 <= i < |tokens| && g in Gains(tokens[i]) ==> g <= b.change)
    && exists i :: 0 <= i < |tokens| && tokens[i] == b.token && b.change in Gains(tokens[i])
         && forall j, g :: 0 <= j < i && g in Gains(tokens[j]) ==> g < b.change
  }

  /** The loop fails exactly when some token lacks a window; it ends without a token exactly
      when no window is positive; otherwise its token carries the greatest positive change and
      no earlier token reached that change. */
  lemma BestTokenSpec(tokens: seq<PriceSnapshot>)
    ensures BestToken(tokens).Ok? <==> forall i :: 0 <= i < |tokens| ==> HasWindows(tokens[i])
    ensures BestToken(tokens).Err? ==> BestToken(tokens).fault.MissingTimeframe?
    ensures BestToken(tokens) == Ok(None) <==>
              BestToken(tokens).Ok? && forall i :: 0 <= i < |tokens| ==> Gains(tokens[i]) == []
    ensures BestToken(tokens).Ok? && BestToken(tokens).value.Some? ==>
              FirstMaximum(tokens, BestToken(tokens).value.value)
  {
    BestTokenFails(tokens);
    if BestToken(tokens).Ok? {
      BestTokenNone(tokens);
      if BestToken(tokens).value.Some? {
        BestTokenBound(tokens);
        BestTokenFirst(tokens);
      }
    }
  }

  /** The best-token loop, with bestToken null and highestChange -Infinity at the start. */
  method FindBestToken(tokens: seq<PriceSnapshot>) returns (r: Result<Option<Best>>)
    ensures r == BestToken(tokens)
  {
    var bestToken: Option<PriceSnapshot> := None;
    var highestChange: Option<real> := None;  // None stands for -Infinity
    var i := 0;
    while i < |tokens|
      invariant 0 <= i <= |tokens|
      invariant bestToken.None? <==> highestChange.None?
      invariant BestToken(tokens[..i]) == Ok(if bestToken.None? then None else Some(Best(bestToken.value, highestChange.value)))
    {
      var token := tokens[i];
      assert tokens[..i + 1][..i] == tokens[..i];
      var oneHourChange := FindChange(token.priceChanges, "1h");
      var sixHourChange := FindChange(token.priceChanges, "6h");
      if oneHourChange.None? {
        r := Err(MissingTimeframe(token.symbol, "1h"));
        BestTokenErrorPersists(tokens, i + 1);
        return;
      }
      if oneHourChange.value.isPositive && (highestChange.None? || oneHourChange.value.percentage > highestChange.value) {
        highestChange := Some(oneHourChange.value.percentage);
        bestToken := Some(token);
      }
      if sixHourChange.None? {
        r := Err(MissingTimeframe(token.symbol, "6h"));
        BestTokenErrorPersists(tokens, i + 1);
        return;
      }
      if sixHourChange.value.isPositive && (highestChange.None? || sixHourChange.value.percentage > highestChange.value) {
        highestChange := Some(sixHourChange.value.percentage);
        bestToken := Some(token);
      }
      i := i + 1;
    }
    assert tokens[..i] == tokens;
    r := Ok(if bestToken.None? then None else Some(Best(bestToken.value, highestChange.value)));
  }

  // ---------------------------------------------------------------------------------------------
  // The plan
  // ---------------------------------------------------------------------------------------------

  /** A swap of a whole raw balance (or of the WETH balance) from one symbol to another. */
  datatype Swap = Swap(tokenIn: string, tokenOut: string, amount: nat)

  /** The swaps a run issues in order, and the error it then throws, if any. An error thrown
      before the first swap is a plan with no swaps. */
  datatype Plan = Plan(swaps: seq<Swap>, end: Option<Fault>)

  function Abort(f: Fault): Plan
  {
    Plan([], Some(f))
  }

  function OtherSnapshot(t: PriceSnapshot): Option<PriceSnapshot>
  {
    if t.symbol != WETH then Some(t) else None
  }

  /** `allPriceChanges.filter(token => token.symbol !== 'WETH')`. */
  function NonWeth(market: seq<PriceSnapshot>): seq<PriceSnapshot>
  {
    Filter(market, OtherSnapshot)
  }

  /** A balance sold for WETH: not WETH, above one whole token, and not the excluded symbol. */
  predicate Sellable(b: TokenBalance, exclude: Option<string>)
  {
    b.symbol != WETH && b.formattedBalance > 1.0 && (exclude.None? || b.symbol != exclude.value)
  }

  function SellIf(exclude: Option<string>): TokenBalance -> Option<Swap>
  {
    (b: TokenBalance) => if Sellable(b, exclude) then Some(Swap(b.symbol, WETH, b.rawBalance)) else None
  }

  /** tokensToSwapToWeth, each turned into a swap of its whole raw balance. */
  function Sells(balances: seq<TokenBalance>, exclude: Option<string>): seq<Swap>
  {
    Filter(balances, SellIf(exclude))
  }

  /** executeTradingStrategy as a plan: what it swaps, in order, and how it ends. `weth` and
      `balances` are what getPriceChanges('WETH') and getTokenBalance gave, `market` what
      getAllPriceChanges gives (it is only read when WETH is rising). */
  function StrategyPlan(weth: Result<PriceSnapshot>, balances: Result<seq<TokenBalance>>, market: seq<PriceSnapshot>): Plan
  {
    if weth.Err? then Abort(weth.fault)
    else if balances.Err? then Abort(balances.fault)
    else
      var oneHour := FindChange(weth.value.priceChanges, "1h");
      var sixHour := FindChange(weth.value.priceChanges, "6h");
      var allBalances := balances.value;
      var positive := WethPositive(oneHour, sixHour);
      if positive.Err? then Abort(positive.fault)
      // the 6h percentage is printed whichever way the signal went
      else if sixHour.None? then Abort(MissingTimeframe(WETH, "6h"))
      else if !positive.value then Plan(Sells(allBalances, None), None)
      else
        match BestToken(NonWeth(market))
        case Err(f) => Abort(f)
        case Ok(None) => Abort(NoBestToken)
        case Ok(Some(best)) =>
          var sells := Sells(allBalances, Some(best.token.symbol));
          match FindBalance(allBalances, WETH)
          case None => Plan(sells, Some(NoWethBalance))
          case Some(wethBalance) => Plan(sells + [Swap(WETH, best.token.symbol, wethBalance.rawBalance)], None)
  }

  /** The sells are exactly the sellable balances, in balance order, each for its whole raw
      balance into WETH; none sells WETH or the excluded symbol. */
  lemma SellsSpec(balances: seq<TokenBalance>, exclude: Option<string>)
    ensures var sells := Sells(balances, exclude);
            var kept := Kept(balances, SellIf(exclude));
            && |kept| == |sells|
            && (forall k, l :: 0 <= k < l < |kept| ==> kept[k] < kept[l])
            && (forall k :: 0 <= k < |kept| ==>
                  kept[k] < |balances|
                  && sells[k] == Swap(balances[kept[k]].symbol, WETH, balances[kept[k]].rawBalance))
            && (forall i :: 0 <= i < |balances| ==> (Sellable(balances[i], exclude) <==> i in kept))
    ensures forall s :: s in Sells(balances, exclude) ==>
              s.tokenIn != WETH && s.tokenOut == WETH && (exclude.Some? ==> s.tokenIn != exclude.value)
  {
    var f := SellIf(exclude);
    FilterSpec(balances, f);
    var sells := Sells(balances, exclude);
    var kept := Kept(balances, f);
    forall k | 0 <= k < |kept|
      ensures sells[k] == Swap(balances[kept[k]].symbol, WETH, balances[kept[k]].rawBalance)
      ensures Sellable(balances[kept[k]], exclude)
    {
      assert f(balances[kept[k]]) == Some(sells[k]);
    }
    forall i | 0 <= i < |balances|
      ensures Sellable(balances[i], exclude) <==> i in kept
    {
      assert f(balances[i]).Some? <==> Sellable(balances[i], exclude);
    }
    forall s | s in sells
      ensures s.tokenIn != WETH && s.tokenOut == WETH && (exclude.Some? ==> s.tokenIn != exclude.value)
    {
      var k :| 0 <= k < |sells| && sells[k] == s;
      assert Sellable(balances[kept[k]], exclude);
    }
  }

  /** Every ranked token is a non-WETH token of the market. */
  lemma NonWethSpec(market: seq<PriceSnapshot>)
    ensures forall t :: t in NonWeth(market) ==> t in market && t.symbol != WETH
    ensures forall t :: t in market && t.symbol != WETH ==> t in NonWeth(market)
  {
    FilterSpec(market, OtherSnapshot);
    var kept := Kept(market, OtherSnapshot);
    var others := NonWeth(market);
    forall t | t in others
      ensures t in market && t.symbol != WETH
    {
      var k :| 0 <= k < |others| && others[k] == t;
      assert OtherSnapshot(market[kept[k]]) == Some(t);
    }
    forall t | t in market && t.symbol != WETH
      ensures t in others
    {
      var i :| 0 <= i < |market| && market[i] == t;
      assert i in kept;
      var k :| 0 <= k < |kept| && kept[k] == i;
      assert OtherSnapshot(market[kept[k]]) == Some(others[k]);
    }
  }

  /** A WETH snapshot without its 1h or 6h window ends the run before any swap, whatever the
      1h window said: the 1h window is read first, and the 6h one is at least printed. */
  lemma WethWindowMissingAborts(weth: Result<PriceSnapshot>, balances: Result<seq<TokenBalance>>, market: seq<PriceSnapshot>)
    requires weth.Ok? && balances.Ok?
    requires FindChange(weth.value.priceChanges, "1h").None? || FindChange(weth.value.priceChanges, "6h").None?
    ensures StrategyPlan(weth, balances, market) ==
              Abort(MissingTimeframe(WETH, if FindChange(weth.value.priceChanges, "1h").None? then "1h" else "6h"))
  {
  }

  /** WETH not rising: every other holding above one whole token is sold for WETH, in balance
      order, and nothing is bought with WETH. */
  lemma NotRisingPlan(weth: Result<PriceSnapshot>, balances: Result<seq<TokenBalance>>, market: seq<PriceSnapshot>)
    requires weth.Ok? && balances.Ok?
    requires WethPositive(FindChange(weth.value.priceChanges, "1h"), FindChange(weth.value.priceChanges, "6h")) == Ok(false)
    ensures StrategyPlan(weth, balances, market) == Plan(Sells(balances.value, None), None)
    ensures forall s :: s in StrategyPlan(weth, balances, market).swaps ==> s.tokenIn != WETH && s.tokenOut == WETH
  {
    SellsSpec(balances.value, None);
  }

  /** WETH rising with a best token: the sells exclude the best token, and one last swap spends
      the WETH balance read before the sells on the best token, which is never WETH. */
  lemma RisingPlan(weth: Result<PriceSnapshot>, balances: Result<seq<TokenBalance>>, market: seq<PriceSnapshot>)
    requires weth.Ok? && balances.Ok?
    requires WethPositive(FindChange(weth.value.priceChanges, "1h"), FindChange(weth.value.priceChanges, "6h")) == Ok(true)
    requires FindChange(weth.value.priceChanges, "6h").Some?
    requires BestToken(NonWeth(market)).Ok? && BestToken(NonWeth(market)).value.Some?
    requires FindBalance(balances.value, WETH).Some?
    ensures var best := BestToken(NonWeth(market)).value.value;
            var p := StrategyPlan(weth, balances, market);
            && p.end.None?
            && |p.swaps| >= 1
            && p.swaps[..|p.swaps| - 1] == Sells(balances.value, Some(best.token.symbol))
            && p.swaps[|p.swaps| - 1] == Swap(WETH, best.token.symbol, FindBalance(balances.value, WETH).value.rawBalance)
            && best.token in market && best.token.symbol != WETH
            && FirstMaximum(NonWeth(market), best)
            && forall s :: s in p.swaps[..|p.swaps| - 1] ==> s.tokenIn != WETH && s.tokenIn != best.token.symbol && s.tokenOut == WETH
  {
    var best := BestToken(NonWeth(market)).value.value;
    var sells := Sells(balances.value, Some(best.token.symbol));
    var p := StrategyPlan(weth, balances, market);
    BestTokenSpec(NonWeth(market));
    NonWethSpec(market);
    SellsSpec(balances.value, Some(best.token.symbol));
    assert p.swaps == sells + [Swap(WETH, best.token.symbol, FindBalance(balances.value, WETH).value.rawBalance)];
    assert p.swaps[..|p.swaps| - 1] == sells;
  }

  /** WETH rising while no other token has a positive 1h or 6h window: the run throws on
      `bestToken.symbol` before any swap, so the "Keeping WETH" branch is never reached. */
  lemma NoCandidateAborts(weth: Result<PriceSnapshot>, balances: Result<seq<TokenBalance>>, market: seq<PriceSnapshot>)
    requires weth.Ok? && balances.Ok?
    requires WethPositive(FindChange(weth.value.priceChanges, "1h"), FindChange(weth.value.priceChanges, "6h")) == Ok(true)
    requires FindChange(weth.value.priceChanges, "6h").Some?
    requires forall t :: t in market && t.symbol != WETH ==> HasWindows(t) && Gains(t) == []
    ensures StrategyPlan(weth, balances, market) == Plan([], Some(NoBestToken))
  {
    NonWethSpec(market);
    var others := NonWeth(market);
    assert forall i :: 0 <= i < |others| ==> others[i] in others;
    BestTokenSpec(others);
  }

  /** WETH rising while some other token lacks its 1h or 6h window: the run throws before any swap. */
  lemma MissingWindowAborts(weth: Result<PriceSnapshot>, balances: Result<seq<TokenBalance>>, market: seq<PriceSnapshot>, t: PriceSnapshot)
    requires weth.Ok? && balances.Ok?
    requires WethPositive(FindChange(weth.value.priceChanges, "1h"), FindChange(weth.value.priceChanges, "6h")) == Ok(true)
    requires FindChange(weth.value.priceChanges, "6h").Some?
    requires t in market && t.symbol != WETH && !HasWindows(t)
    ensures StrategyPlan(weth, balances, market).swaps == []
    ensures StrategyPlan(weth, balances, market).end.Some? && StrategyPlan(weth, balances, market).end.value.MissingTimeframe?
  {
    NonWethSpec(market);
    var others := NonWeth(market);
    var i :| 0 <= i < |others| && others[i] == t;
    BestTokenSpec(others);
  }

  /** Whatever the inputs, a plan that throws for any reason other than a missing WETH balance
      throws before its first swap. */
  lemma AbortsBeforeSwapping(weth: Result<PriceSnapshot>, balances: Result<seq<TokenBalance>>, market: seq<PriceSnapshot>)
    ensures var p := StrategyPlan(weth, balances, market);
            p.end.Some? && p.end.value != NoWethBalance ==> p.swaps == []
  {
  }

  /** Every swap but a final one sells a non-WETH token for WETH, and the only swap out of WETH
      is the last one of a plan that completes, buying a non-WETH token. */
  ghost predicate WellDirected(p: Plan)
  {
    forall i :: 0 <= i < |p.swaps| ==>
      (p.swaps[i].tokenIn != WETH && p.swaps[i].tokenOut == WETH)
      || (i == |p.swaps| - 1 && p.end.None? && p.swaps[i].tokenIn == WETH && p.swaps[i].tokenOut != WETH)
  }

  lemma SellsWellDirected(sells: seq<Swap>, end: Option<Fault>)
    requires forall s :: s in sells ==> s.tokenIn != WETH && s.tokenOut == WETH
    ensures WellDirected(Plan(sells, end))
  {
    assert forall i :: 0 <= i < |sells| ==> sells[i] in sells;
  }

  lemma SellsThenBuyWellDirected(sells: seq<Swap>, buy: Swap)
    requires forall s :: s in sells ==> s.tokenIn != WETH && s.tokenOut == WETH
    requires buy.tokenIn == WETH && buy.tokenOut != WETH
    ensures WellDirected(Plan(sells + [buy], None))
  {
    assert forall i :: 0 <= i < |sells| ==> (sells + [buy])[i] == sells[i] && sells[i] in sells;
  }

  /** Whatever the inputs, the plan is well directed. */
  lemma PlanDirections(weth: Result<PriceSnapshot>, balances: Result<seq<TokenBalance>>, market: seq<PriceSnapshot>)
    ensures WellDirected(StrategyPlan(weth, balances, market))
  {
    var p := StrategyPlan(weth, balances, market);
    if weth.Ok? && balances.Ok? {
      var positive := WethPositive(FindChange(weth.value.priceChanges, "1h"), FindChange(weth.value.priceChanges, "6h"));
      if positive == Ok(false) {
        SellsSpec(balances.value, None);
        SellsWellDirected(Sells(balances.value, None), None);
      } else if positive == Ok(true) && FindChange(weth.value.priceChanges, "6h").Some? {
        var found := BestToken(NonWeth(market));
        if found.Ok? && found.value.Some? {
          var best := found.value.value;
          var sells := Sells(balances.value, Some(best.token.symbol));
          SellsSpec(balances.value, Some(best.token.symbol));
          match FindBalance(balances.value, WETH)
          case Some(w) =>
            BestTokenSpec(NonWeth(market));
            NonWethSpec(market);
            SellsThenBuyWellDirected(sells, Swap(WETH, best.token.symbol, w.rawBalance));
          case None =>
            SellsWellDirected(sells, Some(NoWethBalance));
        }
      }
    }
  }

  /** A snapshot shaped as getPriceChanges builds it: one change per timeframe, in order. */
  predicate Monitored(t: PriceSnapshot)
  {
    |t.priceChanges| == |TIMEFRAMES| && forall i :: 0 <= i < |TIMEFRAMES| ==> t.priceChanges[i].timeframe == TIMEFRAMES[i]
  }

  lemma MonitoredHasWindows(t: PriceSnapshot)
    requires Monitored(t)
    ensures HasWindows(t)
  {
    FindChangeSpec(t.priceChanges, "1h");
    FindChangeSpec(t.priceChanges, "6h");
    assert t.priceChanges[1].timeframe == "1h" && t.priceChanges[2].timeframe == "6h";
  }

  /** Every snapshot getAllPriceChanges returns is shaped as getPriceChanges builds it. */
  lemma AllPriceChangesMonitored(reg: Registry, feed: PriceFeed)
    ensures forall t :: t in AllPriceChanges(reg, feed) ==> Monitored(t)
  {
    AllPriceChangesSpec(reg, feed);
    var all := AllPriceChanges(reg, feed);
    var kept := Kept(reg, Attempt(reg, feed));
    forall t | t in all
      ensures Monitored(t)
    {
      var k :| 0 <= k < |all| && all[k] == t;
      assert GetPriceChanges(reg, reg[kept[k]].symbol, feed) == Ok(t);
    }
  }

  /** With monitored snapshots the strategy never throws for a missing window. */
  lemma MonitoredPlanHasWindows(weth: Result<PriceSnapshot>, balances: Result<seq<TokenBalance>>, market: seq<PriceSnapshot>)
    requires weth.Ok? ==> Monitored(weth.value)
    requires weth.Err? ==> !weth.fault.MissingTimeframe?
    requires balances.Err? ==> !balances.fault.MissingTimeframe?
    requires forall t :: t in market ==> Monitored(t)
    ensures var p := StrategyPlan(weth, balances, market);
            p.end.Some? ==> !p.end.value.MissingTimeframe?
  {
    if weth.Ok? && balances.Ok? {
      MonitoredHasWindows(weth.value);
      NonWethSpec(market);
      var others := NonWeth(market);
      forall i | 0 <= i < |others|
        ensures HasWindows(others[i])
      {
        assert others[i] in market;
        MonitoredHasWindows(others[i]);
      }
      BestTokenFails(others);
    }
  }

  /** Fed by getPriceChanges('WETH') and getAllPriceChanges, the strategy never throws for a
      missing window: every snapshot they produce has all four timeframes. */
  lemma MonitoredWindowsNeverMissing(reg: Registry, feed: PriceFeed, balances: Result<seq<TokenBalance>>)
    requires balances.Err? ==> balances.fault == RpcFailed
    ensures var p := StrategyPlan(GetPriceChanges(reg, WETH, feed), balances, AllPriceChanges(reg, feed));
            p.end.Some? ==> !p.end.value.MissingTimeframe?
  {
    AllPriceChangesMonitored(reg, feed);
    MonitoredPlanHasWindows(GetPriceChanges(reg, WETH, feed), balances, AllPriceChanges(reg, feed));
  }

  // ---------------------------------------------------------------------------------------------
  // The run
  // ---------------------------------------------------------------------------------------------

  /** swapTokens followed by `.wait()` on the transaction it returns. */
  function ExecuteSwap(reg: Registry, wallet: string, chain: Chain, s: Swap): Result<SwapRequest>
  {
    match SwapTokens(reg, wallet, chain, s.tokenIn, s.tokenOut, s.amount)
    case Err(f) => Err(f)
    case Ok(req) => if chain.submit(req.params) then Ok(req) else Err(SwapFailed)
  }

  /** The swaps confirmed, in order, and the error the run rethrew, if any. */
  datatype Run = Run(done: seq<Swap>, fault: Option<Fault>)

  /** A run that follows a plan: it confirms a prefix of the planned swaps; the first swap that
      fails ends it with that swap's error; a run that confirms every swap ends as the plan does. */
  ghost predicate Follows(run: Run, p: Plan, reg: Registry, wallet: string, chain: Chain)
  {
    && |run.done| <= |p.swaps|
    && run.done == p.swaps[..|run.done|]
    && (forall i :: 0 <= i < |run.done| ==> ExecuteSwap(reg, wallet, chain, p.swaps[i]).Ok?)
    && (if |run.done| < |p.swaps|
        then ExecuteSwap(reg, wallet, chain, p.swaps[|run.done|]).Err?
             && run.fault == Some(ExecuteSwap(reg, wallet, chain, p.swaps[|run.done|]).fault)
        else run.fault == p.end)
  }

  /** `for (const token of tokensToSwapToWeth)`: swap and wait, one after the other; the first
      error leaves the loop. */
  method RunSwaps(reg: Registry, wallet: string, chain: Chain, swaps: seq<Swap>) returns (done: seq<Swap>, fault: Option<Fault>)
    ensures |done| <= |swaps| && done == swaps[..|done|]
    ensures forall i :: 0 <= i < |done| ==> ExecuteSwap(reg, wallet, chain, swaps[i]).Ok?
    ensures fault.None? <==> |done| == |swaps|
    ensures fault.Some? ==> |done| < |swaps| && ExecuteSwap(reg, wallet, chain, swaps[|done|]) == Err(fault.value)
  {
    done := [];
    for i := 0 to |swaps|
      invariant done == swaps[..i]
      invariant forall j :: 0 <= j < i ==> ExecuteSwap(reg, wallet, chain, swaps[j]).Ok?
    {
      var swapTx := ExecuteSwap(reg, wallet, chain, swaps[i]);
      if swapTx.Err? {
        fault := Some(swapTx.fault);
        return;
      }
      done := done + [swaps[i]];
    }
    fault := None;
  }

  /** A run stopped by a failed sell follows the plan that ends with the final swap. */
  lemma FollowsBeforeLast(run: Run, sells: seq<Swap>, finalSwap: Swap, reg: Registry, wallet: string, chain: Chain)
    requires Follows(run, Plan(sells, None), reg, wallet, chain) && |run.done| < |sells|
    ensures Follows(run, Plan(sells + [finalSwap], None), reg, wallet, chain)
  {
    var planned := sells + [finalSwap];
    assert planned[..|run.done|] == sells[..|run.done|];
    assert planned[|run.done|] == sells[|run.done|];
    assert forall i :: 0 <= i < |run.done| ==> planned[i] == sells[i];
  }

  /** A run that confirmed every sell follows the plan through its final swap. */
  lemma FollowsLast(run: Run, sells: seq<Swap>, finalSwap: Swap, reg: Registry, wallet: string, chain: Chain)
    requires forall i :: 0 <= i < |sells| ==> ExecuteSwap(reg, wallet, chain, sells[i]).Ok?
    requires ExecuteSwap(reg, wallet, chain, finalSwap).Err? ==>
               run == Run(sells, Some(ExecuteSwap(reg, wallet, chain, finalSwap).fault))
    requires ExecuteSwap(reg, wallet, chain, finalSwap).Ok? ==> run == Run(sells + [finalSwap], None)
    ensures Follows(run, Plan(sells + [finalSwap], None), reg, wallet, chain)
  {
    var planned := sells + [finalSwap];
    assert planned[..|sells|] == sells;
    assert planned[..|sells| + 1] == planned;
  }

  /** executeTradingStrategy: reads the signals, ranks the tokens when WETH is rising, then
      swaps and waits one swap at a time; it follows StrategyPlan. */
  method ExecuteTradingStrategy(reg: Registry, wallet: string, chain: Chain,
                                weth: Result<PriceSnapshot>, balances: Result<seq<TokenBalance>>, market: seq<PriceSnapshot>)
    returns (run: Run)
    ensures Follows(run, StrategyPlan(weth, balances, market), reg, wallet, chain)
  {
    ghost var plan := StrategyPlan(weth, balances, market);
    if weth.Err? {
      run := Run([], Some(weth.fault));
      return;
    }
    var weth1hChange := FindChange(weth.value.priceChanges, "1h");
    var weth6hChange := FindChange(weth.value.priceChanges, "6h");
    if balances.Err? {
      run := Run([], Some(balances.fault));
      return;
    }
    var allBalances := balances.value;
    var wethBalance := FindBalance(allBalances, WETH);
    var isWethPositive := WethPositive(weth1hChange, weth6hChange);
    if isWethPositive.Err? {
      run := Run([], Some(isWethPositive.fault));
      return;
    }
    if weth6hChange.None? {
      run := Run([], Some(MissingTimeframe(WETH, "6h")));
      return;
    }
    if !isWethPositive.value {
      var tokensToSwapToWeth := Sells(allBalances, None);
      assert plan == Plan(tokensToSwapToWeth, None);
      var done, fault := RunSwaps(reg, wallet, chain, tokensToSwapToWeth);
      run := Run(done, fault);
      return;
    }
    var found := FindBestToken(NonWeth(market));
    if found.Err? {
      run := Run([], Some(found.fault));
      return;
    }
    if found.value.None? {
      run := Run([], Some(NoBestToken));
      return;
    }
    var bestToken := found.value.value.token;
    var tokensToSwapToWeth := Sells(allBalances, Some(bestToken.symbol));
    var done, fault := RunSwaps(reg, wallet, chain, tokensToSwapToWeth);
    if wethBalance.None? {
      assert plan == Plan(tokensToSwapToWeth, Some(NoWethBalance));
      run := Run(done, if fault.Some? then fault else Some(NoWethBalance));
      return;
    }
    var finalSwap := Swap(WETH, bestToken.symbol, wethBalance.value.rawBalance);
    assert plan == Plan(tokensToSwapToWeth + [finalSwap], None);
    if fault.Some? {
      run := Run(done, fault);
      FollowsBeforeLast(run, tokensToSwapToWeth, finalSwap, reg, wallet, chain);
      return;
    }
    var finalSwapTx := ExecuteSwap(reg, wallet, chain, finalSwap);
    if finalSwapTx.Err? {
      run := Run(done, Some(finalSwapTx.fault));
    } else {
      run := Run(done + [finalSwap], None);
    }
    FollowsLast(run, tokensToSwapToWeth, finalSwap, reg, wallet, chain);
  }
}
