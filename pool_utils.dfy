/** poolUtils.js: choosing the Uniswap V3 pool of a pair by scanning the fee tiers. */
module PoolUtils {
  import opened Outcomes

  /** What the chain answered for one fee tier: factory.getPool, provider.getCode, and the three
      reads getPoolMetrics makes (slot0, liquidity, the Swap events of the last 10000 blocks,
      given by their block numbers in the order queryFilter returns them). */
  datatype TierReport = TierReport(
    pool: Call<string>,
    code: Call<string>,
    sqrtPriceX96: Call<nat>,
    liquidity: Call<nat>,
    swapBlocks: Call<seq<nat>>)

  /** The chain as seen by findPool: (token0, token1, fee) to that tier's answers. */
  type PoolProbe = (string, string, nat) -> TierReport

  /** `liquidity` is in ETH (raw liquidity / 1e18). */
  datatype PoolMetrics = PoolMetrics(liquidity: real, swapCount: nat, lastSwapTime: nat, sqrtPriceX96: nat)

  datatype PoolChoice = PoolChoice(poolAddress: string, fee: nat, metrics: PoolMetrics)

  /** Fee tiers in order of preference: 0.01%, 0.05%, 0.3%, 1%. */
  const FEE_TIERS: seq<nat> := [100, 500, 3000, 10000]

  const ZERO_ADDRESS: string := "0x0000000000000000000000000000000000000000"

  const WEI_PER_ETH: real := 1000000000000000000.0

  /** getPoolMetrics: any failing read is rethrown. */
  function GetPoolMetrics(state: Call<nat>, liquidity: Call<nat>, swapBlocks: Call<seq<nat>>): (r: Result<PoolMetrics>)
    ensures r.Ok? <==> state.Returned? && liquidity.Returned? && swapBlocks.Returned?
    ensures r.Err? ==> r.fault == RpcFailed
    ensures r.Ok? ==> r.value.swapCount == |swapBlocks.value|
    ensures r.Ok? ==> (swapBlocks.value == [] ==> r.value.lastSwapTime == 0)
    ensures r.Ok? ==> (swapBlocks.value != [] ==> r.value.lastSwapTime == swapBlocks.value[|swapBlocks.value| - 1])
    ensures r.Ok? ==> r.value.liquidity * WEI_PER_ETH == liquidity.value as real
    ensures r.Ok? ==> r.value.sqrtPriceX96 == state.value
  {
    if state.Threw? || liquidity.Threw? || swapBlocks.Threw? then Err(RpcFailed)
    else
      var events := swapBlocks.value;
      Ok(PoolMetrics(
        liquidity.value as real / WEI_PER_ETH,
        |events|,
        if |events| > 0 then events[|events| - 1] else 0,
        state.value))
  }

  /** One fee tier examined: its pool, or nothing when the tier is skipped. */
  function Candidate(token0: string, token1: string, probe: PoolProbe, fee: nat): (r: Option<PoolChoice>)
    ensures var rep := probe(token0, token1, fee);
            r.None? <==> (|| rep.pool.Threw?
                          || rep.pool.value == "" || rep.pool.value == ZERO_ADDRESS
                          || rep.code.Threw? || rep.code.value == "0x"
                          || GetPoolMetrics(rep.sqrtPriceX96, rep.liquidity, rep.swapBlocks).Err?)
    ensures r.Some? ==> var rep := probe(token0, token1, fee);
            && r.value.fee == fee
            && rep.pool == Returned(r.value.poolAddress)
            && GetPoolMetrics(rep.sqrtPriceX96, rep.liquidity, rep.swapBlocks) == Ok(r.value.metrics)
  {
    var rep := probe(token0, token1, fee);
    match rep.pool
    case Threw => None
    case Returned(poolAddress) =>
      if poolAddress == "" || poolAddress == ZERO_ADDRESS then None
      else
        match rep.code
        case Threw => None
        case Returned(code) =>
          if code == "0x" then None
          else
            match GetPoolMetrics(rep.sqrtPriceX96, rep.liquidity, rep.swapBlocks)
            case Err(_) => None
            case Ok(metrics) => Some(PoolChoice(poolAddress, fee, metrics))
  }

  /** bestLiquidity: 0 until a pool is chosen. */
  function BestLiquidity(best: Option<PoolChoice>): real
  {
    if best.None? then 0.0 else best.value.metrics.liquidity
  }

  /** bestPool after the loop has examined `tiers`. */
  function SelectFrom(token0: string, token1: string, probe: PoolProbe, tiers: seq<nat>): Option<PoolChoice>
    decreases |tiers|
  {
    if tiers == [] then None
    else
      var best := SelectFrom(token0, token1, probe, tiers[..|tiers| - 1]);
      match Candidate(token0, token1, probe, tiers[|tiers| - 1])
      case Some(c) => if c.metrics.liquidity > BestLiquidity(best) then Some(c) else best
      case None => best
  }

  /** findPool's answer. */
  function SelectPool(token0: string, token1: string, probe: PoolProbe): Result<PoolChoice>
  {
    match SelectFrom(token0, token1, probe, FEE_TIERS)
    case None => Err(NoPool)
    case Some(c) => Ok(c)
  }

  /** The chosen pool has positive liquidity, no surviving tier has more, and every earlier
      surviving tier has strictly less; with no chosen pool, every surviving tier has none. */
  lemma {:induction false} SelectFromSpec(token0: string, token1: string, probe: PoolProbe, tiers: seq<nat>)
    ensures SelectFrom(token0, token1, probe, tiers).None? ==>
              forall k :: 0 <= k < |tiers| && Candidate(token0, token1, probe, tiers[k]).Some? ==>
                Candidate(token0, token1, probe, tiers[k]).value.metrics.liquidity <= 0.0
    ensures SelectFrom(token0, token1, probe, tiers).Some? ==>
              var c := SelectFrom(token0, token1, probe, tiers).value;
              && c.metrics.liquidity > 0.0
              && (forall k :: 0 <= k < |tiers| && Candidate(token0, token1, probe, tiers[k]).Some? ==>
                    Candidate(token0, token1, probe, tiers[k]).value.metrics.liquidity <= c.metrics.liquidity)
              && exists k :: 0 <= k < |tiers| && Candidate(token0, token1, probe, tiers[k]) == Some(c)
                   && forall j :: 0 <= j < k && Candidate(token0, token1, probe, tiers[j]).Some? ==>
                        Candidate(token0, token1, probe, tiers[j]).value.metrics.liquidity < c.metrics.liquidity
    decreases |tiers|
  {
    if tiers != [] {
      var n := |tiers| - 1;
      var p := tiers[..n];
      SelectFromSpec(token0, token1, probe, p);
      assert forall k :: 0 <= k < n ==> p[k] == tiers[k];
      var prev := SelectFrom(token0, token1, probe, p);
      var cand := Candidate(token0, token1, probe, tiers[n]);
      if cand.Some? && cand.value.metrics.liquidity > BestLiquidity(prev) {
        var c := cand.value;
        assert SelectFrom(token0, token1, probe, tiers) == Some(c);
        assert forall j :: 0 <= j < n && Candidate(token0, token1, probe, tiers[j]).Some? ==>
                 Candidate(token0, token1, probe, tiers[j]).value.metrics.liquidity < c.metrics.liquidity;
        assert Candidate(token0, token1, probe, tiers[n]) == Some(c);
      } else {
        assert SelectFrom(token0, token1, probe, tiers) == prev;
        if prev.Some? {
          var c := prev.value;
          var k :| 0 <= k < n && Candidate(token0, token1, probe, p[k]) == Some(c)
                   && forall j :: 0 <= j < k && Candidate(token0, token1, probe, p[j]).Some? ==>
                        Candidate(token0, token1, probe, p[j]).value.metrics.liquidity < c.metrics.liquidity;
          assert Candidate(token0, token1, probe, tiers[k]) == Some(c);
        }
      }
    }
  }

  /** findPool over the four fee tiers: the selected pool is a surviving tier with the strictly
      greatest liquidity (earliest tier on ties, never a pool with zero liquidity); it throws
      exactly when no surviving tier has positive liquidity. */
  lemma FindPoolSpec(token0: string, token1: string, probe: PoolProbe)
    ensures SelectPool(token0, token1, probe).Err? <==>
              forall k :: 0 <= k < |FEE_TIERS| && Candidate(token0, token1, probe, FEE_TIERS[k]).Some? ==>
                Candidate(token0, token1, probe, FEE_TIERS[k]).value.metrics.liquidity <= 0.0
    ensures SelectPool(token0, token1, probe).Err? ==> SelectPool(token0, token1, probe).fault == NoPool
    ensures SelectPool(token0, token1, probe).Ok? ==>
              var c := SelectPool(token0, token1, probe).value;
              && c.fee in FEE_TIERS
              && c.metrics.liquidity > 0.0
              && c.poolAddress != "" && c.poolAddress != ZERO_ADDRESS
              && (forall k :: 0 <= k < |FEE_TIERS| && Candidate(token0, token1, probe, FEE_TIERS[k]).Some? ==>
                    Candidate(token0, token1, probe, FEE_TIERS[k]).value.metrics.liquidity <= c.metrics.liquidity)
              && (forall k :: 0 <= k < |FEE_TIERS| && FEE_TIERS[k] < c.fee && Candidate(token0, token1, probe, FEE_TIERS[k]).Some? ==>
                    Candidate(token0, token1, probe, FEE_TIERS[k]).value.metrics.liquidity < c.metrics.liquidity)
  {
    SelectFromSpec(token0, token1, probe, FEE_TIERS);
    var sel := SelectFrom(token0, token1, probe, FEE_TIERS);
    if sel.Some? {
      var c := sel.value;
      var k :| 0 <= k < |FEE_TIERS| && Candidate(token0, token1, probe, FEE_TIERS[k]) == Some(c)
               && forall j :: 0 <= j < k && Candidate(token0, token1, probe, FEE_TIERS[j]).Some? ==>
                    Candidate(token0, token1, probe, FEE_TIERS[j]).value.metrics.liquidity < c.metrics.liquidity;
      assert c.fee == FEE_TIERS[k];
      assert forall j :: 0 <= j < |FEE_TIERS| && FEE_TIERS[j] < c.fee ==> j < k;
    }
  }

  /** findPool: the loop over the fee tiers, keeping the pool with the most liquidity so far. */
  method FindPool(token0: string, token1: string, probe: PoolProbe) returns (r: Result<PoolChoice>)
    ensures r == SelectPool(token0, token1, probe)
  {
    var bestPool: Option<PoolChoice> := None;
    var bestLiquidity: real := 0.0;
    for i := 0 to |FEE_TIERS|
      invariant bestPool == SelectFrom(token0, token1, probe, FEE_TIERS[..i])
      invariant bestLiquidity == BestLiquidity(bestPool)
    {
      var fee := FEE_TIERS[i];
      var tier := Candidate(token0, token1, probe, fee);
      if tier.Some? && tier.value.metrics.liquidity > bestLiquidity {
        bestPool := tier;
        bestLiquidity := tier.value.metrics.liquidity;
      }
      assert FEE_TIERS[..i + 1][..i] == FEE_TIERS[..i];
    }
    assert FEE_TIERS[..|FEE_TIERS|] == FEE_TIERS;
    if bestPool.Some? {
      r := Ok(bestPool.value);
    } else {
      r := Err(NoPool);
    }
  }
}
