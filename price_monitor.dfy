/** priceMonitor.js: turning the price API's raw variations into signed per-timeframe changes. */
module PriceMonitor {
  import opened Outcomes
  import opened Tokens
  import opened Seqs

  datatype PriceChange = PriceChange(timeframe: string, percentage: real, isPositive: bool)

  /** What getPriceChanges returns for one symbol. */
  datatype PriceSnapshot = PriceSnapshot(symbol: string, name: string, priceChanges: seq<PriceChange>)

  /** The four variations of the price API's answer; None is a JSON null. */
  datatype Variations = Variations(variation5m: Option<real>, variation1h: Option<real>, variation6h: Option<real>, variation24h: Option<real>)

  /** The price API, by token address: the answer's variations, or a failed request. */
  type PriceFeed = string -> Call<Variations>

  const TIMEFRAMES: seq<string> := ["5m", "1h", "6h", "24h"]

  function RawVariations(v: Variations): seq<Option<real>>
  {
    [v.variation5m, v.variation1h, v.variation6h, v.variation24h]
  }

  /** `Number(x.toFixed(2))` on the exact value: the nearest hundredth, halves away from zero. */
  function ToFixed2(x: real): (r: real)
    ensures -0.005 <= r - x <= 0.005
    ensures (r * 100.0).Floor as real == r * 100.0
    ensures x >= 0.0 ==> r >= 0.0
    ensures x <= 0.0 ==> r <= 0.0
  {
    var n := if x >= 0.0 then Hundredths(x) else -Hundredths(-x);
    assert (n as real).Floor == n;
    n as real / 100.0
  }

  /** The whole number of hundredths nearest to a non-negative value, halves rounded up. */
  function Hundredths(y: real): (n: int)
    requires y >= 0.0
    ensures n >= 0
    ensures y * 100.0 - 0.5 < n as real <= y * 100.0 + 0.5
  {
    (y * 100.0 + 0.5).Floor
  }

  /** One entry of the array literal: a null variation falls back to (0, true). */
  function Normalise(timeframe: string, v: Option<real>): PriceChange
  {
    match v
    case None => PriceChange(timeframe, 0.0, true)
    case Some(x) => PriceChange(timeframe, ToFixed2(x), x >= 0.0)
  }

  /** What a change must say about the raw variation it was built from. */
  ghost predicate Reports(c: PriceChange, v: Option<real>)
  {
    match v
    case None => c.percentage == 0.0 && c.isPositive
    case Some(x) => c.isPositive == (x >= 0.0) && c.percentage == ToFixed2(x)
  }

  /** getPriceChanges(symbol): the configuration check, then one change per timeframe. */
  function GetPriceChanges(reg: Registry, symbol: string, feed: PriceFeed): (r: Result<PriceSnapshot>)
    ensures LookupToken(reg, symbol).None? ==> r == Err(UnknownToken(symbol))
    ensures LookupToken(reg, symbol).Some? && LookupToken(reg, symbol).value.address == "" ==> r == Err(UnknownToken(symbol))
    ensures r.Err? <==> LookupToken(reg, symbol).None? || LookupToken(reg, symbol).value.address == ""
                        || feed(LookupToken(reg, symbol).value.address).Threw?
    ensures r.Err? ==> r.fault == UnknownToken(symbol) || r.fault == FeedFailed(symbol)
    ensures LookupToken(reg, symbol).Some? && LookupToken(reg, symbol).value.address != ""
            && feed(LookupToken(reg, symbol).value.address).Threw?
            ==> r == Err(FeedFailed(symbol))
    ensures r.Ok? ==> r.value.symbol == symbol && r.value.name == LookupToken(reg, symbol).value.name
    ensures r.Ok? ==> |r.value.priceChanges| == |TIMEFRAMES|
    ensures r.Ok? ==> forall i :: 0 <= i < |TIMEFRAMES| ==>
              r.value.priceChanges[i].timeframe == TIMEFRAMES[i]
              && Reports(r.value.priceChanges[i], RawVariations(feed(LookupToken(reg, symbol).value.address).value)[i])
  {
    match LookupToken(reg, symbol)
    case None => Err(UnknownToken(symbol))
    case Some(token) =>
      if token.address == "" then Err(UnknownToken(symbol))
      else
        match feed(token.address)
        case Threw => Err(FeedFailed(symbol))
        case Returned(data) =>
          Ok(PriceSnapshot(symbol, token.name, [
            Normalise("5m", data.variation5m),
            Normalise("1h", data.variation1h),
            Normalise("6h", data.variation6h),
            Normalise("24h", data.variation24h)]))
  }

  /** isPositive is decided on the raw value and the percentage is rounded afterwards, so the two
      disagree exactly for raw variations in (-0.005, 0), which round to 0 but count as a fall. */
  lemma SignAgreesOutsideRoundingBand(timeframe: string, x: real)
    ensures Normalise(timeframe, Some(x)).isPositive == (Normalise(timeframe, Some(x)).percentage >= 0.0)
            <==> !(-0.005 < x < 0.0)
  {
    var c := Normalise(timeframe, Some(x));
    if -0.005 < x < 0.0 {
      var m := (-x) * 100.0 + 0.5;
      assert 0.5 < m < 1.0;
      assert m.Floor == 0;
      assert c.percentage == 0.0;
    } else if x < 0.0 {
      var m := (-x) * 100.0 + 0.5;
      assert m >= 1.0;
      assert m.Floor >= 1;
      assert c.percentage < 0.0;
    }
  }

  /** The entry for a symbol, or nothing when its lookup throws (the catch in the loop). */
  function Attempt(reg: Registry, feed: PriceFeed): TokenConfig -> Option<PriceSnapshot>
  {
    (token: TokenConfig) => match GetPriceChanges(reg, token.symbol, feed)
             case Ok(s) => Some(s)
             case Err(_) => None
  }

  /** getAllPriceChanges's answer: every symbol whose lookup succeeded, in key order. */
  function AllPriceChanges(reg: Registry, feed: PriceFeed): seq<PriceSnapshot>
  {
    Filter(reg, Attempt(reg, feed))
  }

  /** getAllPriceChanges: a best-effort loop over the configured symbols. */
  method GetAllPriceChanges(reg: Registry, feed: PriceFeed) returns (results: seq<PriceSnapshot>)
    ensures results == AllPriceChanges(reg, feed)
  {
    results := [];
    for i := 0 to |reg|
      invariant results == Filter(reg[..i], Attempt(reg, feed))
    {
      var priceData := GetPriceChanges(reg, reg[i].symbol, feed);
      if priceData.Ok? {
        results := results + [priceData.value];
      }
      assert reg[..i + 1][..i] == reg[..i];
    }
    assert reg[..|reg|] == reg;
  }

  /** A failing symbol is dropped and the batch goes on: the answer lists, in key order, exactly
      the symbols whose getPriceChanges succeeded, each with its own symbol. */
  lemma AllPriceChangesSpec(reg: Registry, feed: PriceFeed)
    ensures |AllPriceChanges(reg, feed)| <= |reg|
    ensures var kept := Kept(reg, Attempt(reg, feed));
            var all := AllPriceChanges(reg, feed);
            && |kept| == |all|
            && (forall k, l :: 0 <= k < l < |kept| ==> kept[k] < kept[l])
            && (forall k :: 0 <= k < |kept| ==>
                  kept[k] < |reg|
                  && GetPriceChanges(reg, reg[kept[k]].symbol, feed) == Ok(all[k])
                  && all[k].symbol == reg[kept[k]].symbol)
            && (forall i :: 0 <= i < |reg| ==> (GetPriceChanges(reg, reg[i].symbol, feed).Ok? <==> i in kept))
  {
    var f := Attempt(reg, feed);
    FilterSpec(reg, f);
    var kept := Kept(reg, f);
    var all := AllPriceChanges(reg, feed);
    forall k | 0 <= k < |kept|
      ensures GetPriceChanges(reg, reg[kept[k]].symbol, feed) == Ok(all[k])
    {
      assert f(reg[kept[k]]) == Some(all[k]);
    }
    forall i | 0 <= i < |reg|
      ensures GetPriceChanges(reg, reg[i].symbol, feed).Ok? <==> i in kept
    {
      assert f(reg[i]).Some? <==> GetPriceChanges(reg, reg[i].symbol, feed).Ok?;
    }
  }

  /** With distinct keys, each collected entry carries the configured name of its own entry. */
  lemma AllPriceChangesNames(reg: Registry, feed: PriceFeed, k: nat)
    requires UniqueSymbols(reg) && k < |AllPriceChanges(reg, feed)|
    ensures exists i :: 0 <= i < |reg| && AllPriceChanges(reg, feed)[k].symbol == reg[i].symbol
                                        && AllPriceChanges(reg, feed)[k].name == reg[i].name
  {
    AllPriceChangesSpec(reg, feed);
    var i := Kept(reg, Attempt(reg, feed))[k];
    LookupFindsEntry(reg, i);
  }
}
