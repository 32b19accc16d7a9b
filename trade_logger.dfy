/** tradeLogger.js: the trade journal, a JSON array of trade records kept in trades.json and
    rewritten whole on every save. */
module TradeLogger {

  /** A JSON value, as JSON.parse yields it. */
  datatype Json =
    | JNull
    | JBool(b: bool)
    | JNum(n: real)
    | JStr(s: string)
    | JList(items: seq<Json>)
    | JObject(fields: map<string, Json>)

  /** A trade as saveTrade receives it: an object's fields. */
  type Trade = map<string, Json>

  /** What trades.json holds: no file; a file that cannot be read or whose text is not JSON;
      or the JSON value its text parses to. */
  datatype FileContent = NoFile | Unreadable | Parsed(value: Json)

  /** loadTrades: the parsed content, or the empty list when the file is missing or reading
      or parsing it fails. A file holding a JSON value other than a list is returned as is. */
  function LoadTrades(c: FileContent): (r: Json)
    ensures c.Parsed? ==> r == c.value
    ensures !c.Parsed? ==> r == JList([])
  {
    match c
    case Parsed(v) => v
    case _ => JList([])
  }

  /** The record saveTrade appends: the trade's fields followed by a fresh timestamp, which
      wins over any timestamp field the trade already had. */
  function Stamp(trade: Trade, now: string): (r: Trade)
    ensures "timestamp" in r && r["timestamp"] == JStr(now)
    ensures r.Keys == trade.Keys + {"timestamp"}
    ensures forall k :: k in trade && k != "timestamp" ==> r[k] == trade[k]
  {
    trade["timestamp" := JStr(now)]
  }

  /** The file after saveTrade(trade) at time `now`, where `writeOk` says whether
      writeFileSync succeeded. `push` throws on a loaded value that is not a list; that error,
      like a failed write, is caught and leaves the file as it was. */
  function Saved(c: FileContent, trade: Trade, now: string, writeOk: bool): (r: FileContent)
    ensures LoadTrades(c).JList? && writeOk ==>
              LoadTrades(r) == JList(LoadTrades(c).items + [JObject(Stamp(trade, now))])
    ensures !LoadTrades(c).JList? || !writeOk ==> r == c
  {
    var trades := LoadTrades(c);
    if trades.JList? && writeOk then Parsed(JList(trades.items + [JObject(Stamp(trade, now))])) else c
  }

  /** trades.json. */
  class TradeFile {
    var content: FileContent

    constructor(content: FileContent)
      ensures this.content == content
    {
      this.content := content;
    }

    /** saveTrade: load, push the stamped record, write the whole list back. It never throws. */
    method SaveTrade(trade: Trade, now: string, writeOk: bool)
      modifies this
      ensures content == Saved(old(content), trade, now, writeOk)
    {
      var trades := LoadTrades(content);
      if !trades.JList? {
        return;  // `trades.push` is not a function: caught
      }
      trades := JList(trades.items + [JObject(Stamp(trade, now))]);
      if writeOk {
        content := Parsed(trades);
      }
    }
  }

  /** A save keeps every earlier record, in order, and adds the new one at the end. */
  lemma SaveKeepsEarlierRecords(c: FileContent, trade: Trade, now: string)
    requires LoadTrades(c).JList?
    ensures var before := LoadTrades(c).items;
            var after := LoadTrades(Saved(c, trade, now, true)).items;
            && |after| == |before| + 1
            && after[..|before|] == before
            && after[|before|] == JObject(Stamp(trade, now))
  {
    var before := LoadTrades(c).items;
    assert (before + [JObject(Stamp(trade, now))])[..|before|] == before;
  }

  /** A missing or unreadable file is replaced by a list holding only the new record. */
  lemma CorruptFileReplaced(c: FileContent, trade: Trade, now: string)
    requires !c.Parsed?
    ensures Saved(c, trade, now, true) == Parsed(JList([JObject(Stamp(trade, now))]))
  {
    assert LoadTrades(c).items == [];
  }

  /** Saving the same trade twice at the same time stores it twice: there is no deduplication. */
  lemma SaveTwiceKeepsBoth(c: FileContent, trade: Trade, now: string)
    requires LoadTrades(c).JList?
    ensures var twice := LoadTrades(Saved(Saved(c, trade, now, true), trade, now, true)).items;
            var before := LoadTrades(c).items;
            && |twice| == |before| + 2
            && twice[..|before|] == before
            && twice[|before|] == twice[|before| + 1] == JObject(Stamp(trade, now))
  {
    var before := LoadTrades(c).items;
    var record := JObject(Stamp(trade, now));
    assert LoadTrades(Saved(c, trade, now, true)).items == before + [record];
    assert (before + [record] + [record])[..|before|] == before;
  }

  /** A failed write or a file holding something other than a list leaves the file as it was,
      so a later load returns what it returned before. */
  lemma FailedSaveChangesNothing(c: FileContent, trade: Trade, now: string, writeOk: bool)
    requires !writeOk || (c.Parsed? && !c.value.JList?)
    ensures LoadTrades(Saved(c, trade, now, writeOk)) == LoadTrades(c)
  {
  }
}
