/** The token registry (tokens.json) and the wallet balances read against it. */
module Tokens {
  import opened Outcomes

  /** One entry of tokens.json, keyed by its symbol. */
  datatype TokenConfig = TokenConfig(symbol: string, name: string, address: string, decimals: nat)

  /** tokens.json in key order (the order `Object.keys` and `Object.entries` visit it). */
  type Registry = seq<TokenConfig>

  /** One entry of getTokenBalance's result; `formattedBalance` is formatUnits read as a number. */
  datatype TokenBalance = TokenBalance(symbol: string, rawBalance: nat, formattedBalance: real, name: string, address: string)

  /** The base asset every rotation goes through. */
  const WETH: string := "WETH"

  /** `tokens[symbol]`: undefined when no entry carries the key. */
  function LookupToken(reg: Registry, symbol: string): (r: Option<TokenConfig>)
    ensures r.Some? ==> r.value in reg && r.value.symbol == symbol
    ensures r.None? <==> forall i :: 0 <= i < |reg| ==> reg[i].symbol != symbol
  {
    if reg == [] then None
    else if reg[0].symbol == symbol then Some(reg[0])
    else LookupToken(reg[1..], symbol)
  }

  /** Keys of a JSON object are distinct. */
  ghost predicate UniqueSymbols(reg: Registry)
  {
    forall i, j :: 0 <= i < j < |reg| ==> reg[i].symbol != reg[j].symbol
  }

  /** With distinct keys, looking up the symbol of an entry finds that very entry. */
  lemma {:induction false} LookupFindsEntry(reg: Registry, i: nat)
    requires UniqueSymbols(reg) && i < |reg|
    ensures LookupToken(reg, reg[i].symbol) == Some(reg[i])
  {
    if i > 0 {
      assert reg[0].symbol != reg[i].symbol;
      assert reg[1..][i - 1] == reg[i];
      assert UniqueSymbols(reg[1..]) by {
        forall a, b | 0 <= a < b < |reg[1..]| ensures reg[1..][a].symbol != reg[1..][b].symbol {
          assert reg[1..][a] == reg[a + 1] && reg[1..][b] == reg[b + 1];
        }
      }
      LookupFindsEntry(reg[1..], i - 1);
    }
  }

  function Pow10(n: nat): (r: nat)
    ensures r >= 1
  {
    if n == 0 then 1 else 10 * Pow10(n - 1)
  }

  lemma Pow10Thousand(n: nat)
    requires n >= 3
    ensures Pow10(n) == 1000 * Pow10(n - 3)
  {
    assert Pow10(n) == 10 * Pow10(n - 1);
    assert Pow10(n - 1) == 10 * Pow10(n - 2);
    assert Pow10(n - 2) == 10 * Pow10(n - 3);
  }

  /** ethers.formatUnits(raw, decimals), taken as an exact decimal. */
  function Formatted(raw: nat, decimals: nat): real
  {
    raw as real / Pow10(decimals) as real
  }

  /** String.prototype.toLowerCase on the ASCII letters an address is written in. */
  function LowerChar(c: char): char
  {
    if 'A' <= c <= 'Z' then (c as int + 32) as char else c
  }

  function Lower(s: string): string
  {
    seq(|s|, i requires 0 <= i < |s| => LowerChar(s[i]))
  }

  /** `a.toLowerCase() === b.toLowerCase()`. */
  predicate SameAddress(a: string, b: string)
  {
    Lower(a) == Lower(b)
  }
}
