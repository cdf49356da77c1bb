/** The coin objects the market-data endpoint returns and the six-field
    records the fetcher turns them into. */
module Records {
  import opened Cells

  /** One element of the decoded JSON array, reduced to the keys the fetcher reads. */
  datatype Coin = Coin(
    name: string,
    symbol: string,
    currentPrice: Value,
    marketCap: Value,
    totalVolume: Value,
    priceChangePercentage24h: Value)

  /** What the HTTP request yields: a `requests.RequestException` (connection
      error, error status from `raise_for_status`, undecodable body) or the
      decoded array of coins. */
  datatype Response = RequestFailed | Coins(coins: seq<Coin>)

  /** One row of the record table, with the columns in the order the source
      builds them. */
  datatype Record = Record(
    name: string,
    symbol: string,
    price: Value,
    marketCap: Value,
    volume: Value,
    change: Value)

  predicate IsLower(c: char) {
    'a' <= c <= 'z'
  }

  const Capitals: string := "ABCDEFGHIJKLMNOPQRSTUVWXYZ"

  /** Upper-casing of one character, restricted to ASCII letters: the n-th
      small letter becomes the n-th capital, anything else is kept. */
  function UpperChar(c: char): (u: char)
    ensures IsLower(c) ==> u == Capitals[c as int - 'a' as int]
    ensures !IsLower(c) ==> u == c
    ensures !IsLower(u)
  {
    if IsLower(c) then (c as int - 32) as char else c
  }

  function Upper(s: string): (u: string)
    ensures |u| == |s|
    ensures forall i :: 0 <= i < |s| ==> u[i] == UpperChar(s[i])
  {
    if s == [] then [] else [UpperChar(s[0])] + Upper(s[1..])
  }

  /** An upper-cased symbol holds no lower-case letter. */
  lemma UpperHasNoLower(s: string)
    ensures forall i :: 0 <= i < |Upper(s)| ==> !IsLower(Upper(s)[i])
  {
  }

  /** Upper-casing twice is upper-casing once. */
  lemma UpperIdempotent(s: string)
    ensures Upper(Upper(s)) == Upper(s)
  {
    UpperHasNoLower(s);
  }

  /** `rec` is the record built from `coin`: every field copied, the symbol upper-cased. */
  ghost predicate Normalises(coin: Coin, rec: Record) {
    && rec.name == coin.name
    && rec.symbol == Upper(coin.symbol)
    && rec.price == coin.currentPrice
    && rec.marketCap == coin.marketCap
    && rec.volume == coin.totalVolume
    && rec.change == coin.priceChangePercentage24h
  }
}
