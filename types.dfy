/** Value types of the price-reference store: the persisted record (src/state.rs),
    the relay message and the query responses (src/msg.rs), and the error kinds the
    model uses where the source returns an error or panics. */
module Types {

  /** Rust's u64 and u128, as ranges of unbounded integers. */
  type U64 = x: int | 0 <= x < 0x1_0000_0000_0000_0000
  type U128 = x: int | 0 <= x < 0x1_0000_0000_0000_0000_0000_0000_0000_0000

  const U64_LIMIT: int := 0x1_0000_0000_0000_0000
  const U128_LIMIT: int := 0x1_0000_0000_0000_0000_0000_0000_0000_0000

  /** One stored price record: a rate scaled by 10^9, the time the relayer
      attested it, and the relayer's request id. */
  datatype RefData = RefData(rate: U64, resolveTime: U64, requestId: U64)

  /** The persisted state, also the answer to the full-dump query. */
  datatype State = State(refs: map<string, RefData>)

  /** The relay command: four parallel arrays, one entry per index. */
  datatype Relay = Relay(symbols: seq<string>, rates: seq<U64>, resolveTimes: seq<U64>, requestIds: seq<U64>)
  {
    /** The only validation the store performs on a batch. */
    predicate SameLength() {
      |rates| == |symbols| && |requestIds| == |symbols| && |resolveTimes| == |symbols|
    }

    /** The record the store builds from index i. */
    function Record(i: nat): RefData
      requires SameLength() && i < |symbols|
    {
      RefData(rates[i], resolveTimes[i], requestIds[i])
    }

    /** The batch made of the first k entries. */
    function Take(k: nat): (p: Relay)
      requires SameLength() && k <= |symbols|
      ensures p.SameLength() && |p.symbols| == k
    {
      Relay(symbols[..k], rates[..k], resolveTimes[..k], requestIds[..k])
    }
  }

  /** The answer of one point lookup: a rate scaled by 10^9 and its timestamp. */
  datatype RefDataResponse = RefDataResponse(rate: U128, lastUpdate: U128)

  /** The answer of a cross-rate query: a rate scaled by 10^18 and the two timestamps. */
  datatype ReferenceData = ReferenceData(rate: U128, lastUpdatedBase: U128, lastUpdatedQuote: U128)

  datatype Error =
    | DifferentArrayLength
      /** The symbol is not a key of the store (a panic in the source). */
    | SymbolNotFound(symbol: string)
      /** The symbol is stored with a resolve time of 0. */
    | RefDataNotAvailable(symbol: string)
      /** The quote's rate is 0 (a division by zero in the source). */
    | InvalidQuoteRate
      /** The scaled base rate does not fit in u128. */
    | RateOverflow

  datatype Result<T> = Ok(value: T) | Err(error: Error)

  datatype Outcome = Pass | Fail(error: Error)
}
