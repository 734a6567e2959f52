/** The read path (src/contract.rs, get_ref_data and the GetReferenceData arm of
    query): point lookups with a synthetic, always-fresh USD record, and the
    cross-rate of two lookups in 18-decimal fixed point. */
module Resolver {
  import opened Types
  import Store

  /** One reference unit at the 9-decimal scale of stored rates. */
  const E9: U64 := 1_000_000_000
  /** The scale of cross-rates. */
  const E18: U128 := 1_000_000_000_000_000_000
  /** The numeraire: never read from the store. */
  const USD: string := "USD"

  /** A lookup succeeds for USD and for a stored symbol whose resolve time is not 0. */
  predicate Available(refs: map<string, RefData>, symbol: string) {
    symbol == USD || (symbol in refs && refs[symbol].resolveTime != 0)
  }

  /** get_ref_data, with the wall-clock reading passed in as now. */
  function GetRefData(refs: map<string, RefData>, symbol: string, now: U64): (r: Result<RefDataResponse>)
    ensures r.Ok? <==> Available(refs, symbol)
    ensures r.Ok? ==> r.value.rate < U64_LIMIT && r.value.lastUpdate < U64_LIMIT
    ensures symbol == USD ==> r == Ok(RefDataResponse(E9, now))
    ensures symbol != USD && r.Ok? ==>
              r.value == RefDataResponse(refs[symbol].rate, refs[symbol].resolveTime) && r.value.lastUpdate > 0
    ensures r.Err? ==> r.error == (if symbol in refs then RefDataNotAvailable(symbol) else SymbolNotFound(symbol))
  {
    if symbol == USD then Ok(RefDataResponse(E9, now))
    else if symbol !in refs then Err(SymbolNotFound(symbol))
    else
      var d := refs[symbol];
      if d.resolveTime == 0 then Err(RefDataNotAvailable(symbol))
      else Ok(RefDataResponse(d.rate, d.resolveTime))
  }

  /** The cross-rate of two lookups: base.rate * 10^18 / quote.rate, rounded down.
      The product is computed first, as a checked u128 multiplication, then divided. */
  function CrossRate(base: RefDataResponse, quote: RefDataResponse): (r: Result<ReferenceData>)
    ensures r == Err(RateOverflow) <==> base.rate * E18 >= U128_LIMIT
    ensures r == Err(InvalidQuoteRate) <==> base.rate * E18 < U128_LIMIT && quote.rate == 0
    ensures r.Ok? <==> base.rate * E18 < U128_LIMIT && quote.rate != 0
    ensures r.Ok? ==> r.value.rate * quote.rate <= base.rate * E18 < (r.value.rate + 1) * quote.rate
    ensures r.Ok? ==> r.value.lastUpdatedBase == base.lastUpdate && r.value.lastUpdatedQuote == quote.lastUpdate
  {
    var product := base.rate * E18;
    if product >= U128_LIMIT then Err(RateOverflow)
    else if quote.rate == 0 then Err(InvalidQuoteRate)
    else Ok(ReferenceData(FloorDiv(product, quote.rate), base.lastUpdate, quote.lastUpdate))
  }

  /** Division of naturals rounded down, as u128 division does it. */
  function FloorDiv(n: nat, d: nat): (q: nat)
    requires d > 0
    ensures q <= n
    ensures q * d <= n < (q + 1) * d
  {
    var q, k := n / d, n % d;
    assert n == q * d + k && 0 <= k < d;
    assert (q + 1) * d == q * d + d;
    assert q * d == q + q * (d - 1) by {
      assert q * d == q * ((d - 1) + 1);
    }
    NonNegativeProduct(q, d - 1);
    q
  }

  /** A product of naturals is a natural: a step the solver does not take unaided. */
  lemma NonNegativeProduct(a: nat, b: nat)
    ensures a * b >= 0
  {
  }

  /** Any rate read from the store or synthesised for USD fits below 2^64, so its
      product with 10^18 fits in u128. */
  lemma ScaledRateFits(rate: int)
    requires 0 <= rate < U64_LIMIT
    ensures rate * E18 < U128_LIMIT
  {
  }

  /** The GetReferenceData arm of query: both lookups, base first, then the cross-rate. */
  function GetReferenceData(refs: map<string, RefData>, base: string, quote: string, clockAtBase: U64, clockAtQuote: U64)
    : (r: Result<ReferenceData>)
    ensures r.Ok? <==> Available(refs, base) && Available(refs, quote) && GetRefData(refs, quote, clockAtQuote).value.rate != 0
    ensures r.Err? ==> r.error != RateOverflow
    ensures !Available(refs, base) ==> r == Err(GetRefData(refs, base, clockAtBase).error)
    ensures Available(refs, base) && !Available(refs, quote) ==> r == Err(GetRefData(refs, quote, clockAtQuote).error)
    ensures Available(refs, base) && Available(refs, quote) && GetRefData(refs, quote, clockAtQuote).value.rate == 0 ==>
              r == Err(InvalidQuoteRate)
    ensures r.Ok? ==>
              var b, q := GetRefData(refs, base, clockAtBase).value, GetRefData(refs, quote, clockAtQuote).value;
              && r.value.rate * q.rate <= b.rate * E18 < (r.value.rate + 1) * q.rate
              && r.value.lastUpdatedBase == b.lastUpdate
              && r.value.lastUpdatedQuote == q.lastUpdate
  {
    match GetRefData(refs, base, clockAtBase)
    case Err(e) => Err(e)
    case Ok(b) =>
      match GetRefData(refs, quote, clockAtQuote)
      case Err(e) => Err(e)
      case Ok(q) =>
        ScaledRateFits(b.rate);
        CrossRate(b, q)
  }

  /** USD against USD is exactly one at the 18-decimal scale. */
  lemma UsdPerUsd(refs: map<string, RefData>, clockAtBase: U64, clockAtQuote: U64)
    ensures GetReferenceData(refs, USD, USD, clockAtBase, clockAtQuote) == Ok(ReferenceData(E18, clockAtBase, clockAtQuote))
  {
  }

  /** A stored rate quoted against USD is that rate times 10^9, with the record's
      resolve time and the clock as the two timestamps. */
  lemma QuotedInUsd(refs: map<string, RefData>, symbol: string, clockAtBase: U64, clockAtQuote: U64)
    requires symbol != USD && symbol in refs && refs[symbol].resolveTime != 0
    ensures GetReferenceData(refs, symbol, USD, clockAtBase, clockAtQuote)
         == Ok(ReferenceData(refs[symbol].rate * E9, refs[symbol].resolveTime, clockAtQuote))
  {
    var d := GetRefData(refs, symbol, clockAtBase).value;
    ScaledRateFits(d.rate);
    assert d.rate * E18 == (d.rate * E9) * E9;
    assert GetReferenceData(refs, symbol, USD, clockAtBase, clockAtQuote) == CrossRate(d, RefDataResponse(E9, clockAtQuote));
  }

  /** A symbol with a non-zero rate quoted against itself is exactly one. */
  lemma SelfCrossRate(refs: map<string, RefData>, symbol: string, clock: U64)
    requires Available(refs, symbol) && GetRefData(refs, symbol, clock).value.rate != 0
    ensures GetReferenceData(refs, symbol, symbol, clock, clock).Ok?
    ensures GetReferenceData(refs, symbol, symbol, clock, clock).value.rate == E18
  {
    var d := GetRefData(refs, symbol, clock).value;
    ScaledRateFits(d.rate);
    var q := FloorDiv(d.rate * E18, d.rate);
    if q < E18 {
      MulMono(q + 1, E18, d.rate);
    } else if q > E18 {
      MulMono(E18 + 1, q, d.rate);
    }
    assert GetReferenceData(refs, symbol, symbol, clock, clock) == CrossRate(d, d);
  }

  /** Multiplying by a natural keeps the order of two naturals. */
  lemma MulMono(a: nat, b: nat, c: nat)
    requires a <= b
    ensures a * c <= b * c
  {
  }

  /** After a successful relay, a batch symbol other than USD resolves to the record of
      its last occurrence, or is unavailable when that record's resolve time is 0. */
  lemma LookupAfterRelay(m: map<string, RefData>, b: Relay, i: nat, now: U64)
    requires b.SameLength() && i < |b.symbols| && b.symbols[i] != USD
    requires forall j :: i < j < |b.symbols| ==> b.symbols[j] != b.symbols[i]
    ensures GetRefData(Store.Relayed(m, b), b.symbols[i], now)
         == if b.resolveTimes[i] == 0 then Err(RefDataNotAvailable(b.symbols[i]))
            else Ok(RefDataResponse(b.rates[i], b.resolveTimes[i]))
  {
    Store.RelayEffect(m, b);
  }

  /** A relay does not change the lookup of any symbol outside the batch. */
  lemma LookupUntouchedByRelay(m: map<string, RefData>, b: Relay, symbol: string, now: U64)
    requires b.SameLength() && symbol !in b.symbols
    ensures GetRefData(Store.Relayed(m, b), symbol, now) == GetRefData(m, symbol, now)
  {
    Store.RelayEffect(m, b);
  }

  /** The worked example: MATIC at rate 112 quoted against USD. */
  lemma MaticInUsd(resolveTime: U64, clock: U64)
    requires resolveTime != 0
    ensures GetReferenceData(Store.Relayed(map[], Relay(["MATIC"], [112], [resolveTime], [124])), "MATIC", USD, clock, clock)
         == Ok(ReferenceData(112_000_000_000, resolveTime, clock))
  {
  }
}
