# Price-reference store, modelled in Dafny

This project models the core of a CosmWasm price-reference contract. A trusted relayer
pushes batches of rates. The contract keeps the latest record per symbol. It answers
point lookups and cross-rate queries against those records.

- `types.dfy` (module `Types`) holds the value types. `RefData` is the stored record
  (rate scaled by 10^9, resolve time, request id). `State` wraps the stored map. `Relay`
  is the relay command with its four parallel arrays. `RefDataResponse` and
  `ReferenceData` are the query responses. `U64` and `U128` are the source's integer
  widths as ranges. `Error`, `Result` and `Outcome` carry the error cases.
- `store.dfy` (module `Store`) is the write path: `init`, `update_refs` and `query_refs`.
  The persisted singleton becomes the `refs` field of class `ReferenceStore`.
  `UpdateRefs` validates the lengths, loads the map, inserts entry by entry in a loop,
  then saves the map. `Relayed` specifies that loop (an insertion fold in index order).
  `LastWriteWins` is an independent reference definition: every batch symbol holds the
  record of its last occurrence, and every other key keeps its record. The two are
  proved equal.
- `resolver.dfy` (module `Resolver`) is the read path: `get_ref_data` and the
  `GetReferenceData` arm of `query`. `USD` is never read from the store. It is
  synthesised with rate `E9` = 10^9 and the current clock. The cross-rate is
  `base.rate * E18 / quote.rate`, rounded down, where `E18` = 10^18.

Where the source panics, the model returns a typed error:
- a missing key (the `unwrap` at src/contract.rs:81) gives `SymbolNotFound`;
- a quote rate of 0 (the division at src/contract.rs:60) gives `InvalidQuoteRate`;
- a failed lookup inside the cross-rate query (the `unwrap`s at src/contract.rs:57-58)
  makes `GetReferenceData` return that lookup's error. In the source every such failure,
  the `not_found` for a resolve time of 0 included, is a panic of the query.

A stored resolve time of 0 gives `RefDataNotAvailable`, as the source's `not_found` does.
The u128 product is modelled as a checked multiplication that fails with `RateOverflow`.
`GetReferenceData` is proved never to return that error, because every rate a lookup
yields is below 2^64.

The clock is a parameter. `get_ref_data` reads the clock on each call, so
`GetReferenceData` takes two readings: one for the base lookup and one for the quote lookup.

Two facts about the code that the model makes explicit:
- The code stores whatever resolve time the relayer sends, 0 included.
  `LookupAfterRelay` shows that relaying 0 makes the symbol unavailable.
- A missing key panics (src/contract.rs:81), while a resolve time of 0 returns
  `not_found` (src/contract.rs:82-84). The model keeps them apart as `SymbolNotFound`
  and `RefDataNotAvailable`.

## Model

| member | source | states |
|---|---|---|
| `Store.ReferenceStore.Init` | src/contract.rs:11-21 | init leaves the store holding the empty map |
| `Store.ReferenceStore.UpdateRefs` | src/contract.rs:33-48 | fails with DifferentArrayLength exactly when one of the three arrays differs in length from symbols, and then leaves the map unchanged; otherwise the new map is the index-order insertion fold of the batch into the old map and equals the last-write-wins map |
| `Store.ReferenceStore.QueryRefs` | src/contract.rs:68-71 | returns exactly the stored map |
| `Store.Relayed` | src/contract.rs:39-45 | the index-order insertion fold the loop performs; it keeps every old key, so no key is removed, and every batch symbol becomes a key (the exact key set is in `RelayEffect`) |
| `Store.LastWriteWins` | src/contract.rs:39-46 | the independent reference definition of a batch upsert: key set is the old keys plus the batch symbols, and the symbol at an index that no later index repeats holds that index's record |
| `Store.LastIndexOf` | src/contract.rs:39-45 | returns the last index holding the symbol, with no later index holding it, and -1 exactly when the symbol is absent |
| `Store.RelayedAt` | src/contract.rs:39-45 | for one key, after the insertion loop: it is present exactly when it was present before or is in the batch; a batch symbol holds the record of its last index; other keys keep their record |
| `Store.RelayedIsLastWriteWins` | src/contract.rs:39-46 | the insertion loop computes exactly the last-write-wins map |
| `Store.RelayEffect` | src/contract.rs:39-46 | the new key set is the old key set plus the batch symbols, so no key is removed; the symbol at an index that no later index repeats maps to that index's rate, resolve time and request id; keys outside the batch keep their records |
| `Store.RelayReplacesRecord` | src/contract.rs:40-44 | relaying one symbol replaces its whole record with no merge and no check against the old resolve time |
| `Store.InsertBatchExample` | src/contract.rs:134-151 | relaying ETH {1,2,3} and BAND {100,200,300} into the empty store gives exactly those two records |
| `Resolver.GetRefData` | src/contract.rs:73-89 | succeeds exactly for USD and for stored symbols with a non-zero resolve time; USD yields rate 10^9 at the clock reading; a stored symbol yields its rate and resolve time; failure is SymbolNotFound for a missing key and RefDataNotAvailable otherwise; every rate and timestamp is below 2^64 |
| `Resolver.CrossRate` | src/contract.rs:59-63 | fails with RateOverflow exactly when base rate times 10^18 exceeds u128, and otherwise with InvalidQuoteRate exactly when the quote rate is 0; it succeeds exactly when the product fits and the quote rate is non-zero; on success the rate is the floor quotient, with rate * quote <= base * 10^18 < (rate + 1) * quote, and the timestamps are the base's and the quote's |
| `Resolver.FloorDiv` | src/contract.rs:60 | u128 division rounds down: q * d <= n < (q + 1) * d, and q <= n |
| `Resolver.ScaledRateFits` | src/contract.rs:8-9 | any rate below 2^64 times E18 fits in u128 |
| `Resolver.GetReferenceData` | src/contract.rs:56-64 | succeeds exactly when both symbols are available and the quote's rate is non-zero; on success the rate is the floor of base rate * 10^18 / quote rate, with the base lookup's and the quote lookup's timestamps; a zero quote rate fails with InvalidQuoteRate; never fails with RateOverflow; a failed base lookup fails the query with that lookup's error, and so does a failed quote lookup after a successful base lookup |
| `Resolver.UsdPerUsd` | src/contract.rs:74-78 | USD against USD is exactly 10^18, stamped with the two clock readings |
| `Resolver.QuotedInUsd` | src/contract.rs:57-63 | a stored, resolved rate r quoted against USD is exactly r * 10^9, stamped with the record's resolve time and the quote's clock reading |
| `Resolver.SelfCrossRate` | src/contract.rs:57-63 | an available symbol with a non-zero rate quoted against itself is exactly 10^18 |
| `Resolver.LookupAfterRelay` | src/contract.rs:39-45 | after a relay, a non-USD symbol resolves to the rate and resolve time of its last batch index, or is RefDataNotAvailable when that resolve time is 0 |
| `Resolver.LookupUntouchedByRelay` | src/contract.rs:80-88 | a relay does not change the lookup of a symbol outside the batch |
| `Resolver.MaticInUsd` | src/contract.rs:188-191 | MATIC relayed at rate 112 and quoted against USD gives 112 * 10^9, stamped with its resolve time and the clock |

## Left out

- Storage plumbing: the `config`/`config_read` singletons, `CONFIG_KEY` and the `vectorize` serialisation (src/state.rs:8, 23-29). Persistence is the `refs` field. Load and save failures are not modelled.
- The message layer: the serde and JsonSchema derives, `to_binary`/`from_binary` and the `Binary` responses. Only the record shapes are kept. The `handle` and `query` dispatch is a one-line match per message: `UpdateRefs`, `QueryRefs` and `GetReferenceData` model the arms directly.
- The panics of the cross-rate query: where the `unwrap`s at src/contract.rs:57-58 abort the query, `GetReferenceData` returns the failed lookup's error instead. The model does not capture that the source's query can never return a lookup error.
- The wall clock (`SystemTime::now()`, src/contract.rs:77) is a parameter.
- The `query_test_valid` test (src/contract.rs:182-196) is not encoded. Its expected rate is the inverse of what line 60 computes, and its timestamps depend on the real clock. `MaticInUsd` states what line 60 computes for that test's relay.
- `ContractError` (src/error.rs) is never raised by the code. The model defines its own `Error` type instead.
- Authorisation: `Unauthorized` is declared but never checked.
- Overflow of the u128 product: the model does not say whether an overflowing u128 multiplication panics or wraps. That depends on build settings that are not part of this model. The model treats it as a checked failure, and `GetReferenceData` proves it cannot happen.
- A `USD` entry that a relayer stores is kept in the map but is never read, because lookups of `USD` are always synthesised. Nothing in the model prevents relaying it.
