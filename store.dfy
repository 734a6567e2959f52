/** The write path of the store (src/contract.rs, init, update_refs and query_refs):
    a single persisted map from symbol to its latest record, changed only by
    batch upserts. */
module Store {
  import opened Types

  /** The map after inserting the batch's entries one by one, in index order,
      exactly as the loop of update_refs does. */
  function Relayed(m: map<string, RefData>, b: Relay): (r: map<string, RefData>)
    requires b.SameLength()
    ensures m.Keys <= r.Keys
    ensures forall i :: 0 <= i < |b.symbols| ==> b.symbols[i] in r
    decreases |b.symbols|
  {
    if |b.symbols| == 0 then m
    else
      var n := |b.symbols| - 1;
      Relayed(m, b.Take(n))[b.symbols[n] := b.Record(n)]
  }

  /** The last index of xs that holds s, or -1 when there is none. */
  function LastIndexOf(xs: seq<string>, s: string): (i: int)
    ensures -1 <= i < |xs|
    ensures s in xs <==> 0 <= i
    ensures 0 <= i ==> xs[i] == s && forall j :: i < j < |xs| ==> xs[j] != s
  {
    if |xs| == 0 then -1
    else if xs[|xs| - 1] == s then |xs| - 1
    else LastIndexOf(xs[..|xs| - 1], s)
  }

  function Symbols(b: Relay): set<string> {
    set s | s in b.symbols
  }

  /** Reference definition of a batch upsert: every batch symbol holds the record of
      its last occurrence, every other key keeps its record. */
  function LastWriteWins(m: map<string, RefData>, b: Relay): (r: map<string, RefData>)
    requires b.SameLength()
    ensures r.Keys == m.Keys + Symbols(b)
    ensures forall i :: 0 <= i < |b.symbols| && (forall j :: i < j < |b.symbols| ==> b.symbols[j] != b.symbols[i]) ==>
              r[b.symbols[i]] == b.Record(i)
  {
    map s | s in m.Keys + Symbols(b) ::
      if s in b.symbols then b.Record(LastIndexOf(b.symbols, s)) else m[s]
  }

  /** One key of the map the loop of update_refs computes. */
  lemma {:induction false} RelayedAt(m: map<string, RefData>, b: Relay, s: string)
    requires b.SameLength()
    ensures s in Relayed(m, b) <==> s in m || s in b.symbols
    ensures s in b.symbols ==> Relayed(m, b)[s] == b.Record(LastIndexOf(b.symbols, s))
    ensures s in m && s !in b.symbols ==> Relayed(m, b)[s] == m[s]
    decreases |b.symbols|
  {
    if |b.symbols| > 0 {
      var n := |b.symbols| - 1;
      var p := b.Take(n);
      var last := b.symbols[n];
      RelayedAt(m, p, s);
      assert Relayed(m, b) == Relayed(m, p)[last := b.Record(n)];
      assert b.symbols == p.symbols + [last];
      if s == last {
        assert LastIndexOf(b.symbols, s) == n;
      } else {
        assert s in b.symbols <==> s in p.symbols;
        assert LastIndexOf(b.symbols, s) == LastIndexOf(p.symbols, s);
        if s in p.symbols {
          var i := LastIndexOf(p.symbols, s);
          assert p.Record(i) == b.Record(i);
        }
      }
    }
  }

  /** The loop of update_refs computes the last-write-wins map. */
  lemma RelayedIsLastWriteWins(m: map<string, RefData>, b: Relay)
    requires b.SameLength()
    ensures Relayed(m, b) == LastWriteWins(m, b)
  {
    var r := Relayed(m, b);
    var w := LastWriteWins(m, b);
    forall s
      ensures s in r <==> s in w
      ensures s in r ==> r[s] == w[s]
    {
      RelayedAt(m, b, s);
    }
  }

  /** What a successful batch does to the map: the key set grows by the batch's
      symbols and nothing is removed; each batch symbol holds the record built from
      the last index carrying it; every other key keeps its old record. */
  lemma RelayEffect(m: map<string, RefData>, b: Relay)
    requires b.SameLength()
    ensures Relayed(m, b).Keys == m.Keys + Symbols(b)
    ensures forall i :: 0 <= i < |b.symbols| && (forall j :: i < j < |b.symbols| ==> b.symbols[j] != b.symbols[i]) ==>
              Relayed(m, b)[b.symbols[i]] == RefData(b.rates[i], b.resolveTimes[i], b.requestIds[i])
    ensures forall s :: s in m && s !in b.symbols ==> Relayed(m, b)[s] == m[s]
  {
    var r := Relayed(m, b);
    forall s | s in r.Keys || s in m.Keys + Symbols(b)
      ensures s in r.Keys <==> s in m.Keys + Symbols(b)
    {
      RelayedAt(m, b, s);
    }
    forall i | 0 <= i < |b.symbols| && (forall j :: i < j < |b.symbols| ==> b.symbols[j] != b.symbols[i])
      ensures r[b.symbols[i]] == b.Record(i)
    {
      RelayedAt(m, b, b.symbols[i]);
      var k := LastIndexOf(b.symbols, b.symbols[i]);
      assert !(i < k);
      assert !(k < i);
    }
    forall s | s in m && s !in b.symbols
      ensures r[s] == m[s]
    {
      RelayedAt(m, b, s);
    }
  }

  /** Relaying one symbol replaces its whole record, whatever was stored before;
      in particular an older resolve time overwrites a newer one. */
  lemma RelayReplacesRecord(m: map<string, RefData>, s: string, rate: U64, resolveTime: U64, requestId: U64)
    ensures Relayed(m, Relay([s], [rate], [resolveTime], [requestId])) == m[s := RefData(rate, resolveTime, requestId)]
  {
  }

  /** The batch of the insert_batch test, relayed into an empty store. */
  lemma InsertBatchExample()
    ensures Relayed(map[], Relay(["ETH", "BAND"], [1, 100], [2, 200], [3, 300]))
         == map["ETH" := RefData(1, 2, 3), "BAND" := RefData(100, 200, 300)]
  {
  }

  /** The single persisted slot holding the state. */
  class ReferenceStore {
    var refs: map<string, RefData>

    /** init: the store starts empty. */
    constructor Init()
      ensures refs == map[]
    {
      refs := map[];
    }

    /** update_refs: rejects a batch whose arrays differ in length without touching
        the store; otherwise upserts every entry in index order and saves the map. */
    method UpdateRefs(symbols: seq<string>, newRates: seq<U64>, newResolveTimes: seq<U64>, newRequestIds: seq<U64>)
      returns (result: Outcome)
      modifies this
      ensures result.Fail? <==> !Relay(symbols, newRates, newResolveTimes, newRequestIds).SameLength()
      ensures result.Fail? ==> result.error == DifferentArrayLength && refs == old(refs)
      ensures result.Pass? ==> refs == Relayed(old(refs), Relay(symbols, newRates, newResolveTimes, newRequestIds))
      ensures result.Pass? ==> refs == LastWriteWins(old(refs), Relay(symbols, newRates, newResolveTimes, newRequestIds))
    {
      var len := |symbols|;
      if |newRates| != len || |newRequestIds| != len || |newResolveTimes| != len {
        return Fail(DifferentArrayLength);
      }
      ghost var b := Relay(symbols, newRates, newResolveTimes, newRequestIds);
      var state := refs;
      for idx := 0 to len
        invariant state == Relayed(old(refs), b.Take(idx))
      {
        assert b.Take(idx + 1).Take(idx) == b.Take(idx);
        state := state[symbols[idx] := RefData(newRates[idx], newResolveTimes[idx], newRequestIds[idx])];
      }
      assert b.Take(len) == b;
      refs := state;
      RelayedIsLastWriteWins(old(refs), b);
      result := Pass;
    }

    /** query_refs: the full stored map, unchanged. */
    method QueryRefs() returns (state: State)
      ensures state.refs == refs
    {
      state := State(refs);
    }
  }
}
