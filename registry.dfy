/**
 * The symbol registry (table `um_pairs`): reading it grouped by exchange
 * (`get_all_pairs`), reconciling it with the exchanges' listings
 * (`update_trading_pairs`), and the Bitget contract-name suffix.
 */
module Registry {
  import opened Wrappers
  import opened Http
  import opened Seqs

  const BN := "BN"
  const BG := "BG"

  /** One row of `um_pairs`; a NULL column is `None`. */
  datatype RegistryRow = RegistryRow(
    exchange: Option<string>,
    symbol: string,
    lastUpdate: Option<int>,
    blacklist: Option<string>)

  // ---------------------------------------------------------------------------
  // get_all_pairs

  /** The WHERE clause: `(blacklist IS NULL OR blacklist != 'Y') AND exchange IS NOT NULL AND exchange != ''`. */
  predicate Selected(row: RegistryRow)
  {
    (row.blacklist.None? || row.blacklist.value != "Y") && row.exchange.Some? && row.exchange.value != ""
  }

  /** The rows the query returns, in table order. */
  function Query(rows: seq<RegistryRow>): (results: seq<RegistryRow>)
    ensures forall r :: r in results <==> r in rows && Selected(r)
    ensures |results| <= |rows|
  {
    if |rows| == 0 then []
    else Query(rows[..|rows| - 1]) + (if Selected(rows[|rows| - 1]) then [rows[|rows| - 1]] else [])
  }

  /** Symbols of the query results tagged `tag`, in result order. */
  function Tagged(results: seq<RegistryRow>, tag: string): seq<string>
  {
    if |results| == 0 then []
    else
      var last := results[|results| - 1];
      Tagged(results[..|results| - 1], tag) + (if last.exchange == Some(tag) then [last.symbol] else [])
  }

  /** The list `get_all_pairs()[tag]` for the table `rows`. */
  function PairsOf(rows: seq<RegistryRow>, tag: string): seq<string>
  {
    Tagged(Query(rows), tag)
  }

  /** `get_all_pairs`: both keys always present, each holding its exchange's eligible symbols in row order. */
  method GetAllPairs(rows: seq<RegistryRow>) returns (pairs: map<string, seq<string>>)
    ensures pairs.Keys == {BN, BG}
    ensures pairs[BN] == PairsOf(rows, BN) && pairs[BG] == PairsOf(rows, BG)
  {
    var results := Query(rows);
    pairs := map[BN := [], BG := []];
    for i := 0 to |results|
      invariant pairs.Keys == {BN, BG}
      invariant pairs[BN] == Tagged(results[..i], BN) && pairs[BG] == Tagged(results[..i], BG)
    {
      assert results[..i + 1][..i] == results[..i];
      var row := results[i];
      assert row in rows && Selected(row);
      var exchange := row.exchange.value;
      if exchange in pairs {
        pairs := pairs[exchange := pairs[exchange] + [row.symbol]];
      }
      // otherwise an unknown exchange tag: logged and skipped
    }
    assert results[..|results|] == results;
  }

  lemma {:induction false} TaggedMembership(results: seq<RegistryRow>, tag: string, s: string)
    ensures s in Tagged(results, tag) <==> exists r :: r in results && r.exchange == Some(tag) && r.symbol == s
  {
    if |results| > 0 {
      var init, last := results[..|results| - 1], results[|results| - 1];
      TaggedMembership(init, tag, s);
      assert results == init + [last];
      if last.exchange == Some(tag) && last.symbol == s {
        assert last in results;
      }
    }
  }

  /**
   * A symbol is listed under `tag` exactly when some row with that symbol is
   * not blacklisted and carries that exchange tag; rows with any other tag
   * reach neither list.
   */
  lemma PairsOfMembership(rows: seq<RegistryRow>, tag: string, s: string)
    ensures s in PairsOf(rows, tag) <==>
      exists r :: r in rows && Selected(r) && r.exchange == Some(tag) && r.symbol == s
  {
    TaggedMembership(Query(rows), tag, s);
  }

  lemma {:induction false} TaggedCount(results: seq<RegistryRow>)
    ensures |Tagged(results, BN)| + |Tagged(results, BG)| <= |results|
  {
    if |results| > 0 {
      TaggedCount(results[..|results| - 1]);
    }
  }

  /** The symbol of a registry row; `Project(rows, RowSymbol)` lists them in order. */
  function RowSymbol(row: RegistryRow): string { row.symbol }

  lemma {:induction false} QueryDistinct(rows: seq<RegistryRow>)
    requires Distinct(Project(rows, RowSymbol))
    ensures Distinct(Project(Query(rows), RowSymbol))
  {
    if |rows| > 0 {
      var init, last := rows[..|rows| - 1], rows[|rows| - 1];
      assert Project(init, RowSymbol) == Project(rows, RowSymbol)[..|rows| - 1];
      QueryDistinct(init);
      if Selected(last) {
        var q := Query(init);
        assert Project(Query(rows), RowSymbol) == Project(q, RowSymbol) + [last.symbol];
        forall x | x in Project(q, RowSymbol) ensures x != last.symbol {
          var k :| 0 <= k < |q| && Project(q, RowSymbol)[k] == x;
          assert q[k] in init;
          var l :| 0 <= l < |init| && init[l] == q[k];
          assert Project(rows, RowSymbol)[l] == x && Project(rows, RowSymbol)[|rows| - 1] == last.symbol;
        }
        DistinctAppend(Project(q, RowSymbol), [last.symbol]);
      } else {
        assert Query(rows) == Query(init);
      }
    }
  }

  lemma {:induction false} TaggedDistinct(results: seq<RegistryRow>)
    requires Distinct(Project(results, RowSymbol))
    ensures Distinct(Tagged(results, BN) + Tagged(results, BG))
    ensures forall x :: x in Tagged(results, BN) + Tagged(results, BG) ==> x in Project(results, RowSymbol)
  {
    if |results| > 0 {
      var init, last := results[..|results| - 1], results[|results| - 1];
      assert Project(init, RowSymbol) == Project(results, RowSymbol)[..|results| - 1];
      assert Project(results, RowSymbol) == Project(init, RowSymbol) + [last.symbol];
      TaggedDistinct(init);
      DistinctAppend(Project(init, RowSymbol), [last.symbol]);
      var bn, bg := Tagged(init, BN), Tagged(init, BG);
      DistinctAppend(bn, bg);
      var bnNew := bn + (if last.exchange == Some(BN) then [last.symbol] else []);
      var bgNew := bg + (if last.exchange == Some(BG) then [last.symbol] else []);
      DistinctAppend(bn, if last.exchange == Some(BN) then [last.symbol] else []);
      DistinctAppend(bg, if last.exchange == Some(BG) then [last.symbol] else []);
      DistinctAppend(bnNew, bgNew);
    }
  }

  /**
   * When the table's symbols are distinct (its primary key), the two lists of
   * `get_all_pairs` together hold each symbol at most once.
   */
  lemma PairsOfDistinct(rows: seq<RegistryRow>)
    requires Distinct(Project(rows, RowSymbol))
    ensures Distinct(PairsOf(rows, BN) + PairsOf(rows, BG))
  {
    QueryDistinct(rows);
    TaggedDistinct(Query(rows));
  }

  /** The two lists together are no longer than the table. */
  lemma PairsOfCount(rows: seq<RegistryRow>)
    ensures |PairsOf(rows, BN)| + |PairsOf(rows, BG)| <= |rows|
  {
    TaggedCount(Query(rows));
  }

  // ---------------------------------------------------------------------------
  // Bitget contract names

  /** `pair[:-6]`: drop the last six characters; a name shorter than that becomes empty. */
  function StripSuffix(pair: string): (s: string)
    ensures |s| == Max(0, |pair| - 6)
    ensures s == pair[..|s|]
  {
    if |pair| >= 6 then pair[..|pair| - 6] else []
  }

  /** `symbol + '_UMCBL'`: the name the Bitget v1 open-interest endpoint expects. */
  function ContractSymbol(symbol: string): (c: string)
    ensures |c| == |symbol| + 6
  {
    symbol + "_UMCBL"
  }

  /** Stripping six characters undoes the suffix. */
  lemma StripContractSymbol(symbol: string)
    ensures StripSuffix(ContractSymbol(symbol)) == symbol
  {
    assert ContractSymbol(symbol)[..|symbol|] == symbol;
  }

  /** Re-adding the suffix gives back the contract name exactly when it ended in `_UMCBL`. */
  lemma ContractSymbolOfStripped(contract: string)
    ensures ContractSymbol(StripSuffix(contract)) == contract <==>
      (|contract| >= 6 && contract[|contract| - 6..] == "_UMCBL")
  {
    var s := StripSuffix(contract);
    if |contract| >= 6 {
      assert contract == s + contract[|contract| - 6..];
      if ContractSymbol(s) == contract {
        assert contract[|contract| - 6..] == ContractSymbol(s)[|s|..];
      }
    } else {
      assert |ContractSymbol(s)| == 6;
    }
  }

  /** `[pair[:-6] for pair in umcbl_pairs]`. */
  function BitgetPairs(contracts: seq<string>): (pairs: seq<string>)
    ensures |pairs| == |contracts|
    ensures forall i :: 0 <= i < |pairs| ==> pairs[i] == StripSuffix(contracts[i])
  {
    seq(|contracts|, i requires 0 <= i < |contracts| => StripSuffix(contracts[i]))
  }

  /** `get_bitget_pairs`: the stripped contract names, or `[]` when the request or the body fails. */
  function GetBitgetPairs(contracts: Reply<seq<string>>): (pairs: seq<string>)
    ensures contracts.Failed? ==> pairs == []
    ensures contracts.Ok? ==> |pairs| == |contracts.body|
  {
    match contracts
    case Ok(names) => BitgetPairs(names)
    case Failed(_) => []
  }

  /** When every contract name carries the suffix, adding it back to the pairs gives the names again. */
  lemma BitgetPairsRoundTrip(contracts: seq<string>)
    requires forall i :: 0 <= i < |contracts| ==>
      |contracts[i]| >= 6 && contracts[i][|contracts[i]| - 6..] == "_UMCBL"
    ensures forall i :: 0 <= i < |contracts| ==> ContractSymbol(BitgetPairs(contracts)[i]) == contracts[i]
  {
    forall i | 0 <= i < |contracts|
      ensures ContractSymbol(BitgetPairs(contracts)[i]) == contracts[i]
    {
      ContractSymbolOfStripped(contracts[i]);
    }
  }

  // ---------------------------------------------------------------------------
  // update_trading_pairs

  /** One entry of Binance's `exchangeInfo` `symbols` list. */
  datatype SymbolInfo = SymbolInfo(symbol: string, status: string, contractType: string)

  /** One `INSERT INTO um_pairs (symbol, exchange, last_update)`; `blacklist` stays NULL. */
  datatype PairInsert = PairInsert(symbol: string, exchange: string, lastUpdate: int)

  predicate Active(info: SymbolInfo)
  {
    info.status == "TRADING" && info.contractType == "PERPETUAL"
  }

  /** `binance_active_pairs`: the trading perpetual contracts, in listing order. */
  function ActiveBinance(infos: seq<SymbolInfo>): (symbols: seq<string>)
    ensures forall s :: s in symbols <==> exists info :: info in infos && Active(info) && info.symbol == s
  {
    if |infos| == 0 then []
    else
      var init, last := infos[..|infos| - 1], infos[|infos| - 1];
      assert infos == init + [last];
      ActiveBinance(init) + (if Active(last) then [last.symbol] else [])
  }

  /** `SELECT DISTINCT symbol FROM um_pairs`: every symbol in the table, blacklisted or not. */
  function Existing(table: seq<RegistryRow>): set<string>
  {
    set r | r in table :: r.symbol
  }

  /**
   * The symbols of `xs` the loop inserts when it starts from the set `known`:
   * each symbol not in `known` and not seen earlier in `xs`, in order.
   */
  function NewSymbols(xs: seq<string>, known: set<string>): seq<string>
  {
    if |xs| == 0 then []
    else
      var init, x := xs[..|xs| - 1], xs[|xs| - 1];
      if x in known || x in init then NewSymbols(init, known) else NewSymbols(init, known) + [x]
  }

  lemma {:induction false} NewSymbolsSpec(xs: seq<string>, known: set<string>)
    ensures forall s :: s in NewSymbols(xs, known) <==> s in xs && s !in known
    ensures Distinct(NewSymbols(xs, known))
  {
    if |xs| > 0 {
      var init, x := xs[..|xs| - 1], xs[|xs| - 1];
      NewSymbolsSpec(init, known);
      assert xs == init + [x];
    }
  }

  /** The rows inserted for `symbols` under exchange tag `tag` at time `now`. */
  function InsertRows(symbols: seq<string>, tag: string, now: int): (rows: seq<PairInsert>)
    ensures |rows| == |symbols|
    ensures forall i :: 0 <= i < |rows| ==> rows[i] == PairInsert(symbols[i], tag, now)
  {
    seq(|symbols|, i requires 0 <= i < |symbols| => PairInsert(symbols[i], tag, now))
  }

  /** Everything the two loops insert: Binance first, then Bitget against the grown set. */
  function InsertPlan(binance: seq<string>, bitget: seq<string>, existing: set<string>, now: int): seq<PairInsert>
  {
    InsertRows(NewSymbols(binance, existing), BN, now)
      + InsertRows(NewSymbols(bitget, existing + Elems(binance)), BG, now)
  }

  /** One insertion loop: insert each symbol not yet in `seen`, and add it to `seen`. */
  method InsertNew(symbols: seq<string>, tag: string, existing: set<string>, now: int)
    returns (inserts: seq<PairInsert>, seen: set<string>)
    ensures inserts == InsertRows(NewSymbols(symbols, existing), tag, now)
    ensures seen == existing + Elems(symbols)
  {
    inserts, seen := [], existing;
    for i := 0 to |symbols|
      invariant seen == existing + Elems(symbols[..i])
      invariant inserts == InsertRows(NewSymbols(symbols[..i], existing), tag, now)
    {
      var symbol := symbols[i];
      assert symbols[..i + 1][..i] == symbols[..i];
      assert symbols[..i + 1] == symbols[..i] + [symbol];
      if symbol !in seen {
        inserts := inserts + [PairInsert(symbol, tag, now)];
        seen := seen + {symbol};
      }
    }
    assert symbols[..|symbols|] == symbols;
  }

  /**
   * `update_trading_pairs`: fails (returns False, inserts nothing) when either
   * listing request fails; otherwise inserts the plan. `table` is `um_pairs`
   * before the call, `now` the `datetime.now()` of line 44.
   */
  method UpdateTradingPairs(exchangeInfo: Reply<seq<SymbolInfo>>, contracts: Reply<seq<string>>,
                            table: seq<RegistryRow>, now: int)
    returns (ok: bool, inserts: seq<PairInsert>)
    ensures ok <==> exchangeInfo.Ok? && contracts.Ok?
    ensures !ok ==> inserts == []
    ensures ok ==> inserts == InsertPlan(ActiveBinance(exchangeInfo.body), BitgetPairs(contracts.body),
                                         Existing(table), now)
  {
    if exchangeInfo.Failed? || contracts.Failed? {
      return false, [];
    }
    var bitgetPairs := BitgetPairs(contracts.body);
    var existingSymbols := Existing(table);
    var binanceActivePairs := ActiveBinance(exchangeInfo.body);
    var binanceInserts, bitgetInserts;
    binanceInserts, existingSymbols := InsertNew(binanceActivePairs, BN, existingSymbols, now);
    bitgetInserts, existingSymbols := InsertNew(bitgetPairs, BG, existingSymbols, now);
    ok, inserts := true, binanceInserts + bitgetInserts;
  }

  /**
   * What the plan inserts: only Binance trading perpetuals and Bitget pairs,
   * never a symbol already in the table, never a symbol twice (so the
   * `um_pairs` primary key is never violated), and every new candidate once.
   */
  lemma InsertPlanSpec(binance: seq<string>, bitget: seq<string>, existing: set<string>, now: int)
    ensures forall p :: p in InsertPlan(binance, bitget, existing, now) ==>
      p.symbol !in existing && p.lastUpdate == now &&
      ((p.exchange == BN && p.symbol in binance) || (p.exchange == BG && p.symbol in bitget))
    ensures forall s :: s in binance + bitget && s !in existing ==>
      exists p :: p in InsertPlan(binance, bitget, existing, now) && p.symbol == s
    ensures Distinct(Project(InsertPlan(binance, bitget, existing, now), InsertSymbol))
  {
    InsertPlanSound(binance, bitget, existing, now);
    InsertPlanComplete(binance, bitget, existing, now);
    InsertPlanDistinct(binance, bitget, existing, now);
  }

  lemma InsertPlanSound(binance: seq<string>, bitget: seq<string>, existing: set<string>, now: int)
    ensures forall p :: p in InsertPlan(binance, bitget, existing, now) ==>
      p.symbol !in existing && p.lastUpdate == now &&
      ((p.exchange == BN && p.symbol in binance) || (p.exchange == BG && p.symbol in bitget))
  {
    var bnNew := NewSymbols(binance, existing);
    var bgNew := NewSymbols(bitget, existing + Elems(binance));
    NewSymbolsSpec(binance, existing);
    NewSymbolsSpec(bitget, existing + Elems(binance));
    var bnRows, bgRows := InsertRows(bnNew, BN, now), InsertRows(bgNew, BG, now);
    var plan := InsertPlan(binance, bitget, existing, now);
    assert plan == bnRows + bgRows;
    forall p | p in plan
      ensures p.symbol !in existing && p.lastUpdate == now
      ensures (p.exchange == BN && p.symbol in binance) || (p.exchange == BG && p.symbol in bitget)
    {
      if p in bnRows {
        var i :| 0 <= i < |bnRows| && bnRows[i] == p;
        assert bnNew[i] in bnNew;
      } else {
        var i :| 0 <= i < |bgRows| && bgRows[i] == p;
        assert bgNew[i] in bgNew;
      }
    }
  }

  lemma InsertPlanComplete(binance: seq<string>, bitget: seq<string>, existing: set<string>, now: int)
    ensures forall s :: s in binance + bitget && s !in existing ==>
      exists p :: p in InsertPlan(binance, bitget, existing, now) && p.symbol == s
  {
    var bnNew := NewSymbols(binance, existing);
    var bgNew := NewSymbols(bitget, existing + Elems(binance));
    NewSymbolsSpec(binance, existing);
    NewSymbolsSpec(bitget, existing + Elems(binance));
    var bnRows, bgRows := InsertRows(bnNew, BN, now), InsertRows(bgNew, BG, now);
    var plan := InsertPlan(binance, bitget, existing, now);
    assert plan == bnRows + bgRows;
    forall s | s in binance + bitget && s !in existing
      ensures exists p :: p in plan && p.symbol == s
    {
      if s in binance {
        var i :| 0 <= i < |bnNew| && bnNew[i] == s;
        assert plan[i] == bnRows[i];
      } else {
        var i :| 0 <= i < |bgNew| && bgNew[i] == s;
        assert plan[|bnNew| + i] == bgRows[i];
      }
    }
  }

  lemma InsertPlanDistinct(binance: seq<string>, bitget: seq<string>, existing: set<string>, now: int)
    ensures Distinct(Project(InsertPlan(binance, bitget, existing, now), InsertSymbol))
  {
    var bnNew := NewSymbols(binance, existing);
    var bgNew := NewSymbols(bitget, existing + Elems(binance));
    NewSymbolsSpec(binance, existing);
    NewSymbolsSpec(bitget, existing + Elems(binance));
    var bnRows, bgRows := InsertRows(bnNew, BN, now), InsertRows(bgNew, BG, now);
    var plan := InsertPlan(binance, bitget, existing, now);
    assert plan == bnRows + bgRows;
    var syms := Project(plan, InsertSymbol);
    assert syms == bnNew + bgNew by {
      forall k | 0 <= k < |syms| ensures syms[k] == (bnNew + bgNew)[k] {
        if k < |bnNew| {
          assert plan[k] == bnRows[k];
        } else {
          assert plan[k] == bgRows[k - |bnNew|];
        }
      }
    }
    assert forall x :: x in bnNew ==> x !in bgNew;
    DistinctAppend(bnNew, bgNew);
  }

  /** Binance goes first: a new symbol listed on both exchanges is tagged `BN`, never `BG`. */
  lemma InsertPlanPrefersBinance(binance: seq<string>, bitget: seq<string>, existing: set<string>, now: int, s: string)
    requires s in binance && s !in existing
    ensures PairInsert(s, BN, now) in InsertPlan(binance, bitget, existing, now)
    ensures forall p :: p in InsertPlan(binance, bitget, existing, now) && p.symbol == s ==> p.exchange == BN
  {
    NewSymbolsSpec(binance, existing);
    NewSymbolsSpec(bitget, existing + Elems(binance));
    var bnNew := NewSymbols(binance, existing);
    var i :| 0 <= i < |bnNew| && bnNew[i] == s;
    var plan := InsertPlan(binance, bitget, existing, now);
    assert plan[i] == PairInsert(s, BN, now);
    var bgRows := InsertRows(NewSymbols(bitget, existing + Elems(binance)), BG, now);
    assert s in Elems(binance);
    assert forall q :: q in bgRows ==> q.symbol != s;
  }

  /** The symbol of a planned insert. */
  function InsertSymbol(p: PairInsert): string { p.symbol }
}
