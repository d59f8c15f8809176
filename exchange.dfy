/**
 * The two exchange clients (`get_binance_data`, `get_bitget_data`): from the
 * replies of one symbol's sub-requests, either discard the symbol (`None`) or
 * build its metric record. Prices are `real`; IEEE rounding is not modelled.
 */
module Exchange {
  import opened Wrappers
  import opened Http
  import Registry

  /** The fields `get_*_data` puts in its `data` dict (the collector adds `timestamp` and `symbol`). */
  datatype Metrics = Metrics(
    markPrice: real,
    indexPrice: real,
    basis: real,
    basisPercent: real,
    lastFundingRate: real,
    oi: real,
    longShortAccountRatio: real,
    topTraderAccountLsRatio: real,
    topTraderPositionLsRatio: real,
    takerBuySellRatio: real)

  /** `markPrice` and `indexPrice` of a price reply. */
  datatype PriceQuote = PriceQuote(markPrice: real, indexPrice: real)

  /** `buyVol` and `sellVol` of one taker long/short entry. */
  datatype TakerVolume = TakerVolume(buyVol: real, sellVol: real)

  /**
   * Binance's USDT-M endpoints, each as the reply it gives for a symbol.
   * List-valued endpoints are given by the fields the code reads from
   * each entry.
   */
  datatype BinanceApi = BinanceApi(
    premiumIndex: string -> Reply<PriceQuote>,
    fundingRate: string -> Reply<seq<real>>,
    openInterest: string -> Reply<real>,
    globalLongShortAccountRatio: string -> Reply<seq<real>>,
    topLongShortAccountRatio: string -> Reply<seq<real>>,
    topLongShortPositionRatio: string -> Reply<seq<real>>,
    takerLongShortRatio: string -> Reply<seq<TakerVolume>>)

  /** A Bitget JSON envelope: its `code` and the part of `data` the code reads. */
  datatype Envelope<+T> = Envelope(code: string, data: T)

  /** Bitget's success code. */
  const BitgetSuccess := "00000"

  /**
   * Bitget's endpoints. `symbolPrice` and `currentFundRate` are asked for the
   * plain symbol, `openInterest` for the v1 contract name (`symbol + '_UMCBL'`).
   * The open-interest request is not checked with `raise_for_status`, so for
   * it `Ok` stands for any reply with a JSON body, whatever its HTTP status.
   */
  datatype BitgetApi = BitgetApi(
    symbolPrice: string -> Reply<Envelope<seq<PriceQuote>>>,
    currentFundRate: string -> Reply<Envelope<seq<real>>>,
    openInterest: string -> Reply<Envelope<real>>)

  /** A list reply whose first entry can be read (`xs[0]` does not raise IndexError). */
  predicate HasFirst<T>(reply: Reply<seq<T>>)
  {
    reply.Ok? && |reply.body| > 0
  }

  /** `buy_vol / sell_vol if sell_vol != 0 else 0`. */
  function TakerRatio(t: TakerVolume): real
  {
    if t.sellVol != 0.0 then t.buyVol / t.sellVol else 0.0
  }

  // ---------------------------------------------------------------------------
  // Binance

  /**
   * The symbol is discarded when any of the seven requests raises (every one
   * is checked with `raise_for_status`, and all sit in one `try`), when the
   * index price is zero (ZeroDivisionError computing `basis_percent`), or when
   * one of the four ratio lists is empty (IndexError on `[0]`).
   */
  predicate BinanceDiscards(api: BinanceApi, symbol: string)
  {
    || api.premiumIndex(symbol).Failed?
    || api.premiumIndex(symbol).body.indexPrice == 0.0
    || api.fundingRate(symbol).Failed?
    || api.openInterest(symbol).Failed?
    || !HasFirst(api.globalLongShortAccountRatio(symbol))
    || !HasFirst(api.topLongShortAccountRatio(symbol))
    || !HasFirst(api.topLongShortPositionRatio(symbol))
    || !HasFirst(api.takerLongShortRatio(symbol))
  }

  /** The record of a symbol Binance answered fully. */
  function BinanceMetrics(api: BinanceApi, symbol: string): Metrics
    requires !BinanceDiscards(api, symbol)
  {
    var quote := api.premiumIndex(symbol).body;
    var funding := api.fundingRate(symbol).body;
    var basis := quote.markPrice - quote.indexPrice;
    Metrics(
      quote.markPrice, quote.indexPrice, basis, basis / quote.indexPrice * 100.0,
      if |funding| > 0 then funding[0] else 0.0,
      api.openInterest(symbol).body,
      api.globalLongShortAccountRatio(symbol).body[0],
      api.topLongShortAccountRatio(symbol).body[0],
      api.topLongShortPositionRatio(symbol).body[0],
      TakerRatio(api.takerLongShortRatio(symbol).body[0]))
  }

  /** What `get_binance_data(symbol)` returns. */
  function BinanceFetch(api: BinanceApi, symbol: string): Option<Metrics>
  {
    if BinanceDiscards(api, symbol) then None else Some(BinanceMetrics(api, symbol))
  }

  /** `get_binance_data`: the requests in the code's order, leaving at the first that raises. */
  method GetBinanceData(symbol: string, api: BinanceApi) returns (data: Option<Metrics>)
    ensures data == BinanceFetch(api, symbol)
    ensures data.None? <==>
      api.premiumIndex(symbol).Failed? || api.premiumIndex(symbol).body.indexPrice == 0.0 ||
      api.fundingRate(symbol).Failed? || api.openInterest(symbol).Failed? ||
      !HasFirst(api.globalLongShortAccountRatio(symbol)) || !HasFirst(api.topLongShortAccountRatio(symbol)) ||
      !HasFirst(api.topLongShortPositionRatio(symbol)) || !HasFirst(api.takerLongShortRatio(symbol))
    ensures data.Some? ==>
      var m := data.value;
      && PriceQuote(m.markPrice, m.indexPrice) == api.premiumIndex(symbol).body
      && m.indexPrice != 0.0
      && m.basis == m.markPrice - m.indexPrice
      && m.basisPercent == m.basis / m.indexPrice * 100.0
      && (|api.fundingRate(symbol).body| == 0 ==> m.lastFundingRate == 0.0)
      && (|api.fundingRate(symbol).body| > 0 ==> m.lastFundingRate == api.fundingRate(symbol).body[0])
      && m.oi == api.openInterest(symbol).body
      && m.longShortAccountRatio == api.globalLongShortAccountRatio(symbol).body[0]
      && m.topTraderAccountLsRatio == api.topLongShortAccountRatio(symbol).body[0]
      && m.topTraderPositionLsRatio == api.topLongShortPositionRatio(symbol).body[0]
      && (api.takerLongShortRatio(symbol).body[0].sellVol == 0.0 ==> m.takerBuySellRatio == 0.0)
      && (api.takerLongShortRatio(symbol).body[0].sellVol != 0.0 ==>
            m.takerBuySellRatio * api.takerLongShortRatio(symbol).body[0].sellVol
              == api.takerLongShortRatio(symbol).body[0].buyVol)
  {
    var premium := api.premiumIndex(symbol);
    if premium.Failed? { return None; }
    var markPrice, indexPrice := premium.body.markPrice, premium.body.indexPrice;
    var basis := markPrice - indexPrice;
    if indexPrice == 0.0 { return None; }  // ZeroDivisionError
    var basisPercent := basis / indexPrice * 100.0;

    var funding := api.fundingRate(symbol);
    if funding.Failed? { return None; }
    var lastFundingRate := if |funding.body| > 0 then funding.body[0] else 0.0;

    var oi := api.openInterest(symbol);
    if oi.Failed? { return None; }

    var lsAccount := api.globalLongShortAccountRatio(symbol);
    if !HasFirst(lsAccount) { return None; }
    var topAccount := api.topLongShortAccountRatio(symbol);
    if !HasFirst(topAccount) { return None; }
    var topPosition := api.topLongShortPositionRatio(symbol);
    if !HasFirst(topPosition) { return None; }

    var taker := api.takerLongShortRatio(symbol);
    if !HasFirst(taker) { return None; }
    var takerBuySellRatio := TakerRatio(taker.body[0]);

    data := Some(Metrics(markPrice, indexPrice, basis, basisPercent, lastFundingRate, oi.body,
                         lsAccount.body[0], topAccount.body[0], topPosition.body[0], takerBuySellRatio));
  }

  // ---------------------------------------------------------------------------
  // Bitget

  /** The price reply carries a usable quote: success code and a non-empty `data` list. */
  predicate BitgetPriceUsable(reply: Reply<Envelope<seq<PriceQuote>>>)
  {
    reply.Ok? && reply.body.code == BitgetSuccess && |reply.body.data| > 0
  }

  /**
   * The symbol is discarded when the price request raises, its code is not
   * `'00000'` or its data is empty, the index price is zero, the funding
   * request raises (it is checked with `raise_for_status`), or the
   * open-interest request raises or returns a body that cannot be read.
   */
  predicate BitgetDiscards(api: BitgetApi, symbol: string)
  {
    || !BitgetPriceUsable(api.symbolPrice(symbol))
    || api.symbolPrice(symbol).body.data[0].indexPrice == 0.0
    || api.currentFundRate(symbol).Failed?
    || api.openInterest(Registry.ContractSymbol(symbol)).Failed?
  }

  /** The record of a symbol Bitget answered; its four positioning ratios are always zero. */
  function BitgetMetrics(api: BitgetApi, symbol: string): Metrics
    requires !BitgetDiscards(api, symbol)
  {
    var quote := api.symbolPrice(symbol).body.data[0];
    var funding := api.currentFundRate(symbol).body;
    var oi := api.openInterest(Registry.ContractSymbol(symbol)).body;
    var basis := quote.markPrice - quote.indexPrice;
    Metrics(
      quote.markPrice, quote.indexPrice, basis, basis / quote.indexPrice * 100.0,
      if funding.code == BitgetSuccess && |funding.data| > 0 then funding.data[0] else 0.0,
      if oi.code == BitgetSuccess then oi.data else 0.0,
      0.0, 0.0, 0.0, 0.0)
  }

  /** What `get_bitget_data(symbol)` returns. */
  function BitgetFetch(api: BitgetApi, symbol: string): Option<Metrics>
  {
    if BitgetDiscards(api, symbol) then None else Some(BitgetMetrics(api, symbol))
  }

  /** `get_bitget_data`: the requests in the code's order, leaving at the first that raises. */
  method GetBitgetData(symbol: string, api: BitgetApi) returns (data: Option<Metrics>)
    ensures data == BitgetFetch(api, symbol)
    ensures data.None? <==>
      !BitgetPriceUsable(api.symbolPrice(symbol)) || api.symbolPrice(symbol).body.data[0].indexPrice == 0.0 ||
      api.currentFundRate(symbol).Failed? || api.openInterest(symbol + "_UMCBL").Failed?
    ensures data.Some? ==>
      var m := data.value;
      var funding := api.currentFundRate(symbol).body;
      var oi := api.openInterest(symbol + "_UMCBL").body;
      && PriceQuote(m.markPrice, m.indexPrice) == api.symbolPrice(symbol).body.data[0]
      && m.indexPrice != 0.0
      && m.basis == m.markPrice - m.indexPrice
      && m.basisPercent == m.basis / m.indexPrice * 100.0
      && (funding.code != BitgetSuccess || |funding.data| == 0 ==> m.lastFundingRate == 0.0)
      && (funding.code == BitgetSuccess && |funding.data| > 0 ==> m.lastFundingRate == funding.data[0])
      && m.oi == (if oi.code == BitgetSuccess then oi.data else 0.0)
      && m.longShortAccountRatio == 0.0 && m.topTraderAccountLsRatio == 0.0
      && m.topTraderPositionLsRatio == 0.0 && m.takerBuySellRatio == 0.0
  {
    var priceData := api.symbolPrice(symbol);
    if priceData.Failed? { return None; }
    var bitgetSymbol := Registry.ContractSymbol(symbol);
    if !(priceData.body.code == BitgetSuccess && |priceData.body.data| > 0) {
      return None;  // "failed to get price data": logged
    }
    var quote := priceData.body.data[0];
    var markPrice, indexPrice := quote.markPrice, quote.indexPrice;
    var basis := markPrice - indexPrice;
    if indexPrice == 0.0 { return None; }  // ZeroDivisionError
    var basisPercent := basis / indexPrice * 100.0;

    var fundingData := api.currentFundRate(symbol);
    if fundingData.Failed? { return None; }
    var lastFundingRate := 0.0;
    if fundingData.body.code == BitgetSuccess && |fundingData.body.data| > 0 {
      lastFundingRate := fundingData.body.data[0];
    }

    var oiData := api.openInterest(bitgetSymbol);
    if oiData.Failed? { return None; }
    var oi := 0.0;
    if oiData.body.code == BitgetSuccess {
      oi := oiData.body.data;
    }

    // Bitget has no positioning endpoints: the four ratios default to 0
    data := Some(Metrics(markPrice, indexPrice, basis, basisPercent, lastFundingRate, oi, 0.0, 0.0, 0.0, 0.0));
  }
}
