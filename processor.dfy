/**
 * `DataProcessor.process_data`: a batch of scraped listings becomes a table of
 * priced, converted and labelled rows.
 *
 * `Process` is the meaning of the pipeline, stage by stage as the source
 * builds its DataFrame (clean every price, drop missing prices, convert to
 * USD, keep the USD range, compute the batch statistics, label every row);
 * `ProcessData` performs the same stages with loops and is proved to compute
 * `Process`.  The lemmas state what the output is in terms of the input.
 */
module DataProcessing {
  import opened Options
  import opened Seqs
  import opened Settings
  import opened PriceCleaning
  import opened Statistics

  // ---------------------------------------------------------------------
  // The processor and its rate table

  /** Units of a currency per US dollar; a rate of zero is excluded. */
  type ExchangeRates = m: map<Currency, real> | forall c :: c in m ==> m[c] != 0.0 witness map[]

  /** The rate table the repository ships with. */
  const DefaultRates: ExchangeRates := map[CUP := 350.0, USD := 1.0, MLC := 1.0]

  datatype DataProcessor = DataProcessor(exchangeRate: ExchangeRates)

  /** The constructor: a missing or empty table falls back to the default rates. */
  function NewDataProcessor(exchangeRate: Option<ExchangeRates>): (p: DataProcessor)
    ensures exchangeRate.Some? && exchangeRate.value != map[] ==> p.exchangeRate == exchangeRate.value
    ensures exchangeRate.None? || exchangeRate.value == map[] ==> p.exchangeRate == DefaultRates
    ensures p.exchangeRate != map[]
  {
    if exchangeRate.Some? && exchangeRate.value != map[] then DataProcessor(exchangeRate.value)
    else
      assert USD in DefaultRates;
      DataProcessor(DefaultRates)
  }

  /** An amount in USD: divided by its currency's rate when the table has one, unchanged otherwise. */
  function ToUsd(rates: ExchangeRates, amount: real, c: Option<Currency>): (usd: real)
    ensures c.Some? && c.value in rates ==> usd * rates[c.value] == amount
    ensures !(c.Some? && c.value in rates) ==> usd == amount
  {
    if c.Some? && c.value in rates then amount / rates[c.value] else amount
  }

  // ---------------------------------------------------------------------
  // Records at each stage of the table

  /** One scraped listing: its title, raw price text and address. */
  datatype Listing = Listing(titulo: string, precioRaw: string, url: string)

  /** After cleaning: the `precio_limpio` and `currency` columns added. */
  datatype CleanRow = CleanRow(listing: Listing, precioLimpio: Option<real>, currency: Option<Currency>)

  /** After dropping missing prices and converting: the `price_usd` column added. */
  datatype UsdRow = UsdRow(listing: Listing, precioLimpio: real, currency: Option<Currency>, priceUsd: real)

  /** The three labels: "GANGA" (a deal), "POSIBLE ESTAFA" (possible scam), "MERCADO" (market price). */
  datatype Label = Ganga | PosibleEstafa | Mercado

  /** An output row, with the columns in the order the source returns them. */
  datatype Row = Row(titulo: string, precioRaw: string, precioLimpio: real, currency: Option<Currency>,
                     priceUsd: real, rowLabel: Label, url: string)

  function ListingOf(r: Row): Listing {
    Listing(r.titulo, r.precioRaw, r.url)
  }

  function ListingsOf(rows: seq<Row>): (ls: seq<Listing>)
    ensures |ls| == |rows|
    ensures forall i :: 0 <= i < |rows| ==> ls[i] == ListingOf(rows[i])
  {
    if rows == [] then [] else ListingsOf(rows[..|rows| - 1]) + [ListingOf(rows[|rows| - 1])]
  }

  // ---------------------------------------------------------------------
  // The stages

  function CleanRowOf(cfg: Config, l: Listing): CleanRow {
    var c := CleanedPrice(cfg.minPrice, cfg.maxPrice, l.precioRaw);
    CleanRow(l, c.price, c.currency)
  }

  /** The cleaner applied to the raw price of every listing. */
  function CleanAll(cfg: Config, data: seq<Listing>): (rows: seq<CleanRow>)
    ensures |rows| == |data|
    ensures forall i :: 0 <= i < |data| ==> rows[i] == CleanRowOf(cfg, data[i])
  {
    Map((l: Listing) => CleanRowOf(cfg, l), data)
  }

  /** The test of `dropna(subset=['precio_limpio'])`. */
  predicate HasPrice(r: CleanRow) {
    r.precioLimpio.Some?
  }

  function UsdRowOf(rates: ExchangeRates, r: CleanRow): UsdRow
    requires HasPrice(r)
  {
    UsdRow(r.listing, r.precioLimpio.value, r.currency, ToUsd(rates, r.precioLimpio.value, r.currency))
  }

  /** The `price_usd` column computed for every row. */
  function ConvertAll(rates: ExchangeRates, rows: seq<CleanRow>): (usd: seq<UsdRow>)
    requires forall i :: 0 <= i < |rows| ==> HasPrice(rows[i])
    ensures |usd| == |rows|
    ensures forall i :: 0 <= i < |rows| ==> usd[i] == UsdRowOf(rates, rows[i])
  {
    if rows == [] then [] else ConvertAll(rates, rows[..|rows| - 1]) + [UsdRowOf(rates, rows[|rows| - 1])]
  }

  /** The test of the USD range filter, both bounds inclusive. */
  function InUsdRange(lo: real, hi: real): UsdRow -> bool {
    (r: UsdRow) => lo <= r.priceUsd <= hi
  }

  /** The `price_usd` column. */
  function PricesOf(rows: seq<UsdRow>): (p: seq<real>)
    ensures |p| == |rows|
    ensures forall i :: 0 <= i < |rows| ==> p[i] == rows[i].priceUsd
  {
    if rows == [] then [] else PricesOf(rows[..|rows| - 1]) + [rows[|rows| - 1].priceUsd]
  }

  /** The batch mean and the square of the batch standard deviation (`None` for NaN). */
  datatype BatchStats = BatchStats(mean: real, variance: Option<real>)

  function StatsOf(prices: seq<real>): BatchStats
    requires |prices| > 0
  {
    BatchStats(Mean(prices), SampleVariance(prices))
  }

  /**
   * `p < mean - k * std` with `std * std == variance`, written without the
   * square root: with `d = mean - p`, a nonnegative `k` needs `d > 0` and
   * `d * d > k * k * variance`; a negative `k` needs `d > 0` or
   * `d * d < k * k * variance`.  A NaN deviation compares false.
   */
  predicate BelowDealLine(p: real, mean: real, k: real, variance: Option<real>) {
    match variance
    case None => false
    case Some(v) =>
      var d := mean - p;
      if k >= 0.0 then d > 0.0 && d * d > k * k * v else d > 0.0 || d * d < k * k * v
  }

  /** `get_label`: the deal test first, then the scam test, otherwise market price. */
  function GetLabel(cfg: Config, stats: BatchStats, p: real): Label {
    if BelowDealLine(p, stats.mean, cfg.dealThreshold, stats.variance) then Ganga
    else if p < stats.mean * cfg.scamThreshold then PosibleEstafa
    else Mercado
  }

  function MakeRow(cfg: Config, stats: BatchStats, r: UsdRow): Row {
    Row(r.listing.titulo, r.listing.precioRaw, r.precioLimpio, r.currency, r.priceUsd,
        GetLabel(cfg, stats, r.priceUsd), r.listing.url)
  }

  /** The `label` column added to every row. */
  function LabelAll(cfg: Config, stats: BatchStats, rows: seq<UsdRow>): (out: seq<Row>)
    ensures |out| == |rows|
    ensures forall i :: 0 <= i < |rows| ==> out[i] == MakeRow(cfg, stats, rows[i])
  {
    if rows == [] then [] else LabelAll(cfg, stats, rows[..|rows| - 1]) + [MakeRow(cfg, stats, rows[|rows| - 1])]
  }

  /** The rows that reach the statistics: priced, converted, and inside the USD range. */
  function UsdStage(cfg: Config, proc: DataProcessor, data: seq<Listing>): seq<UsdRow> {
    var priced := Filter(HasPrice, CleanAll(cfg, data));
    Filter(InUsdRange(cfg.minPrice, cfg.maxPrice), ConvertAll(proc.exchangeRate, priced))
  }

  /**
   * The meaning of `process_data`: an empty batch, a batch with no price,
   * and a batch with nothing in range all give the empty table; otherwise
   * every surviving row is labelled against the statistics of the survivors.
   */
  function Process(cfg: Config, proc: DataProcessor, data: seq<Listing>): seq<Row> {
    if data == [] then []
    else
      var priced := Filter(HasPrice, CleanAll(cfg, data));
      if priced == [] then []
      else
        var usd := Filter(InUsdRange(cfg.minPrice, cfg.maxPrice), ConvertAll(proc.exchangeRate, priced));
        if usd == [] then [] else LabelAll(cfg, StatsOf(PricesOf(usd)), usd)
  }

  // ---------------------------------------------------------------------
  // The pipeline performed step by step

  method CleanColumn(cfg: Config, data: seq<Listing>) returns (rows: seq<CleanRow>)
    ensures rows == CleanAll(cfg, data)
  {
    rows := [];
    for i := 0 to |data|
      invariant rows == CleanAll(cfg, data[..i])
    {
      var price, currency := CleanPrice(cfg.minPrice, cfg.maxPrice, data[i].precioRaw);
      rows := rows + [CleanRow(data[i], price, currency)];
      assert data[..i + 1][..i] == data[..i];
    }
    assert data[..|data|] == data;
  }

  method DropMissing(rows: seq<CleanRow>) returns (kept: seq<CleanRow>)
    ensures kept == Filter(HasPrice, rows)
  {
    kept := [];
    for i := 0 to |rows|
      invariant kept == Filter(HasPrice, rows[..i])
    {
      assert rows[..i + 1] == rows[..i] + [rows[i]];
      FilterAppend(HasPrice, rows[..i], [rows[i]]);
      if rows[i].precioLimpio != None {
        kept := kept + [rows[i]];
      }
    }
    assert rows[..|rows|] == rows;
  }

  method ConvertColumn(rates: ExchangeRates, rows: seq<CleanRow>) returns (usd: seq<UsdRow>)
    requires forall i :: 0 <= i < |rows| ==> HasPrice(rows[i])
    ensures usd == ConvertAll(rates, rows)
  {
    usd := [];
    for i := 0 to |rows|
      invariant |usd| == i
      invariant forall j :: 0 <= j < i ==> usd[j] == UsdRowOf(rates, rows[j])
    {
      var r := rows[i];
      var priceUsd := if r.currency.Some? && r.currency.value in rates then r.precioLimpio.value / rates[r.currency.value]
                      else r.precioLimpio.value;
      usd := usd + [UsdRow(r.listing, r.precioLimpio.value, r.currency, priceUsd)];
    }
  }

  method RangeFilter(lo: real, hi: real, rows: seq<UsdRow>) returns (kept: seq<UsdRow>)
    ensures kept == Filter(InUsdRange(lo, hi), rows)
  {
    kept := [];
    for i := 0 to |rows|
      invariant kept == Filter(InUsdRange(lo, hi), rows[..i])
    {
      assert rows[..i + 1] == rows[..i] + [rows[i]];
      FilterAppend(InUsdRange(lo, hi), rows[..i], [rows[i]]);
      if rows[i].priceUsd >= lo && rows[i].priceUsd <= hi {
        kept := kept + [rows[i]];
      }
    }
    assert rows[..|rows|] == rows;
  }

  /** `mean()` and `std()` of the price column: a running sum, then the squared deviations. */
  method ComputeStats(prices: seq<real>) returns (stats: BatchStats)
    requires |prices| > 0
    ensures stats == StatsOf(prices)
  {
    var total := 0.0;
    for i := 0 to |prices|
      invariant total == Sum(prices[..i])
    {
      assert prices[..i + 1][..i] == prices[..i];
      total := total + prices[i];
    }
    assert prices[..|prices|] == prices;
    var mean := total / |prices| as real;
    if |prices| == 1 {
      return BatchStats(mean, None);
    }
    var squares := 0.0;
    for i := 0 to |prices|
      invariant squares == SquaredDeviations(prices[..i], mean)
    {
      assert prices[..i + 1][..i] == prices[..i];
      squares := squares + Square(prices[i] - mean);
    }
    assert prices[..|prices|] == prices;
    stats := BatchStats(mean, Some(squares / (|prices| - 1) as real));
  }

  method LabelColumn(cfg: Config, stats: BatchStats, rows: seq<UsdRow>) returns (out: seq<Row>)
    ensures out == LabelAll(cfg, stats, rows)
  {
    out := [];
    for i := 0 to |rows|
      invariant |out| == i
      invariant forall j :: 0 <= j < i ==> out[j] == MakeRow(cfg, stats, rows[j])
    {
      var r := rows[i];
      var l := GetLabel(cfg, stats, r.priceUsd);
      out := out + [Row(r.listing.titulo, r.listing.precioRaw, r.precioLimpio, r.currency, r.priceUsd, l, r.listing.url)];
    }
  }

  /** `process_data` as the source performs it. */
  method ProcessData(cfg: Config, proc: DataProcessor, data: seq<Listing>) returns (rows: seq<Row>)
    ensures rows == Process(cfg, proc, data)
  {
    if |data| == 0 {
      return [];
    }
    var cleaned := CleanColumn(cfg, data);
    var priced := DropMissing(cleaned);
    if |priced| == 0 {
      return [];
    }
    var converted := ConvertColumn(proc.exchangeRate, priced);
    var usd := RangeFilter(cfg.minPrice, cfg.maxPrice, converted);
    if |usd| == 0 {
      return [];
    }
    var stats := ComputeStats(PricesOf(usd));
    rows := LabelColumn(cfg, stats, usd);
  }
}
