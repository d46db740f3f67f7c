/**
 * What `process_data` promises about its output table: which listings it
 * keeps and in what order, what every row holds, how the labels follow the
 * batch statistics, and that reprocessing the output changes nothing.
 */
module ProcessingProperties {
  import opened Options
  import opened Seqs
  import opened Settings
  import opened Text
  import opened PriceCleaning
  import opened Statistics
  import opened DataProcessing

  // ---------------------------------------------------------------------
  // The survivors of the batch

  /** A listing survives when its price cleans to an amount whose USD value lies in `[lo, hi]`. */
  predicate Passes(lo: real, hi: real, rates: ExchangeRates, l: Listing) {
    var c := CleanedPrice(lo, hi, l.precioRaw);
    c.price.Some? && lo <= ToUsd(rates, c.price.value, c.currency) <= hi
  }

  function Survives(lo: real, hi: real, rates: ExchangeRates): Listing -> bool {
    (l: Listing) => Passes(lo, hi, rates, l)
  }

  /** The cleaned and converted rows of listings that all survive. */
  function SurvivorRows(cfg: Config, rates: ExchangeRates, ls: seq<Listing>): seq<UsdRow>
    requires forall i :: 0 <= i < |ls| ==> Passes(cfg.minPrice, cfg.maxPrice, rates, ls[i])
  {
    SurvivorsPriced(cfg, rates, ls);
    ConvertAll(rates, CleanAll(cfg, ls))
  }

  lemma SurvivorsPriced(cfg: Config, rates: ExchangeRates, ls: seq<Listing>)
    requires forall i :: 0 <= i < |ls| ==> Passes(cfg.minPrice, cfg.maxPrice, rates, ls[i])
    ensures forall i :: 0 <= i < |ls| ==> HasPrice(CleanAll(cfg, ls)[i])
  {
    forall i | 0 <= i < |ls|
      ensures HasPrice(CleanAll(cfg, ls)[i])
    {
      assert Passes(cfg.minPrice, cfg.maxPrice, rates, ls[i]);
      assert CleanAll(cfg, ls)[i] == CleanRowOf(cfg, ls[i]);
    }
  }

  /**
   * The reference table: the surviving listings, converted, each labelled
   * against the statistics of the survivors' USD prices.
   */
  function Labelled(cfg: Config, rates: ExchangeRates, kept: seq<Listing>): seq<Row>
    requires forall i :: 0 <= i < |kept| ==> Passes(cfg.minPrice, cfg.maxPrice, rates, kept[i])
  {
    if kept == [] then []
    else
      var usd := SurvivorRows(cfg, rates, kept);
      LabelAll(cfg, StatsOf(PricesOf(usd)), usd)
  }

  function RowPrices(rows: seq<Row>): (p: seq<real>)
    ensures |p| == |rows|
    ensures forall i :: 0 <= i < |rows| ==> p[i] == rows[i].priceUsd
  {
    Map((r: Row) => r.priceUsd, rows)
  }

  // ---------------------------------------------------------------------
  // The stages compose

  lemma ConvertAllAppend(rates: ExchangeRates, a: seq<CleanRow>, b: seq<CleanRow>)
    requires forall i :: 0 <= i < |a| ==> HasPrice(a[i])
    requires forall i :: 0 <= i < |b| ==> HasPrice(b[i])
    ensures forall i :: 0 <= i < |a + b| ==> HasPrice((a + b)[i])
    ensures ConvertAll(rates, a + b) == ConvertAll(rates, a) + ConvertAll(rates, b)
  {
    assert forall i :: 0 <= i < |a + b| ==> (a + b)[i] == if i < |a| then a[i] else b[i - |a|];
  }

  lemma CleanAllAppend(cfg: Config, a: seq<Listing>, b: seq<Listing>)
    ensures CleanAll(cfg, a + b) == CleanAll(cfg, a) + CleanAll(cfg, b)
  {
    MapAppend((l: Listing) => CleanRowOf(cfg, l), a, b);
  }

  lemma SurvivorRowsAppend(cfg: Config, rates: ExchangeRates, a: seq<Listing>, b: seq<Listing>)
    requires forall i :: 0 <= i < |a| ==> Passes(cfg.minPrice, cfg.maxPrice, rates, a[i])
    requires forall i :: 0 <= i < |b| ==> Passes(cfg.minPrice, cfg.maxPrice, rates, b[i])
    ensures forall i :: 0 <= i < |a + b| ==> Passes(cfg.minPrice, cfg.maxPrice, rates, (a + b)[i])
    ensures SurvivorRows(cfg, rates, a + b) == SurvivorRows(cfg, rates, a) + SurvivorRows(cfg, rates, b)
  {
    assert forall i :: 0 <= i < |a + b| ==> (a + b)[i] == if i < |a| then a[i] else b[i - |a|];
    CleanAllAppend(cfg, a, b);
    ConvertAllAppend(rates, CleanAll(cfg, a), CleanAll(cfg, b));
  }

  /** One listing: the stages keep it exactly when it survives. */
  lemma OneListing(cfg: Config, rates: ExchangeRates, x: Listing)
    ensures var priced := Filter(HasPrice, [CleanRowOf(cfg, x)]);
      Filter(InUsdRange(cfg.minPrice, cfg.maxPrice), ConvertAll(rates, priced))
        == SurvivorRows(cfg, rates, Filter(Survives(cfg.minPrice, cfg.maxPrice, rates), [x]))
  {
    var keep := Survives(cfg.minPrice, cfg.maxPrice, rates);
    var inRange := InUsdRange(cfg.minPrice, cfg.maxPrice);
    var cx := CleanRowOf(cfg, x);
    FilterSingleton(HasPrice, cx);
    FilterSingleton(keep, x);
    if HasPrice(cx) {
      var u := UsdRowOf(rates, cx);
      assert ConvertAll(rates, [cx]) == [u];
      FilterSingleton(inRange, u);
      assert keep(x) == inRange(u);
      if keep(x) {
        assert CleanAll(cfg, [x]) == [cx];
      }
    } else {
      assert !keep(x);
    }
  }

  /** The rows reaching the statistics are the survivors, converted, in input order. */
  lemma {:induction false} UsdStageSurvivors(cfg: Config, proc: DataProcessor, data: seq<Listing>)
    ensures UsdStage(cfg, proc, data)
      == SurvivorRows(cfg, proc.exchangeRate, Filter(Survives(cfg.minPrice, cfg.maxPrice, proc.exchangeRate), data))
  {
    var rates := proc.exchangeRate;
    var keep := Survives(cfg.minPrice, cfg.maxPrice, rates);
    var inRange := InUsdRange(cfg.minPrice, cfg.maxPrice);
    if data != [] {
      var d, x := data[..|data| - 1], data[|data| - 1];
      assert data == d + [x];
      UsdStageSurvivors(cfg, proc, d);
      var cd, cx := CleanAll(cfg, d), [CleanRowOf(cfg, x)];
      assert CleanAll(cfg, data) == cd + cx;
      FilterAppend(HasPrice, cd, cx);
      var pd, px := Filter(HasPrice, cd), Filter(HasPrice, cx);
      ConvertAllAppend(rates, pd, px);
      FilterAppend(inRange, ConvertAll(rates, pd), ConvertAll(rates, px));
      FilterAppend(keep, d, [x]);
      SurvivorRowsAppend(cfg, rates, Filter(keep, d), Filter(keep, [x]));
      OneListing(cfg, rates, x);
    }
  }

  /** The output of `process_data` is the reference table of the survivors. */
  lemma ProcessIsLabelled(cfg: Config, proc: DataProcessor, data: seq<Listing>)
    ensures Process(cfg, proc, data)
      == Labelled(cfg, proc.exchangeRate, Filter(Survives(cfg.minPrice, cfg.maxPrice, proc.exchangeRate), data))
  {
    var keep := Survives(cfg.minPrice, cfg.maxPrice, proc.exchangeRate);
    UsdStageSurvivors(cfg, proc, data);
    if data == [] {
      assert Filter(keep, data) == [];
    } else if Filter(HasPrice, CleanAll(cfg, data)) == [] {
      assert UsdStage(cfg, proc, data) == [];
    }
  }

  lemma LabelledListings(cfg: Config, rates: ExchangeRates, kept: seq<Listing>)
    requires forall i :: 0 <= i < |kept| ==> Passes(cfg.minPrice, cfg.maxPrice, rates, kept[i])
    ensures ListingsOf(Labelled(cfg, rates, kept)) == kept
  {
    if kept != [] {
      var usd := SurvivorRows(cfg, rates, kept);
      SurvivorListings(cfg, rates, kept);
      LabelAllListings(cfg, StatsOf(PricesOf(usd)), usd);
    }
  }

  lemma SurvivorListings(cfg: Config, rates: ExchangeRates, kept: seq<Listing>)
    requires forall i :: 0 <= i < |kept| ==> Passes(cfg.minPrice, cfg.maxPrice, rates, kept[i])
    ensures forall i :: 0 <= i < |kept| ==> SurvivorRows(cfg, rates, kept)[i].listing == kept[i]
  {
    var usd, clean := SurvivorRows(cfg, rates, kept), CleanAll(cfg, kept);
    forall i | 0 <= i < |kept|
      ensures usd[i].listing == kept[i]
    {
      assert usd[i].listing == clean[i].listing;
    }
  }

  lemma LabelAllListings(cfg: Config, stats: BatchStats, usd: seq<UsdRow>)
    ensures forall i :: 0 <= i < |usd| ==> ListingsOf(LabelAll(cfg, stats, usd))[i] == usd[i].listing
  {
    var rows := LabelAll(cfg, stats, usd);
    forall i | 0 <= i < |usd|
      ensures ListingsOf(rows)[i] == usd[i].listing
    {
      assert rows[i] == MakeRow(cfg, stats, usd[i]);
    }
  }

  // ---------------------------------------------------------------------
  // Which listings are kept

  /** Output rows are exactly the surviving listings, in their original order. */
  lemma ProcessKeepsSurvivors(cfg: Config, proc: DataProcessor, data: seq<Listing>)
    ensures ListingsOf(Process(cfg, proc, data))
      == Filter(Survives(cfg.minPrice, cfg.maxPrice, proc.exchangeRate), data)
  {
    ProcessIsLabelled(cfg, proc, data);
    LabelledListings(cfg, proc.exchangeRate, Filter(Survives(cfg.minPrice, cfg.maxPrice, proc.exchangeRate), data));
  }

  /**
   * Row `k` of the output comes from input position `idx[k]`; the positions
   * increase, and a listing is kept exactly when it survives.
   */
  lemma ProcessSelects(cfg: Config, proc: DataProcessor, data: seq<Listing>)
    ensures var rows := Process(cfg, proc, data);
      var idx := KeptPositions(Survives(cfg.minPrice, cfg.maxPrice, proc.exchangeRate), data, 0);
      && |rows| == |idx|
      && (forall k :: 0 <= k < |idx| ==> idx[k] < |data| && ListingOf(rows[k]) == data[idx[k]])
      && (forall k, m :: 0 <= k < m < |idx| ==> idx[k] < idx[m])
      && (forall j :: 0 <= j < |data| ==> (Passes(cfg.minPrice, cfg.maxPrice, proc.exchangeRate, data[j]) <==> j in idx))
  {
    var keep := Survives(cfg.minPrice, cfg.maxPrice, proc.exchangeRate);
    ProcessKeepsSurvivors(cfg, proc, data);
    FilterSelects(keep, data, 0);
    assert data[0..] == data;
  }

  /** A batch whose every listing survives is kept whole. */
  lemma ProcessKeepsValidBatch(cfg: Config, proc: DataProcessor, data: seq<Listing>)
    requires forall i :: 0 <= i < |data| ==> Passes(cfg.minPrice, cfg.maxPrice, proc.exchangeRate, data[i])
    ensures ListingsOf(Process(cfg, proc, data)) == data
  {
    ProcessKeepsSurvivors(cfg, proc, data);
    FilterKeepsAll(Survives(cfg.minPrice, cfg.maxPrice, proc.exchangeRate), data);
  }

  /** An empty batch, or one where nothing survives, gives the empty table. */
  lemma ProcessEmpty(cfg: Config, proc: DataProcessor, data: seq<Listing>)
    requires forall i :: 0 <= i < |data| ==> !Passes(cfg.minPrice, cfg.maxPrice, proc.exchangeRate, data[i])
    ensures Process(cfg, proc, data) == []
  {
    var keep := Survives(cfg.minPrice, cfg.maxPrice, proc.exchangeRate);
    ProcessKeepsSurvivors(cfg, proc, data);
    FilterKeepsNone(keep, data);
  }

  /** Processing the listings of an output table again gives the same table. */
  lemma ProcessIdempotent(cfg: Config, proc: DataProcessor, data: seq<Listing>)
    ensures Process(cfg, proc, ListingsOf(Process(cfg, proc, data))) == Process(cfg, proc, data)
  {
    var keep := Survives(cfg.minPrice, cfg.maxPrice, proc.exchangeRate);
    ProcessKeepsSurvivors(cfg, proc, data);
    ProcessIsLabelled(cfg, proc, data);
    ProcessIsLabelled(cfg, proc, Filter(keep, data));
    FilterAbsorbs(keep, keep, data);
  }

  /** A whole USD price in range survives under a table that leaves USD unchanged. */
  lemma UsdListingPasses(lo: real, hi: real, rates: ExchangeRates, l: Listing, n: nat)
    requires l.precioRaw == GroupThousands(ShowNat(n)) + " USD" && lo <= n as real <= hi
    requires USD in rates ==> rates[USD] == 1.0
    ensures CleanedPrice(lo, hi, l.precioRaw) == Cleaned(Some(n as real), Some(USD))
    ensures Passes(lo, hi, rates, l)
  {
    UsdWholeRoundTrip(lo, hi, n, l.precioRaw);
  }

  /**
   * A batch of whole USD prices such as "12.000 USD", all in range, under a
   * table that leaves USD unchanged: every listing is kept, in order, and
   * its USD price is the written amount.
   */
  lemma UsdBatchKept(cfg: Config, proc: DataProcessor, data: seq<Listing>, amounts: seq<nat>)
    requires |amounts| == |data|
    requires forall i :: 0 <= i < |data| ==>
      data[i].precioRaw == GroupThousands(ShowNat(amounts[i])) + " USD" && cfg.minPrice <= amounts[i] as real <= cfg.maxPrice
    requires USD in proc.exchangeRate ==> proc.exchangeRate[USD] == 1.0
    ensures ListingsOf(Process(cfg, proc, data)) == data
    ensures forall i :: 0 <= i < |data| ==> Process(cfg, proc, data)[i].priceUsd == amounts[i] as real
  {
    var rates := proc.exchangeRate;
    forall i | 0 <= i < |data|
      ensures CleanedPrice(cfg.minPrice, cfg.maxPrice, data[i].precioRaw) == Cleaned(Some(amounts[i] as real), Some(USD))
      ensures Passes(cfg.minPrice, cfg.maxPrice, rates, data[i])
    {
      UsdListingPasses(cfg.minPrice, cfg.maxPrice, rates, data[i], amounts[i]);
    }
    ProcessKeepsValidBatch(cfg, proc, data);
    ProcessRowsWellFormed(cfg, proc, data);
    var rows := Process(cfg, proc, data);
    forall i | 0 <= i < |data|
      ensures rows[i].priceUsd == amounts[i] as real
    {
      assert ListingsOf(rows)[i] == ListingOf(rows[i]) == data[i];
      UsdRowPrice(cfg, rates, rows[i], amounts[i] as real);
    }
  }

  lemma UsdRowPrice(cfg: Config, rates: ExchangeRates, r: Row, v: real)
    requires WellFormedRow(cfg, rates, r)
    requires CleanedPrice(cfg.minPrice, cfg.maxPrice, r.precioRaw) == Cleaned(Some(v), Some(USD))
    requires USD in rates ==> rates[USD] == 1.0
    ensures r.priceUsd == v
  {
  }

  // ---------------------------------------------------------------------
  // What every row holds

  /**
   * A row of the output: its amount and currency are what the cleaner gives
   * for its raw price, the amount is in range, and its USD value is the
   * converted amount, also in range.
   */
  predicate WellFormedRow(cfg: Config, rates: ExchangeRates, r: Row) {
    var c := CleanedPrice(cfg.minPrice, cfg.maxPrice, r.precioRaw);
    && c.price == Some(r.precioLimpio)
    && c.currency == r.currency
    && r.currency.Some?
    && cfg.minPrice <= r.precioLimpio <= cfg.maxPrice
    && r.priceUsd == ToUsd(rates, r.precioLimpio, r.currency)
    && cfg.minPrice <= r.priceUsd <= cfg.maxPrice
  }

  lemma ProcessRowsWellFormed(cfg: Config, proc: DataProcessor, data: seq<Listing>)
    ensures var rows := Process(cfg, proc, data);
      forall i :: 0 <= i < |rows| ==> WellFormedRow(cfg, proc.exchangeRate, rows[i])
  {
    ProcessIsLabelled(cfg, proc, data);
    LabelledWellFormed(cfg, proc.exchangeRate, Filter(Survives(cfg.minPrice, cfg.maxPrice, proc.exchangeRate), data));
  }

  lemma LabelledWellFormed(cfg: Config, rates: ExchangeRates, kept: seq<Listing>)
    requires forall i :: 0 <= i < |kept| ==> Passes(cfg.minPrice, cfg.maxPrice, rates, kept[i])
    ensures var rows := Labelled(cfg, rates, kept);
      forall i :: 0 <= i < |rows| ==> WellFormedRow(cfg, rates, rows[i])
  {
    if kept != [] {
      var usd := SurvivorRows(cfg, rates, kept);
      var rows := LabelAll(cfg, StatsOf(PricesOf(usd)), usd);
      forall i | 0 <= i < |rows|
        ensures WellFormedRow(cfg, rates, rows[i])
      {
        assert Passes(cfg.minPrice, cfg.maxPrice, rates, kept[i]);
        assert rows[i] == MakeRow(cfg, StatsOf(PricesOf(usd)), usd[i]);
      }
    }
  }

  /** Every label is computed against the mean and deviation of the output's own USD prices. */
  lemma ProcessLabelsFollowStats(cfg: Config, proc: DataProcessor, data: seq<Listing>)
    ensures var rows := Process(cfg, proc, data);
      rows != [] ==>
        forall i :: 0 <= i < |rows| ==> rows[i].rowLabel == GetLabel(cfg, StatsOf(RowPrices(rows)), rows[i].priceUsd)
  {
    ProcessIsLabelled(cfg, proc, data);
    LabelledFollowStats(cfg, proc.exchangeRate, Filter(Survives(cfg.minPrice, cfg.maxPrice, proc.exchangeRate), data));
  }

  lemma LabelledFollowStats(cfg: Config, rates: ExchangeRates, kept: seq<Listing>)
    requires forall i :: 0 <= i < |kept| ==> Passes(cfg.minPrice, cfg.maxPrice, rates, kept[i])
    ensures var rows := Labelled(cfg, rates, kept);
      rows != [] ==>
        forall i :: 0 <= i < |rows| ==> rows[i].rowLabel == GetLabel(cfg, StatsOf(RowPrices(rows)), rows[i].priceUsd)
  {
    if kept != [] {
      var usd := SurvivorRows(cfg, rates, kept);
      LabelAllPrices(cfg, StatsOf(PricesOf(usd)), usd);
    }
  }

  lemma LabelAllPrices(cfg: Config, stats: BatchStats, usd: seq<UsdRow>)
    ensures RowPrices(LabelAll(cfg, stats, usd)) == PricesOf(usd)
  {
  }

  // ---------------------------------------------------------------------
  // The labels

  lemma MulNonnegative(x: real, y: real)
    requires x >= 0.0 && y >= 0.0
    ensures x * y >= 0.0
  {
  }

  lemma MulPositive(x: real, y: real)
    requires x > 0.0 && y > 0.0
    ensures x * y > 0.0
  {
  }

  lemma SquareMonotone(a: real, b: real)
    requires 0.0 <= a && 0.0 <= b
    ensures a < b <==> a * a < b * b
  {
    assert b * b - a * a == (b - a) * (b + a);
    if a < b {
      MulPositive(b - a, b + a);
    } else {
      MulNonnegative(a - b, a + b);
    }
  }

  /** The squared deal test is `p < mean - k * std` for the nonnegative `std` whose square is the variance. */
  lemma DealTestMatchesStd(p: real, mean: real, k: real, v: real, std: real)
    requires std >= 0.0 && std * std == v
    ensures BelowDealLine(p, mean, k, Some(v)) <==> p < mean - k * std
  {
    var d := mean - p;
    var ks := if k >= 0.0 then k * std else -(k * std);
    assert ks >= 0.0 by {
      if k < 0.0 {
        assert (-k) * std >= 0.0;
      }
    }
    assert ks * ks == k * k * v;
    if k >= 0.0 {
      if d > 0.0 {
        SquareMonotone(ks, d);
      }
    } else if d <= 0.0 {
      SquareMonotone(-d, ks);
      assert (-d) * (-d) == d * d;
    }
  }

  /**
   * `get_label` with the deviation `std` of the batch (any `std >= 0` whose
   * square is the variance; a NaN deviation when the variance is missing):
   * GANGA below `mean - dealThreshold * std`, else POSIBLE ESTAFA below
   * `mean * scamThreshold`, else MERCADO.
   */
  lemma GetLabelRule(cfg: Config, stats: BatchStats, p: real, std: real)
    requires stats.variance.Some? ==> std >= 0.0 && std * std == stats.variance.value
    ensures var deal := stats.variance.Some? && p < stats.mean - cfg.dealThreshold * std;
      var scam := p < stats.mean * cfg.scamThreshold;
      && (GetLabel(cfg, stats, p) == Ganga <==> deal)
      && (GetLabel(cfg, stats, p) == PosibleEstafa <==> !deal && scam)
      && (GetLabel(cfg, stats, p) == Mercado <==> !deal && !scam)
  {
    if stats.variance.Some? {
      DealTestMatchesStd(p, stats.mean, cfg.dealThreshold, stats.variance.value, std);
    }
  }

  /** The squared deal test only gets harder to pass as the threshold grows. */
  lemma BelowDealLineMonotone(p: real, mean: real, k0: real, k: real, v: real)
    requires k0 <= k && v >= 0.0
    ensures BelowDealLine(p, mean, k, Some(v)) ==> BelowDealLine(p, mean, k0, Some(v))
  {
    var a, b := k0 * k0, k * k;
    if k0 >= 0.0 {
      SquareMonotone(k0, k);
      MulNonnegative(b - a, v);
      assert (b - a) * v == b * v - a * v;
    } else if k < 0.0 {
      SquareMonotone(-k, -k0);
      assert (-k) * (-k) == b && (-k0) * (-k0) == a;
      MulNonnegative(a - b, v);
      assert (a - b) * v == a * v - b * v;
    }
  }

  /** A larger deal threshold never turns a non-deal into a deal. */
  lemma DealThresholdMonotone(cfg: Config, k: real, stats: BatchStats, p: real)
    requires stats.variance.Some? ==> stats.variance.value >= 0.0
    requires cfg.dealThreshold <= k
    ensures GetLabel(cfg.(dealThreshold := k), stats, p) == Ganga ==> GetLabel(cfg, stats, p) == Ganga
  {
    if stats.variance.Some? {
      BelowDealLineMonotone(p, stats.mean, cfg.dealThreshold, k, stats.variance.value);
    }
  }

  /** With a nonnegative mean, a smaller scam fraction never turns a row into a possible scam. */
  lemma ScamThresholdMonotone(cfg: Config, k: real, stats: BatchStats, p: real)
    requires stats.mean >= 0.0 && k <= cfg.scamThreshold
    ensures GetLabel(cfg.(scamThreshold := k), stats, p) == PosibleEstafa ==> GetLabel(cfg, stats, p) == PosibleEstafa
  {
    MulNonnegative(stats.mean, cfg.scamThreshold - k);
    assert stats.mean * (cfg.scamThreshold - k) == stats.mean * cfg.scamThreshold - stats.mean * k;
  }

  function HasLabel(l: Label): Row -> bool {
    (r: Row) => r.rowLabel == l
  }

  /** The three label counts of the summary add up to the number of rows. */
  lemma LabelCountsCover(rows: seq<Row>)
    ensures Count(HasLabel(Ganga), rows) + Count(HasLabel(PosibleEstafa), rows) + Count(HasLabel(Mercado), rows) == |rows|
  {
    CountPartition(HasLabel(Ganga), HasLabel(PosibleEstafa), HasLabel(Mercado), rows);
  }

  /** The cleaner reads only the bounds of a configuration. */
  lemma CleanAllReadsBounds(cfg: Config, cfg2: Config, ls: seq<Listing>)
    requires cfg2.minPrice == cfg.minPrice && cfg2.maxPrice == cfg.maxPrice
    ensures CleanAll(cfg2, ls) == CleanAll(cfg, ls)
  {
    forall i | 0 <= i < |ls|
      ensures CleanAll(cfg2, ls)[i] == CleanAll(cfg, ls)[i]
    {
      assert CleanRowOf(cfg2, ls[i]) == CleanRowOf(cfg, ls[i]);
    }
  }

  /** Two configurations with the same bounds keep the same listings with the same USD amounts. */
  lemma ProcessReadsBounds(cfg: Config, cfg2: Config, proc: DataProcessor, data: seq<Listing>)
    requires cfg2.minPrice == cfg.minPrice && cfg2.maxPrice == cfg.maxPrice
    ensures ListingsOf(Process(cfg2, proc, data)) == ListingsOf(Process(cfg, proc, data))
    ensures RowPrices(Process(cfg2, proc, data)) == RowPrices(Process(cfg, proc, data))
  {
    ProcessKeepsSurvivors(cfg, proc, data);
    ProcessKeepsSurvivors(cfg2, proc, data);
    CleanAllReadsBounds(cfg, cfg2, data);
    var priced := Filter(HasPrice, CleanAll(cfg, data));
    if data != [] && priced != [] {
      var usd := Filter(InUsdRange(cfg.minPrice, cfg.maxPrice), ConvertAll(proc.exchangeRate, priced));
      if usd != [] {
        LabelAllPrices(cfg, StatsOf(PricesOf(usd)), usd);
        LabelAllPrices(cfg2, StatsOf(PricesOf(usd)), usd);
      }
    }
  }

  /** Raising the deal threshold never adds a GANGA row to the output. */
  lemma DealCountMonotone(cfg: Config, k: real, proc: DataProcessor, data: seq<Listing>)
    requires cfg.dealThreshold <= k
    ensures Count(HasLabel(Ganga), Process(cfg.(dealThreshold := k), proc, data))
      <= Count(HasLabel(Ganga), Process(cfg, proc, data))
  {
    var cfg2 := cfg.(dealThreshold := k);
    var rows, rows2 := Process(cfg, proc, data), Process(cfg2, proc, data);
    ProcessReadsBounds(cfg, cfg2, proc, data);
    if rows != [] {
      var prices := RowPrices(rows);
      var stats := StatsOf(prices);
      ProcessLabelsFollowStats(cfg, proc, data);
      ProcessLabelsFollowStats(cfg2, proc, data);
      forall i | 0 <= i < |rows2| && HasLabel(Ganga)(rows2[i])
        ensures HasLabel(Ganga)(rows[i])
      {
        assert rows2[i].priceUsd == prices[i] == rows[i].priceUsd;
        DealThresholdMonotone(cfg, k, stats, prices[i]);
      }
    }
    CountPointwise(HasLabel(Ganga), rows, HasLabel(Ganga), rows2);
  }

  /** With a nonnegative minimum price, lowering the scam fraction never adds a POSIBLE ESTAFA row. */
  lemma ScamCountMonotone(cfg: Config, k: real, proc: DataProcessor, data: seq<Listing>)
    requires k <= cfg.scamThreshold && cfg.minPrice >= 0.0
    ensures Count(HasLabel(PosibleEstafa), Process(cfg.(scamThreshold := k), proc, data))
      <= Count(HasLabel(PosibleEstafa), Process(cfg, proc, data))
  {
    var cfg2 := cfg.(scamThreshold := k);
    var rows, rows2 := Process(cfg, proc, data), Process(cfg2, proc, data);
    ProcessReadsBounds(cfg, cfg2, proc, data);
    if rows != [] {
      var prices := RowPrices(rows);
      var stats := StatsOf(prices);
      ProcessStats(cfg, proc, data);
      ProcessLabelsFollowStats(cfg, proc, data);
      ProcessLabelsFollowStats(cfg2, proc, data);
      forall i | 0 <= i < |rows2| && HasLabel(PosibleEstafa)(rows2[i])
        ensures HasLabel(PosibleEstafa)(rows[i])
      {
        assert rows2[i].priceUsd == prices[i] == rows[i].priceUsd;
        ScamThresholdMonotone(cfg, k, stats, prices[i]);
      }
    }
    CountPointwise(HasLabel(PosibleEstafa), rows, HasLabel(PosibleEstafa), rows2);
  }

  // ---------------------------------------------------------------------
  // The batch statistics

  /**
   * The statistics of a nonempty output: the mean lies between the smallest
   * and the largest USD price and inside the price range, the variance is
   * missing exactly for a single row and nonnegative otherwise.
   */
  lemma ProcessStats(cfg: Config, proc: DataProcessor, data: seq<Listing>)
    requires Process(cfg, proc, data) != []
    ensures var prices := RowPrices(Process(cfg, proc, data));
      var stats := StatsOf(prices);
      && Min(prices) <= stats.mean <= Max(prices)
      && cfg.minPrice <= stats.mean <= cfg.maxPrice
      && (stats.variance.None? <==> |prices| == 1)
      && (stats.variance.Some? ==> stats.variance.value >= 0.0)
  {
    ProcessRowsWellFormed(cfg, proc, data);
    RowStats(cfg, proc.exchangeRate, Process(cfg, proc, data));
  }

  /** The statistics of well-formed rows: the mean lies between the extremes and inside the price range. */
  lemma RowStats(cfg: Config, rates: ExchangeRates, rows: seq<Row>)
    requires rows != []
    requires forall i :: 0 <= i < |rows| ==> WellFormedRow(cfg, rates, rows[i])
    ensures var prices := RowPrices(rows);
      var stats := StatsOf(prices);
      && Min(prices) <= stats.mean <= Max(prices)
      && cfg.minPrice <= stats.mean <= cfg.maxPrice
      && (stats.variance.None? <==> |prices| == 1)
      && (stats.variance.Some? ==> stats.variance.value >= 0.0)
  {
    PricesInRange(cfg, rates, rows);
    var prices := RowPrices(rows);
    MinMeanMax(prices);
    MeanBetween(prices, cfg.minPrice, cfg.maxPrice);
  }

  lemma PricesInRange(cfg: Config, rates: ExchangeRates, rows: seq<Row>)
    requires forall i :: 0 <= i < |rows| ==> WellFormedRow(cfg, rates, rows[i])
    ensures forall i :: 0 <= i < |rows| ==> cfg.minPrice <= RowPrices(rows)[i] <= cfg.maxPrice
  {
    forall i | 0 <= i < |rows|
      ensures cfg.minPrice <= RowPrices(rows)[i] <= cfg.maxPrice
    {
      assert WellFormedRow(cfg, rates, rows[i]);
    }
  }

  /** With a positive minimum price the batch mean is positive. */
  lemma ProcessMeanPositive(cfg: Config, proc: DataProcessor, data: seq<Listing>)
    requires Process(cfg, proc, data) != [] && cfg.minPrice > 0.0
    ensures Mean(RowPrices(Process(cfg, proc, data))) > 0.0
  {
    ProcessStats(cfg, proc, data);
  }

  lemma SingletonStats(prices: seq<real>)
    requires |prices| == 1
    ensures StatsOf(prices) == BatchStats(prices[0], None)
  {
    assert prices[..0] == [];
    assert Sum(prices) == prices[0];
  }

  /** The label of the only row of a table, computed against that table's statistics. */
  lemma SingleLabel(cfg: Config, r: Row)
    requires r.rowLabel == GetLabel(cfg, StatsOf(RowPrices([r])), r.priceUsd)
    ensures r.rowLabel != Ganga
    ensures r.priceUsd > 0.0 && cfg.scamThreshold <= 1.0 ==> r.rowLabel == Mercado
  {
    var p := r.priceUsd;
    assert RowPrices([r]) == [p];
    SingletonStats([p]);
    if p > 0.0 && cfg.scamThreshold <= 1.0 {
      MulNonnegative(p, 1.0 - cfg.scamThreshold);
    }
  }

  /**
   * A table of one row has no deviation, so that row is never a deal; with a
   * positive minimum price and a scam fraction of at most one it is MERCADO.
   */
  lemma SingleRowLabel(cfg: Config, proc: DataProcessor, data: seq<Listing>)
    requires |Process(cfg, proc, data)| == 1
    ensures Process(cfg, proc, data)[0].rowLabel != Ganga
    ensures cfg.minPrice > 0.0 && cfg.scamThreshold <= 1.0 ==> Process(cfg, proc, data)[0].rowLabel == Mercado
  {
    var rows := Process(cfg, proc, data);
    ProcessLabelsFollowStats(cfg, proc, data);
    ProcessRowsWellFormed(cfg, proc, data);
    assert rows == [rows[0]];
    assert WellFormedRow(cfg, proc.exchangeRate, rows[0]);
    SingleLabel(cfg, rows[0]);
  }
}
