# Revo_Scrapper price cleaner and deal classifier, in Dafny

This project models the analysis core of Revo_Scrapper, a scraper for Revolico classified ads. The modelled code is class `DataProcessor` of `src/processor.py`:

- Its constructor picks the exchange-rate table.
- `clean_price` turns a free-form price text such as `"40.000 CUP"` or `"1.234,56 USD"` into an `(amount, currency)` pair.
- `process_data` turns a batch of scraped listings into a table of priced rows. It cleans every price, drops the listings without one, and converts each amount to US dollars. It keeps only the rows inside the valid price range. Each row is then labelled against the mean and standard deviation of the batch:
  - GANGA: a deal;
  - POSIBLE ESTAFA: a possible scam;
  - MERCADO: market price.

Each step of the source has two forms here:

- a specification function, for example `PriceCleaning.CleanedPrice` or `DataProcessing.Process`;
- a method that performs the step the way the source does, for example `PriceCleaning.CleanPrice` or `DataProcessing.ProcessData`.

Each method is proved to compute its function. The lemmas then state what the source promises about those functions.

Modules:

| file | module | contents |
|---|---|---|
| `seqs.dfy` | `Options`, `Seqs` | `Option` (Python's `None`); the order-keeping row filter that a boolean mask performs, the positions it keeps, counting |
| `text.dfy` | `Text` | the Python string primitives the cleaner uses: substring `in`, `str.replace`, `re.sub(r'[^\d.]', '', …)`, `str.strip`, decimal digits |
| `settings.dfy` | `Settings` | `MIN_PRICE`, `MAX_PRICE`, `DEAL_THRESHOLD`, `SCAM_THRESHOLD` with their shipped values |
| `clean_price.dfy` | `PriceCleaning` | `clean_price`: currency detection, removal of currency words, separator rewriting, the residue, `float`, the range check |
| `statistics.dfy` | `Statistics` | the pandas `mean` and the sample variance behind `std` |
| `processor.dfy` | `DataProcessing` | the processor, its rate table, the row records, the stages of `process_data` as functions and as methods |
| `processor_properties.dfy` | `ProcessingProperties` | what the output table is, in terms of the input |

Modelling choices:

- **Amounts are exact reals.** The four thresholds are fields of `Settings.Config`, and the bounds are parameters of the cleaner. `config.py:28-33` gives the shipped values (`Settings.DefaultConfig`).
- **The rate table is a `map<Currency, real>`.** Its rates must be nonzero.
- **`std` is only present as its square.** The deal test `p < mean - k * std` is written without a square root (`DataProcessing.BelowDealLine`). `DealTestMatchesStd` proves it the same as the source's test for the nonnegative `std` whose square is the sample variance.
- **A single surviving row has no deviation.** Pandas gives NaN as the standard deviation of one value, and every comparison with NaN is false. The model uses `None` for that, so such a row is never GANGA.

Behaviours of the code worth knowing when reading the model:

- **Currency words are found as plain substrings, not as whole words.** The code tests `curr in price_str` (`src/processor.py:41-44`), so `"150USD"` and `"xUSDx"` both count as USD. The word-boundary pattern of line 51 only decides which words are removed afterwards, and `TokenRemovalIrrelevant` shows that this removal never changes the result.
- **The constructor does not validate the rate table.** Any table is accepted, negative rates included (`src/processor.py:14-21`). A currency missing from the table passes through unconverted (`src/processor.py:128-129`).
- **There are two range checks.** The range is checked once on the raw amount inside `clean_price`, and again on the USD amount.
- **The statistics are the mean and the standard deviation only.** No median, minimum or maximum is computed. Minimum and maximum appear only in the lemmas.
- **A single row's standard deviation is NaN, not zero.**

## Model

| member | source | states |
|---|---|---|
| PriceCleaning.FirstContainedFinds | src/processor.py:41-44 | the currency loop yields a currency of the list whose word occurs in the text and no earlier entry's word occurs, and yields none exactly when no word of the list occurs |
| PriceCleaning.DetectCurrencyCases | src/processor.py:40-48 | detection is case-sensitive substring search: USD iff "USD" occurs; CUP iff "USD" does not and "CUP" does; MLC iff neither does and "MLC" does; no currency iff none of the three occurs |
| PriceCleaning.UsdAnywhere | src/processor.py:41-44 | "USD" anywhere in the text, whatever precedes or follows it, makes the currency USD |
| PriceCleaning.RemoveTokensSkeleton | src/processor.py:51 | removing the stand-alone currency words keeps every digit, dot and comma of the text, in order |
| PriceCleaning.TokenRemovalIrrelevant | src/processor.py:51 | removing the currency words and stripping whitespace never changes the digits-and-dots residue |
| PriceCleaning.SeparatorsNormalized | src/processor.py:55-63 | after separator rewriting no comma is left, and if the text had no comma no dot is left either |
| PriceCleaning.NormalizeEuropean | src/processor.py:55-60 | a dot-grouped integer, a comma and fraction digits are rewritten to integer digits, a dot and the fraction digits, under the both-separators rule and under the comma-only rule alike |
| PriceCleaning.Residue | src/processor.py:66 | what `float` receives consists of digits and dots only |
| PriceCleaning.ParseResidue | src/processor.py:68-69 | `float` of a digits-and-dots string succeeds exactly when it has at most one dot and at least one digit, and the amount is then nonnegative |
| PriceCleaning.FractionValue | src/processor.py:69 | the digits after the decimal point are worth at least 0 and less than 1 |
| PriceCleaning.ParseDigits | src/processor.py:69 | a nonempty digit string reads as the integer it spells |
| PriceCleaning.ParseWithDot | src/processor.py:69 | digits, one dot and digits read as the integer part plus the fraction |
| PriceCleaning.CleanedPrice | src/processor.py:24-79 | an amount is only returned together with a currency and inside the inclusive bounds; a returned currency is the detected one; an empty text or one without a currency word gives (None, None) |
| PriceCleaning.CleanPrice | src/processor.py:24-79 | the step-by-step cleaner (loop with break, regex word removal, strip, separator rewriting, `[^\d.]` removal, parse, range check) returns exactly `CleanedPrice` |
| PriceCleaning.CleanedOfReading | src/processor.py:68-76 | with a currency word and a residue that reads as v: (v, currency) when v is inside the bounds, both included, and (None, currency) outside them |
| PriceCleaning.CleanedOfUnreadable | src/processor.py:68-79 | a residue that `float` rejects gives (None, None), even when a currency word was found |
| PriceCleaning.DotOnlyIsWhole | src/processor.py:61-63 | without a comma every dot is a thousands separator: the residue is all digits and any amount is a whole number |
| PriceCleaning.GroupedWholeRoundTrip | src/processor.py:53-76 | a dot-grouped whole number in any text carrying no other digits, dots or commas, with a currency word, cleans back to that number, kept or rejected by the bounds |
| PriceCleaning.EuropeanRoundTrip | src/processor.py:53-76 | a text with a currency word whose digits, dots and commas are exactly a European amount ("1.234,56") cleans back to its integer part plus its fraction, kept or rejected by the bounds |
| PriceCleaning.EuropeanReading | src/processor.py:55-69 | the residue of a text whose digits, dots and commas form a European amount reads as its integer part plus its fraction |
| PriceCleaning.UsdWholeRoundTrip | src/processor.py:24-76 | any whole number written dot-grouped and followed by " USD", inside the bounds, cleans to (that number, USD) |
| PriceCleaning.ExampleUsd | test.py:42 | "150 USD" cleans to (150, USD) for any bounds around 150 |
| PriceCleaning.ExampleCupThousands | test.py:43 | "40.000 CUP" cleans to (40000, CUP) for any bounds around 40000 |
| PriceCleaning.ExampleEuro | test.py:44 | "1.234,56 EUR" cleans to (None, None) |
| PriceCleaning.ExampleMlc | test.py:45 | "100 MLC" cleans to (100, MLC) |
| PriceCleaning.ExampleCommaDecimal | test.py:46 | "50,5 USD" cleans to (50.5, USD) |
| PriceCleaning.ExampleWordOnly | src/processor.py:41-79 | the bare text "USD" is detected as USD, yet cleans to (None, None) because nothing is left for `float` |
| PriceCleaning.ExampleNoPrice | test.py:48 | "NO PRICE" cleans to (None, None) |
| PriceCleaning.CleanPriceExamples | test.py:41-49 | all seven cases of the repository's cleaning test, with the shipped bounds |
| Text.ContainsAsSlice | src/processor.py:42 | Python's `t in s` holds exactly when `t` is the slice of `s` at some position |
| Text.ContainsPiece | src/processor.py:42 | a piece placed anywhere in a text, whatever precedes or follows it, is contained in it |
| PriceCleaning.MissingChar | src/processor.py:42 | a text lacking one of the characters of a word does not contain the word |
| Text.KeepNumeric | src/processor.py:66 | the `[^\d.]` removal leaves only digits and dots and never lengthens the text |
| Text.KeepNumericKeepsAll | src/processor.py:66 | a text of digits and dots passes the removal unchanged |
| Text.ReplaceCharAppend | src/processor.py:57-63 | replacing a character in a concatenation is replacing it in each part |
| Text.ReplaceAbsent | src/processor.py:57-63 | replacing a character that does not occur leaves the text unchanged |
| Text.ReplaceCharAbsent | src/processor.py:57-63 | a character in neither the text nor the replacement is not in the result |
| Text.ReplaceCharRemoves | src/processor.py:57 | replacing every occurrence of a character by a text without it leaves no occurrence |
| Text.UngroupThousands | src/processor.py:62-63 | deleting the dots of a dot-grouped integer gives back its digits |
| Text.StripLeading | src/processor.py:51 | the leading strip returns a suffix that does not start with whitespace, and everything it removed is whitespace |
| Text.StripTrailing | src/processor.py:51 | the trailing strip returns a prefix that does not end with whitespace, and everything it removed is whitespace |
| Text.SkeletonStrip | src/processor.py:51 | stripping whitespace keeps every digit, dot and comma |
| Statistics.SampleVariance | src/processor.py:144 | the squared `std` is missing (NaN) exactly for a single value and nonnegative otherwise |
| Statistics.SumBounds | src/processor.py:143 | n values between lo and hi sum to between n·lo and n·hi |
| Statistics.MeanBetween | src/processor.py:143 | the mean of a nonempty column whose values all lie between lo and hi lies between lo and hi |
| Statistics.MinMeanMax | test_ui.py:143 | the mean lies between the smallest and the largest value |
| DataProcessing.NewDataProcessor | src/processor.py:14-22 | the given table is kept unless it is missing or empty, in which case the default table is used; the resulting table is never empty |
| DataProcessing.ToUsd | src/processor.py:127-131 | the USD amount times the currency's rate is the amount when the table has that currency; otherwise the amount passes through unchanged |
| DataProcessing.CleanAll | src/processor.py:108 | one cleaned row per listing, row i holding the cleaner's result for listing i |
| DataProcessing.ConvertAll | src/processor.py:127-131 | one converted row per priced row, same listing, amount and currency, with the converted amount |
| DataProcessing.LabelAll | src/processor.py:149-162 | one output row per row, carrying its listing, amount, currency, USD amount and the label `get_label` gives |
| DataProcessing.CleanColumn | src/processor.py:108 | the loop over the listings computes `CleanAll` |
| DataProcessing.DropMissing | src/processor.py:114-118 | the loop keeps exactly the rows with an amount, in order |
| DataProcessing.ConvertColumn | src/processor.py:127-131 | the loop computes `ConvertAll` |
| DataProcessing.RangeFilter | src/processor.py:134 | the loop keeps exactly the rows whose USD amount is inside the bounds, both included, in order |
| DataProcessing.ComputeStats | src/processor.py:143-144 | the running-sum and squared-deviation loops compute the mean and the sample variance, missing for one value |
| DataProcessing.LabelColumn | src/processor.py:162 | the loop computes `LabelAll` |
| DataProcessing.ProcessData | src/processor.py:81-173 | the pipeline with its three early empty returns computes `Process` |
| ProcessingProperties.UsdStageSurvivors | src/processor.py:108-134 | the rows reaching the statistics are exactly the surviving listings, cleaned and converted, in input order |
| ProcessingProperties.ProcessIsLabelled | src/processor.py:81-173 | the output is the surviving listings, converted, each labelled against the mean and deviation of the survivors' USD amounts; empty when nothing survives |
| ProcessingProperties.ProcessKeepsSurvivors | src/processor.py:91-140 | the listings of the output are exactly the input listings whose price cleans to an amount with an in-range USD value, in their original order |
| ProcessingProperties.ProcessSelects | src/processor.py:114-140 | output row k comes from input position idx[k], the positions strictly increase, and an input position is among them exactly when its listing survives |
| ProcessingProperties.ProcessKeepsValidBatch | src/processor.py:114-134 | a batch whose every listing survives loses nothing |
| ProcessingProperties.ProcessEmpty | src/processor.py:91-140 | an empty batch, or one where nothing survives, gives the empty table |
| ProcessingProperties.ProcessIdempotent | src/processor.py:81-173 | processing the listings of an output table again gives the same table |
| ProcessingProperties.UsdBatchKept | test_ui.py:19-42 | a batch of in-range whole USD prices such as "12.000 USD", under a table leaving USD unchanged, is kept whole and in order, and each USD amount is the written number |
| ProcessingProperties.ProcessRowsWellFormed | src/processor.py:108-134 | every output row's amount and currency are the cleaner's result for its raw price; the amount is in range; its USD amount is the converted amount and is in range too |
| ProcessingProperties.ProcessLabelsFollowStats | src/processor.py:142-162 | every label is computed against the mean and deviation of the output's own USD column |
| ProcessingProperties.DealTestMatchesStd | src/processor.py:152-155 | the squared deal test holds exactly when `p < mean - k * std` for the nonnegative `std` whose square is the variance, for every sign of k |
| ProcessingProperties.GetLabelRule | src/processor.py:149-160 | GANGA exactly below `mean - DEAL_THRESHOLD * std` (never with a NaN deviation); else POSIBLE ESTAFA exactly below `mean * SCAM_THRESHOLD`; else MERCADO |
| ProcessingProperties.BelowDealLineMonotone | src/processor.py:152-155 | for any nonnegative squared deviation, a price below the deal line of threshold k is below the line of every smaller threshold |
| ProcessingProperties.DealThresholdMonotone | src/processor.py:152-155 | for any batch statistics with a nonnegative or missing variance, a row labelled GANGA under a larger deal threshold is GANGA under the smaller one |
| ProcessingProperties.ScamThresholdMonotone | src/processor.py:153-158 | for a nonnegative mean, a row labelled POSIBLE ESTAFA under a smaller scam fraction is POSIBLE ESTAFA under the larger one |
| ProcessingProperties.ProcessReadsBounds | src/processor.py:108-134 | two configurations with the same price bounds keep the same listings, in the same order, with the same USD amounts, whatever their thresholds |
| ProcessingProperties.DealCountMonotone | src/processor.py:152-168 | on any batch, raising the deal threshold never increases the number of GANGA rows in the output |
| ProcessingProperties.ScamCountMonotone | src/processor.py:153-168 | on any batch, with a nonnegative minimum price, lowering the scam fraction never increases the number of POSIBLE ESTAFA rows |
| ProcessingProperties.LabelCountsCover | src/processor.py:165-168 | the GANGA, POSIBLE ESTAFA and MERCADO counts add up to the number of rows |
| ProcessingProperties.ProcessStats | src/processor.py:142-144 | for a nonempty output the mean lies between the smallest and largest USD amount and inside the price range; the deviation is missing exactly for one row and nonnegative otherwise |
| ProcessingProperties.ProcessMeanPositive | test_ui.py:140 | with a positive minimum price the batch mean is positive |
| ProcessingProperties.SingleRowLabel | src/processor.py:144-160 | the only row of a one-row table is never GANGA, and is MERCADO when the minimum price is positive and the scam fraction is at most one |

## Left out

- Floating point: amounts, rates, the mean and the deviation are exact reals. IEEE rounding, `inf` and overflow are not modelled.
- `float()` is modelled only on what reaches it, a string of ASCII digits and dots. Sign, exponent, `inf`/`nan` and underscore syntax cannot occur there.
- Unicode: in Python `\d`, `\w`, `isspace` and `float` also accept non-ASCII digits, letters and spaces. The model uses the ASCII classes (whitespace: the space and codes 9–13 and 28–31) for these.
- Non-string prices: the source's `isinstance(price_str, str)` test (`src/processor.py:34`) and NaN cells from records lacking a key. In the model a `Listing` always has a text price, a title and an address.
- The missing-`precio_raw`-column check (`src/processor.py:101-105`) cannot fail for `Listing` records. Extra keys of an input record are dropped by the column selection of `src/processor.py:171`. Neither is modelled.
- `pd.to_numeric` (`src/processor.py:111`) is the identity on an optional real.
- The `pd.isna` branch of `get_label` (`src/processor.py:150-151`) is unreachable because missing amounts are dropped first.
- The `.get(currency, 1)` default (`src/processor.py:128`) is unreachable because it is guarded by the membership test.
- The pandas row index, which keeps the original labels after filtering, is not modelled. `ProcessSelects` gives the original positions instead.
- A nonempty table without any of the three currencies, such as `{'EUR': 1.1}`, is kept by the constructor and then converts nothing (`src/processor.py:20`, `src/processor.py:128-129`). The model's table is keyed by `Currency`, so such a table can only be written `map[]`, which the constructor replaces by `DefaultRates`. Its pass-through behaviour is the one `ToUsd` states for a currency missing from a table.
- Zero rates would raise or give infinity in the source, so the rate type excludes them. Non-dict "falsy" constructor arguments are not modelled.
- ScamCountMonotone, ScamThresholdMonotone: they require a nonnegative minimum price or mean. With a negative mean, `mean * SCAM_THRESHOLD` falls as the fraction grows and the monotonicity reverses; the shipped minimum price is 0.1.
- Logging (every `logger` call) is left out, including the label counts of `src/processor.py:165-168`. Only their sum is stated (`LabelCountsCover`).
- The scrapers, the Streamlit app, the command-line entry point and the `__main__` demo of `src/processor.py:176-185` are I/O and are not part of this model.
- DataProcessing.GetLabel: it has no contract of its own. Its rule is stated with the deviation `std` in `GetLabelRule`, because Dafny has no square root.
- Text.Contains: it has no contract of its own. Python's `in` on strings (`src/processor.py:42`, `55`, `58`) is characterised by `ContainsAsSlice`, `ContainsPiece` and `MissingChar`.
- Text.ReplaceChar: it has no contract of its own. The one-character `str.replace` of `src/processor.py:57`, `60` and `63` is characterised by `ReplaceCharRemoves`, `ReplaceAbsent`, `ReplaceCharAbsent` and `ReplaceCharAppend`.
- DataProcessing.BelowDealLine: it has no contract of its own. The deal test of `src/processor.py:152` and `155`, in squared form, is characterised by `DealTestMatchesStd` and `BelowDealLineMonotone`.
- PriceCleaning.DetectCurrency: it has no contract of its own. The search of `src/processor.py:41-44` is characterised by `DetectCurrencyCases`, `FirstContainedFinds` and `UsdAnywhere`.
- PriceCleaning.RemoveCurrencyTokens: it has no contract of its own. The word removal of `src/processor.py:51` is characterised by `RemoveTokensSkeleton` and `TokenRemovalIrrelevant`.
- PriceCleaning.NormalizeSeparators: it has no contract of its own. The separator rewriting of `src/processor.py:55-63` is characterised by `SeparatorsNormalized` and `NormalizeEuropean`.
- Text.Strip: it has no contract of its own. The `strip()` of `src/processor.py:51` is characterised by the contracts of `StripLeading` and `StripTrailing` and by `SkeletonStrip`.
- Statistics.Mean: it has no contract of its own. The `mean()` of `src/processor.py:143` is computed by `DataProcessing.ComputeStats` and characterised by `MinMeanMax`, `MeanBetween` and `ProcessStats`.
- DataProcessing.Process: it has no contract of its own. It is the meaning of `process_data` (`src/processor.py:81-173`), computed by `ProcessData` and characterised by `ProcessIsLabelled` and the lemmas built on it.
- DataProcessing.UsdStage: it has no contract of its own. The rows reaching the statistics (`src/processor.py:108-134`) are characterised by `UsdStageSurvivors`.
