# Market regime and strategy attribution engine, modelled in Dafny

The engine reads a daily price series from a CSV file. From it, it computes
three feature series:

- log returns;
- a 20-day rolling volatility of those returns;
- a 20-day rolling drawdown of the prices.

The volatility and drawdown values, paired row by row, form a two-column
feature matrix. K-means groups the rows of that matrix into three market
regimes. The engine then backtests three strategies on the prices:

- buy and hold;
- momentum over a lookback;
- mean reversion on a z-score over a window.

For each strategy it reports the Sharpe ratio, maximum drawdown, total return
and annual return. It then reports the same metrics again for the returns of
each regime separately.

The model follows the program component by component. Each part of the
source is modelled in the style that part is written in.

- **Containers.** `Matrix` and `TimeSeries` are classes. `Matrix` keeps its
  row-major `array<real>`. `TimeSeries` keeps `values` and `dates` sequences.
  Both have checked reads and writes.
- **k-means engine.** `KMeans` is a class whose methods update `centroids`
  and `inertia`. Seeding, assignment and the update step are written as
  loops over the matrices. Each loop is proved against pure specification
  functions in `KMeansSpec`:
  - `Seeds` for seeding;
  - `Assignment` and `Inertia` for assignment;
  - `Means` and `Movement` for the update step;
  - `FitLoop` for the whole fit.

  Properties of the algorithm are then proved as lemmas about those
  functions.
- **Feature builders, strategies, backtester and metrics.** These are
  methods with loops. Each is proved equal to a function of its input, and
  lemmas carry the properties. Examples:
  - log returns telescope to the log of the overall price ratio;
  - drawdown is at most 0, above -1, and unchanged by scaling;
  - the equity curve is 100 times the compounded returns;
  - buy and hold tracks the price;
  - signals are in {-1, 0, 1}, use no future prices, and start with a flat
    warm-up.
- **CSV reader.** The tokenizer is a quote-toggling scanner. The cleaner
  trims the ends and then erases commas. The header lookup keeps the last
  match. The row loop appends one price and one date per line until the
  number parser rejects a price cell; that exception ends the read.
- **`main.cpp`.** The regime bookkeeping in `main.cpp` is modelled by:
  - label counting;
  - partitioning the returns by label;
  - the per-regime report;
  - assembling the feature matrix.

Real arithmetic is exact (Dafny `real`). `sqrt`, `log` and `stod` are parameters; `stod` yields either the number or the exception it throws, and an exception from it ends the read.
The predicates `IsSqrt` (non-negative root, `sqrt(x) * sqrt(x) == x` for
`x >= 0`) and `IsLog` (`log(x * y) == log(x) + log(y)` for positive `x`, `y`)
state what is assumed of them, in the lemmas that need it. The random
numbers of seeding are parameters too:

- `first` is the index of the first centroid row.
- `draws[c - 1]` is the uniform variate for centroid `c`. The target is
  `draws[c - 1] * sum`, as with `uniform_real_distribution(0, sum)`.

Where the source and its design description disagree, the model follows the
source:

- **No cumulative sum reaches the target.** The design says seeding then
  falls back to the last row scanned. The code falls back to row 0
  (`Kmeans.cpp:38`).
- **Empty cluster.** The design says an empty cluster keeps its centroid.
  The code makes it the zero vector, because `new_centroids` starts at zeros
  and is never divided (`Kmeans.cpp:80`, `:92`).

## Model

| member | source | states |
|---|---|---|
| Matrices.Matrix.constructor | market_regime_engine/include/core/Matrix.hpp:10 | `rows == r`, `cols == c`, a fresh buffer with every cell 0.0 |
| Matrices.Matrix.Get | market_regime_engine/include/core/Matrix.hpp:17-20 | an in-range read returns cell (i, j) of the row-major view |
| Matrices.Matrix.At | market_regime_engine/include/core/Matrix.hpp:17-20 | fails with OutOfRange exactly when `i >= rows` or `j >= cols`; otherwise returns cell (i, j) |
| Matrices.Matrix.Set | market_regime_engine/include/core/Matrix.hpp:12-15 | fails with OutOfRange exactly when out of range, with data unchanged. Otherwise only offset `i * cols + j` changes, and the row view changes only at (i, j) |
| Matrices.Matrix.GetRow | market_regime_engine/include/core/Matrix.hpp:22-29 | fails exactly when `i >= rows`; otherwise returns row i, whose element j is cell (i, j) |
| Matrices.Matrix.Rows | market_regime_engine/include/core/Matrix.hpp:6-8 | the row-major view has `rows` rows |
| Matrices.OffsetInRange | market_regime_engine/include/core/Matrix.hpp:14 | an in-range (i, j) addresses an offset below `rows * cols` |
| Matrices.OffsetInjective | market_regime_engine/include/core/Matrix.hpp:14 | distinct in-range pairs address distinct offsets |
| Matrices.Cells | market_regime_engine/include/core/Matrix.hpp:6-8 | the row view of a buffer: `rows` rows of `cols` cells, cell (i, j) at offset `i * cols + j` |
| Matrices.CellsUpdate | market_regime_engine/include/core/Matrix.hpp:12-15 | writing one offset changes exactly one cell of the row view |
| Series.TimeSeries.Empty | market_regime_engine/include/core/TimeSeries.hpp:11 | the default series has no values and no dates |
| Series.TimeSeries.Sized | market_regime_engine/include/core/TimeSeries.hpp:12 | `TimeSeries(n)`: n values all 0.0 and n empty dates |
| Series.TimeSeries.Size | market_regime_engine/include/core/TimeSeries.hpp:14 | the size is the number of values, whatever the dates |
| Series.TimeSeries.At | market_regime_engine/include/core/TimeSeries.hpp:16-19 | fails with OutOfRange exactly when `i >= size()`; otherwise returns `values[i]` |
| Series.TimeSeries.Set | market_regime_engine/include/core/TimeSeries.hpp:21-24 | fails exactly when out of range with values unchanged; otherwise only `values[i]` changes; dates never change |
| Series.ShiftedDates | market_regime_engine/include/features/Returns.hpp:16-18 | output date i is input date `i + offset` when that exists, and empty otherwise |
| Returns.LogReturnValues | market_regime_engine/include/features/Returns.hpp:15 | N - 1 values, value i the log of `p[i + 1] / p[i]` |
| Returns.LogReturns | market_regime_engine/include/features/Returns.hpp:7-21 | invalid_argument exactly when there are fewer than 2 prices or a price is not positive. Otherwise: N - 1 log returns, and date i - 1 is price date i when present |
| Returns.LogReturnsTelescope | market_regime_engine/include/features/Returns.hpp:15 | the log returns sum to the log of last price over first price |
| Returns.LogReturnsPrefix | market_regime_engine/include/features/Returns.hpp:14-15 | dropping the last price drops exactly the last return: return i depends only on prices i and i + 1 |
| Returns.LogReturnsScaleInvariant | market_regime_engine/include/features/Returns.hpp:15 | scaling all prices by a positive constant leaves the returns unchanged: they depend on price ratios only |
| Returns.LogProduct | market_regime_engine/include/features/Returns.hpp:15 | the assumed logarithm turns products of positives into sums |
| Numeric.WindowMean | market_regime_engine/include/features/Volatility.hpp:15-19 | the accumulate-then-divide loop yields the mean of the window |
| Numeric.WindowSqDev | market_regime_engine/include/features/Volatility.hpp:21-25 | the loop yields the sum of squared deviations from the given mean |
| Numeric.SampleVarianceNonNegative | market_regime_engine/include/features/Volatility.hpp:26 | the Bessel-corrected variance is at least 0 |
| Numeric.ConstantVariance | market_regime_engine/include/features/Volatility.hpp:21-26 | a constant window has variance 0 |
| Numeric.MaxIsMaximum | market_regime_engine/include/features/Drawdown.hpp:15-18 | the running maximum bounds every element and is one of them |
| Volatility.VolValues | market_regime_engine/include/features/Volatility.hpp:12-28 | size - window + 1 values, value i the annualised volatility of window i |
| Volatility.WindowVol | market_regime_engine/include/features/Volatility.hpp:15-28 | one window's mean, squared deviations, division by window - 1 and `sqrt(variance * 252)` |
| Volatility.RollingVol | market_regime_engine/include/features/Volatility.hpp:7-34 | invalid_argument exactly when size < window. Otherwise the window values, with date i equal to return date `i + window - 1` when present |
| Volatility.VolNonNegative | market_regime_engine/include/features/Volatility.hpp:26-28 | every volatility is at least 0 |
| Volatility.VolConstantWindow | market_regime_engine/include/features/Volatility.hpp:15-28 | a constant window has volatility 0 |
| Volatility.VolWindowed | market_regime_engine/include/features/Volatility.hpp:14-28 | value i depends only on returns `i .. i + window - 1` |
| Drawdown.RollingValues | market_regime_engine/include/features/Drawdown.hpp:12-20 | size - window + 1 values, one per window |
| Drawdown.WindowMax | market_regime_engine/include/features/Drawdown.hpp:15-18 | the scan returns the maximum of the window |
| Drawdown.RollingDrawdown | market_regime_engine/include/features/Drawdown.hpp:7-27 | invalid_argument exactly when window > size, and OutOfRange for a window of 0. Otherwise value i is (last - max) / max over the window, with date i equal to price date `i + window - 1` when present |
| Drawdown.WindowDrawdownSign | market_regime_engine/include/features/Drawdown.hpp:14-20 | for positive prices a window drawdown is at most 0, and exactly 0 when the last price is the window maximum |
| Drawdown.MaxDrawdownUpTo | market_regime_engine/include/features/Drawdown.hpp:33-41 | the worst drawdown so far is at most 0 and at most every fall seen |
| Drawdown.MaxDrawdown | market_regime_engine/include/features/Drawdown.hpp:29-43 | the running-peak loop computes the maximum drawdown of the curve |
| Drawdown.MaxDrawdownBounds | market_regime_engine/include/features/Drawdown.hpp:30-42 | 0 for fewer than two points; always at most 0 and at most every fall from the running peak |
| Drawdown.MaxDrawdownAttained | market_regime_engine/include/features/Drawdown.hpp:35-41 | the result is 0 or the fall at some step |
| Drawdown.MaxDrawdownAboveMinusOne | market_regime_engine/include/features/Drawdown.hpp:35-41 | for a positive curve the result is above -1 |
| Drawdown.MaxDrawdownNonDecreasing | market_regime_engine/include/features/Drawdown.hpp:35-41 | a non-decreasing curve has maximum drawdown 0 |
| Drawdown.MaxDrawdownScaleInvariant | market_regime_engine/include/features/Drawdown.hpp:39-40 | scaling the curve by a positive constant leaves the maximum drawdown unchanged |
| Drawdown.PositivePeaks | market_regime_engine/include/features/Drawdown.hpp:33-38 | for a positive curve the running peak is positive and at least the current point |
| Drawdown.FallOfPositive | market_regime_engine/include/features/Drawdown.hpp:39 | for a positive curve each fall lies in (-1, 0] |
| Strategies.BuyHoldValues | market_regime_engine/include/strategies/BuyHold.hpp:7-9 | one signal per price |
| Strategies.BuyHoldSignals | market_regime_engine/include/strategies/BuyHold.hpp:6-15 | never fails, even for an empty series; every signal is 1; dates are copied index for index where present |
| Strategies.MomentumValues | market_regime_engine/include/strategies/Momentum.hpp:13-24 | one signal per price, signal i as in `MomentumAt` |
| Strategies.MomentumSignals | market_regime_engine/include/strategies/Momentum.hpp:8-31 | invalid_argument exactly when size < lookback; otherwise the momentum signals, with dates copied index for index |
| Strategies.MomentumDirection | market_regime_engine/include/strategies/Momentum.hpp:22-24 | past the warm-up the signal is +1 exactly when the price rose over the lookback, and -1 otherwise. An unchanged price gives -1 |
| Strategies.MeanReversionValues | market_regime_engine/include/strategies/MeanReversion.hpp:15-47 | one signal per price, signal i as in `ReversionAt` |
| Strategies.ReversionSignal | market_regime_engine/include/strategies/MeanReversion.hpp:25-47 | mean and variance of the previous window, the z-score guard, and the threshold comparison |
| Strategies.MeanReversionSignals | market_regime_engine/include/strategies/MeanReversion.hpp:10-55 | invalid_argument exactly when size < window; otherwise the reversion signals, with dates copied index for index |
| Strategies.FlatPrefix | market_regime_engine/include/strategies/MeanReversion.hpp:17-22 | the first loop: signal 0 and the price's date at every index below the window |
| Strategies.ReversionSuffix | market_regime_engine/include/strategies/MeanReversion.hpp:24-52 | the second loop: completes the signals to `MeanReversionValues` and the dates to the copied labels |
| Strategies.MeanReversionDefault | market_regime_engine/include/strategies/MeanReversion.hpp:7-8 | a strategy built with only a window has threshold 1.0 |
| Strategies.FlatWindowIsFlat | market_regime_engine/include/strategies/MeanReversion.hpp:39-47 | when the window's standard deviation is at most 1e-8 the signal is 0, for a threshold of at least 0 |
| Strategies.MeanReversionDirection | market_regime_engine/include/strategies/MeanReversion.hpp:39-45 | with a threshold of at least 0: -1 only when the price is above the window mean, and +1 only when below |
| Strategies.SignalValues | market_regime_engine/include/strategies/Strategy.hpp:8 | every strategy gives one signal per price |
| Strategies.GenerateSignals | market_regime_engine/include/strategies/Strategy.hpp:8 | dispatch on the strategy. It fails with invalid_argument exactly when the series is shorter than the lookback or window; otherwise it returns that strategy's signals and copied dates |
| Strategies.SignalsAreSignals | market_regime_engine/include/strategies/Momentum.hpp:15-25 | every signal of every strategy is -1, 0 or 1 |
| Strategies.WarmUpIsFlat | market_regime_engine/include/strategies/MeanReversion.hpp:17-22 | momentum and mean reversion are 0 during their warm-up prefix |
| Strategies.SignalsAreCausal | market_regime_engine/include/strategies/MeanReversion.hpp:24-39 | signal i is the same for any two series that agree up to price i: no look-ahead |
| Backtester.StrategyReturnValues | market_regime_engine/include/backtest/Backtester.hpp:18-27 | N - 1 returns, return i - 1 being signal i - 1 times the price move from i - 1 to i |
| Backtester.EquityValues | market_regime_engine/include/backtest/Backtester.hpp:19-28 | N values starting at 100 |
| Backtester.EquityDates | market_regime_engine/include/backtest/Backtester.hpp:30-33 | N equity dates |
| Backtester.Run | market_regime_engine/include/backtest/Backtester.hpp:13-37 | the strategy's error is passed on, and an empty price series fails with a length error. Otherwise: the signals are the strategy's output; the returns and equity are those values; equity date 0 stays empty and every other date is shifted as in the source |
| Backtester.Compound | market_regime_engine/include/backtest/Backtester.hpp:18-34 | the loop fills the returns and the equity curve and their dates |
| Backtester.CompoundStep | market_regime_engine/include/backtest/Backtester.hpp:23-34 | one iteration keeps the loop invariant: both prefixes are filled as in the specification |
| Backtester.Advance | market_regime_engine/include/backtest/Backtester.hpp:24-28 | step i writes return i - 1 and `equity[i] = equity[i - 1] * (1 + return)`, and nothing else |
| Backtester.CopiedAll | market_regime_engine/include/backtest/Backtester.hpp:30-33 | the date copying of the loop yields the shifted return dates and the equity dates |
| Backtester.EquityClosedForm | market_regime_engine/include/backtest/Backtester.hpp:28 | `equity[n]` is 100 times the product of `(1 + r)` over the first n returns |
| Backtester.FlatSignalsKeepEquity | market_regime_engine/include/backtest/Backtester.hpp:24-28 | all-zero signals keep the equity at 100 |
| Backtester.LongSignalsTrackPrice | market_regime_engine/include/backtest/Backtester.hpp:24-28 | all-one signals give `equity[n] = 100 * p[n] / p[0]` |
| Backtester.BuyHoldTracksPrice | market_regime_engine/include/strategies/BuyHold.hpp:9 | under buy and hold the strategy returns are the simple price returns, and the equity tracks the price |
| Metrics.SharpeValue | market_regime_engine/include/backtest/Metrics.hpp:8-31 | 0 for fewer than two returns |
| Metrics.SharpeAsWritten | market_regime_engine/include/backtest/Metrics.hpp:9-25 | the code's ratio is undefined (NaN) exactly for a single return; otherwise it is the Sharpe value |
| Metrics.SharpeSingleReturn | market_regime_engine/include/backtest/Metrics.hpp:22-25 | for one return the squared deviation is 0, the code divides it by 0, and the intended ratio is 0 |
| Metrics.Sharpe | market_regime_engine/include/backtest/Metrics.hpp:8-31 | the two accumulation loops, the guard and the division compute the Sharpe value |
| Metrics.SharpeConstantIsZero | market_regime_engine/include/backtest/Metrics.hpp:17-25 | constant returns have Sharpe ratio 0 |
| Metrics.SharpeSign | market_regime_engine/include/backtest/Metrics.hpp:27-30 | past the guard the ratio is positive or negative exactly as `252 * mean - rf` is |
| Metrics.SharpeRiskFreeAntitone | market_regime_engine/include/backtest/Metrics.hpp:27-30 | a higher risk-free rate never raises the ratio |
| Metrics.MaxDrawdown | market_regime_engine/include/backtest/Metrics.hpp:33-35 | equals the drawdown module's maximum drawdown |
| Metrics.TotalReturn | market_regime_engine/include/backtest/Metrics.hpp:37-40 | 0 for fewer than two points |
| Metrics.TotalReturnSign | market_regime_engine/include/backtest/Metrics.hpp:39 | for a positive start the total return is positive exactly when the curve ends higher, and negative exactly when it ends lower |
| Metrics.TotalReturnCompounds | market_regime_engine/include/backtest/Metrics.hpp:39 | the total return of a backtest curve is the compounded growth of its returns less one |
| Metrics.BuyHoldTotalReturn | market_regime_engine/include/backtest/Metrics.hpp:39 | buy and hold earns the total return of the price series itself |
| Metrics.AnnualReturn | market_regime_engine/include/backtest/Metrics.hpp:42-52 | 0 for no returns, otherwise 252 times the mean |
| Metrics.AnnualReturnBounds | market_regime_engine/include/backtest/Metrics.hpp:43-51 | daily returns in [lo, hi] give an annual return in [252 lo, 252 hi] |
| Metrics.AnnualReturnConstant | market_regime_engine/include/backtest/Metrics.hpp:43-51 | a constant daily return c gives 252 c |
| CsvReader.Fields | market_regime_engine/src/CSVReader.cpp:8-28 | the tokenizer always yields at least one field |
| CsvReader.ParseCsvLine | market_regime_engine/src/CSVReader.cpp:8-28 | the character loop with the quote toggle yields exactly `Fields(line)` |
| CsvReader.FieldCount | market_regime_engine/src/CSVReader.cpp:13-25 | the field count is 1 plus the number of commas outside quotes |
| CsvReader.FieldsJoin | market_regime_engine/src/CSVReader.cpp:13-25 | joining the fields with "," gives the line with every quote removed |
| CsvReader.FieldsHaveNoQuotes | market_regime_engine/src/CSVReader.cpp:16-17 | no field contains a quote character |
| CsvReader.ScanQuotes | market_regime_engine/src/CSVReader.cpp:16-17 | the scanner is inside quotes exactly after an odd number of quote characters |
| CsvReader.DoubledQuoteVanishes | market_regime_engine/src/CSVReader.cpp:16-17 | `"a""b"` gives the single field `ab`: a doubled quote is not the escape of section 2, item 7 of RFC 4180 |
| CsvReader.QuotedCommaStays | market_regime_engine/src/CSVReader.cpp:18-22 | a comma inside quotes stays inside its field |
| CsvReader.TrimFrontSuffix | market_regime_engine/src/CSVReader.cpp:33-35 | the front trim keeps a suffix of the input that does not start with a space or quote, and every character it drops is a space or quote |
| CsvReader.TrimBackPrefix | market_regime_engine/src/CSVReader.cpp:36-38 | the back trim keeps a prefix of the input that does not end with a space or quote, and every character it drops is a space or quote |
| CsvReader.CleanValue | market_regime_engine/src/CSVReader.cpp:31-42 | the trimming loops and the erase compute `Cleaned` |
| CsvReader.EraseCommas | market_regime_engine/src/CSVReader.cpp:40 | the erase-remove removes every comma and keeps the rest in order |
| CsvReader.CleanedHasNoComma | market_regime_engine/src/CSVReader.cpp:40 | a cleaned value contains no comma |
| CsvReader.CleanedIsSubsequence | market_regime_engine/src/CSVReader.cpp:31-41 | a cleaned value is a subsequence of its input |
| CsvReader.CleanedCommaFree | market_regime_engine/src/CSVReader.cpp:33-40 | for comma-free input the result is the trimmed input and neither starts nor ends with a space or quote |
| CsvReader.TrimBeforeErase | market_regime_engine/src/CSVReader.cpp:33-40 | trimming happens before the erase, so `1 ,` cleans to `1 ` |
| CsvReader.LastMatch | market_regime_engine/src/CSVReader.cpp:65-68 | the last header equal to the name, or none when no header matches |
| CsvReader.LastDate | market_regime_engine/src/CSVReader.cpp:65-71 | the last header equal to "Date" or "date", or none |
| CsvReader.FindColumns | market_regime_engine/src/CSVReader.cpp:63-76 | runtime_error exactly when no header is the price column; otherwise the last matching price and date columns |
| CsvReader.CleanHeaders | market_regime_engine/src/CSVReader.cpp:58-61 | every header is replaced by its cleaned value |
| CsvReader.ReadHeader | market_regime_engine/src/CSVReader.cpp:58-76 | tokenizing, cleaning and the lookup together on the header line; the price column defaults to "Close" (market_regime_engine/include/data/CSVreader.hpp:8) |
| CsvReader.ParseRecord | market_regime_engine/src/CSVReader.cpp:79-89 | fails with the number parser's exception exactly when the line has the price column and the parser rejects that cell; otherwise the line's price (0.0 without the column) and date, as `RecordPrice` and `RecordDate` |
| CsvReader.ShortRowReadsZero | market_regime_engine/src/CSVReader.cpp:82-86 | a row with too few fields for the price column reads price 0.0 and never calls the number parser, so it cannot fail |
| CsvReader.EmptyPriceCellFails | market_regime_engine/src/CSVReader.cpp:84-86 | the line `2020-01-02,` with the price in column 1 hands the empty cell to the number parser, so a parser that rejects "" fails the read |
| CsvReader.FirstRejectedIsFirst | market_regime_engine/src/CSVReader.cpp:78-86 | no line is rejected exactly when every line is accepted; every line before the first rejected one is accepted |
| CsvReader.FirstRejectedStays | market_regime_engine/src/CSVReader.cpp:78-86 | lines after a rejected one do not change which line is the first rejected |
| CsvReader.RejectedAfterAccepted | market_regime_engine/src/CSVReader.cpp:78-86 | a rejected line after accepted ones is where the read stops |
| CsvReader.AppendRows | market_regime_engine/src/CSVReader.cpp:78-93 | fails exactly when some line's price is rejected, with that first rejected line's exception; the series gains one price and one date for each line before it (all lines when none is rejected), in order |
| CsvReader.AppendRecord | market_regime_engine/src/CSVReader.cpp:79-92 | one iteration either fails with the line's exception and leaves the series as it was, or appends exactly that line's price and date |
| CsvReader.RejectedRowEndsRead | market_regime_engine/src/CSVReader.cpp:84-86 | a line whose price cell the number parser rejects, after accepted lines, is the count of lines read |
| CsvReader.AcceptedRowExtends | market_regime_engine/src/CSVReader.cpp:84-92 | an accepted line after accepted lines keeps the read going and adds its own price and date |
| CsvReader.PriceAt | market_regime_engine/src/CSVReader.cpp:84-91 | price k of the first n lines, for an accepted line k, is the number the parser read from it |
| CsvReader.RowStep | market_regime_engine/src/CSVReader.cpp:79-92 | a rejected line after accepted ones ends the read there; an accepted one extends the prices and dates by its own |
| CsvReader.AppendedPrice | market_regime_engine/src/CSVReader.cpp:84-91 | every line before the first rejected one is accepted, and appended price k is the price field of line k |
| CsvReader.DateAt | market_regime_engine/src/CSVReader.cpp:87-92 | date k of the first n lines is line k's cleaned date field, or empty when the line has no date column |
| CsvReader.AppendedDate | market_regime_engine/src/CSVReader.cpp:87-92 | for every line read before the first rejected one, appended date k is the date field of line k |
| Tally.CountsTotal | market_regime_engine/src/main.cpp:16-19 | the counters add up to the number of labels in range |
| Tally.AllInRange | market_regime_engine/src/main.cpp:17-18 | with every label in range no label goes uncounted |
| Tally.CountsStep | market_regime_engine/src/Kmeans.cpp:84-85 | counting one label raises exactly its own counter by one |
| RegimeReport.CountRegimes | market_regime_engine/src/main.cpp:15-19 | the counter of each regime is its number of labels, and the counts sum to the number of labels |
| RegimeReport.PartitionReturns | market_regime_engine/src/main.cpp:52-59 | regime r's returns are `returns[i]` for `i < min(\|regimes\|, \|returns\|)` with label r, in index order; label i goes with return i |
| RegimeReport.PartitionSize | market_regime_engine/src/main.cpp:55-58 | a partition's size is the count of its label in the common prefix |
| RegimeReport.PartitionMembers | market_regime_engine/src/main.cpp:55-58 | x is in regime r's partition exactly when some aligned index has label r and return x |
| RegimeReport.PartitionsCover | market_regime_engine/src/main.cpp:52-59 | the partition sizes add up to the number of aligned labels in range, so the partitions are disjoint. With every label in range they add up to `min(\|regimes\|, \|returns\|)` |
| RegimeReport.ReportSound | market_regime_engine/src/main.cpp:61-68 | every reported line belongs to a regime with a non-empty partition and carries its annual return and Sharpe ratio |
| RegimeReport.ReportComplete | market_regime_engine/src/main.cpp:52-61 | every regime with a non-empty partition is reported |
| RegimeReport.ReportSorted | market_regime_engine/src/main.cpp:52 | lines come in strictly increasing regime order |
| RegimeReport.RegimePerformance | market_regime_engine/src/main.cpp:52-70 | the partition loop with its metrics yields the report |
| RegimeReport.PrintRegimePerformance | market_regime_engine/src/main.cpp:46-71 | fails exactly when the backtest fails; otherwise gives the report of the strategy's returns |
| RegimeReport.FeatureMatrix | market_regime_engine/src/main.cpp:88-94 | a fresh `min(\|vol\|, \|dd\|)` x 2 matrix whose row i is `(vol[i], dd[i])` |
| RegimeReport.FeatureAlignment | market_regime_engine/src/main.cpp:84-94 | feature row i is dated with price date `i + window - 1` for drawdown but `i + window` for volatility: the two columns are one day apart |
| KMeansSpec.SqDist | market_regime_engine/src/Kmeans.cpp:110-118 | squared distance is at least 0 |
| KMeansSpec.SqDistSelf | market_regime_engine/src/Kmeans.cpp:110-118 | a point is at distance 0 from itself |
| KMeansSpec.SqDistZero | market_regime_engine/src/Kmeans.cpp:110-118 | distance 0 means equal points |
| KMeansSpec.SqrtOrder | market_regime_engine/src/Kmeans.cpp:117 | comparing roots is comparing squares, so the model compares squared distances |
| KMeansSpec.Nearest | market_regime_engine/src/Kmeans.cpp:60-70 | the chosen centroid index is below the number scanned |
| KMeansSpec.NearestIsNearest | market_regime_engine/src/Kmeans.cpp:62-70 | the chosen centroid is no farther than any other, and strictly nearer than every lower index: the lowest index wins ties |
| KMeansSpec.MinSqDistIsMinimum | market_regime_engine/src/Kmeans.cpp:59-70 | the minimum distance bounds every centroid's and is attained |
| KMeansSpec.Assignment | market_regime_engine/src/Kmeans.cpp:54-72 | one label per row, each in [0, k) |
| KMeansSpec.Inertia | market_regime_engine/src/Kmeans.cpp:55-73 | inertia is at least 0 |
| KMeansSpec.InertiaIsMinimalCost | market_regime_engine/src/Kmeans.cpp:55-73 | inertia is the summed squared distance to the assigned centroids, and no other labelling costs less |
| KMeansSpec.Weights | market_regime_engine/src/Kmeans.cpp:20-32 | one non-negative weight per row, the squared distance to the nearest chosen centroid |
| KMeansSpec.Reach | market_regime_engine/src/Kmeans.cpp:37-45 | the first index whose cumulative weight reaches the target, or none |
| KMeansSpec.ChosenFallback | market_regime_engine/src/Kmeans.cpp:38 | when the total weight is below the target no index qualifies and row 0 is chosen |
| KMeansSpec.ChosenHasWeight | market_regime_engine/src/Kmeans.cpp:39-45 | for a positive target the chosen row has positive weight |
| KMeansSpec.NoDuplicateSeed | market_regime_engine/src/Kmeans.cpp:20-45 | with a positive draw and positive total weight, a new seed differs from every seed chosen before it |
| KMeansSpec.TargetWithinTotal | market_regime_engine/src/Kmeans.cpp:34-35 | a draw in (0, 1] gives a target in (0, sum] |
| KMeansSpec.SeedIndices | market_regime_engine/src/Kmeans.cpp:14-45 | c indices of rows, the first being `first` |
| KMeansSpec.Seeds | market_regime_engine/src/Kmeans.cpp:12-49 | c centroids of the matrix's width, each a copy of a row of X |
| KMeansSpec.SeedsStep | market_regime_engine/src/Kmeans.cpp:19-49 | seed c - 1 is the row chosen by the cumulative scan over the weights of the earlier seeds |
| KMeansSpec.ClusterSumsStep | market_regime_engine/src/Kmeans.cpp:83-89 | adding row n changes only its own cluster's sum, by that row |
| KMeansSpec.Means | market_regime_engine/src/Kmeans.cpp:80-97 | k centroids of the matrix's width |
| KMeansSpec.CentroidOfCluster | market_regime_engine/src/Kmeans.cpp:91-97 | a non-empty cluster of equal rows has that row as its mean, and an empty cluster's centroid is the zero vector |
| KMeansSpec.EmptySums | market_regime_engine/src/Kmeans.cpp:80-92 | an empty cluster's sum stays the zero vector |
| KMeansSpec.CentroidInBox | market_regime_engine/src/Kmeans.cpp:91-95 | a non-empty cluster's mean lies within the bounds of its rows in every coordinate |
| KMeansSpec.StillCentroidsConverge | market_regime_engine/src/Kmeans.cpp:99-107 | unchanged centroids have movement 0 |
| KMeansSpec.MovementNonNegative | market_regime_engine/src/Kmeans.cpp:99-104 | movement is at least 0 |
| KMeansSpec.FitLoop | market_regime_engine/src/Kmeans.cpp:127-138 | the rounds of a fit give one label per row in [0, k), k centroids of the matrix's width, and inertia at least 0 |
| KMeansSpec.FitPredictSpec | market_regime_engine/src/Kmeans.cpp:120-138 | fails with invalid_argument exactly when there are fewer rows than k |
| KMeansSpec.LastAssigned | market_regime_engine/src/Kmeans.cpp:127-138 | the centroids of the last assignment pass of a fit have the fit's shape |
| KMeansSpec.FitReportsOnePass | market_regime_engine/src/Kmeans.cpp:128-138 | the labels and inertia a fit reports are those of its last assignment pass |
| KMeansSpec.FitCentroids | market_regime_engine/src/Kmeans.cpp:127-138 | with no rounds the centroids are the seeds; otherwise they are the means of some labelling |
| Clustering.RowOf | market_regime_engine/include/core/Matrix.hpp:22-29 | the copying loop yields row i |
| Clustering.ZeroRows | market_regime_engine/src/Kmeans.cpp:80 | a zero-filled matrix has all-zero rows |
| Clustering.EuclideanDistance | market_regime_engine/src/Kmeans.cpp:110-118 | the loop computes the root of the squared distance |
| Clustering.NearestCentroid | market_regime_engine/src/Kmeans.cpp:59-70 | the scan with strict `<` returns the nearest centroid, lowest index on ties, and its distance |
| Clustering.AssignRows | market_regime_engine/src/Kmeans.cpp:54-76 | the labels and summed squared distances of the assignment |
| Clustering.CopyRow | market_regime_engine/src/Kmeans.cpp:47-49 | only centroid c changes, to row i of X |
| Clustering.AddRow | market_regime_engine/src/Kmeans.cpp:86-88 | only cluster c's sum changes, by row i |
| Clustering.DivideRow | market_regime_engine/src/Kmeans.cpp:93-95 | only cluster c changes, divided by its count |
| Clustering.Accumulate | market_regime_engine/src/Kmeans.cpp:83-89 | the counts are the number of rows per cluster, and the sums are the sums of their rows |
| Clustering.DivideClusters | market_regime_engine/src/Kmeans.cpp:91-97 | non-empty clusters are divided by their counts, and empty ones are left as they are |
| Clustering.MeansFromSums | market_regime_engine/src/Kmeans.cpp:80-97 | dividing the sums gives the cluster means, with zero vectors for empty clusters |
| Clustering.MovementOf | market_regime_engine/src/Kmeans.cpp:99-104 | the loop sums the distances old to new over all k centroids |
| Clustering.SeedDistances | market_regime_engine/src/Kmeans.cpp:20-29 | each row's distance to its nearest chosen centroid, whose square is its weight |
| Clustering.DistancesAreWeights | market_regime_engine/src/Kmeans.cpp:20-32 | the squared distances are the seeding weights |
| Clustering.WeightSum | market_regime_engine/src/Kmeans.cpp:31-32 | the sum of squared distances is the total weight |
| Clustering.ChooseSeed | market_regime_engine/src/Kmeans.cpp:37-45 | the cumulative scan with break chooses the first index reaching the target, or 0 |
| Clustering.NextSeed | market_regime_engine/src/Kmeans.cpp:20-45 | the seed chosen for a draw u is the row the scan picks for target `u * sum` |
| Clustering.FirstSeed | market_regime_engine/src/Kmeans.cpp:14-17 | centroid 0 becomes row `first` |
| Clustering.AddSeed | market_regime_engine/src/Kmeans.cpp:19-49 | one seeding round keeps the first c + 1 centroids equal to the seeds |
| Clustering.SeedRows | market_regime_engine/src/Kmeans.cpp:14-50 | all k centroids are the seeds |
| Clustering.KMeans.constructor | market_regime_engine/include/models/KMeans.hpp:7-20 | stores k, max_iters (default 100) and tolerance (default 1e-4); no centroids yet (0 x 0) and inertia 0 |
| Clustering.KMeans.InitializeCentroids | market_regime_engine/src/Kmeans.cpp:7-51 | a fresh k x cols centroid matrix holding the seeds |
| Clustering.KMeans.AssignClusters | market_regime_engine/src/Kmeans.cpp:53-77 | returns the assignment labels and sets inertia to the assignment's inertia |
| Clustering.KMeans.UpdateCentroids | market_regime_engine/src/Kmeans.cpp:79-108 | the centroids become the cluster means, with zero vectors for empty clusters. Returns true exactly when the movement is below the tolerance |
| Clustering.KMeans.Round | market_regime_engine/src/Kmeans.cpp:128-134 | one assign and update. On convergence the fit ends with that round's labels, which come from before the update; otherwise the fit continues from the new centroids |
| Clustering.KMeans.FitPredict | market_regime_engine/src/Kmeans.cpp:120-138 | invalid_argument exactly when rows < k, with state unchanged. Otherwise the centroids are a k x cols matrix, and the labels, centroids and inertia are those of the specified fit. k, max_iters and tolerance never change |

## Left out

- Floating point: IEEE rounding, NaN and infinity are not modelled; `real` is exact.
- `sqrt`, `log` and `std::stod` are parameters. Only the facts in `IsSqrt` and `IsLog` are assumed of them. Of `stod` nothing is assumed beyond its type: for each cell it returns a number or an error (invalid_argument or out_of_range); which text it accepts is not modelled.
- Randomness: `random_device`, `mt19937` and the two uniform distributions are replaced by the parameters `first` and `draws`. The model does not constrain a draw to [0, 1], so the row-0 fallback stays reachable.
- `DBL_MAX` sentinels: the initial "infinite" distances in seeding and assignment are modelled as "the first candidate is always taken". This agrees with the code, because every finite distance is smaller.
- Clustering.KMeans.FitPredict: `k == 0` is excluded by a precondition. What the source does then depends on the matrix. With at least one row and one column, seeding writes centroid row 0 of a 0-row matrix, which throws out_of_range (`Kmeans.cpp:12-17`). With no columns the copy loop never runs, the assignment labels every row 0, and `counts[0]++` on an empty vector is undefined behaviour (`Kmeans.cpp:81-85`). With no rows, `uniform_int_distribution(0, -1)` is already undefined (`Kmeans.cpp:10`).
- Clustering.KMeans: `get_centroids()` and `get_inertia()` are the fields `centroids` and `inertia` themselves.
- Metrics.TotalReturn: requires `e[0] != 0` for two or more points, where the source would divide by zero.
- Volatility.RollingVol: requires `window >= 2`. The source divides by `window - 1` (`Volatility.hpp:26`), and `window == 0` underflows.
- Strategies.MeanReversionSignals: requires `window >= 2`, because the variance divides by `window - 1` (`MeanReversion.hpp:36`).
- Drawdown.RollingDrawdown: requires that no window peak is 0, and Drawdown.MaxDrawdown requires that no running peak is 0. The source would divide by zero there.
- Backtester.Run: requires every price it divides by to be nonzero (`Divisible`). An empty price series is modelled as a length error, standing for the failed allocation after `prices.size() - 1` underflows.
- RegimeReport.CountRegimes: requires every label in [0, num_regimes), because `counts[r]++` is unchecked. The percentage `100 * counts[i] / regimes.size()` (`main.cpp:23`) is output formatting and is not modelled.
- RegimeReport.RegimePerformance: uses the corrected Sharpe ratio (0 for one return), not the NaN the source prints.
- File reading in `read_price_series` (opening the file, the empty-file error, `getline`) is left out as I/O. The header and row handling are modelled on the lines as a sequence of strings.
- All console output is left out. This covers `print_strategy_performance`, the `iomanip` formatting and the k-means convergence messages. `print_strategy_performance` only calls the four metrics, which are modelled.
- `main`'s orchestration (argv, try/catch, fixed parameters 20, 3, 100, 1e-4, 1.5) is left out. Its feature assembly and attribution loops are modelled.
- The `name()` strings of the strategies are left out. They are string formatting with `std::to_string`.
- The `Strategy` abstract class is a datatype with one variant per strategy. Its virtual dispatch is `GenerateSignals`.

## Findings

| source | as written | input that shows it | evidently intended | confidence | as-written member | corrected member |
|---|---|---|---|---|---|---|
| market_regime_engine/include/backtest/Metrics.hpp:22 | `variance /= (returns.size() - 1)` divides 0 by 0 for a single return. The NaN then passes the `std_dev < 1e-8` guard and becomes the Sharpe ratio | a series with one return `[x]` | a Sharpe ratio of 0, as the early `size() == 0` return gives for an empty series | not executed | Metrics.SharpeAsWritten, Metrics.SharpeSingleReturn | Metrics.SharpeValue, Metrics.Sharpe |
