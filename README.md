# CryptoVolatility core in Dafny

This project models the two functions at the heart of CryptoVolatility's
`main.py`. It proves properties of both.

- `load_data_from_csv` turns a price table into a date-sorted series of
  prices. It normalises the header (strip and title-case every column name)
  and requires a `Close/Last` column, which it renames to `Price`. It removes
  `$` and `,` from textual prices, sorts by date, reads every price as a
  number and drops the rows whose price does not read. Any failure gives no
  frame.
- `calculate_metrics` computes four metrics from the loaded series:
  - the total return;
  - the annualised volatility of the daily returns;
  - the Sharpe ratio against a daily risk-free rate;
  - the maximum drawdown from the running peak.

The model starts from the table that `read_csv` produces: a header, the
parsed dates, and one typed column per header name. All arithmetic is
exact (`real`). The square root is a parameter `sqrt: real -> real`. A NaN
volatility is the `None` of an `Option`.

Modules, one per file:

- `Wrappers` holds `Option` and `Result`.
- `Columns` covers header normalisation (`str.strip`, `str.title`) and
  locating and renaming the price column.
- `PriceText` covers the separator cleaning and the number reader behind
  `pd.to_numeric(errors='coerce')` on strings. The reader is a state machine
  after pandas' decimal reader. It also proves a round trip for
  currency-formatted decimals.
- `Series` holds date-indexed rows, the sort by date, value mapping and
  dropping missing values.
- `Loader` holds the table and the load, as a method following the source's
  steps in order.
- `Returns` covers `pct_change`, the total return, and compounding returns
  back into prices.
- `Drawdown` covers `cummax`, the drawdown series and its minimum.
- `Metrics` covers mean, sample variance, standard deviation, volatility,
  Sharpe ratio and the metrics record.

For one or two prices the code's volatility is NaN, because pandas' `std`
needs two returns; `CalculateMetrics` returns `None` there. An empty frame
gives `Some(0.0)`, as the code's early return does.

## Model

| member | source | states |
|---|---|---|
| Columns.StripLeading | main.py:13 | the result is a suffix of the name, everything dropped is whitespace, and it does not start with whitespace |
| Columns.StripTrailing | main.py:13 | the result is a prefix of the name, everything dropped is whitespace, and it does not end with whitespace |
| Columns.Strip | main.py:13 | `strip()` keeps the part between a whitespace prefix and a whitespace suffix, and that part neither starts nor ends with whitespace |
| Columns.StripKeepsTrimmed | main.py:13 | a name with no whitespace at either end is unchanged by `strip()` |
| Columns.StripIdempotent | main.py:13 | stripping twice is stripping once |
| Columns.TitleFrom | main.py:13 | the title-case scan keeps the length of the name, keeps every character cased or uncased as it was, and leaves uncased characters unchanged |
| Columns.TitleFromAt | main.py:13 | each character is upper-cased after an uncased character (or at the front) and lower-cased after a cased one; uncased characters are unchanged |
| Columns.TitleCase | main.py:13 | `title()` keeps the length of the name and changes only the case of letters: every other character is unchanged |
| Columns.TitleCaseAt | main.py:13 | the same, for `title()` of a whole name |
| Columns.TitleFromIdempotent | main.py:13 | the title-case scan is idempotent from any starting state |
| Columns.TitleCaseIdempotent | main.py:13 | `title()` applied twice is `title()` applied once |
| Columns.TitleFromAppend | main.py:13 | title-casing a concatenation continues the scan from the last character of the first part |
| Columns.NormaliseColumns | main.py:13 | the new header has one name per column, and each is its own column's name stripped and title-cased |
| Columns.NormaliseName | main.py:13 | `c.strip().title()` is no longer than the name and has no whitespace at either end |
| Columns.TitleKeepsEnds | main.py:13 | title-casing a name with no whitespace at either end leaves none there |
| Columns.NormaliseNameIdempotent | main.py:13 | normalising a header twice gives the same header as normalising it once |
| Columns.PaddedLowerCaseHeader | main.py:13 | the header " close/last " normalises to "Close/Last" |
| Columns.CloseLastNormal | main.py:13 | the header "Close/Last" normalises to itself |
| Columns.PaddedDateHeader | main.py:13 | the header " date" normalises to "Date" |
| Columns.Count | main.py:15 | the count of a name is at most the header's length, and 0 exactly when the name is absent |
| Columns.Rename | main.py:18 | the rename keeps one name per column: every Close/Last becomes Price, every other name is unchanged, and no Close/Last is left |
| Columns.RenameCount | main.py:18 | after the rename, the columns called Price are the former Close/Last columns plus those already called Price; other names are unaffected |
| Columns.IndexOf | main.py:18 | the first index holding a name that is present |
| Columns.CountOne | main.py:18 | a name that occurs once occurs at no other index |
| Columns.LocatePriceColumn | main.py:15-20 | the price column is found exactly when one column is named Close/Last and none is named Price; the result holds Close/Last and is the only such column; the error is "missing" exactly when no column is named Close/Last |
| PriceText.CleanPriceText | main.py:21 | the cleaned text is no longer than the original and contains no `$` or `,` |
| PriceText.CleanAppend | main.py:21 | cleaning distributes over concatenation |
| PriceText.CleanKeeps | main.py:21 | a character other than `$` and `,` is kept in place |
| PriceText.CleanDrops | main.py:21 | every `$` and `,` is removed |
| PriceText.CleanLeavesClean | main.py:21 | text without `$` or `,` is unchanged |
| PriceText.CleanIdempotent | main.py:21 | cleaning twice is cleaning once |
| PriceText.DigitsFromAppend | main.py:25 | reading digits of a concatenation continues from the value of the first part |
| PriceText.RunAppend | main.py:25 | reading a concatenation is reading the first part, then the second from where the first left off |
| PriceText.RunWholeDigits | main.py:25 | a run of digits before the point accumulates into the mantissa and the digit count |
| PriceText.RunFractionDigits | main.py:25 | a run of digits after the point accumulates into the mantissa and counts as fraction digits |
| PriceText.RunWithoutDigits | main.py:25 | text without digits adds no mantissa digits |
| PriceText.ReadingNeedsDigit | main.py:25 | a reading that takes in a mantissa digit has read a digit of the text |
| PriceText.ParseNumber | main.py:25 | `to_numeric` reads a text as a number only if it contains a digit, so an empty cell, "nan", "-" or "$" reads as missing (NaN) |
| PriceText.AsText | main.py:21 | `astype(str)` keeps a present text; a missing cell becomes a text that has no `$` or `,` and reads as missing |
| PriceText.MissingTextStaysMissing | main.py:20-25 | a missing cell of a textual column is written as "nan", survives cleaning, and reads as missing |
| PriceText.RunWhole | main.py:25 | the whole digits of a decimal leave the reader before the point with their value |
| PriceText.RunPointFraction | main.py:25 | a point and fraction digits leave the reader after the point with the extended mantissa and fraction count |
| PriceText.RunSign | main.py:25 | an optional minus sign leaves the reader at the start of the digits with the sign recorded |
| PriceText.RunRendered | main.py:25 | reading a plain decimal spelling ends in a complete state holding its digits, sign and fraction length |
| PriceText.ParseRendered | main.py:25 | a plain decimal spelling reads back as its value |
| PriceText.CleanGrouped | main.py:21 | removing the thousands separators from grouped digits gives the digits back |
| PriceText.CleanFormatted | main.py:21 | cleaning a currency spelling (`-$1,234.50`) gives the plain spelling (`-1234.50`) |
| PriceText.CurrencyRoundTrip | main.py:20-25 | a currency-formatted price, cleaned and read, is the decimal's value |
| PriceText.DollarPriceScenario | main.py:20-25 | "$1,234.50" is read as 1234.5 |
| Series.Insert | main.py:24 | inserting into date-sorted rows keeps them sorted and adds exactly the new row |
| Series.SortByDate | main.py:24 | `sort_index()` gives the same rows as a multiset, in ascending date order |
| Series.MapValues | main.py:25 | converting values keeps every row's date and position and converts its value |
| Series.MapSorted | main.py:25 | converting values keeps date order |
| Series.MapInsert | main.py:24-25 | converting after an insertion is inserting the converted row |
| Series.MapSortCommute | main.py:24-25 | converting values and sorting by date commute |
| Series.DropMissing | main.py:27 | `dropna` keeps at most the input's rows, and each kept row is an input row with a present value |
| Series.DropMissingCount | main.py:27 | each present row is kept exactly as often as it occurs, and nothing else is kept |
| Series.DropMissingPermutation | main.py:24-27 | dropping missing values from two orderings of the same rows gives two orderings of the same rows |
| Series.DropMissingSorted | main.py:24-27 | dropping rows keeps a date-sorted series sorted |
| Loader.PriceCells | main.py:20-21 | a numeric price column keeps every cell as it is; in a textual one each cell becomes its text (a missing cell "nan") with every `$` and `,` removed, so no cell holds a separator |
| Loader.ToNumber | main.py:25 | `to_numeric(errors='coerce')` keeps a number (or a missing number) as it is, and reads a text as a number only if it has a digit |
| Loader.PriceRows | main.py:23 | row i pairs the price cell of row i with the date of row i, in file order |
| Loader.ParsedRows | main.py:25 | row i carries the date of row i and its price cell as `to_numeric` reads it, in file order |
| Loader.PriceColumn | main.py:13-23 | the price column is found exactly when the header check finds it and no column other than the date column normalises to Date; a failed header check is passed on, and a second Date after a found price column is a duplicate-date failure; the column found is named Close/Last |
| Loader.LoadDataFromCsv | main.py:10-31 | the load succeeds exactly when the normalised header has one Close/Last, no Price and no second Date; a failure reports a missing column exactly when there is no Close/Last, and a duplicate Date exactly when the price column was found; on success the series is sorted by date, no longer than the table, and holds exactly the rows whose price reads as a number |
| Loader.LoadedRows | main.py:25-27 | a (date, price) pair occurs in the loaded series exactly as often as some input row's price reads as that number at that date |
| Loader.NoCloseLastNoSeries | main.py:15-16 | a header with no name normalising to Close/Last fails with "missing column" |
| Loader.PaddedHeaderFound | main.py:13-18 | a padded, lower-case " close/last " header is found as the price column |
| Loader.CloseLastOnly | main.py:13-20 | a table whose only header is "Close/Last" finds its price column at index 0 |
| Loader.CurrencyRowsScenario | main.py:13-27 | a table with only a Close/Last column finds its price column at index 0, and its rows "$1,234.50" and "--", newest first, load as the single row 1234.5 |
| Loader.DuplicateDateScenario | main.py:13-31 | a header " date", "Close/Last" next to the date column fails with a duplicate Date, although the price column is found |
| Returns.PctChange | main.py:42 | there is one return for each pair of consecutive prices |
| Returns.PctChangeAt | main.py:42 | return i is price i + 1 over price i, minus one |
| Returns.PctChangeTail | main.py:42 | the returns after the first are the returns of the series without its first price |
| Returns.Compound | main.py:42 | compounding returns from a start price gives one price more than returns, beginning at the start |
| Returns.CompoundPctChange | main.py:42 | compounding a series' returns from its first price rebuilds the series |
| Returns.CompoundLast | main.py:45 | the last compounded price is the start price times the growth factor of all returns |
| Returns.TotalReturn | main.py:45 | one price gives a total return of 0, and the total return is -1 exactly when the last price is 0 |
| Returns.TotalReturnCompounds | main.py:45 | the total return of a compounded series is the growth factor of its returns less one |
| Returns.TotalReturnBounds | main.py:44-47 | one price gives a total return of 0; non-negative prices give a total return of at least -1, positive prices one above -1 |
| Drawdown.CumMax | main.py:60 | the running peak dominates every earlier price, is attained at one of them, and never decreases |
| Drawdown.CumMaxAtNewHigh | main.py:60 | a price at or above every earlier price is its own running peak |
| Drawdown.CumMaxFirst | main.py:60 | the first price is its own running peak |
| Drawdown.CumMaxNonZero | main.py:60-61 | with no zero price, no running peak is zero, so every drawdown is defined |
| Drawdown.CumMaxPositive | main.py:60 | positive prices have positive running peaks |
| Drawdown.Drawdowns | main.py:61 | there is one drawdown per price |
| Drawdown.MinOf | main.py:62 | the minimum is at most every element and is one of them |
| Drawdown.DrawdownAt | main.py:60-61 | for non-negative prices with no zero peak, each drawdown lies in [-1, 0], is 0 exactly at the running peak and -1 exactly at a zero price |
| Drawdown.DrawdownBounds | main.py:60-61 | the same, for every drawdown of the series |
| Drawdown.FirstDrawdownZero | main.py:60-61 | the first drawdown is 0 |
| Drawdown.MaxDrawdown | main.py:62 | `drawdown.min()` is at most every drawdown and equal to one of them |
| Drawdown.MaxDrawdownBounds | main.py:60-62 | for non-negative prices the maximum drawdown lies in [-1, 0] and is -1 exactly when some price is 0; positive prices keep it above -1 |
| Drawdown.MaxDrawdownZero | main.py:60-62 | for non-negative prices the maximum drawdown is 0 exactly when the prices never fall |
| Drawdown.RisingHasNoDrawdown | main.py:60-62 | prices that never fall have maximum drawdown 0 |
| Drawdown.NoDrawdownIsRising | main.py:60-62 | a maximum drawdown of 0 means the prices never fall |
| Metrics.Prices | main.py:42 | the price column of the series, row by row |
| Metrics.Mean | main.py:52 | `mean()` is the value whose count copies add up to the sum |
| Metrics.SquaredDeviations | main.py:49 | the sum of squared deviations is never negative |
| Metrics.SampleVariance | main.py:49 | the sample variance is never negative |
| Metrics.StdDev | main.py:49 | the standard deviation is missing (NaN) exactly when there are fewer than two returns |
| Metrics.Volatility | main.py:49 | the volatility is missing exactly when the standard deviation is |
| Metrics.SharpeRatio | main.py:51-58 | the Sharpe ratio is 0 when the standard deviation is missing or 0, and otherwise the mean excess daily return over the standard deviation times the square root of 365 |
| Metrics.CalculateMetrics | main.py:33-69 | with the risk-free rate defaulting to 0.04: an empty series gives zeros; one price gives total return 0, missing volatility, Sharpe 0 and drawdown 0; up to two prices give Sharpe 0; volatility is missing exactly for one or two prices; otherwise each field is its named metric; the total return is -1 exactly when the last price is 0; for non-negative prices the total return is at least -1, the maximum drawdown lies in [-1, 0] and is 0 exactly when prices never fall; positive prices keep both above -1 |
| Metrics.PriceMetricBounds | main.py:45-62 | the bounds that total return and maximum drawdown keep, for one price, for non-negative prices and for positive prices |
| Metrics.OnePointNoDrawdown | main.py:60-62 | a single price has maximum drawdown 0 |
| Metrics.SquaredDeviationsZero | main.py:49 | the squared deviations from a value are 0 exactly when every element equals that value |
| Metrics.SumConstant | main.py:52 | the sum of n copies of c is n times c |
| Metrics.MeanConstant | main.py:52 | the mean of a constant sequence is its value |
| Metrics.VarianceZeroIffConstant | main.py:49-55 | the sample variance is 0 exactly when all returns are equal |
| Metrics.ConstantReturnsNoSharpe | main.py:53-56 | constant returns give Sharpe 0, whenever the square root of 0 is 0 |
| Metrics.SharpeSign | main.py:51-58 | with a positive standard deviation, the Sharpe ratio has the sign of the mean daily return minus the daily risk-free rate |
| Metrics.WorkedScenario | main.py:42-62 | prices 100, 110, 99, 121 give returns 0.1, -0.1 and 22/99, a total return of 0.21 and a maximum drawdown of -0.1 |
| Metrics.ZeroPriceScenario | main.py:33-69 | prices 100 then 0 give total return -1, missing volatility, Sharpe 0 and maximum drawdown -1 |

## Left out

- Reading the file (`pd.read_csv`) is I/O and is not modelled. That covers parsing dates and turning `thousands=','` into numbers. The model starts from the resulting table: parsed dates as day numbers, and each column already typed as numeric or text.
- A failed `read_csv` (missing file, no Date column) is not modelled; the loader's `except` turns it into the same failed load.
- Dates are whole numbers, so two `read_csv` behaviours are not modelled. A Date column that does not parse stays text, and `sort_index` then orders the rows by that text. An empty date cell becomes NaT; it sorts last and `dropna(subset=['Price'])` keeps its row.
- Printing the error message is not modelled. A failed load is a `Failure` carrying the cause.
- The other columns (Volume, Open, High, Low) are carried only as header names. Only the price column's contents are modelled.
- Floating point is not modelled: arithmetic is exact. The reader does not round, and does not spell `inf` or `nan` as numbers.
- Metrics.StdDev: the value is `sqrt` of the sample variance, with `sqrt` a parameter. The proofs assume only what each lemma states about it.
- Metrics.CalculateMetrics: requires every division it makes to be by a non-zero number: the first price, every price before the last, and every running peak. A zero last price is allowed. A zero price elsewhere makes `pct_change` produce an infinity or NaN, which `real` cannot hold; so does a zero running peak, which happens only when no price up to that point is positive.
- Loader.PriceCells: a textual column is taken to have pandas' object dtype, as it does before pandas 3. Under the dedicated string dtype of pandas 3, `dtype == object` is false, so the `$` and `,` cleaning is skipped and `to_numeric` reads currency text as missing. That behaviour is not modelled.
- Columns.TitleFrom: case is modelled only for ASCII letters. Other characters count as uncased and are left unchanged.
- Series.SortByDate: pandas' `sort_index` is not stable, and the order among rows with the same date is unspecified. The model uses a stable insertion sort, but `LoadDataFromCsv` promises only "sorted by date and a permutation".
- Writing the `Returns` column back into the caller's frame is not modelled. The returns are computed and used, but the frame is not updated.
- Plotting, correlation across instruments and the interactive menu are not part of this model.
