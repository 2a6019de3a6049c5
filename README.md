# Roulette delay analyzer, modelled in Dafny

This project models the delay engine of `RuletaAnalyzer` in `prueba2.py`.
The analyzer keeps a history of roulette outcomes (integers 0..36). It maps
each outcome to a category: one of three columns, or one of three dozens,
with 0 meaning "no category". From the history it computes three things:

- the per-category gap lists: the distances between successive draws of the
  same category;
- the statistics of those gaps;
- the current delay of each category: the number of draws since it last
  appeared. This is combined with the statistics into a betting signal.

The model has four modules:

- `Categories`: the `tipo` string selects the scheme (`Scheme`). The column
  and dozen tables are written as arithmetic progressions. The closed-form
  category of a number (`ColumnOf`, `DozenOf`, `CategoryOf`) is proved to be
  what the table walk of `obtener_columna` / `obtener_docena` returns
  (`Lookup`, `TablesPartition`).
- `Delays`: reference definitions over a prefix of the history.
  - `Occurrences` lists the positions at which a category is drawn.
  - `GapList` is the list of successive differences of those positions.
  - `CurrentDelay` counts the draws since the category's last draw.
  - `GapsWithin` / `LastWithin` describe the one-pass walk that
    `calcular_demoras` performs.

  The lemmas state what the source promises about these.
- `Statistics`: the integer and exact parts of `estadisticas_demoras`:
  - sufficiency (more than one gap), minimum, maximum and count;
  - the mean as an exact rational;
  - the sample variance as an exact real, and the standard deviation
    replaced by an integer `Spread`, proved to be n²(n - 1) times that
    variance and so zero exactly when the deviation is.

  It also holds the per-category signal rule of `señales_apuesta`, with the
  `KeyError` and `ZeroDivisionError` the source raises.
- `Analyzer`: the class `RouletteAnalyzer` with its `history` field. Its
  methods mirror the Python methods, loops included, and each is proved
  against the reference definitions.

Three behaviours of the program are worth stating up front:

- the current delay is computed by two backward passes over the history
  (prueba2.py:115-132): the first sets the delay of the category of the most
  recent categorised draw, the second rescans every category still at 0;
- only a category with more than one gap can raise, because only such a
  category has statistics with thresholds (prueba2.py:147). For such a
  category, a sigma level outside 1..3 raises `KeyError` at the threshold
  lookup (prueba2.py:150), before the division is reached;
- with a level in 1..3, a zero standard deviation raises
  `ZeroDivisionError` at the division (prueba2.py:157).

## Model

| member | source | states |
|---|---|---|
| Categories.SchemeOf | prueba2.py:55 | columns are selected exactly by the string "columna"; every other `tipo` selects dozens |
| Categories.Range | prueba2.py:14-18 | `list(range(lo, hi))` has hi - lo elements and holds exactly lo..hi-1 |
| Categories.EveryThird | prueba2.py:9-13 | a column table has twelve entries and holds exactly first, first+3, ..., first+33 |
| Categories.ColumnOf | prueba2.py:29-36 | the column is in 0..3, 0 exactly outside 1..36, and congruent to n modulo 3 |
| Categories.DozenOf | prueba2.py:38-45 | the dozen is in 0..3, 0 exactly outside 1..36, and (n - 1) div 12 + 1 inside it |
| Categories.CategoryOf | prueba2.py:29-45 | a category is in 0..3 and is 0 exactly for numbers outside 1..36 |
| Categories.Lookup | prueba2.py:29-45 | walking the tables in order 1, 2, 3 (0 for the zero, 0 when no table lists n) yields the closed-form category |
| Categories.TablesPartition | prueba2.py:9-18 | in each scheme the three tables are pairwise disjoint, cover exactly 1..36, and n is in table c exactly when its category is c |
| Categories.TableMembership | prueba2.py:9-18 | membership in a single table equals having that table's category |
| Categories.ColumnMembership | prueba2.py:9-13 | n is in the progression k, k+3, ..., k+33 exactly when its column is k |
| Analyzer.InRange | prueba2.py:27 | the filter is no longer than its input and keeps only values in 0..36 |
| Analyzer.InRangeConcat | prueba2.py:27 | filtering distributes over concatenation, so the order is preserved |
| Analyzer.InRangeCounts | prueba2.py:27 | every value in 0..36 is kept as often as it occurs, and every other value is dropped |
| Analyzer.InRangeIdempotent | prueba2.py:25-27 | loading an already loaded history gives the same history |
| Analyzer.InRangeNoneValid | prueba2.py:27 | a list with no value in 0..36 loads as the empty history |
| Analyzer.RouletteAnalyzer.constructor | prueba2.py:7-8 | a new analyzer has an empty history |
| Analyzer.RouletteAnalyzer.AddNumber | prueba2.py:20-23 | the history gains n at its end exactly when 0 <= n <= 36, is otherwise unchanged, and stays within 0..36 |
| Analyzer.RouletteAnalyzer.LoadHistory | prueba2.py:25-27 | the history becomes the order-preserving filter of the input to 0..36 |
| Analyzer.RouletteAnalyzer.CalculateDelays | prueba2.py:47-69 | the one-pass walk gives categories 1, 2, 3 (and no others) their gap lists: the successive differences of the positions of their draws |
| Analyzer.RouletteAnalyzer.DelayStatistics | prueba2.py:71-102 | each of categories 1, 2, 3 gets the statistics of its gap list |
| Analyzer.RouletteAnalyzer.CurrentDelays | prueba2.py:104-134 | the two backward passes, as written, give categories 1, 2, 3 the number of draws since their last draw, or the history length when they never appear |
| Analyzer.RouletteAnalyzer.BettingSignals | prueba2.py:136-165 | the signals are produced exactly when no category's signal raises; they then hold each category's signal; otherwise the result is the error of the first raising category in the order 1, 2, 3 |
| Delays.Occurrences | prueba2.py:57-60 | the positions of a category within the first k draws number at most k |
| Delays.OccurrencesSorted | prueba2.py:57-67 | the listed positions are below k, are draws of the category, and strictly increase |
| Delays.OccurrencesMembership | prueba2.py:57-60 | a position is listed exactly when it is a draw of the category |
| Delays.DifferencesWithin | prueba2.py:62-64 | k positions give k - 1 differences (none for an empty list) |
| Delays.DifferencesIndex | prueba2.py:63-64 | the m-th gap is position m + 1 minus position m |
| Delays.DifferencesAppend | prueba2.py:62-67 | recording one more position adds exactly one gap (the step from the previous last position), unless it was the first |
| Delays.GapListShape | prueba2.py:57-67 | a category has one gap fewer than draws (none if never drawn or if the history is empty), and every gap lies in 1..len(historial) - 1 |
| Delays.GapSum | prueba2.py:57-67 | the gaps add up to the last position of the category minus its first |
| Delays.DifferencesSum | prueba2.py:63-64 | successive differences telescope to last minus first |
| Delays.WalkMeaning | prueba2.py:57-67 | after k draws the walk has recorded exactly the gap list and the last position of the first k draws |
| Delays.LastSeenAppend | prueba2.py:66-67 | an appended draw becomes the last seen of its own category; other categories keep theirs |
| Delays.GapListAppend | prueba2.py:57-67 | appending a draw adds one gap (new index minus previous last index) to its own category if that category was drawn before, and leaves all other lists (and all lists, for the zero) unchanged |
| Delays.OccurrencesGrow | prueba2.py:57-60 | appending a draw adds its position to its own category's positions only |
| Delays.DelayWithin | prueba2.py:115-132 | the delay within the first k draws is at most k |
| Delays.DelayWithinMeaning | prueba2.py:115-132 | the delay points back to a draw of the category with no later draw of it |
| Delays.CurrentDelayMeaning | prueba2.py:104-134 | with d the delay, the category was drawn at position len - 1 - d (d draws before the final one) and at no later position, or never when d is the length |
| Delays.CurrentDelayOfLast | prueba2.py:119-121 | the delay is len - 1 - i for the category's most recent draw i |
| Delays.CurrentDelayAbsent | prueba2.py:131-132 | a category that never appears has the history length as its delay |
| Delays.CurrentDelayFromLastSeen | prueba2.py:104-134 | the delay is len - 1 - (last position) when the category occurs and len when it does not |
| Delays.CurrentDelayAppend | prueba2.py:104-134 | appending a draw resets its own category's delay to 0 and increases every other category's delay by one |
| Delays.CurrentDelayZero | prueba2.py:108-134 | every delay is in 0..len; an empty history gives 0; otherwise the delay is 0 exactly for the category of the final draw, so none is 0 after a final zero |
| Statistics.MinWithinBounds | prueba2.py:82 | the running minimum is one of the first k elements and no larger than any of them |
| Statistics.MaxWithinBounds | prueba2.py:83 | the running maximum is one of the first k elements and no smaller than any of them |
| Statistics.MinMaxBounds | prueba2.py:82-83 | `min` and `max` are elements of the list and bound every element |
| Statistics.Mean | prueba2.py:80 | the mean times the count is the sum |
| Statistics.ScaledDeviationsZero | prueba2.py:81 | the scaled squared deviations are non-negative and vanish exactly when every element equals the mean |
| Statistics.SpreadZeroIffAllEqual | prueba2.py:81 | the standard deviation of a list is zero exactly when all its elements are equal |
| Statistics.SumAppend | prueba2.py:80 | appending an element adds it to the sum |
| Statistics.SpreadIsScaledVariance | prueba2.py:81 | the integer spread is n²(n - 1) times the sample variance (the squared `statistics.stdev`), so the deviation is zero exactly when all gaps are equal |
| Statistics.StatsOf | prueba2.py:78-100 | a category gets full statistics exactly when it has more than one gap; their meaning is stated by StatsOfMeaning |
| Statistics.StatsOfMeaning | prueba2.py:78-100 | full statistics exactly when there is more than one gap: min and max are gaps with min <= every gap <= max, count is the number of gaps, mean is exact, and the deviation is zero exactly when all gaps are equal; otherwise mean and deviation are 0 |
| Statistics.SignalFor | prueba2.py:146-163 | only full statistics can raise; KeyError exactly for full statistics with a level outside 1..3; a signal exactly for insufficient data, or for a level in 1..3 with a non-zero deviation; its meaning on a gap list is stated by SignalForStats |
| Analyzer.CategorySignal | prueba2.py:136-163 | a category's signal raises only when it has more than one gap, and raises KeyError exactly when it has more than one gap and the level is outside 1..3 |
| Statistics.SignalForStats | prueba2.py:145-163 | a category with at most one gap never signals a bet; otherwise a level outside 1..3 raises KeyError, equal gaps raise ZeroDivisionError, and else the signal carries the current delay and the mean gap |

## Left out

- Floating point: `statistics.mean` is modelled as an exact rational and the sample variance as an exact real. `statistics.stdev` (its square root) is replaced by the integer `Spread`, which is n²(n - 1) times the variance and so zero exactly when the deviation is. Rounding to two decimals is not modelled.
- The sigma thresholds (`umbral_1sigma` .. `umbral_3sigma`), the `apostar` comparison against them and the `intensidad` quotient are float values. A signal records only the current delay and the exact mean.
- Statistics.SignalForStats: raises ZeroDivisionError only when the deviation is exactly zero. The source divides by the deviation rounded to two decimals, which is also 0.0 for unequal gaps whose deviation is below 0.005 (only possible with very long gap lists).
- The lookup tables are module constants rather than instance fields, since the source never changes them after construction.
- `reporte_completo` is console output only.
- `cargar_desde_excel` is file input through a spreadsheet library.
- `entrada_manual`, `menu_principal`, `configurar_analisis` and the main loop are keyboard input and menu flow.
- The Python default `tipo = 'columna'` and `nivel_sigma = 2` are not modelled: callers always pass both.
