# Forest change over time in Myanmar: a Dafny model

The Earth Engine script `GEE/myanmar_forest_change.js` rebuilds, year by year,
a forest / not-forest mask from three "event year" rasters: establishment,
gain and loss. It then sums forest, loss, gain and base areas over
administrative polygons and over buffers of 1000, 3000 and 5000 around
village points, for every year of the window `1989..2018`. Years are
offsets from 1970.

Underneath the Earth Engine calls, each part is cell-wise boolean logic and
a finite sum, and this project models it that way:

- `events.dfy` (module `Events`): a normalised cell holds three `int`
  event years, and a masked gain or loss becomes 0. The module also holds
  the baseline mask for the year `min_year - 1`.
- `recurrence.dfy` (module `Recurrence`): the per-year step
  `prev AND NOT(loss == y) OR estab == y OR gain == y`. `addYearBaseForest`
  appends one tagged mask to the list, and `iterate` is a left fold over
  the year list. The module also gives a per-cell reading of the series and
  an independent closed form: inside the window, the latest event decides
  the cell's state, and establishment or gain wins a tie with a loss.
- `zonal.dfy` (module `Zonal`): a region is a set of cell indices, and
  each cell has a natural-number area. `reduceRegion(sum)` of
  `indicator × pixelArea` becomes a finite sum. `addYearAnalysis` returns
  the four sums, or `None` where the engine's `filter(...).get(0)` would
  find no mask.
- `batch.dfy` (module `Batch`): buffers are expanded and crossed with the
  years, and polygons are filtered and crossed with the years. Each
  analysed feature is projected to an exported row, with a calendar year
  and two percentages.

`totalForestBase` is read from the mask tagged `min_year`
(`GEE/myanmar_forest_change.js:105`), which is the first stepped mask and
not the baseline tagged `min_year - 1`. `Zonal.BaseIsNotBaseline` shows
that the two areas differ: a cell established in `min_year` is outside the
baseline but inside the base.

`Batch.ThreeByThreeScenario` traces a 3×3 grid through the window
1990..1992. One cell is established in 1987 and lost in 1991; another is
gained in 1992; the other seven record no event. The baseline has one
forest cell, the first. It stays forest in 1990, is cleared in 1991, and
in 1992 the gained cell is the only forest cell.

## Model

| member | source | states |
|---|---|---|
| `Events.Unmask` | GEE/myanmar_forest_change.js:26-27 | `unmask(0)`: a masked value reads as 0 and a present value is kept. |
| `Events.Normalize` | GEE/myanmar_forest_change.js:26-27 | A loaded cell keeps its establishment year; its gain and loss years are unmasked to 0. |
| `Events.NormalizeGrid` | GEE/myanmar_forest_change.js:26-27 | The grid keeps its size; at every cell the establishment year is kept and a masked gain or loss becomes 0, a present one is kept. |
| `Events.BaselineMask` | GEE/myanmar_forest_change.js:45-57 | A cell is baseline forest iff `estab < min_year`, or `0 < gain < min_year`, or `loss > min_year` (strict). With a gain of 0 ("no event"), only establishment and loss decide. |
| `Events.BaselineOfLoadedGrid` | GEE/myanmar_forest_change.js:26-57 | After `unmask(0)`, a masked gain never makes a cell baseline forest. A masked loss does not either, when `min_year >= 0`. So the baseline depends only on the events the cell records. |
| `Recurrence.StepCell` | GEE/myanmar_forest_change.js:85 | A forest cell whose loss year is not `y` stays forest. Establishment or gain in `y` makes the cell forest, even after a same-year loss. A loss in `y` with neither of the other two clears it. With no event in `y`, the state is unchanged. |
| `Recurrence.StepMask` | GEE/myanmar_forest_change.js:85 | The step applies cell by cell over the whole grid, and its result has the grid's size. |
| `Recurrence.YearList` | GEE/myanmar_forest_change.js:73 | `ee.List.sequence(lo, hi, 1)` gives `hi - lo + 1` consecutive years starting at `lo` (empty if `lo > hi`). A year is in the list iff `lo <= y <= hi`. |
| `Recurrence.AddYearBaseForest` | GEE/myanmar_forest_change.js:81-91 | The step appends exactly one mask tagged `year`, and that mask is the step of the list's last mask. It leaves the earlier entries unchanged and keeps every mask the grid's size. |
| `Recurrence.StepReadsOnlyLast` | GEE/myanmar_forest_change.js:84-89 | The appended mask depends only on the last mask of the list. |
| `Recurrence.Iterate` | GEE/myanmar_forest_change.js:94 | Folding over `k` years appends `k` masks and keeps the initial list as a prefix. The `k`-th appended mask is tagged with the `k`-th year and is the step of its predecessor. |
| `Recurrence.BaseForestList` | GEE/myanmar_forest_change.js:76-94 | The series starts with the baseline mask tagged `min_year - 1`, has one more entry than the year list, and every mask has the grid's size. |
| `Recurrence.SeriesShape` | GEE/myanmar_forest_change.js:73-94 | `base_forest_list` holds `max_year - min_year + 2` grid-sized masks, tagged `min_year - 1 .. max_year` in increasing order. The first is the baseline, and each later mask is the step of the one before it. |
| `Recurrence.IterateAppend` | GEE/myanmar_forest_change.js:94 | Folding over two year lists in turn equals folding over their concatenation. |
| `Recurrence.YearListSplit` | GEE/myanmar_forest_change.js:73 | The year list of `[lo, hi]` is that of `[lo, mid]` followed by that of `[mid + 1, hi]`. |
| `Recurrence.SeriesExtends` | GEE/myanmar_forest_change.js:73-94 | Later steps never change earlier masks. The series for a longer window starts with the series for a shorter one. |
| `Recurrence.ForestAt` | GEE/myanmar_forest_change.js:45-94 | The recurrence for one cell: before `min_year` it is the baseline condition; in a later year an establishment or gain makes it forest, a lone loss clears it, and with no event it keeps the previous year's state. |
| `Recurrence.SeriesIsCellwise` | GEE/myanmar_forest_change.js:85-94 | At every cell, the mask for year `y` equals the single-cell recurrence `ForestAt`, so cells evolve independently. |
| `Recurrence.Later` | GEE/myanmar_forest_change.js:45-94 | A helper of the independent latest-event reading `LatestEventState` (it models no expression of the script): the later of two optional event years is one of them, is at least each present one, and is absent only when both are absent. |
| `Recurrence.LatestEventDecides` | GEE/myanmar_forest_change.js:45-94 | For every year: with no event in `[min_year, y]`, a cell keeps its baseline state. Otherwise it is forest iff an establishment or a gain falls in the latest event year. |
| `Zonal.SumUpTo` | GEE/myanmar_forest_change.js:107-114 | A partial sum of `indicator × area` over the region never exceeds the region's area up to the same cell. |
| `Zonal.ZonalSum` | GEE/myanmar_forest_change.js:109-135 | A zonal sum never exceeds the area of the region's cells on the grid. |
| `Zonal.SumUpToLocal` | GEE/myanmar_forest_change.js:109-135 | A zonal sum reads only the region's own cells. |
| `Zonal.SumUpToBalance` | GEE/myanmar_forest_change.js:106 | If four indicators balance (`cur + out == prev + in`) on every cell of the region, their zonal sums balance too. |
| `Zonal.LossIndicator` | GEE/myanmar_forest_change.js:103 | `lossYear.eq(year)` holds exactly at the cells whose loss year is `year`. |
| `Zonal.GainIndicator` | GEE/myanmar_forest_change.js:104 | `gainYear.eq(year)` holds exactly at the cells whose gain year is `year`. |
| `Zonal.FindTagged` | GEE/myanmar_forest_change.js:102 | `filter(eq("year_processed", year)).get(0)` gives the first mask tagged `year`, or `None` iff no mask is tagged `year`. |
| `Zonal.FindInSeries` | GEE/myanmar_forest_change.js:102-105 | In the recurrence's series, every year of `[min_year - 1, max_year]` is found at position `year - min_year + 1`. |
| `Zonal.AddYearAnalysis` | GEE/myanmar_forest_change.js:100-137 | The analysis succeeds iff masks tagged `year` and `min_year` exist. Each of its four sums is then at most the region's area. |
| `Zonal.AnalysisOfSeries` | GEE/myanmar_forest_change.js:100-137 | For a year in the window, the four results are: forest from that year's mask, loss from `loss == year`, gain from `gain == year`, and the base from the mask tagged `min_year`. |
| `Zonal.BaseIndependentOfYear` | GEE/myanmar_forest_change.js:105-135 | `totalForestBase` is the same for every requested year and equals the forest area reported for `min_year`. |
| `Zonal.LossGainIgnoreMasks` | GEE/myanmar_forest_change.js:103-128 | Loss and gain areas depend only on the event rasters. Two different mask lists give the same loss and gain. |
| `Zonal.ForestAccounting` | GEE/myanmar_forest_change.js:106 | The comment "base area − loss area + gain area" read step by step, with the previous year's forest area as the base: it holds between consecutive years when the year's events are consistent on the region. |
| `Zonal.CumulativeAccounting` | GEE/myanmar_forest_change.js:105-106 | The accounting read from the base of `min_year`: the forest area of year `y` plus all the loss after `min_year` up to `y` equals the base plus all the gain in those years, when every one of those years is consistent on the region. |
| `Zonal.AccountingNeedsConsistency` | GEE/myanmar_forest_change.js:106 | Without that consistency the accounting fails. In the example, a non-forest cell with a loss and an establishment in the same year counts both as lost and as forest. |
| `Zonal.BaseIsNotBaseline` | GEE/myanmar_forest_change.js:105 | The base is not the baseline area. A cell established in `min_year` adds 0 to the baseline sum and its whole area to the base. |
| `Batch.BufferPoints` | GEE/myanmar_forest_change.js:149-165 | Each point gives one buffer of the given size, in point order; the buffer keeps the point's position, so two points with the same village name stay two regions. |
| `Batch.CombineBuffers` | GEE/myanmar_forest_change.js:167 | The merged buffers number `3 × |points|`. They are exactly the buffers of the points (by position and name) at sizes 1000, 3000 and 5000. |
| `Batch.TagYear` | GEE/myanmar_forest_change.js:170-174 | Every region is tagged with the year, in order. |
| `Batch.CrossYears` | GEE/myanmar_forest_change.js:168-175 | The flattened collection has `|years| × |regions|` features. They are exactly the (region, year) pairs drawn from the two lists. |
| `Batch.CrossYearsAt` | GEE/myanmar_forest_change.js:245-252 | Years are outer and regions inner: pair `(years[i], regions[j])` sits at position `i × |regions| + j`. |
| `Batch.AnalyseAll` | GEE/myanmar_forest_change.js:176 | `map(addYearAnalysis)` keeps the features in order, and each record's statistics are `addYearAnalysis` of its feature against the series built from the baseline. For a year in the window they are the four sums: forest of that year's mask, loss and gain of that year, and forest of the mask tagged `min_year`. |
| `Batch.VillageProcessing` | GEE/myanmar_forest_change.js:146-179 | It yields `3 × |points| × |years|` analysed records. Each is a buffer of one of the points, with size 1000, 3000 or 5000 and a year from the window, and carries the four sums of its region for that year. Every (point, size, year) combination occurs. |
| `Batch.LoadPolygons` | GEE/myanmar_forest_change.js:15-20 | A loaded collection has one polygon per row, identified by its row, carrying that row's name and code; no two features are equal, even where two rows share a name and code. |
| `Batch.PolygonProcessing` | GEE/myanmar_forest_change.js:241-256 | It yields `|FC| × |years|` analysed records. Each has a polygon of the collection and a year of the window and carries the four sums of that polygon for that year; every (polygon, year) pair occurs. |
| `Batch.FilterBounds` | GEE/myanmar_forest_change.js:276-279 | It keeps exactly the polygons that pass the spatial test, each as many times as it occurs in the input. |
| `Batch.FilterBoundsDistinct` | GEE/myanmar_forest_change.js:276-279 | Filtering a collection of distinct features yields distinct features. |
| `Batch.SameNameSeparateStats` | GEE/myanmar_forest_change.js:107-114 | Each feature is reduced over its own cells: two rows with the same name and code that cover different cells get different forest areas. |
| `Batch.FilterBoundsAppend` | GEE/myanmar_forest_change.js:276-279 | Filtering preserves order: the filter of a concatenation is the concatenation of the filters. |
| `Batch.CalendarYear` | GEE/myanmar_forest_change.js:196 | The exported year minus 1970 gives back `year_processed`. An offset inside the window gives a year from 1989 on. |
| `Batch.Percent` | GEE/myanmar_forest_change.js:203-204 | `part / base × 100` times `base` is `100 × part`. The result is non-negative, and it is at most 100 when `part <= base`. |
| `Batch.ExportRow` | GEE/myanmar_forest_change.js:189-206 | The row carries the calendar year, the region's identity and the four areas unchanged. Each percentage times the base is 100 times the loss or gain. |
| `Batch.ConfiguredWindow` | GEE/myanmar_forest_change.js:30-31 | The configured window has 30 analysed years and 31 masks, the first for 1988 and the last for 2018. |
| `Batch.PercentExample` | GEE/myanmar_forest_change.js:203 | A loss of 50 against a base of 1000 is 5 percent. |
| `Batch.ThreeByThreeScenario` | GEE/myanmar_forest_change.js:45-94 | Worked 3×3 example: one forest cell in the baseline, and one in 1992 (the gained cell; the established cell was lost in 1991). |
| `Zonal.SingleCellSum` | GEE/myanmar_forest_change.js:107-114 | A mask with a single forest cell sums to that cell's area when the cell is in the region, and to 0 otherwise. |

## Left out

- Loading the Earth Engine assets, building `ee.Image` and `ee.FeatureCollection` values, `print`, and `Export.table.toDrive` (`:12-23`, `:95`, `:213-230` and the later exports). These are I/O and library calls.
- The parameters of `reduceRegion` (`scale: 30`, `maxPixels: 1e9`) and `ee.Image.pixelArea()`. A region is a set of whole cells, and every cell has a natural-number area. Partial-pixel weighting and the engine's pixel-budget or extent failures are not modelled.
- Areas and sums are natural numbers, not floating point. Percentages are exact `real` division.
- `Batch.Percent`, `Batch.ExportRow`: they require a non-zero base, so the engine's result for a zero base (`:203`) is not modelled. The source does not guard that case.
- Buffer and polygon geometry: a buffer is a tag (point position, village, size) and a polygon a tag (row, name, code) on an opaque region. The cells each region covers are a function in the run's context.
- `filterBounds` (`:276-279`, `:335-337`, `:383-385`): the spatial test is a predicate passed to `Batch.FilterBounds`.
- The `propertyNames().get(-1)` lookup of the village name (`:192-194`): the village name is a field of the region.
- `export_as_list_VT`, `export_as_list_TS` and `export_as_list_State` (`:260-274`, `:320-334`, `:367-381`) differ from the village export only in their column names. All four are modelled by `Batch.ExportRow`, where the identity is the region: point, village and buffer size, or row, name and code.
- A masked establishment value is not modelled: every cell carries an establishment year. In the script a cell whose establishment is masked is masked in the baseline (`:45`, `:57`) and in every stepped mask (`:85`), so it never counts in `totalForest` or `totalForestBase`, while its unmasked loss and gain (`:26-27`) still count. The model has no masked cell: a stand-in such as `Cell(9999, 22, 0)` (used by `Batch.ThreeByThreeScenario`) becomes forest through its gain.
- Range checks, raster-mismatch checks, per-record failure isolation and parallel reduction have no counterpart in the script. An empty year list (`min_year > max_year`) gives just the baseline.
- `Python/randomize_poly.py`: random, floating-point geometry with retry loops and file I/O, with no deterministic behaviour to state.
