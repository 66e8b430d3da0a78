/**
 * Zonal statistics: the area sums that `addYearAnalysis` reduces over a
 * region for one requested year. A region is the set of indices of the
 * cells it covers; every cell has a natural-number area.
 */
module Zonal {
  import opened Events
  import opened Recurrence

  /** The four sums attached to a (region, year) feature. */
  datatype Stats = Stats(totalForest: nat, forestLoss: nat, forestGain: nat, totalForestBase: nat)

  /** Sum of `area[i]` over the cells `i < n` of the region where the
      indicator holds (`indicator.multiply(pixelArea)` reduced with a sum). */
  function SumUpTo(ind: Mask, area: seq<nat>, region: set<nat>, n: nat): (s: nat)
    requires n <= |ind| == |area|
    ensures s <= AreaUpTo(area, region, n)
  {
    if n == 0 then 0
    else SumUpTo(ind, area, region, n - 1) + (if n - 1 in region && ind[n - 1] then area[n - 1] else 0)
  }

  /** Total area of the cells `i < n` of the region. */
  function AreaUpTo(area: seq<nat>, region: set<nat>, n: nat): nat
    requires n <= |area|
  {
    if n == 0 then 0
    else AreaUpTo(area, region, n - 1) + (if n - 1 in region then area[n - 1] else 0)
  }

  /** The zonal sum of an indicator over a region. Cells of the region
      that lie outside the grid contribute nothing. */
  function ZonalSum(ind: Mask, area: seq<nat>, region: set<nat>): (s: nat)
    requires |ind| == |area|
    ensures s <= RegionArea(area, region)
  {
    SumUpTo(ind, area, region, |ind|)
  }

  /** The area of the region's cells on the grid. */
  function RegionArea(area: seq<nat>, region: set<nat>): nat
  {
    AreaUpTo(area, region, |area|)
  }

  /** The zonal sum looks only at the region's own cells: two indicators
      that agree there give the same sum. */
  lemma {:induction false} SumUpToLocal(ind1: Mask, ind2: Mask, area: seq<nat>, region: set<nat>, n: nat)
    requires n <= |ind1| == |ind2| == |area|
    requires forall i :: 0 <= i < n && i in region ==> ind1[i] == ind2[i]
    ensures SumUpTo(ind1, area, region, n) == SumUpTo(ind2, area, region, n)
  {
    if n > 0 {
      SumUpToLocal(ind1, ind2, area, region, n - 1);
    }
  }

  /** A mask with a single forest cell `j` sums to that cell's area, if the
      cell is in the region, and to 0 otherwise. */
  lemma {:induction false} SingleCellSum(m: Mask, area: seq<nat>, region: set<nat>, j: nat, n: nat)
    requires n <= |m| == |area|
    requires forall i :: 0 <= i < n ==> (m[i] <==> i == j)
    ensures SumUpTo(m, area, region, n) == if j < n && j in region then area[j] else 0
  {
    if n > 0 {
      SingleCellSum(m, area, region, j, n - 1);
    }
  }

  /** The 0/1 value of a boolean. */
  function Bit(b: bool): nat
  {
    if b then 1 else 0
  }

  /** Additivity of the zonal sum: if at every cell of the region the
      indicators satisfy `cur + out == prev + in` (as 0/1 values), so do
      their sums. */
  lemma {:induction false} SumUpToBalance(cur: Mask, out: Mask, prev: Mask, inn: Mask,
                                          area: seq<nat>, region: set<nat>, n: nat)
    requires n <= |area| && |cur| == |out| == |prev| == |inn| == |area|
    requires forall i :: 0 <= i < n && i in region ==>
      Bit(cur[i]) + Bit(out[i]) == Bit(prev[i]) + Bit(inn[i])
    ensures SumUpTo(cur, area, region, n) + SumUpTo(out, area, region, n)
         == SumUpTo(prev, area, region, n) + SumUpTo(inn, area, region, n)
  {
    if n > 0 {
      SumUpToBalance(cur, out, prev, inn, area, region, n - 1);
      var j := n - 1;
      if j in region {
        assert Bit(cur[j]) + Bit(out[j]) == Bit(prev[j]) + Bit(inn[j]);
      }
    }
  }

  /** `lossYear.eq(year)`. */
  function LossIndicator(g: Grid, year: int): (m: Mask)
    ensures |m| == |g|
    ensures forall i :: 0 <= i < |g| ==> (m[i] <==> g[i].loss == year)
  {
    seq(|g|, i requires 0 <= i < |g| => g[i].loss == year)
  }

  /** `gainYear.eq(year)`. */
  function GainIndicator(g: Grid, year: int): (m: Mask)
    ensures |m| == |g|
    ensures forall i :: 0 <= i < |g| ==> (m[i] <==> g[i].gain == year)
  {
    seq(|g|, i requires 0 <= i < |g| => g[i].gain == year)
  }

  /** `base_forest_list.filter(ee.Filter.eq("year_processed", year)).get(0)`:
      the index of the first mask tagged `year`, or None when there is
      none (where `get(0)` fails). */
  function FindTagged(series: seq<TaggedMask>, year: int): (r: Option<nat>)
    ensures r.Some? ==> r.value < |series| && series[r.value].yearProcessed == year
    ensures r.Some? ==> forall j :: 0 <= j < r.value ==> series[j].yearProcessed != year
    ensures r.None? ==> forall j :: 0 <= j < |series| ==> series[j].yearProcessed != year
  {
    if |series| == 0 then None
    else if series[0].yearProcessed == year then Some(0)
    else match FindTagged(series[1..], year)
      case None => None
      case Some(k) => Some(k + 1)
  }

  /** In the series of the recurrence every year of `[minYear - 1, maxYear]`
      is found, at its own position. */
  lemma FindInSeries(g: Grid, minYear: int, maxYear: int, year: int)
    requires minYear <= maxYear && minYear - 1 <= year <= maxYear
    ensures FindTagged(BaseForestList(g, minYear, maxYear), year) == Some(year - minYear + 1)
  {
    var s := BaseForestList(g, minYear, maxYear);
    SeriesShape(g, minYear, maxYear);
    assert s[year - minYear + 1].yearProcessed == year;
  }

  /** `addYearAnalysis` for a feature with geometry `region` and
      `year_processed == year`: the forest, loss and gain areas of that
      year, and the forest area of the mask tagged `minYear` as the base.
      None when either mask is missing from the list. */
  function AddYearAnalysis(series: seq<TaggedMask>, g: Grid, area: seq<nat>,
                           region: set<nat>, minYear: int, year: int): (r: Option<Stats>)
    requires |area| == |g| && AllSized(series, |g|)
    ensures r.Some? <==> FindTagged(series, year).Some? && FindTagged(series, minYear).Some?
    ensures r.Some? ==>
      && r.value.totalForest <= RegionArea(area, region)
      && r.value.forestLoss <= RegionArea(area, region)
      && r.value.forestGain <= RegionArea(area, region)
      && r.value.totalForestBase <= RegionArea(area, region)
  {
    match (FindTagged(series, year), FindTagged(series, minYear))
    case (Some(k), Some(b)) =>
      Some(Stats(
        ZonalSum(series[k].mask, area, region),
        ZonalSum(LossIndicator(g, year), area, region),
        ZonalSum(GainIndicator(g, year), area, region),
        ZonalSum(series[b].mask, area, region)))
    case _ => None
  }

  /** On the series of the recurrence, every year of the window is
      analysed: the forest area is that of the year's mask, and the base is
      the forest area of the mask of `minYear` (the second mask, not the
      baseline). */
  lemma AnalysisOfSeries(g: Grid, area: seq<nat>, region: set<nat>, minYear: int, maxYear: int, year: int)
    requires |area| == |g| && minYear <= maxYear && minYear <= year <= maxYear
    ensures var s := BaseForestList(g, minYear, maxYear);
      && |s| == maxYear - minYear + 2 && AllSized(s, |g|)
      && AddYearAnalysis(s, g, area, region, minYear, year) == Some(Stats(
           ZonalSum(s[year - minYear + 1].mask, area, region),
           ZonalSum(LossIndicator(g, year), area, region),
           ZonalSum(GainIndicator(g, year), area, region),
           ZonalSum(s[1].mask, area, region)))
  {
    SeriesShape(g, minYear, maxYear);
    FindInSeries(g, minYear, maxYear, year);
    FindInSeries(g, minYear, maxYear, minYear);
  }

  /** The base does not depend on the requested year, and it equals the
      forest area reported for the year `minYear` itself. */
  lemma BaseIndependentOfYear(g: Grid, area: seq<nat>, region: set<nat>,
                              minYear: int, maxYear: int, y1: int, y2: int)
    requires |area| == |g| && minYear <= maxYear
    requires minYear <= y1 <= maxYear && minYear <= y2 <= maxYear
    ensures var s := BaseForestList(g, minYear, maxYear);
      AllSized(s, |g|) &&
      var r1, r2 := AddYearAnalysis(s, g, area, region, minYear, y1), AddYearAnalysis(s, g, area, region, minYear, y2);
      && r1.Some? && r2.Some?
      && r1.value.totalForestBase == r2.value.totalForestBase
      && r1.value.totalForestBase == AddYearAnalysis(s, g, area, region, minYear, minYear).value.totalForest
  {
    AnalysisOfSeries(g, area, region, minYear, maxYear, y1);
    AnalysisOfSeries(g, area, region, minYear, maxYear, y2);
    AnalysisOfSeries(g, area, region, minYear, maxYear, minYear);
  }

  /** The loss and gain areas come from the event rasters alone: any two
      mask lists give the same loss and gain for the same region and year. */
  lemma LossGainIgnoreMasks(s1: seq<TaggedMask>, s2: seq<TaggedMask>, g: Grid, area: seq<nat>,
                            region: set<nat>, minYear: int, year: int)
    requires |area| == |g| && AllSized(s1, |g|) && AllSized(s2, |g|)
    requires AddYearAnalysis(s1, g, area, region, minYear, year).Some?
    requires AddYearAnalysis(s2, g, area, region, minYear, year).Some?
    ensures AddYearAnalysis(s1, g, area, region, minYear, year).value.forestLoss
         == AddYearAnalysis(s2, g, area, region, minYear, year).value.forestLoss
         == ZonalSum(LossIndicator(g, year), area, region)
    ensures AddYearAnalysis(s1, g, area, region, minYear, year).value.forestGain
         == AddYearAnalysis(s2, g, area, region, minYear, year).value.forestGain
         == ZonalSum(GainIndicator(g, year), area, region)
  {
  }

  /** Every cell of the region is consistent in `year`: nothing is
      established then, a loss only hits a cell that was forest and gained
      nothing, and a gain only hits a cell that was not forest and lost
      nothing. */
  predicate ConsistentEvents(prev: Mask, g: Grid, region: set<nat>, year: int)
    requires |prev| == |g|
  {
    forall i :: 0 <= i < |g| && i in region ==>
      && g[i].estab != year
      && (g[i].loss == year ==> prev[i] && g[i].gain != year)
      && (g[i].gain == year ==> !prev[i])
  }

  /** The accounting the source describes ("area = base area - loss area +
      gain area"), read step by step: the base area is the forest area of
      the year before, and the accounting holds when the events of the year
      are consistent over the region. `CumulativeAccounting` reads it from
      the base of `minYear` instead. */
  lemma ForestAccounting(g: Grid, area: seq<nat>, region: set<nat>, prev: Mask, year: int)
    requires |area| == |g| == |prev|
    requires ConsistentEvents(prev, g, region, year)
    ensures ZonalSum(StepMask(prev, g, year), area, region) + ZonalSum(LossIndicator(g, year), area, region)
         == ZonalSum(prev, area, region) + ZonalSum(GainIndicator(g, year), area, region)
  {
    var cur, out, inn := StepMask(prev, g, year), LossIndicator(g, year), GainIndicator(g, year);
    forall i | 0 <= i < |g| && i in region
      ensures Bit(cur[i]) + Bit(out[i]) == Bit(prev[i]) + Bit(inn[i])
    {
    }
    SumUpToBalance(cur, out, prev, inn, area, region, |g|);
  }

  /** Total area lost (`loss`) or gained (`!loss`) over the years `lo..hi`. */
  function EventAreaSince(g: Grid, area: seq<nat>, region: set<nat>, lo: int, hi: int, loss: bool): nat
    requires |area| == |g|
    decreases hi - lo
  {
    if hi < lo then 0
    else EventAreaSince(g, area, region, lo, hi - 1, loss)
         + ZonalSum(if loss then LossIndicator(g, hi) else GainIndicator(g, hi), area, region)
  }

  /** Every year after `minYear` up to `y` is consistent on the region,
      measured against the mask of the year before (the `k`-th mask of the
      series is that of year `minYear + k - 1`). */
  predicate ConsistentSince(g: Grid, region: set<nat>, minYear: int, maxYear: int, y: int)
    requires minYear <= y <= maxYear
  {
    var s := BaseForestList(g, minYear, maxYear);
    forall k :: 1 <= k <= y - minYear ==> ConsistentEvents(s[k].mask, g, region, minYear + k)
  }

  /** The accounting read from the base: the forest area of year `y`, plus
      all the area lost after `minYear` up to `y`, equals the base (the
      forest area of `minYear`) plus all the area gained in those years,
      when every one of those years is consistent on the region. */
  lemma {:induction false} CumulativeAccounting(g: Grid, area: seq<nat>, region: set<nat>,
                                                minYear: int, maxYear: int, y: int)
    requires |area| == |g| && minYear <= y <= maxYear
    requires ConsistentSince(g, region, minYear, maxYear, y)
    ensures var s := BaseForestList(g, minYear, maxYear);
      |s| == maxYear - minYear + 2 &&
      ZonalSum(s[y - minYear + 1].mask, area, region) + EventAreaSince(g, area, region, minYear + 1, y, true)
      == ZonalSum(s[1].mask, area, region) + EventAreaSince(g, area, region, minYear + 1, y, false)
    decreases y - minYear
  {
    SeriesShape(g, minYear, maxYear);
    if y > minYear {
      var s := BaseForestList(g, minYear, maxYear);
      CumulativeAccounting(g, area, region, minYear, maxYear, y - 1);
      ForestAccounting(g, area, region, s[y - minYear].mask, y);
    }
  }

  /** Without consistency the accounting fails: a cell that is not forest
      but records a loss and an establishment in the same year is counted
      as lost and as forest. */
  lemma AccountingNeedsConsistency()
    ensures var g, area, prev := [Cell(30, 0, 30)], [1], [false];
      ZonalSum(StepMask(prev, g, 30), area, {0}) + ZonalSum(LossIndicator(g, 30), area, {0})
      != ZonalSum(prev, area, {0}) + ZonalSum(GainIndicator(g, 30), area, {0})
  {
  }

  /** The base is not the baseline: a cell established in `minYear` is
      outside the baseline mask but counts in the base. */
  lemma BaseIsNotBaseline()
    ensures var g, area := [Cell(19, 0, 0)], [900];
      && ZonalSum(BaselineMask(g, 19), area, {0}) == 0
      && AddYearAnalysis(BaseForestList(g, 19, 48), g, area, {0}, 19, 30).Some?
      && AddYearAnalysis(BaseForestList(g, 19, 48), g, area, {0}, 19, 30).value.totalForestBase == 900
  {
  }
}
