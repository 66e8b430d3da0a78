/**
 * Region batches: village points expanded into buffers of three sizes,
 * administrative polygons used as they are, each crossed with every year
 * of the window and analysed; then the projection of an analysed feature
 * into an exported row.
 */
module Batch {
  import opened Events
  import opened Recurrence
  import opened Zonal

  /** The offset epoch: a `year_processed` of 0 is the calendar year 1970. */
  const Epoch: int := 1970

  /** The configured window, as offsets from the epoch. */
  const MinYear: int := 1989 - 1970
  const MaxYear: int := 2018 - 1970

  /** The buffer sizes a village point is expanded into, in merge order. */
  const BufferSizes: seq<nat> := [1000, 3000, 5000]

  /** A region to analyse. A buffer keeps the position of its point in the
      point collection (its feature identity), the village name and the
      size; its geometry is opaque. A polygon keeps its position in the
      collection it was loaded from (its feature identity), its name and its
      administrative code. */
  datatype Region =
    | Buffered(point: nat, village: string, bufferSize: nat)
    | Polygon(index: nat, name: string, pcode: string)

  /** A region tagged with the year it is analysed for. */
  datatype Feature = Feature(region: Region, yearProcessed: int)

  /** A feature with the outcome of `addYearAnalysis` attached. */
  datatype Analysed = Analysed(feature: Feature, stats: Option<Stats>)

  /** The inputs shared by every analysis of a run: the normalised rasters,
      the area of each cell, the cells each region covers, and the window. */
  datatype Context = Context(g: Grid, area: seq<nat>, cells: Region -> set<nat>, minYear: int, maxYear: int)

  predicate ValidContext(ctx: Context)
  {
    |ctx.area| == |ctx.g|
  }

  /** `points.map(pt => pt.buffer(size).set({bufferSize: size}))`. */
  function BufferPoints(points: seq<string>, size: nat): (rs: seq<Region>)
    ensures |rs| == |points|
    ensures forall i :: 0 <= i < |points| ==> rs[i] == Buffered(i, points[i], size)
  {
    seq(|points|, i requires 0 <= i < |points| => Buffered(i, points[i], size))
  }

  /** A buffer of one of the points, at one of the three sizes. */
  predicate IsPointBuffer(r: Region, points: seq<string>)
  {
    r.Buffered? && r.point < |points| && r.village == points[r.point] && r.bufferSize in BufferSizes
  }

  /** `buffer_1k.merge(buffer_3k).merge(buffer_5k)`. */
  function CombineBuffers(points: seq<string>): (rs: seq<Region>)
    ensures |rs| == 3 * |points|
    ensures forall r :: r in rs <==> IsPointBuffer(r, points)
  {
    var rs := BufferPoints(points, 1000) + BufferPoints(points, 3000) + BufferPoints(points, 5000);
    assert forall r :: r in rs ==> IsPointBuffer(r, points);
    assert forall r: Region :: IsPointBuffer(r, points) ==> r in rs by {
      forall r: Region | IsPointBuffer(r, points) ensures r in rs {
        var i := r.point;
        if r.bufferSize == 1000 {
          assert rs[i] == r;
        } else if r.bufferSize == 3000 {
          assert rs[|points| + i] == r;
        } else {
          assert rs[2 * |points| + i] == r;
        }
      }
    }
    rs
  }

  /** `fc.map(feat => feat.set({year_processed: year}))`. */
  function TagYear(year: int, regions: seq<Region>): (fs: seq<Feature>)
    ensures |fs| == |regions|
    ensures forall j :: 0 <= j < |regions| ==> fs[j] == Feature(regions[j], year)
  {
    seq(|regions|, j requires 0 <= j < |regions| => Feature(regions[j], year))
  }

  /** `ee.FeatureCollection(year_list.map(year => TagYear(year, fc))).flatten()`:
      every (year, region) pair, years outer and regions inner. */
  function CrossYears(years: seq<int>, regions: seq<Region>): (fs: seq<Feature>)
    ensures |fs| == |years| * |regions|
    ensures forall f :: f in fs <==> f.region in regions && f.yearProcessed in years
  {
    if years == [] then []
    else
      var head, rest := TagYear(years[0], regions), CrossYears(years[1..], regions);
      assert |years| * |regions| == |regions| + (|years| - 1) * |regions|;
      assert years == [years[0]] + years[1..];
      head + rest
  }

  /** The order of the flattened collection: the pair (years[i], regions[j])
      sits at position `i * |regions| + j`. */
  lemma {:induction false} CrossYearsAt(years: seq<int>, regions: seq<Region>, i: nat, j: nat)
    requires i < |years| && j < |regions|
    ensures i * |regions| + j < |CrossYears(years, regions)|
    ensures CrossYears(years, regions)[i * |regions| + j] == Feature(regions[j], years[i])
  {
    if i > 0 {
      var n := |regions|;
      CrossYearsAt(years[1..], regions, i - 1, j);
      assert i * n == (i - 1) * n + n;
      assert years[1..][i - 1] == years[i];
    }
  }

  /** `fs.map(addYearAnalysis)` against the series built for the context. */
  function AnalyseAll(ctx: Context, fs: seq<Feature>): (rs: seq<Analysed>)
    requires ValidContext(ctx) && ctx.minYear <= ctx.maxYear
    ensures |rs| == |fs|
    ensures forall k :: 0 <= k < |fs| ==> rs[k].feature == fs[k]
    ensures forall k :: 0 <= k < |fs| ==> rs[k].stats == Analyse(ctx, fs[k])
    ensures forall k :: 0 <= k < |fs| && ctx.minYear <= fs[k].yearProcessed <= ctx.maxYear ==>
      rs[k].stats == Some(WindowStats(ctx, fs[k]))
  {
    var rs := seq(|fs|, k requires 0 <= k < |fs| => Analysed(fs[k], Analyse(ctx, fs[k])));
    forall k | 0 <= k < |fs| && ctx.minYear <= fs[k].yearProcessed <= ctx.maxYear
      ensures rs[k].stats == Some(WindowStats(ctx, fs[k]))
    {
      AnalysisOfSeries(ctx.g, ctx.area, ctx.cells(fs[k].region), ctx.minYear, ctx.maxYear, fs[k].yearProcessed);
    }
    rs
  }

  /** `addYearAnalysis` of one feature against the series of the context. */
  function Analyse(ctx: Context, f: Feature): Option<Stats>
    requires ValidContext(ctx) && ctx.minYear <= ctx.maxYear
  {
    SeriesShape(ctx.g, ctx.minYear, ctx.maxYear);
    AddYearAnalysis(BaseForestList(ctx.g, ctx.minYear, ctx.maxYear), ctx.g, ctx.area,
                    ctx.cells(f.region), ctx.minYear, f.yearProcessed)
  }

  /** What the analysis of a feature whose year lies in the window reports:
      the forest area of that year's mask, the loss and gain areas of that
      year, and the forest area of the mask of `minYear` as the base. */
  function WindowStats(ctx: Context, f: Feature): Stats
    requires ValidContext(ctx) && ctx.minYear <= f.yearProcessed <= ctx.maxYear
  {
    var s := BaseForestList(ctx.g, ctx.minYear, ctx.maxYear);
    var region := ctx.cells(f.region);
    SeriesShape(ctx.g, ctx.minYear, ctx.maxYear);
    Stats(ZonalSum(s[f.yearProcessed - ctx.minYear + 1].mask, ctx.area, region),
          ZonalSum(LossIndicator(ctx.g, f.yearProcessed), ctx.area, region),
          ZonalSum(GainIndicator(ctx.g, f.yearProcessed), ctx.area, region),
          ZonalSum(s[1].mask, ctx.area, region))
  }

  /** `village_processing`: each point becomes three buffers, every buffer
      is crossed with every year of the window and analysed. */
  function VillageProcessing(ctx: Context, points: seq<string>): (rs: seq<Analysed>)
    requires ValidContext(ctx) && ctx.minYear <= ctx.maxYear
    ensures |rs| == 3 * |points| * (ctx.maxYear - ctx.minYear + 1)
    ensures forall k :: 0 <= k < |rs| ==>
      && IsPointBuffer(rs[k].feature.region, points)
      && ctx.minYear <= rs[k].feature.yearProcessed <= ctx.maxYear
      && rs[k].stats == Some(WindowStats(ctx, rs[k].feature))
    ensures forall i, size, y :: 0 <= i < |points| && size in BufferSizes && ctx.minYear <= y <= ctx.maxYear ==>
      Feature(Buffered(i, points[i], size), y) in Features(rs)
  {
    var years := YearList(ctx.minYear, ctx.maxYear);
    var fs := CrossYears(years, CombineBuffers(points));
    var rs := AnalyseAll(ctx, fs);
    forall k | 0 <= k < |fs|
      ensures IsPointBuffer(fs[k].region, points)
      ensures ctx.minYear <= fs[k].yearProcessed <= ctx.maxYear
    {
      assert fs[k] in fs;
    }
    assert Features(rs) == fs;
    assert |fs| == 3 * |points| * (ctx.maxYear - ctx.minYear + 1) by {
      assert |fs| == |years| * (3 * |points|);
    }
    rs
  }

  /** `polygon_processing`: every polygon crossed with every year of the
      window and analysed. */
  function PolygonProcessing(ctx: Context, polygons: seq<Region>): (rs: seq<Analysed>)
    requires ValidContext(ctx) && ctx.minYear <= ctx.maxYear
    ensures |rs| == |polygons| * (ctx.maxYear - ctx.minYear + 1)
    ensures forall k :: 0 <= k < |rs| ==>
      && rs[k].feature.region in polygons
      && ctx.minYear <= rs[k].feature.yearProcessed <= ctx.maxYear
      && rs[k].stats == Some(WindowStats(ctx, rs[k].feature))
    ensures forall r, y :: r in polygons && ctx.minYear <= y <= ctx.maxYear ==>
      Feature(r, y) in Features(rs)
  {
    var years := YearList(ctx.minYear, ctx.maxYear);
    var fs := CrossYears(years, polygons);
    var rs := AnalyseAll(ctx, fs);
    forall k | 0 <= k < |fs|
      ensures fs[k].region in polygons && ctx.minYear <= fs[k].yearProcessed <= ctx.maxYear
    {
      assert fs[k] in fs;
    }
    assert Features(rs) == fs;
    rs
  }

  /** No feature occurs twice. */
  predicate Distinct(fc: seq<Region>)
  {
    forall i, j :: 0 <= i < j < |fc| ==> fc[i] != fc[j]
  }

  /** An administrative collection as loaded: one polygon per row of
      (name, code), identified by its row, so two rows with the same name
      and code (the parts of a multipart area) stay two features. */
  function LoadPolygons(rows: seq<(string, string)>): (fc: seq<Region>)
    ensures |fc| == |rows|
    ensures forall i :: 0 <= i < |rows| ==> fc[i] == Polygon(i, rows[i].0, rows[i].1)
    ensures Distinct(fc)
  {
    seq(|rows|, i requires 0 <= i < |rows| => Polygon(i, rows[i].0, rows[i].1))
  }

  /** `fc.filterBounds(points)`: the polygons, in order, that the spatial
      test keeps. The test is geometry and enters as a parameter. */
  function FilterBounds(polygons: seq<Region>, intersects: Region -> bool): (kept: seq<Region>)
    ensures |kept| <= |polygons|
    ensures forall r :: r in kept <==> r in polygons && intersects(r)
    ensures forall r :: multiset(kept)[r] == if intersects(r) then multiset(polygons)[r] else 0
  {
    if polygons == [] then []
    else
      var rest := FilterBounds(polygons[1..], intersects);
      assert polygons == [polygons[0]] + polygons[1..];
      (if intersects(polygons[0]) then [polygons[0]] else []) + rest
  }

  /** Filtering keeps the order: filtering two collections one after the
      other is filtering their concatenation. */
  lemma {:induction false} FilterBoundsAppend(p1: seq<Region>, p2: seq<Region>, intersects: Region -> bool)
    ensures FilterBounds(p1 + p2, intersects) == FilterBounds(p1, intersects) + FilterBounds(p2, intersects)
  {
    if p1 == [] {
      assert p1 + p2 == p2;
    } else {
      assert (p1 + p2)[1..] == p1[1..] + p2;
      FilterBoundsAppend(p1[1..], p2, intersects);
    }
  }

  /** Filtering a collection of distinct features yields distinct
      features: no feature is duplicated. */
  lemma {:induction false} FilterBoundsDistinct(fc: seq<Region>, intersects: Region -> bool)
    requires Distinct(fc)
    ensures Distinct(FilterBounds(fc, intersects))
  {
    if fc != [] {
      var rest := FilterBounds(fc[1..], intersects);
      FilterBoundsDistinct(fc[1..], intersects);
      assert fc[0] !in fc[1..] by {
        forall j | 0 <= j < |fc[1..]| ensures fc[1..][j] != fc[0] {
          assert fc[1..][j] == fc[1 + j];
        }
      }
      assert fc[0] !in rest;
    }
  }

  /** Features are analysed over their own cells: two rows of a collection
      with the same name and code, covering different cells, get different
      statistics. */
  lemma SameNameSeparateStats()
    ensures var fc := LoadPolygons([("A", "P1"), ("A", "P1")]);
      var ctx := Context([Cell(0, 0, 0), Cell(9999, 0, 0)], [1, 1],
                         (r: Region) => if r.Polygon? && r.index == 0 then {0} else {1}, 1, 1);
      && fc[0].name == fc[1].name && fc[0].pcode == fc[1].pcode
      && WindowStats(ctx, Feature(fc[0], 1)).totalForest == 1
      && WindowStats(ctx, Feature(fc[1], 1)).totalForest == 0
  {
    var g := [Cell(0, 0, 0), Cell(9999, 0, 0)];
    SeriesShape(g, 1, 1);
    var s := BaseForestList(g, 1, 1);
    assert s[0].mask == [true, false] by {
      assert forall i :: 0 <= i < 2 ==> s[0].mask[i] == [true, false][i];
    }
    assert s[1].mask == [true, false] by {
      assert forall i :: 0 <= i < 2 ==> s[1].mask[i] == [true, false][i];
    }
    SingleCellSum(s[1].mask, [1, 1], {0}, 0, 2);
    SingleCellSum(s[1].mask, [1, 1], {1}, 0, 2);
  }

  /** The features of a batch, in order. */
  function Features(rs: seq<Analysed>): (fs: seq<Feature>)
    ensures |fs| == |rs|
    ensures forall k :: 0 <= k < |rs| ==> fs[k] == rs[k].feature
  {
    seq(|rs|, k requires 0 <= k < |rs| => rs[k].feature)
  }

  /** A calendar year from an offset (`year_processed + 1970`). */
  function CalendarYear(offset: int): (year: int)
    ensures year - Epoch == offset
    ensures offset >= MinYear ==> year >= 1989
  {
    offset + Epoch
  }

  /** `part / base * 100`. */
  function Percent(part: nat, base: nat): (p: real)
    requires base != 0
    ensures p * (base as real) == (part as real) * 100.0
    ensures p >= 0.0
    ensures part <= base ==> p <= 100.0
  {
    (part as real) / (base as real) * 100.0
  }

  /** One exported record: the calendar year, the region's identity
      (point, village and buffer size, or row, name and code), the four areas and the
      two percentages against the base. */
  datatype Row = Row(
    year: int, region: Region,
    totalForest: nat, forestLoss: nat, forestGain: nat, totalForestBase: nat,
    percentForestLoss: real, percentForestGain: real)

  /** The `export_as_list_*` projections of an analysed feature. */
  function ExportRow(f: Feature, s: Stats): (row: Row)
    requires s.totalForestBase != 0
    ensures row.year == f.yearProcessed + Epoch && row.region == f.region
    ensures row.totalForest == s.totalForest && row.forestLoss == s.forestLoss
    ensures row.forestGain == s.forestGain && row.totalForestBase == s.totalForestBase
    ensures row.percentForestLoss * (s.totalForestBase as real) == (s.forestLoss as real) * 100.0
    ensures row.percentForestGain * (s.totalForestBase as real) == (s.forestGain as real) * 100.0
  {
    Row(CalendarYear(f.yearProcessed), f.region, s.totalForest, s.forestLoss, s.forestGain,
        s.totalForestBase, Percent(s.forestLoss, s.totalForestBase), Percent(s.forestGain, s.totalForestBase))
  }

  /** The configured run covers the calendar years 1988 (the baseline) to
      2018: 31 masks, 30 analysed years. */
  lemma ConfiguredWindow(g: Grid)
    ensures |YearList(MinYear, MaxYear)| == 30
    ensures var s := BaseForestList(g, MinYear, MaxYear);
      |s| == 31 && CalendarYear(s[0].yearProcessed) == 1988 && CalendarYear(s[30].yearProcessed) == 2018
  {
    SeriesShape(g, MinYear, MaxYear);
  }

  /** A base of 1000 and a loss of 50 give 5 percent. */
  lemma PercentExample()
    ensures Percent(50, 1000) == 5.0
  {
  }

  /** The masks of the 3x3 example below, year by year. */
  lemma ScenarioMasks(g: Grid)
    requires g == [Cell(17, 0, 21), Cell(9999, 22, 0), Cell(9999, 0, 0), Cell(9999, 0, 0), Cell(9999, 0, 0),
                   Cell(9999, 0, 0), Cell(9999, 0, 0), Cell(9999, 0, 0), Cell(9999, 0, 0)]
    ensures var s := BaseForestList(g, 20, 22);
      && |s| == 4 && s[3].yearProcessed == 22
      && s[0].mask == [true, false, false, false, false, false, false, false, false]
      && s[3].mask == [false, true, false, false, false, false, false, false, false]
  {
    SeriesShape(g, 20, 22);
    var only0 := [true, false, false, false, false, false, false, false, false];
    var only1 := [false, true, false, false, false, false, false, false, false];
    var none9 := [false, false, false, false, false, false, false, false, false];
    assert BaselineMask(g, 20) == only0 by {
      assert forall i :: 0 <= i < 9 ==> BaselineMask(g, 20)[i] == only0[i];
    }
    assert StepMask(only0, g, 20) == only0 by {
      assert forall i :: 0 <= i < 9 ==> StepMask(only0, g, 20)[i] == only0[i];
    }
    assert StepMask(only0, g, 21) == none9 by {
      assert forall i :: 0 <= i < 9 ==> StepMask(only0, g, 21)[i] == none9[i];
    }
    assert StepMask(none9, g, 22) == only1 by {
      assert forall i :: 0 <= i < 9 ==> StepMask(none9, g, 22)[i] == only1[i];
    }
    var s := BaseForestList(g, 20, 22);
    assert s[1].mask == StepMask(s[0].mask, g, 20) == only0;
    assert s[2].mask == StepMask(s[1].mask, g, 21) == none9;
    assert s[3].mask == StepMask(s[2].mask, g, 22) == only1;
  }

  /** A 3x3 grid with one cell established three years before 1990 (offset
      20) and lost in 1991, and another cell gained in 1992: the baseline has
      one forest cell, and so does 1992 (the gained one; the first was lost). */
  lemma ThreeByThreeScenario()
    ensures var none := Cell(9999, 0, 0);
      var g := [Cell(17, 0, 21), Cell(9999, 22, 0), none, none, none, none, none, none, none];
      var all, ones := {0, 1, 2, 3, 4, 5, 6, 7, 8}, [1, 1, 1, 1, 1, 1, 1, 1, 1];
      var s := BaseForestList(g, 20, 22);
      && |s| == 4
      && ZonalSum(s[0].mask, ones, all) == 1
      && s[3].yearProcessed == 22 && s[3].mask[1] && !s[3].mask[0]
      && ZonalSum(s[3].mask, ones, all) == 1
  {
    var none := Cell(9999, 0, 0);
    var g := [Cell(17, 0, 21), Cell(9999, 22, 0), none, none, none, none, none, none, none];
    ScenarioMasks(g);
    var s := BaseForestList(g, 20, 22);
    var all, ones := {0, 1, 2, 3, 4, 5, 6, 7, 8}, [1, 1, 1, 1, 1, 1, 1, 1, 1];
    SingleCellSum(s[0].mask, ones, all, 0, 9);
    SingleCellSum(s[3].mask, ones, all, 1, 9);
  }
}
