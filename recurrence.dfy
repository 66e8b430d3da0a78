/**
 * The forest-state recurrence: starting from the baseline mask, one mask
 * per year of the window is built from the previous one and that year's
 * events, tagged with its year and appended to the list of masks.
 */
module Recurrence {
  import opened Events

  /** A mask together with its `year_processed` tag. */
  datatype TaggedMask = TaggedMask(mask: Mask, yearProcessed: int)

  /** The forest state of one cell in year `y`, given its state in `y - 1`:
      loss removes forest that was there; establishment or gain in `y` makes
      the cell forest whatever else happened, a same-year loss included. */
  function StepCell(prev: bool, c: Cell, y: int): (r: bool)
    ensures prev && c.loss != y ==> r
    ensures c.estab == y || c.gain == y ==> r
    ensures c.loss == y && c.estab != y && c.gain != y ==> !r
    ensures c.loss != y && c.estab != y && c.gain != y ==> r == prev
  {
    (prev && !(c.loss == y)) || c.estab == y || c.gain == y
  }

  /** The mask of year `y` from the mask of year `y - 1`, cell by cell. */
  function StepMask(prev: Mask, g: Grid, y: int): (m: Mask)
    requires |prev| == |g|
    ensures |m| == |g|
    ensures forall i :: 0 <= i < |g| ==> m[i] == StepCell(prev[i], g[i], y)
  {
    seq(|g|, i requires 0 <= i < |g| => StepCell(prev[i], g[i], y))
  }

  /** `ee.List.sequence(lo, hi, 1)`: the years `lo, lo + 1, ..., hi`. */
  function YearList(lo: int, hi: int): (ys: seq<int>)
    ensures |ys| == if lo <= hi then hi - lo + 1 else 0
    ensures forall k :: 0 <= k < |ys| ==> ys[k] == lo + k
    ensures forall y :: y in ys <==> lo <= y <= hi
    decreases hi - lo
  {
    if lo > hi then [] else [lo] + YearList(lo + 1, hi)
  }

  /** Every mask of the list covers the whole grid. */
  predicate AllSized(list: seq<TaggedMask>, n: nat)
  {
    forall k :: 0 <= k < |list| ==> |list[k].mask| == n
  }

  /** `addYearBaseForest`: reads the last mask of the list only, steps it to
      `year` and appends the result, tagged with `year`. */
  function AddYearBaseForest(g: Grid, year: int, list: seq<TaggedMask>): (r: seq<TaggedMask>)
    requires |list| > 0 && AllSized(list, |g|)
    ensures |r| == |list| + 1 && r[..|list|] == list
    ensures AllSized(r, |g|)
    ensures r[|list|].yearProcessed == year
    ensures r[|list|].mask == StepMask(list[|list| - 1].mask, g, year)
  {
    list + [TaggedMask(StepMask(list[|list| - 1].mask, g, year), year)]
  }

  /** The step reads nothing of the list but its last mask: two lists
      ending in the same mask get the same appended mask. */
  lemma StepReadsOnlyLast(g: Grid, year: int, l1: seq<TaggedMask>, l2: seq<TaggedMask>)
    requires |l1| > 0 && AllSized(l1, |g|) && |l2| > 0 && AllSized(l2, |g|)
    requires l1[|l1| - 1].mask == l2[|l2| - 1].mask
    ensures AddYearBaseForest(g, year, l1)[|l1|] == AddYearBaseForest(g, year, l2)[|l2|]
  {
  }

  /** `year_list.iterate(addYearBaseForest, list)`: a left fold over the
      years. Each year appends exactly one mask, stepped from its
      predecessor, and what was already in the list stays as it was. */
  function Iterate(g: Grid, years: seq<int>, acc: seq<TaggedMask>): (r: seq<TaggedMask>)
    requires |acc| > 0 && AllSized(acc, |g|)
    ensures |r| == |acc| + |years|
    ensures r[..|acc|] == acc
    ensures AllSized(r, |g|)
    ensures forall k :: 0 <= k < |years| ==> r[|acc| + k].yearProcessed == years[k]
    ensures forall k :: 0 <= k < |years| ==>
      r[|acc| + k].mask == StepMask(r[|acc| + k - 1].mask, g, years[k])
    decreases |years|
  {
    if years == [] then acc
    else
      var acc' := AddYearBaseForest(g, years[0], acc);
      var r := Iterate(g, years[1..], acc');
      assert r[..|acc'|] == acc';
      assert forall k :: 1 <= k < |years| ==> years[1..][k - 1] == years[k];
      r
  }

  /** `base_forest_list`: the baseline mask tagged `minYear - 1`, followed
      by one mask per year of `minYear..maxYear`. */
  function BaseForestList(g: Grid, minYear: int, maxYear: int): (s: seq<TaggedMask>)
    ensures |s| == |YearList(minYear, maxYear)| + 1
    ensures AllSized(s, |g|)
    ensures s[0] == TaggedMask(BaselineMask(g, minYear), minYear - 1)
  {
    var s := Iterate(g, YearList(minYear, maxYear), [TaggedMask(BaselineMask(g, minYear), minYear - 1)]);
    assert s[0] == s[..1][0];
    s
  }

  /** The shape of the series: `maxYear - minYear + 2` masks over the whole
      grid, tagged `minYear - 1, minYear, ..., maxYear` in that order; the
      first is the baseline and each later one is the step of its
      predecessor. */
  lemma SeriesShape(g: Grid, minYear: int, maxYear: int)
    requires minYear <= maxYear
    ensures var s := BaseForestList(g, minYear, maxYear);
      && |s| == maxYear - minYear + 2
      && AllSized(s, |g|)
      && s[0].mask == BaselineMask(g, minYear)
      && (forall k :: 0 <= k < |s| ==> s[k].yearProcessed == minYear - 1 + k)
      && (forall k :: 1 <= k < |s| ==> s[k].mask == StepMask(s[k - 1].mask, g, minYear - 1 + k))
  {
    var s := BaseForestList(g, minYear, maxYear);
    var ys := YearList(minYear, maxYear);
    assert s[..1] == [TaggedMask(BaselineMask(g, minYear), minYear - 1)];
    assert s[0] == s[..1][0];
    forall k | 1 <= k < |s|
      ensures s[k].yearProcessed == minYear - 1 + k
      ensures s[k].mask == StepMask(s[k - 1].mask, g, minYear - 1 + k)
    {
      assert ys[k - 1] == minYear + (k - 1);
      assert s[1 + (k - 1)].mask == StepMask(s[1 + (k - 1) - 1].mask, g, ys[k - 1]);
    }
  }

  /** Folding over two lists of years one after the other is folding over
      their concatenation. */
  lemma {:induction false} IterateAppend(g: Grid, ys1: seq<int>, ys2: seq<int>, acc: seq<TaggedMask>)
    requires |acc| > 0 && AllSized(acc, |g|)
    ensures Iterate(g, ys1 + ys2, acc) == Iterate(g, ys2, Iterate(g, ys1, acc))
    decreases |ys1|
  {
    if ys1 == [] {
      assert ys1 + ys2 == ys2;
    } else {
      assert (ys1 + ys2)[1..] == ys1[1..] + ys2;
      IterateAppend(g, ys1[1..], ys2, AddYearBaseForest(g, ys1[0], acc));
    }
  }

  /** The year list of a longer window extends that of a shorter one. */
  lemma YearListSplit(lo: int, mid: int, hi: int)
    requires lo <= mid + 1 && mid <= hi
    ensures YearList(lo, hi) == YearList(lo, mid) + YearList(mid + 1, hi)
  {
  }

  /** Later steps never change earlier masks: extending the window leaves
      every mask already in the series exactly as it was. */
  lemma SeriesExtends(g: Grid, minYear: int, maxYear: int, maxYear': int)
    requires minYear <= maxYear <= maxYear'
    ensures var s, s' := BaseForestList(g, minYear, maxYear), BaseForestList(g, minYear, maxYear');
      |s| <= |s'| && s'[..|s|] == s
  {
    var base := [TaggedMask(BaselineMask(g, minYear), minYear - 1)];
    YearListSplit(minYear, maxYear, maxYear');
    IterateAppend(g, YearList(minYear, maxYear), YearList(maxYear + 1, maxYear'), base);
  }

  /** The forest state of a single cell in year `y >= minYear - 1`, as the
      recurrence computes it for that cell alone. */
  function ForestAt(c: Cell, minYear: int, y: int): (r: bool)
    requires y >= minYear - 1
    ensures y < minYear ==> (r <==> c.estab < minYear || 0 < c.gain < minYear || c.loss > minYear)
    ensures y >= minYear && (c.estab == y || c.gain == y) ==> r
    ensures y >= minYear && c.loss == y && c.estab != y && c.gain != y ==> !r
    ensures y >= minYear && c.loss != y && c.estab != y && c.gain != y ==> r == ForestAt(c, minYear, y - 1)
    decreases y - minYear
  {
    if y < minYear then BaseCell(c, minYear)
    else StepCell(ForestAt(c, minYear, y - 1), c, y)
  }

  /** Each cell evolves independently: the mask of the series for year `y`
      holds, at every cell, the single-cell state `ForestAt`. */
  lemma {:induction false} SeriesIsCellwise(g: Grid, minYear: int, maxYear: int, k: nat, i: nat)
    requires minYear <= maxYear
    requires k < maxYear - minYear + 2 && i < |g|
    ensures var s := BaseForestList(g, minYear, maxYear);
      |s| == maxYear - minYear + 2 && |s[k].mask| == |g| &&
      s[k].mask[i] == ForestAt(g[i], minYear, minYear - 1 + k)
  {
    SeriesShape(g, minYear, maxYear);
    if k > 0 {
      SeriesIsCellwise(g, minYear, maxYear, k - 1, i);
    }
  }

  /** The year `e` if it lies in the window `[lo, hi]`. */
  function Within(e: int, lo: int, hi: int): Option<int>
  {
    if lo <= e <= hi then Some(e) else None
  }

  /** The later of two optional years. */
  function Later(a: Option<int>, b: Option<int>): (r: Option<int>)
    ensures r.None? <==> a.None? && b.None?
    ensures r.Some? ==> (r == a || r == b)
    ensures r.Some? && a.Some? ==> a.value <= r.value
    ensures r.Some? && b.Some? ==> b.value <= r.value
  {
    match (a, b)
    case (None, _) => b
    case (_, None) => a
    case (Some(x), Some(y)) => if x <= y then b else a
  }

  /** The latest year in `[minYear, y]` at which the cell records any of
      its three events. */
  function LatestEvent(c: Cell, minYear: int, y: int): Option<int>
  {
    Later(Later(Within(c.estab, minYear, y), Within(c.gain, minYear, y)), Within(c.loss, minYear, y))
  }

  /** An independent reading of the recurrence: if the cell records no
      event inside the window up to `y`, it keeps its baseline state;
      otherwise the latest such event decides, and the cell is forest iff
      an establishment or a gain falls in that year (they win a tie with a
      loss). */
  function LatestEventState(c: Cell, minYear: int, y: int): bool
  {
    match LatestEvent(c, minYear, y)
    case None => BaseCell(c, minYear)
    case Some(t) => c.estab == t || c.gain == t
  }

  /** The recurrence agrees with the latest-event reading in every year. */
  lemma {:induction false} LatestEventDecides(c: Cell, minYear: int, y: int)
    requires y >= minYear - 1
    ensures ForestAt(c, minYear, y) == LatestEventState(c, minYear, y)
    decreases y - minYear
  {
    if y >= minYear {
      LatestEventDecides(c, minYear, y - 1);
      if c.estab != y && c.gain != y && c.loss != y {
        assert Within(c.estab, minYear, y) == Within(c.estab, minYear, y - 1);
        assert Within(c.gain, minYear, y) == Within(c.gain, minYear, y - 1);
        assert Within(c.loss, minYear, y) == Within(c.loss, minYear, y - 1);
      } else {
        assert LatestEvent(c, minYear, y) == Some(y);
      }
    }
  }
}
