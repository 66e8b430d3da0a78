/**
 * The three event rasters (year of establishment, of gain, of loss) seen
 * cell by cell, their normalisation, and the baseline forest mask for the
 * year before the analysis window.
 *
 * Years are offsets from 1970, as in the source (`min_year = 1989 - 1970`).
 */
module Events {

  datatype Option<T> = None | Some(value: T)

  /** One cell of the three event rasters after normalisation: a gain or
      loss year of 0 stands for "no event". */
  datatype Cell = Cell(estab: int, gain: int, loss: int)

  /** One cell as loaded: the gain and loss rasters may be masked there
      (no event recorded). The establishment raster is read as is. */
  datatype RawCell = RawCell(estab: int, gain: Option<int>, loss: Option<int>)

  /** The three rasters, one entry per cell, on a common grid. */
  type Grid = seq<Cell>

  /** A boolean raster (forest / not forest), one entry per cell. */
  type Mask = seq<bool>

  /** `image.unmask(0)`: a masked value reads as 0. */
  function Unmask(v: Option<int>): (y: int)
    ensures v.None? ==> y == 0
    ensures v.Some? ==> y == v.value
  {
    match v
    case None => 0
    case Some(y) => y
  }

  /** Pre-processing of one cell: loss and gain are unmasked to 0. */
  function Normalize(c: RawCell): (n: Cell)
    ensures n.estab == c.estab
    ensures n.gain == Unmask(c.gain) && n.loss == Unmask(c.loss)
  {
    Cell(c.estab, Unmask(c.gain), Unmask(c.loss))
  }

  /** Pre-processing of the whole grid. */
  function NormalizeGrid(raw: seq<RawCell>): (g: Grid)
    ensures |g| == |raw|
    ensures forall i :: 0 <= i < |raw| ==> g[i] == Normalize(raw[i])
    ensures forall i :: 0 <= i < |raw| ==>
      && g[i].estab == raw[i].estab
      && g[i].gain == (if raw[i].gain.Some? then raw[i].gain.value else 0)
      && g[i].loss == (if raw[i].loss.Some? then raw[i].loss.value else 0)
  {
    seq(|raw|, i requires 0 <= i < |raw| => Normalize(raw[i]))
  }

  /** Forest established before the window opens. */
  predicate EstablishedBefore(c: Cell, minYear: int)
  {
    c.estab < minYear
  }

  /** A gain event (a non-zero gain year) before the window opens. */
  predicate GainedBefore(c: Cell, minYear: int)
  {
    c.gain > 0 && c.gain < minYear
  }

  /** A loss event strictly after the first year of the window. */
  predicate LostAfter(c: Cell, minYear: int)
  {
    c.loss > minYear
  }

  /** Forest state of one cell in the baseline year `minYear - 1`. */
  predicate BaseCell(c: Cell, minYear: int)
  {
    EstablishedBefore(c, minYear) || GainedBefore(c, minYear) || LostAfter(c, minYear)
  }

  /** The baseline mask for the year `minYear - 1`: forest wherever the
      cell was established before `minYear`, gained before `minYear`, or
      lost strictly after `minYear`. A gain year of 0 never counts. */
  function BaselineMask(g: Grid, minYear: int): (m: Mask)
    ensures |m| == |g|
    ensures forall i :: 0 <= i < |g| ==>
      (m[i] <==> g[i].estab < minYear || (0 < g[i].gain && g[i].gain < minYear) || g[i].loss > minYear)
    ensures forall i :: 0 <= i < |g| && g[i].gain == 0 ==>
      (m[i] <==> g[i].estab < minYear || g[i].loss > minYear)
  {
    seq(|g|, i requires 0 <= i < |g| => BaseCell(g[i], minYear))
  }

  /** On loaded data, a masked (absent) gain event never makes a cell
      baseline forest, and neither does a masked loss event as long as the
      window starts at a non-negative offset. So the baseline of a loaded
      cell is decided by the events it actually records. */
  lemma BaselineOfLoadedGrid(raw: seq<RawCell>, minYear: int, i: int)
    requires 0 <= minYear
    requires 0 <= i < |raw|
    ensures |BaselineMask(NormalizeGrid(raw), minYear)| == |raw|
    ensures BaselineMask(NormalizeGrid(raw), minYear)[i] <==>
      || raw[i].estab < minYear
      || (raw[i].gain.Some? && 0 < raw[i].gain.value < minYear)
      || (raw[i].loss.Some? && raw[i].loss.value > minYear)
  {
  }
}
