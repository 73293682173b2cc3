/**
 * Mapping a mouse position to a map cell (`getMapCellIdxFromMouseXY`).
 * The border, the step and the row width are fixed in the handler: a 25-pixel
 * border and an 18 x 18 grid spread over 750 pixels. Coordinates are exact
 * rationals, so the float64 rounding of the Go handler at exact cell edges is
 * not represented.
 */
module MouseMap {

  const Border: real := 25.0
  /** 750 / 18 pixels per row and per column. */
  const CellStep: real := 750.0 / 18.0
  /** Cells per row assumed by the input handlers. */
  const RowWidth: int := 18

  /** Go's `int(f)` conversion: truncation toward zero. It keeps the sign
      and drops less than one unit of magnitude. */
  function Trunc(x: real): (n: int)
    ensures x >= 0.0 ==> n >= 0 && n as real <= x < n as real + 1.0
    ensures x < 0.0 ==> n <= 0 && n as real - 1.0 < x <= n as real
  {
    if x >= 0.0 then x.Floor else -((-x).Floor)
  }

  /** Any value strictly between -1 and 1 truncates to 0. */
  lemma TruncNearZero(x: real)
    requires -1.0 < x < 1.0
    ensures Trunc(x) == 0
  {
  }

  /** Index along one axis: whole steps past the border, truncated toward zero. */
  function AxisIndex(coord: real): (a: int)
    ensures coord > Border - CellStep ==> a >= 0
  {
    var t := (coord - Border) / CellStep;
    assert t * CellStep == coord - Border;
    if coord > Border - CellStep then
      ScaleStrict(-1.0, t);
      Trunc(t)
    else
      Trunc(t)
  }

  /** The cell index for a cursor position, row-major with 18 cells per row.
      Because of truncation toward zero, no point right of or below the band
      one step outside the border gets a negative index. */
  function CellFromMouse(x: real, y: real): (cell: int)
    ensures x > Border - CellStep && y > Border - CellStep ==> cell >= 0
  {
    AxisIndex(y) * RowWidth + AxisIndex(x)
  }

  /** A coordinate inside band `k` of the grid (k >= 0) has axis index `k`. */
  lemma AxisIndexInBand(coord: real, k: int)
    requires k >= 0
    requires Border + k as real * CellStep <= coord < Border + (k + 1) as real * CellStep
    ensures AxisIndex(coord) == k
  {
    var t := (coord - Border) / CellStep;
    assert t * CellStep == coord - Border;
    assert k as real * CellStep <= t * CellStep < (k + 1) as real * CellStep;
    ScaleMonotone(k as real, t);
    ScaleStrict(t, (k + 1) as real);
  }

  /** Multiplying by the positive step can be undone in comparisons. */
  lemma ScaleMonotone(a: real, b: real)
    requires a * CellStep <= b * CellStep
    ensures a <= b
  {
  }

  lemma ScaleStrict(a: real, b: real)
    requires a * CellStep < b * CellStep
    ensures a < b
  {
  }

  /** A point inside the drawn square of cell (r, c) maps to `r*18 + c`. */
  lemma PointInCell(x: real, y: real, r: int, c: int)
    requires r >= 0 && c >= 0
    requires Border + r as real * CellStep <= y < Border + (r + 1) as real * CellStep
    requires Border + c as real * CellStep <= x < Border + (c + 1) as real * CellStep
    ensures CellFromMouse(x, y) == r * RowWidth + c
  {
    AxisIndexInBand(y, r);
    AxisIndexInBand(x, c);
  }

  /** The centre of every grid cell maps back to that cell. */
  lemma CentreRoundTrip(r: int, c: int)
    requires 0 <= r < RowWidth && 0 <= c < RowWidth
    ensures CellFromMouse(Border + (c as real + 0.5) * CellStep, Border + (r as real + 0.5) * CellStep)
         == r * RowWidth + c
  {
    PointInCell(Border + (c as real + 0.5) * CellStep, Border + (r as real + 0.5) * CellStep, r, c);
  }

  /** Truncation toward zero gives the band just above or left of the grid
      index 0 rather than -1, so row 0 and column 0 are twice as wide. */
  lemma BorderBandIsZero(coord: real)
    requires Border - CellStep < coord < Border + CellStep
    ensures AxisIndex(coord) == 0
  {
    var t := (coord - Border) / CellStep;
    assert t * CellStep == coord - Border;
    ScaleStrict(-1.0, t);
    ScaleStrict(t, 1.0);
    TruncNearZero(t);
  }

  /** The index is not clamped: a point one column past the right edge of row r
      maps to the first cell of row r + 1. */
  lemma PastRightEdgeWraps(x: real, y: real, r: int)
    requires r >= 0
    requires Border + r as real * CellStep <= y < Border + (r + 1) as real * CellStep
    requires Border + RowWidth as real * CellStep <= x < Border + (RowWidth + 1) as real * CellStep
    ensures CellFromMouse(x, y) == (r + 1) * RowWidth
  {
    PointInCell(x, y, r, RowWidth);
  }
}
