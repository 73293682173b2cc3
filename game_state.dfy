/**
 * The game snapshot as the game library (gioframework) hands it to the client:
 * a grid of cells stored row-major, the grid size and the local player's index.
 * The library's tile constants are not visible here, so they are parameters.
 */
module GameState {

  /** One map cell: the owner (`Faction`, negative values are the library's
      sentinels), the tile kind (`Type`) and the army count. */
  datatype Cell = Cell(faction: int, kind: int, armies: int)

  /** The read-only part of `gioframework.Game` that the client uses. */
  datatype Game = Game(width: nat, height: nat, playerIndex: int, gameMap: seq<Cell>)

  /** The library constants `FogObstacle` and `Mountain` (values of `Faction`)
      and `City` and `General` (values of `Type`). */
  datatype Tiles = Tiles(fogObstacle: int, mountain: int, city: int, general: int)

  /** The constants that share a switch must differ, or the Go switch would not compile. */
  predicate Distinct(k: Tiles)
  {
    k.fogObstacle != k.mountain && k.city != k.general
  }

  /** A snapshot whose map holds exactly one cell per grid position. */
  predicate WellFormed(g: Game)
  {
    |g.gameMap| == g.width * g.height
  }

  /** Row-major position of cell (r, c) in a grid `w` cells wide. */
  function CellIndex(w: nat, r: int, c: int): int
  {
    r * w + c
  }

  /** Every in-grid (r, c) lands inside the map, and row and column can be read back. */
  lemma RowMajor(w: nat, h: nat, r: int, c: int)
    requires 0 <= r < h && 0 <= c < w
    ensures 0 <= CellIndex(w, r, c) < w * h
    ensures CellIndex(w, r, c) / w == r && CellIndex(w, r, c) % w == c
  {
    var i := CellIndex(w, r, c);
    assert r * w + w == (r + 1) * w;
    assert (r + 1) * w <= h * w by { MulLe(r + 1, h, w); }
    DivModUnique(i, w, r, c);
  }

  /** Two distinct in-grid positions never share a map cell. */
  lemma RowMajorInjective(w: nat, h: nat, r1: int, c1: int, r2: int, c2: int)
    requires 0 <= r1 < h && 0 <= c1 < w && 0 <= r2 < h && 0 <= c2 < w
    requires CellIndex(w, r1, c1) == CellIndex(w, r2, c2)
    ensures r1 == r2 && c1 == c2
  {
    RowMajor(w, h, r1, c1);
    RowMajor(w, h, r2, c2);
  }

  lemma MulLe(a: int, b: int, w: nat)
    requires 0 <= a <= b
    ensures a * w <= b * w
  {
  }

  lemma DivModUnique(i: int, w: nat, q: int, m: int)
    requires 0 <= m < w && i == q * w + m
    ensures i / w == q && i % w == m
  {
    var q' := i / w;
    var m' := i % w;
    assert (q' - q) * w == m - m';
    assert q' <= q by {
      if q' > q { MulLe(1, q' - q, w); }
    }
    assert q <= q' by {
      if q > q' { MulLe(1, q - q', w); }
    }
  }
}
