/**
 * The per-cell decisions of `redrawGame`: the fill colour, the army label and
 * the tile glyph of each map cell, visited row by row. Pixel geometry, text
 * measurement and the grid-line overlay are not part of this model.
 */
module Render {
  import opened Wrappers
  import opened GameState
  import opened Decimal

  /** An 8-bit-per-channel colour. */
  datatype RGBA = RGBA(r: int, g: int, b: int, a: int)

  /** `playerColors`: the colour of players 0 to 7. */
  const PlayerColors: seq<RGBA> := [
    RGBA(225, 39, 39, 255),
    RGBA(5, 41, 250, 255),
    RGBA(48, 105, 1, 255),
    RGBA(94, 25, 109, 255),
    RGBA(45, 107, 107, 255),
    RGBA(24, 52, 0, 255),
    RGBA(239, 150, 40, 255),
    RGBA(96, 17, 17, 255)
  ]

  /** The fill of a cell, before the palette lookup. */
  datatype Fill = Dark | Grey | Player(index: int) | White

  /** The background rule: the first test that matches wins. The result
      partitions the cells by owner: fog is dark, the seen-neutral sentinel
      grey, a player its own colour, and among unowned cells only cities are
      grey. */
  function FillOf(cell: Cell, k: Tiles): (f: Fill)
    ensures f == Dark <==> cell.faction < -2
    ensures f == Grey <==> cell.faction == -2 || (cell.faction == -1 && cell.kind == k.city)
    ensures f.Player? <==> cell.faction >= 0
    ensures f.Player? ==> f.index == cell.faction
    ensures f == White <==> cell.faction == -1 && cell.kind != k.city
  {
    if cell.faction < -2 then Dark
    else if cell.faction < -1 then Grey
    else if cell.faction >= 0 then Player(cell.faction)
    else if cell.kind == k.city then Grey
    else White
  }

  /** The colour a fill stands for; `None` is the index-out-of-range panic of
      `playerColors[Faction]` for a player index past the palette. */
  function FillColor(f: Fill): (c: Option<RGBA>)
    ensures c.None? <==> f.Player? && !(0 <= f.index < |PlayerColors|)
  {
    match f
    case Dark => Some(RGBA(0x44, 0x44, 0x44, 0xFF))
    case Grey => Some(RGBA(0x88, 0x88, 0x88, 0xFF))
    case Player(i) => if 0 <= i < |PlayerColors| then Some(PlayerColors[i]) else None
    case White => Some(RGBA(0xFF, 0xFF, 0xFF, 0xFF))
  }

  /** The army count written in the cell, if any. */
  function ArmyLabel(cell: Cell): (text: Option<string>)
    ensures text.Some? <==> cell.armies > 0
  {
    if cell.armies > 0 then Some(Itoa(cell.armies)) else None
  }

  /** The tile marker: the `Type` switch runs second and so overrides the
      `Faction` switch. */
  function Glyph(cell: Cell, k: Tiles): (s: string)
    ensures s in {"G", "C", "FO", "M", ""}
  {
    var byFaction :=
      if cell.faction == k.fogObstacle then "FO"
      else if cell.faction == k.mountain then "M"
      else "";
    if cell.kind == k.general then "G"
    else if cell.kind == k.city then "C"
    else byFaction
  }

  /** What is drawn for one cell. */
  datatype CellDraw = CellDraw(color: RGBA, armyText: Option<string>, glyph: string)

  /** The drawing of one cell, or `None` when its fill lookup panics. */
  function DrawCell(cell: Cell, k: Tiles): (d: Option<CellDraw>)
    ensures d.None? <==> cell.faction >= |PlayerColors|
  {
    match FillColor(FillOf(cell, k))
    case None => None
    case Some(color) => Some(CellDraw(color, ArmyLabel(cell), Glyph(cell, k)))
  }

  /** A finished pass over the map, or the map index at which it panicked. */
  datatype Frame = Drawn(cells: seq<CellDraw>) | Panicked(at: nat)

  /** `cells` is the drawing of the first |cells| map cells. */
  predicate DrawnPrefix(m: seq<Cell>, k: Tiles, cells: seq<CellDraw>)
  {
    |cells| <= |m| && forall i :: 0 <= i < |cells| ==> DrawCell(m[i], k) == Some(cells[i])
  }

  /** The nested `for r` / `for c` loop of `redrawGame`: each cell is read
      at `r*Width + c` and drawn in row-major order; the first cell whose
      owner is past the palette stops the pass. */
  method DrawCells(g: Game, k: Tiles) returns (f: Frame)
    requires WellFormed(g)
    ensures f.Drawn? <==> forall i :: 0 <= i < |g.gameMap| ==> DrawCell(g.gameMap[i], k).Some?
    ensures f.Drawn? ==> (|f.cells| == |g.gameMap| &&
      forall i :: 0 <= i < |f.cells| ==> DrawCell(g.gameMap[i], k) == Some(f.cells[i]))
    ensures f.Panicked? ==> (f.at < |g.gameMap| && DrawCell(g.gameMap[f.at], k).None? &&
      forall j :: 0 <= j < f.at ==> DrawCell(g.gameMap[j], k).Some?)
  {
    var w := g.width;
    var cells: seq<CellDraw> := [];
    var r := 0;
    ghost var rowStart := 0;
    while r < g.height
      invariant 0 <= r <= g.height
      invariant rowStart == r * w && |cells| == rowStart
      invariant DrawnPrefix(g.gameMap, k, cells)
    {
      var c := 0;
      while c < w
        invariant 0 <= c <= w
        invariant |cells| == rowStart + c
        invariant DrawnPrefix(g.gameMap, k, cells)
      {
        RowMajor(w, g.height, r, c);
        var idx := CellIndex(w, r, c);
        var cell := g.gameMap[idx];
        var color := FillColor(FillOf(cell, k));
        if color.None? {
          return Panicked(idx);
        }
        cells := cells + [CellDraw(color.value, ArmyLabel(cell), Glyph(cell, k))];
        c := c + 1;
      }
      NextRow(r, w);
      rowStart := rowStart + w;
      r := r + 1;
    }
    return Drawn(cells);
  }

  lemma NextRow(r: int, w: int)
    ensures r * w + w == (r + 1) * w
  {
  }

  // ---------------------------------------------------------------------------
  // Properties of the per-cell decisions

  /** Ownership wins over tile kind: a fogged city is drawn as fog and an
      owned city in its owner's colour. */
  lemma OwnerBeforeCity(cell: Cell, k: Tiles)
    requires cell.kind == k.city
    ensures cell.faction < -2 ==> FillOf(cell, k) == Dark
    ensures cell.faction >= 0 ==> FillOf(cell, k) == Player(cell.faction)
  {
  }

  /** A cell can be drawn iff its owner is not a player index past the eight
      palette entries; a drawn player cell gets that player's entry. */
  lemma PaletteBound(cell: Cell, k: Tiles)
    ensures DrawCell(cell, k).None? <==> cell.faction >= |PlayerColors|
    ensures 0 <= cell.faction < |PlayerColors| ==>
      DrawCell(cell, k).Some? && DrawCell(cell, k).value.color == PlayerColors[cell.faction]
  {
  }

  /** The army label appears iff the count is positive, and it is the count
      in decimal: digits only, no leading zero, reading back as the count. */
  lemma LabelIffArmies(cell: Cell)
    ensures ArmyLabel(cell).Some? <==> cell.armies > 0
    ensures ArmyLabel(cell).Some? ==>
      var s := ArmyLabel(cell).value;
      s != [] && s[0] != '0' &&
      (forall j :: 0 <= j < |s| ==> IsDigit(s[j])) &&
      ParseDecimal(s) == cell.armies
  {
    if cell.armies > 0 {
      ItoaRoundTrip(cell.armies);
    }
  }

  /** Seven armies are labelled "7". */
  lemma SevenArmies(faction: int, kind: int)
    ensures ArmyLabel(Cell(faction, kind, 7)) == Some("7")
  {
  }

  /** With distinct library constants, the glyph names the tile kind first
      (general, city) and only then the fog-obstacle or mountain owner. */
  lemma GlyphCases(cell: Cell, k: Tiles)
    requires Distinct(k)
    ensures Glyph(cell, k) == "G" <==> cell.kind == k.general
    ensures Glyph(cell, k) == "C" <==> cell.kind == k.city
    ensures Glyph(cell, k) == "FO" <==>
      cell.kind != k.general && cell.kind != k.city && cell.faction == k.fogObstacle
    ensures Glyph(cell, k) == "M" <==>
      cell.kind != k.general && cell.kind != k.city && cell.faction == k.mountain
    ensures Glyph(cell, k) == "" <==>
      cell.kind != k.general && cell.kind != k.city &&
      cell.faction != k.fogObstacle && cell.faction != k.mountain
  {
  }

  /** Every drawable cell is drawn with the colour of its fill rule, its army
      label and its glyph, each chosen independently of the others. */
  lemma DrawCellParts(cell: Cell, k: Tiles)
    requires cell.faction < |PlayerColors|
    ensures DrawCell(cell, k).Some?
    ensures FillColor(FillOf(cell, k)) == Some(DrawCell(cell, k).value.color)
    ensures DrawCell(cell, k).value.armyText == ArmyLabel(cell)
    ensures DrawCell(cell, k).value.glyph == Glyph(cell, k)
  {
  }

  /** An owned general's cell with armies shows its owner's colour, its army
      count and "G" together. */
  lemma OwnedGeneral(cell: Cell, k: Tiles)
    requires Distinct(k)
    requires cell.kind == k.general && 0 <= cell.faction < |PlayerColors| && cell.armies > 0
    ensures DrawCell(cell, k) == Some(CellDraw(PlayerColors[cell.faction], Some(Itoa(cell.armies)), "G"))
  {
  }
}
