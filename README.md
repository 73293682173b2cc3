# giobot input and render core, in Dafny

giobot is a desktop client for a grid territory game (generals.io). It draws
the player's view of the game's `Width` x `Height` map, and it turns key presses
and mouse clicks
into `game.Attack(from, to, is50)` commands. A bot hook (package `ai`) looks
at each game snapshot. This project models the decision logic of that client
and proves properties about it:

- **Move intent** (`MoveIntent`, `Input`). The pending action `{from, to, is50}`
  is a class with mutable fields. `OnKey` and `OnClick` update those fields the
  way the Go callbacks do. Every attack sent is appended to the `attacks`
  field, which stands in for `game.Attack`. The functions `KeyStep`,
  `ClickStep` and `Run` give the same transitions as values, so lemmas can
  relate several events.
- **Mouse mapping** (`MouseMap`). This maps a cursor position to a cell index,
  using a 25-pixel border, a step of 750/18 pixels and truncation toward zero
  (Go's `int(...)`). Coordinates are exact rationals.
- **Per-cell render decisions** (`Render`, `Decimal`). For each cell,
  `redrawGame` picks a fill (with a first-match order and the 8-entry player
  palette), an army label (`strconv.Itoa` when the count is positive) and a
  tile glyph. It visits the cells row by row at index `r*Width + c`.
- **Font cache** (`Fonts`). This is a class over a `map` from font name to font,
  with `Store`, `Load` and the start-up registration loop.
- **Bot hook** (`Ai`). `findGeneral` does a first-match search for the player's
  general. `InitContext` records the index it finds. `ProcessGame` does nothing.

The snapshot types of the game library (`Cell`, `Game`) live in `GameState`.
That module also holds the library constants `FogObstacle`, `Mountain`, `City`
and `General`. Their values are not part of this model, so they are
parameters (`Tiles`). The switches that compare against them need them to be
distinct (`Distinct`).

Behaviour as written. The model follows the code, including these points,
each of which is proved:
- The emission guard is `from > 0 && to > 0`, so cell 0 can never be the
  source or the target of an attack (`CellZeroCannotMove`, `AttacksPositive`).
- There is no `from != to` check.
- A click sets only `from` and keeps any old `to`. So a click followed by an
  unbound key can send an attack from a cell to itself
  (`StaleTargetSelfAttack`) or to a cell that is not a neighbour
  (`StaleTargetFarAttack`).
- Nothing ever sets `is50`, so every attack is a full move (`NeverSplits`).
- The row width 18 in the key handler and in the mouse mapping is fixed. It
  does not come from the game's width.
- Neither the key nudges nor the mouse mapping check the grid edges. A point
  just past the right edge of a row maps to the first cell of the next row
  (`PastRightEdgeWraps`).
- A player index of 8 or more stops the render pass with an index-out-of-range
  panic (`DrawCells` returns `Panicked`).

## Model

| member | source | states |
|---|---|---|
| GameState.RowMajor | giobot.go:135-140 | every in-grid (r, c) gives an index in [0, w*h), and the row and column can be read back by div/mod |
| GameState.RowMajorInjective | giobot.go:135-140 | two different grid positions never read the same map cell |
| MouseMap.Trunc | giobot.go:100-101 | Go's `int(...)` conversion: the result keeps the sign of its argument and is less than one unit closer to zero |
| MouseMap.AxisIndexInBand | giobot.go:96-101 | a coordinate in band k >= 0 of the grid gives axis index k |
| MouseMap.CellFromMouse | giobot.go:95-104 | `getMapCellIdxFromMouseXY`: no point right of and below the band one step outside the border gets a negative index; PointInCell, BorderBandIsZero and PastRightEdgeWraps characterise it further |
| MouseMap.PointInCell | giobot.go:95-104 | a point inside the square of cell (r, c), r, c >= 0, maps to r*18 + c |
| MouseMap.CentreRoundTrip | giobot.go:95-104 | the centre of each of the 18 x 18 cells maps back to that cell |
| MouseMap.BorderBandIsZero | giobot.go:100-101 | points up to one step before the border truncate to index 0, not -1 |
| MouseMap.PastRightEdgeWraps | giobot.go:100-103 | no clamping: one column past the right edge of row r gives the first cell of row r + 1 |
| MoveIntent.KeyStep | giobot.go:62-92 | `onKey` as a value: at most one attack per event, each with both ends positive and the current is50; close is requested iff Q is pressed; is50 is kept. DirectionPress and EmitsIffBothPositive give the full transition |
| MoveIntent.NonPressIgnored | giobot.go:65-67 | a release or repeat leaves the pending action unchanged and sends nothing |
| MoveIntent.SpaceCancels | giobot.go:72-74 | Space sets from and to to -1, keeps is50 and sends nothing |
| MoveIntent.QuitCloses | giobot.go:70-71 | Q requests the window close and otherwise acts as an unbound key |
| MoveIntent.DirectionPress | giobot.go:75-92 | A/D/W/S aim at from-1, from+1, from-18, from+18; the attack is sent iff both ends are positive, and then from becomes the target and to is cleared |
| MoveIntent.EmitsIffBothPositive | giobot.go:85-92 | at most one attack per key event, sent iff it is a press leaving both ends positive, carrying those ends and is50 |
| MoveIntent.DirectionAttackAdjacent | giobot.go:75-92 | an attack sent by a direction key goes exactly 1 or 18 indices away |
| MoveIntent.ClickStep | giobot.go:106-112 | `onClick` as a value: from becomes the mapped cell, to and is50 are kept, nothing is sent and no close is requested |
| MoveIntent.ChainedMoves | giobot.go:75-92 | pressing one direction twice from cell c sends (c, c+d) and then (c+d, c+2d) and ends at (c+2d, -1) |
| MoveIntent.SplitFlagFixed | giobot.go:62-112 | over any event sequence, every attack carries the starting is50 and the final state keeps it |
| MoveIntent.NeverSplits | giobot.go:60 | from program start every attack has is50 = false |
| MoveIntent.AttacksPositive | giobot.go:85-92 | over any event sequence, every attack has from > 0 and to > 0 |
| MoveIntent.CellZeroCannotMove | giobot.go:81-85 | selecting cell 0 and pressing down twice sends no attack |
| MoveIntent.StaleTargetSelfAttack | giobot.go:62-112 | select 0, press D, click cell 1, press an unbound key: the attack (1, 1, false) is sent |
| MoveIntent.StaleTargetFarAttack | giobot.go:62-112 | select 0, press D, click cell 100, press an unbound key: the attack (100, 1, false) is sent |
| Input.InputState.constructor | giobot.go:60 | start state from = to = -1, is50 false, no attacks, window open |
| Input.InputState.OnKey | giobot.go:62-93 | the new pending action, attack log and close flag are those of KeyStep; is50 is untouched |
| Input.InputState.OnClick | giobot.go:106-112 | from becomes the mapped cell; to, is50, the attack log and the close flag are untouched |
| Decimal.Itoa | giobot.go:159 | `strconv.Itoa` for counts >= 0: non-empty text of decimal digits; ItoaRoundTrip shows it reads back as the number |
| Decimal.ItoaRoundTrip | giobot.go:159 | the army text is non-empty digits without a leading zero and reads back as the count |
| Render.DrawCells | giobot.go:135-185 | visiting cells row-major, the pass draws every cell as DrawCell does iff no owner is past the palette; otherwise it stops at the first such index |
| Render.FillOf | giobot.go:143-153 | the first-match fill rule: dark iff owner < -2; grey iff owner = -2 or an unowned (-1) city; the owner's player entry iff owner >= 0; white iff an unowned non-city |
| Render.FillColor | giobot.go:43-52 | the colour lookup fails (Go's index panic at giobot.go:148) iff the fill is a player index outside the 8 palette entries |
| Render.ArmyLabel | giobot.go:158-159 | a label exists iff armies > 0; LabelIffArmies shows it is the decimal count |
| Render.Glyph | giobot.go:167-180 | the glyph is one of "G", "C", "FO", "M" or empty; GlyphCases says which |
| Render.DrawCell | giobot.go:142-183 | one cell's drawing exists iff its owner is below 8; DrawCellParts shows it then carries the fill colour, the army label and the glyph |
| Render.DrawCellParts | giobot.go:142-183 | a cell whose owner is below 8 is drawn with the colour of FillOf, the label of ArmyLabel and the glyph of Glyph, each chosen on its own |
| Render.OwnerBeforeCity | giobot.go:143-153 | a fogged city is dark and an owned city has its owner's colour |
| Render.PaletteBound | giobot.go:143-153 | a cell can be drawn iff its owner index is below 8; a player cell gets its palette entry |
| Render.LabelIffArmies | giobot.go:158-165 | the label is present iff armies > 0 and is then the decimal text of the count |
| Render.SevenArmies | giobot.go:158-159 | a count of 7 is labelled "7" |
| Render.GlyphCases | giobot.go:168-180 | "G" iff General, "C" iff City, else "FO" iff FogObstacle owner, "M" iff Mountain owner, else empty |
| Render.OwnedGeneral | giobot.go:143-180 | an owned general with armies (owner below 8) shows its owner's palette colour, its count and "G" |
| Fonts.FontCache.constructor | giobot.go:246 | a new cache holds no fonts |
| Fonts.FontCache.Store | giobot.go:26-28 | the name now loads the given font, replacing an earlier one; every other name loads as before |
| Fonts.FontCache.Load | giobot.go:30-36 | succeeds iff the name is stored, with the stored font; otherwise fails with the not-stored message |
| Fonts.RegisterFonts | giobot.go:246-261 | after storing every parsed font, each name loads its own font and every other name fails |
| Ai.FindGeneralFrom | ai/ai.go:11-19 | from index i on: -1 or the first index holding the player's general |
| Ai.FindGeneral | ai/ai.go:11-19 | result is -1 or a map index; a non-negative result is the player's general with none before it; -1 iff there is none |
| Ai.InitContext | ai/ai.go:21-26 | the context's general location is the first cell holding the player's general, or -1 iff the map has none |
| Ai.ProcessGame | ai/ai.go:28-30 | the context is left unchanged and no move is produced |
| Ai.FirstGeneral | ai/ai.go:12-16 | any cell holding the player's general is at or after the index found |

## Left out

- Window and OpenGL set-up, `reshape`, `SwapBuffers` and `PollEvents` (giobot.go:115, 204-243). These are foreign graphics calls. The mouse-button callback's button and action arguments are ignored by the code, so `OnClick` takes only the cursor position, which the window system provides.
- The drawing calls of `redrawGame`: rectangle and text placement, string-bound measurement and the float pixel geometry (giobot.go:117-124, 138-139, 154-164, 181-183). These are float numerics inside the drawing library. Only the per-cell decisions are modelled.
- The grid-line overlay (giobot.go:188-199). It is pure pixel geometry and is not modelled.
- TrueType parsing and the font-namer callback (giobot.go:248-267). These are library calls. `RegisterFonts` takes the already parsed fonts as its input.
- The network connection, joining a game, the `c.Run()` goroutine and the `Start`/`Won`/`Lost`/`Update` callbacks (giobot.go:275-306). These are I/O in an external framework. `game.Attack` is modelled only as an entry in the attack log.
- The main tick loop and the `redraw` flag (giobot.go:283-320). That code exists to pass a signal between goroutines with sleeps. Concurrency is not modelled.
- `fmt.Print*` logging. It is output only.
- MouseMap.CellFromMouse: float64 rounding is not modelled, because the coordinates are exact rationals. Results exactly on a cell edge may differ from the compiled program.
- Decimal.ItoaRoundTrip: covers only non-negative numbers, because the renderer calls `strconv.Itoa` only for positive counts.
- Render.DrawCells: requires the map to hold exactly `Width*Height` cells, as the game library provides it. A shorter map would make the Go loop panic on an out-of-range index, and a longer map is read only up to its first `Width*Height` cells. Neither case is modelled.
- Go's 64-bit `int` is modelled as an unbounded integer. This affects `from ± 1` and `from ± 18` in the key handler, `rowIdx*18 + colIdx` in the mouse mapping, and `int()` of a float64 too large for `int`. Overflow cannot happen with window coordinates and real cell indices, so wrap-around is not modelled.
