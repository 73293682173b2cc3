/**
 * The bot's decision hook (package `ai`): it locates the player's general
 * once when the game starts and does nothing on each update.
 */
module Ai {
  import opened GameState

  /** The hook's memory: where the player's general stands, or -1. */
  datatype Context = Context(generalLocation: int)

  /** Cell `i` holds the local player's general. */
  predicate IsOwnGeneral(g: Game, k: Tiles, i: int)
    requires 0 <= i < |g.gameMap|
  {
    g.gameMap[i].faction == g.playerIndex && g.gameMap[i].kind == k.general
  }

  /** The search from index `from` on, returning at the first match. */
  function FindGeneralFrom(g: Game, k: Tiles, from: nat): (r: int)
    requires from <= |g.gameMap|
    ensures r == -1 || from <= r < |g.gameMap|
    ensures r >= 0 ==> IsOwnGeneral(g, k, r)
    ensures r >= 0 ==> forall j :: from <= j < r ==> !IsOwnGeneral(g, k, j)
    ensures r == -1 <==> forall j :: from <= j < |g.gameMap| ==> !IsOwnGeneral(g, k, j)
    decreases |g.gameMap| - from
  {
    if from == |g.gameMap| then -1
    else if IsOwnGeneral(g, k, from) then from
    else FindGeneralFrom(g, k, from + 1)
  }

  /** `findGeneral`: the first map index holding the player's general, or -1
      when the map has none. */
  function FindGeneral(g: Game, k: Tiles): (r: int)
    ensures -1 <= r < |g.gameMap|
    ensures r >= 0 ==> IsOwnGeneral(g, k, r)
    ensures r >= 0 ==> forall j :: 0 <= j < r ==> !IsOwnGeneral(g, k, j)
    ensures r == -1 <==> forall j :: 0 <= j < |g.gameMap| ==> !IsOwnGeneral(g, k, j)
  {
    FindGeneralFrom(g, k, 0)
  }

  /** `InitContext`: the context remembers where the general was found. */
  function InitContext(g: Game, k: Tiles): (ctx: Context)
    ensures -1 <= ctx.generalLocation < |g.gameMap|
    ensures ctx.generalLocation >= 0 ==> IsOwnGeneral(g, k, ctx.generalLocation)
    ensures ctx.generalLocation >= 0 ==>
      forall j :: 0 <= j < ctx.generalLocation ==> !IsOwnGeneral(g, k, j)
    ensures ctx.generalLocation == -1 <==>
      forall j :: 0 <= j < |g.gameMap| ==> !IsOwnGeneral(g, k, j)
  {
    Context(FindGeneral(g, k))
  }

  /** `ProcessGame`: the placeholder strategy; it sends no moves and leaves
      its context as it was. */
  function ProcessGame(ctx: Context, g: Game): (next: Context)
    ensures next == ctx
  {
    ctx
  }

  /** The general found is unique in the sense that matters to the search:
      any cell holding the player's general is at or after the one found. */
  lemma FirstGeneral(g: Game, k: Tiles, j: int)
    requires 0 <= j < |g.gameMap| && IsOwnGeneral(g, k, j)
    ensures 0 <= FindGeneral(g, k) <= j
  {
  }
}
