/**
 The state of one tile of the Treasure Tiles board, the board size, and the
 rule a tile applies when the player clicks it.
 */
module Tiles {

  /** The four states a tile can show. */
  datatype TileState = Unclicked | Clicked | Mine | Gem

  /** The board always has this many tiles (a 5 x 5 grid). */
  const TileCount: nat := 25

  /** A tile that has been turned over by "Start Game". */
  predicate Revealed(s: TileState) {
    s == Mine || s == Gem
  }

  /**
   The state a tile asks for when it is clicked: a selected tile is
   deselected, and every other tile (unselected or already revealed)
   becomes selected.
   */
  function Toggle(s: TileState): (r: TileState)
    ensures r == Clicked || r == Unclicked
    ensures r == Unclicked <==> s == Clicked
    ensures !Revealed(r)
  {
    if s == Clicked then Unclicked else Clicked
  }

  /** On a tile that is not revealed, two clicks undo each other. */
  lemma ToggleTwiceRestores(s: TileState)
    requires !Revealed(s)
    ensures Toggle(Toggle(s)) == s
  {
  }

  /** A revealed tile is selected again by one click and unselected by two. */
  lemma ToggleRevealed(s: TileState)
    requires Revealed(s)
    ensures Toggle(s) == Clicked
    ensures Toggle(Toggle(s)) == Unclicked
  {
  }
}
