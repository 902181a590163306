/**
 The App component of Treasure Tiles: it owns the board state and exposes
 the three handlers the page wires to its buttons. Each handler is one
 atomic update of the state.
 */
module TreasureTiles {
  import opened Tiles
  import opened TileGrid

  class App {
    /** The state of every tile, in board order. */
    var states: Grid

    /** The board always has exactly TileCount tiles. */
    ghost predicate Valid()
      reads this
    {
      |states| == TileCount
    }

    /** The component mounts with every tile unselected. */
    constructor ()
      ensures Valid()
      ensures states == InitialGrid()
    {
      states := InitialGrid();
    }

    /** Set tile index to newState; every other tile keeps its state. */
    method ModifyTileState(index: int, newState: TileState)
      requires Valid() && 0 <= index < TileCount
      modifies this
      ensures Valid()
      ensures states == SetTile(old(states), index, newState)
    {
      states := ModifyTileStateUpdate(states, index, newState);
    }

    /** The click handler of tile index: it asks for the toggled state of the tile. */
    method ClickTile(index: int)
      requires Valid() && 0 <= index < TileCount
      modifies this
      ensures Valid()
      ensures states == Click(old(states), index)
    {
      ModifyTileState(index, Toggle(states[index]));
    }

    /**
     "Start Game": every selected tile becomes a mine or a gem according to
     its draw; afterwards no tile is selected and the tiles that were not
     selected keep their state.
     */
    method HandleStartGame(mines: seq<bool>)
      requires Valid() && |mines| == TileCount
      modifies this
      ensures Valid()
      ensures states == RevealGrid(old(states), mines)
      ensures NoneSelected(states)
    {
      RevealLeavesNoSelection(states, mines);
      states := StartGameUpdate(states, mines);
    }

    /** "Reset": whatever the board held, it is rebuilt as the initial board. */
    method HandleReset()
      requires Valid()
      modifies this
      ensures Valid()
      ensures states == InitialGrid()
    {
      states := InitialGrid();
    }
  }
}
