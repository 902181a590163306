/**
 The board of Treasure Tiles as a sequence of tile states, the updates the
 App component applies to it, and what those updates guarantee.

 Each update of the source is a functional state update: it copies the
 previous array, overwrites some entries of the copy, and returns it. The
 methods below do the same on a Dafny array and are proved equal to the
 specification functions beside them.
 */
module TileGrid {
  import opened Tiles

  type Grid = seq<TileState>

  /** No tile of g is selected. */
  predicate NoneSelected(g: Grid) {
    forall i :: 0 <= i < |g| ==> g[i] != Clicked
  }

  /** The board the App starts with, and rebuilds on "Reset": every tile unselected. */
  function InitialGrid(): (g: Grid)
    ensures |g| == TileCount
    ensures forall i :: 0 <= i < |g| ==> g[i] == Unclicked
  {
    seq(TileCount, _ => Unclicked)
  }

  // ---------------------------------------------------------------------------
  // Writing one tile

  /** The board g with tile index set to s and every other tile as it was. */
  function SetTile(g: Grid, index: int, s: TileState): (r: Grid)
    requires 0 <= index < |g|
    ensures |r| == |g|
    ensures r[index] == s
    ensures forall j :: 0 <= j < |g| && j != index ==> r[j] == g[j]
  {
    g[index := s]
  }

  /**
   The updater of modifyTileState: copy the previous states, overwrite the
   one entry, return the copy.
   */
  method ModifyTileStateUpdate(prevStates: Grid, index: int, newState: TileState)
    returns (newStates: Grid)
    requires 0 <= index < |prevStates|
    ensures newStates == SetTile(prevStates, index, newState)
  {
    var copy := new TileState[|prevStates|](i requires 0 <= i < |prevStates| => prevStates[i]);
    copy[index] := newState;
    newStates := copy[..];
  }

  /** What a click on tile index does: the tile is set to its toggled state. */
  function Click(g: Grid, index: int): (r: Grid)
    requires 0 <= index < |g|
    ensures |r| == |g|
    ensures r[index] == Toggle(g[index])
    ensures forall j :: 0 <= j < |g| && j != index ==> r[j] == g[j]
  {
    SetTile(g, index, Toggle(g[index]))
  }

  /** Two clicks on the same unrevealed tile leave the board as it was. */
  lemma ClickTwiceRestores(g: Grid, index: int)
    requires 0 <= index < |g| && !Revealed(g[index])
    ensures Click(Click(g, index), index) == g
  {
    ToggleTwiceRestores(g[index]);
    assert Click(Click(g, index), index) == g[index := Toggle(Toggle(g[index]))];
  }

  // ---------------------------------------------------------------------------
  // Sequences of clicks

  /** Every index of cs names a tile of a board of length n. */
  predicate OnBoard(cs: seq<int>, n: nat) {
    forall k :: 0 <= k < |cs| ==> 0 <= cs[k] < n
  }

  /** The board after the clicks cs, applied in order from g. */
  function Clicks(g: Grid, cs: seq<int>): (r: Grid)
    requires OnBoard(cs, |g|)
    ensures |r| == |g|
    decreases |cs|
  {
    if cs == [] then g else Clicks(Click(g, cs[0]), cs[1..])
  }

  /** How many times i occurs in cs. */
  function Occurrences(cs: seq<int>, i: int): nat
    decreases |cs|
  {
    if cs == [] then 0 else (if cs[0] == i then 1 else 0) + Occurrences(cs[1..], i)
  }

  /**
   A tile that starts unrevealed ends in its own state if it was clicked an
   even number of times and in the toggled state if an odd number of times;
   clicks on other tiles do not touch it.
   */
  lemma {:induction false} ClicksParity(g: Grid, cs: seq<int>, i: int)
    requires OnBoard(cs, |g|)
    requires 0 <= i < |g| && !Revealed(g[i])
    ensures Clicks(g, cs)[i] == if Occurrences(cs, i) % 2 == 0 then g[i] else Toggle(g[i])
    decreases |cs|
  {
    if cs != [] {
      var g' := Click(g, cs[0]);
      assert OnBoard(cs[1..], |g'|);
      ClicksParity(g', cs[1..], i);
      ToggleTwiceRestores(g[i]);
    }
  }

  /**
   A mine or gem tile keeps its state until it is first clicked; from then
   on it is selected after an odd number of clicks and unselected after an
   even number.
   */
  lemma {:induction false} ClicksRevealed(g: Grid, cs: seq<int>, i: int)
    requires OnBoard(cs, |g|)
    requires 0 <= i < |g| && Revealed(g[i])
    ensures Clicks(g, cs)[i] ==
      if Occurrences(cs, i) == 0 then g[i]
      else if Occurrences(cs, i) % 2 == 1 then Clicked
      else Unclicked
    decreases |cs|
  {
    if cs != [] {
      var g' := Click(g, cs[0]);
      assert OnBoard(cs[1..], |g'|);
      if cs[0] == i {
        ClicksParity(g', cs[1..], i);
      } else {
        ClicksRevealed(g', cs[1..], i);
      }
    }
  }

  /**
   From the initial board, after any clicks no tile is revealed and a tile
   is selected exactly when it was clicked an odd number of times.
   */
  lemma ClicksFromInitial(cs: seq<int>, i: int)
    requires OnBoard(cs, TileCount)
    requires 0 <= i < TileCount
    ensures Clicks(InitialGrid(), cs)[i] == Clicked <==> Occurrences(cs, i) % 2 == 1
    ensures Clicks(InitialGrid(), cs)[i] == Unclicked <==> Occurrences(cs, i) % 2 == 0
  {
    ClicksParity(InitialGrid(), cs, i);
  }

  // ---------------------------------------------------------------------------
  // Start Game

  /**
   The board after "Start Game": every selected tile among the first
   TileCount is turned into a mine when its draw says so and into a gem
   otherwise; all other tiles keep their state. mines[i] is the outcome of
   the random draw for tile i (true: the draw fell below 1/25).
   */
  function RevealGrid(g: Grid, mines: seq<bool>): (r: Grid)
    requires |mines| == TileCount
    ensures |r| == |g|
    ensures forall i :: 0 <= i < |g| && g[i] != Clicked ==> r[i] == g[i]
    ensures forall i :: 0 <= i < |g| && i < TileCount && g[i] == Clicked ==>
      r[i] == if mines[i] then Mine else Gem
  {
    seq(|g|, i requires 0 <= i < |g| =>
      if i < TileCount && g[i] == Clicked then (if mines[i] then Mine else Gem) else g[i])
  }

  /**
   The updater of handleStartGame: copy the previous states, then for each
   index below TileCount whose previous state is selected, write the drawn
   outcome into the copy. The loop reads only the previous states. A
   previous array shorter than TileCount has no entry to read at the
   missing indices, and the source's comparison with "clicked" is false
   there, so nothing is written.
   */
  method StartGameUpdate(prevStates: Grid, mines: seq<bool>) returns (newStates: Grid)
    requires |mines| == TileCount
    ensures newStates == RevealGrid(prevStates, mines)
  {
    var copy := new TileState[|prevStates|](i requires 0 <= i < |prevStates| => prevStates[i]);
    for i := 0 to TileCount
      invariant copy.Length == |prevStates|
      invariant forall j :: 0 <= j < |prevStates| && j < i ==>
        copy[j] == RevealGrid(prevStates, mines)[j]
      invariant forall j :: i <= j < |prevStates| ==> copy[j] == prevStates[j]
    {
      if i < |prevStates| && prevStates[i] == Clicked {
        copy[i] := if mines[i] then Mine else Gem;
      }
    }
    newStates := copy[..];
  }

  /** On a full board, "Start Game" leaves no tile selected. */
  lemma RevealLeavesNoSelection(g: Grid, mines: seq<bool>)
    requires |mines| == TileCount && |g| == TileCount
    ensures NoneSelected(RevealGrid(g, mines))
  {
  }

  /**
   On a full board, a tile is revealed after "Start Game" exactly when it
   was selected or already revealed before.
   */
  lemma RevealedAfterStart(g: Grid, mines: seq<bool>, i: int)
    requires |mines| == TileCount && |g| == TileCount && 0 <= i < TileCount
    ensures Revealed(RevealGrid(g, mines)[i]) <==> g[i] == Clicked || Revealed(g[i])
  {
  }

  /** "Start Game" on a board with no selected tile changes nothing. */
  lemma RevealWithoutSelection(g: Grid, mines: seq<bool>)
    requires |mines| == TileCount && NoneSelected(g)
    ensures RevealGrid(g, mines) == g
  {
  }

  /**
   The new state of tile i depends only on its own previous state and its
   own draw: two boards that agree there agree on tile i afterwards,
   whatever they hold elsewhere.
   */
  lemma RevealIsLocal(g1: Grid, g2: Grid, m1: seq<bool>, m2: seq<bool>, i: int)
    requires |m1| == TileCount && |m2| == TileCount
    requires 0 <= i < |g1| && i < |g2| && i < TileCount
    requires g1[i] == g2[i] && m1[i] == m2[i]
    ensures RevealGrid(g1, m1)[i] == RevealGrid(g2, m2)[i]
  {
  }

  /** Pressing "Start Game" a second time on a full board changes nothing, whatever the new draws. */
  lemma RevealTwice(g: Grid, m1: seq<bool>, m2: seq<bool>)
    requires |m1| == TileCount && |m2| == TileCount && |g| == TileCount
    ensures RevealGrid(RevealGrid(g, m1), m2) == RevealGrid(g, m1)
  {
    RevealLeavesNoSelection(g, m1);
    RevealWithoutSelection(RevealGrid(g, m1), m2);
  }

  /**
   Select tiles from the initial board and press "Start Game": a tile ends
   revealed exactly when it was clicked an odd number of times, and is
   unselected otherwise.
   */
  lemma StartAfterClicks(cs: seq<int>, mines: seq<bool>, i: int)
    requires OnBoard(cs, TileCount) && |mines| == TileCount
    requires 0 <= i < TileCount
    ensures var r := RevealGrid(Clicks(InitialGrid(), cs), mines);
      && (Revealed(r[i]) <==> Occurrences(cs, i) % 2 == 1)
      && (r[i] == Unclicked <==> Occurrences(cs, i) % 2 == 0)
  {
    ClicksFromInitial(cs, i);
  }

  /**
   A worked game: tiles 2, 7 and 9 are selected and only the draw for
   tile 7 falls below 1/25. Tiles 2 and 9 become gems, tile 7 a mine, and
   every other tile stays unselected.
   */
  lemma ThreeTileGame(mines: seq<bool>)
    requires |mines| == TileCount
    requires forall i :: 0 <= i < TileCount ==> (mines[i] <==> i == 7)
    ensures var r := RevealGrid(Clicks(InitialGrid(), [2, 7, 9]), mines);
      && r[2] == Gem && r[7] == Mine && r[9] == Gem
      && forall i :: 0 <= i < TileCount && i != 2 && i != 7 && i != 9 ==> r[i] == Unclicked
  {
    var cs := [2, 7, 9];
    forall i | 0 <= i < TileCount
      ensures Occurrences(cs, i) == if i == 2 || i == 7 || i == 9 then 1 else 0
    {
      assert cs[1..] == [7, 9] && cs[1..][1..] == [9] && cs[1..][1..][1..] == [];
    }
    forall i | 0 <= i < TileCount
      ensures Clicks(InitialGrid(), cs)[i] == if i == 2 || i == 7 || i == 9 then Clicked else Unclicked
    {
      ClicksFromInitial(cs, i);
    }
  }
}
