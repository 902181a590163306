# Treasure Tiles board model

A Dafny model of the board of Treasure Tiles, the mines-and-gems game in
`frontend/src/App.tsx`. The board is 25 tiles. Each tile is unselected
(`"unclicked"`), selected (`"clicked"`), a mine or a gem. Clicking a tile
toggles its selection. "Start Game" turns every selected tile into a mine
or a gem by a random draw. "Reset" rebuilds the board with every tile
unselected.

Files:

- `tiles.dfy`, module `Tiles`: the tile states, the board size, and the click rule.
- `grid.dfy`, module `TileGrid`: the board as a `seq<TileState>`, the specification functions of the updates, and the updaters themselves. The updaters copy the previous array into a fresh Dafny array and write into the copy, as the source does with `[...prevStates]`. Lemmas here cover clicks, sequences of clicks and "Start Game".
- `app.dfy`, module `TreasureTiles`: class `App`, which owns the board state. Its invariant is that the board has exactly 25 tiles. Its handlers are `ModifyTileState`, `ClickTile`, `HandleStartGame` and `HandleReset`.

The random draw `Math.random() < 1 / 25` is a parameter, `mines: seq<bool>`.
It holds one outcome per tile index, and `true` means the draw fell below
1/25, so the tile becomes a mine. Each React `setStates` call is one atomic
update of `App.states`.

The code has no wager session, transaction lifecycle or outcome events:
`startGame` (frontend/src/App.tsx:17-26) builds a contract handle and is
never called, and the bet-amount input (frontend/src/App.tsx:74-78) is never
read.

"Reset" ignores the previous board. `App.HandleReset` guarantees
`states == InitialGrid()` whatever `old(states)` was. This means it is
idempotent, and its result equals the board the component mounts with.

## Model

| member | source | states |
|---|---|---|
| Tiles.Toggle | frontend/src/App.tsx:45 | The click rule. The result is always selected or unselected. It is unselected exactly when the tile was selected, so unselected, mine and gem all go to selected. |
| Tiles.ToggleTwiceRestores | frontend/src/App.tsx:45 | Two clicks on an unselected or selected tile give back its state. |
| Tiles.ToggleRevealed | frontend/src/App.tsx:45 | One click selects a mine or gem tile again, and a second click unselects it. |
| TileGrid.InitialGrid | frontend/src/App.tsx:99-101 | The starting board, also used by reset: exactly 25 tiles, all unselected. |
| TileGrid.SetTile | frontend/src/App.tsx:103-109 | Writing one tile keeps the length, sets that tile to the new state and leaves every other tile unchanged. |
| TileGrid.ModifyTileStateUpdate | frontend/src/App.tsx:104-108 | The modifyTileState updater copies the previous states into an array and overwrites one index. The result is exactly `SetTile` of the previous states. |
| TileGrid.Click | frontend/src/App.tsx:42-46 | A click on a tile sets that tile to its toggled state and touches no other tile. |
| TileGrid.ClickTwiceRestores | frontend/src/App.tsx:42-46 | Two clicks on the same unrevealed tile leave the whole board as it was. |
| TileGrid.Clicks | frontend/src/App.tsx:42-46 | Applying a sequence of tile clicks in order keeps the board length. Each click is the handler of one tile, whose index comes from the render loop at frontend/src/App.tsx:142-147. |
| TileGrid.ClicksRevealed | frontend/src/App.tsx:45 | After a sequence of clicks, a mine or gem tile keeps its state if it was never clicked. Otherwise it is selected if it was clicked an odd number of times and unselected if an even number. |
| TileGrid.ClicksParity | frontend/src/App.tsx:45 | After a sequence of clicks, an unrevealed tile holds its own state if it was clicked an even number of times, and its toggled state if odd. Clicks on other tiles do not affect it. |
| TileGrid.ClicksFromInitial | frontend/src/App.tsx:99-101 | From the initial board, a tile is selected exactly when it was clicked an odd number of times, and unselected exactly when an even number of times. |
| TileGrid.RevealGrid | frontend/src/App.tsx:111-121 | The board after "Start Game". The length is kept. Tiles that were not selected keep their state. Each selected tile below index 25 becomes a mine if its draw says so, else a gem. |
| TileGrid.StartGameUpdate | frontend/src/App.tsx:112-120 | The handleStartGame updater copies the previous states into an array. A loop over indices 0 to 24 reads the previous states and writes the drawn outcome for each selected tile. The result is exactly `RevealGrid` of the previous states. |
| TileGrid.RevealLeavesNoSelection | frontend/src/App.tsx:114-118 | On a 25-tile board, no tile is selected after "Start Game". |
| TileGrid.RevealedAfterStart | frontend/src/App.tsx:114-118 | On a 25-tile board, a tile is a mine or gem after "Start Game" exactly when it was selected, or was already a mine or gem, before. |
| TileGrid.RevealWithoutSelection | frontend/src/App.tsx:114-118 | "Start Game" on a board with no selected tile returns the same board. |
| TileGrid.RevealIsLocal | frontend/src/App.tsx:114-116 | A tile's new state depends only on its own previous state and its own draw. Two boards that agree on both agree on that tile afterwards. |
| TileGrid.RevealTwice | frontend/src/App.tsx:111-121 | A second "Start Game" on a 25-tile board changes nothing, whatever its draws. |
| TileGrid.StartAfterClicks | frontend/src/App.tsx:99-121 | Starting from the initial board, apply clicks and then "Start Game". A tile is then a mine or gem exactly when it was clicked an odd number of times, and unselected otherwise. |
| TileGrid.ThreeTileGame | frontend/src/App.tsx:99-121 | A worked example: select tiles 2, 7 and 9, and only tile 7's draw is a mine. Then tiles 2 and 9 are gems, tile 7 is a mine, and every other tile is unselected. |
| TreasureTiles.App.constructor | frontend/src/App.tsx:99-101 | The component mounts with the 25-tile all-unselected board. |
| TreasureTiles.App.ModifyTileState | frontend/src/App.tsx:103-109 | The board stays at 25 tiles. The new board is the old one with just the given tile set. |
| TreasureTiles.App.ClickTile | frontend/src/App.tsx:42-46 | The board stays at 25 tiles. The clicked tile is set to its toggled state. |
| TreasureTiles.App.HandleStartGame | frontend/src/App.tsx:111-121 | The board stays at 25 tiles. The new board is `RevealGrid` of the old one, and no tile is left selected. |
| TreasureTiles.App.HandleReset | frontend/src/App.tsx:123-125 | Whatever the board held, it becomes the initial 25-tile all-unselected board. So reset is idempotent. |

## Left out

- `Math.random() < 1 / 25` (frontend/src/App.tsx:116): floating-point randomness. It becomes the per-tile `mines` parameter, and the 1/25 probability is not modelled.
- `startGame` and `startGameProps` (frontend/src/App.tsx:12-26): a foreign contract call and a React hook. They are never invoked, and as written they do not compile.
- A wager session, transaction lifecycle or outcome events: the code does not implement them.
- The bet-amount input (frontend/src/App.tsx:74-78): it is never read.
- JSX rendering, styling, `BetWidget`, `ThirdwebProvider`, the logo import, `console.log` (frontend/src/App.tsx:43, 48-95, 127-155): UI and I/O.
- `frontend/src/components/navbar.tsx`: UI only, with a wallet client definition. It is not part of this model.
- React's scheduling of `setStates`: each handler is one atomic update. `Tile.handleClick` computes the toggle from the rendered `state`, not from `prevStates`. The model assumes the two are the same, which holds when each update lands before the next click.
- TileGrid.ModifyTileStateUpdate: requires the index to be inside the board. A write outside 0..24 would lengthen the JavaScript array or add a property that is not an array index. No caller does this, because indices come only from 0..24 (frontend/src/App.tsx:142-147).
