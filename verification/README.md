# Xollect: the game session of `src/App.js`, in Dafny

Xollect is a one-board puzzle. A 7-by-7 grid holds ice shards. In Edit
(Setup) mode the player places shards. In Play mode the player selects a
shard and either shoves its whole row or column one cell with a wind gust
(the gust buttons and the W, A, S, D keys), or steps the selection marker
with the arrow keys. The game is won, and the board freezes, when every
non-empty cell belongs to one 4-connected region.

The model follows the component `Game` of `src/App.js` in five modules:

- `Cells` (`cells.dfy`): the cell tokens and the board value `Grid`.
  - 0 empty, 1 shard, -1 selected shard, 3 frozen empty, 4 frozen shard.
  - Normalising (`Math.abs`), freezing, the E1 board.
- `Connectivity` (`connectivity.dfy`): connectivity by paths of adjacent
  non-zero cells.
  - The game's own test is "number of non-zero cells equals the size of the
    region flooded from the first one".
  - `WonIffConnected` proves that test means "one region".
- `Moves` (`moves.dfy`): the two kinds of move.
  - The shove of a line: when it is legal, what it moves and what it keeps.
  - The arrow-key step, with its guards as the code writes them, and the
    corrected ArrowDown guard next to them (see Findings).
- `Session` (`session.dfy`): the whole session state as a value.
  - One transition function per event handler, and `Apply` for any event.
  - The invariant `Inv`, kept by every event (`EventKeepsInv`).
  - Lemmas stating what each handler does.
- `App` (`game.dfy`): the imperative model, class `Game`.
  - The current board is a `const cells: array2<int>` that the handlers
    update in place. The other state pieces are fields.
  - Each handler method is proved to change the state exactly as its
    `Session` transition says: `Snapshot() == Session.X(old(Snapshot()))`.
  - `updateIfValid` and its recursive flood fill `walkContiguous` are
    methods over a visited mask (`array2<bool>`). `CountOccupied`,
    `ContiguousCount` and `FloodFrom` are proved to compute the number of
    non-zero cells and the size of the first region.
  - `Dispatch` delivers one event and carries the session invariant.

Reading the code, four things differ from what a plain description of the
game would suggest. The model follows the code on each:

- An empty board passes the win test: 0 non-zero cells equals a flooded
  region of size 0.
  - Switching from Setup to Play with an empty board and Play enabled
    therefore wins and freezes every cell to 3.
  - Play can be enabled on an empty board via a Random deal of all zeros
    followed by Edit.
- Setup to Play does not test that the board is non-empty. It tests the Play
  control's flag, which the placement check keeps.
- Setup to Play runs the win check on the normalised board. A win there
  freezes the board, and the frozen board becomes both the current and the
  starting board.
- Arrow steps run no win check; gusts do.

## Model

| member | source | states |
|---|---|---|
| `Cells.FrozenTokens` | src/App.js:418-426 | after the win freeze every cell holds 3 or 4, the 4s sit exactly on the formerly non-zero cells, and every cell is non-zero |
| `Cells.AbsGridFacts` | src/App.js:16 | normalising leaves no negative token, keeps the non-zero cells, is idempotent, and changes nothing on a board without negatives |
| `Connectivity.FirstOccupiedFrom` | src/App.js:403-413 | the row-major scan from (r, c) finds an occupied cell at or after (r, c) with no occupied cell between (r, c) and it, or finds none when no occupied cell lies at or after (r, c) |
| `Connectivity.FirstOccupied` | src/App.js:403-413 | the flood starts on the occupied cell that comes first in row-major order; there is none exactly when the board has no non-zero cell |
| `Connectivity.ClosedRegionIsComponent` | src/App.js:381-401 | a marked set that contains the start, reaches only cells connected to it and holds every occupied neighbour of its cells is exactly the start's region |
| `Connectivity.ComponentInside` | src/App.js:403-406 | the region flooded from an occupied cell contains it and holds only non-zero cells |
| `Connectivity.WonIffConnected` | src/App.js:415 | the test squareCt == contiguousCt holds exactly when all non-zero cells form one 4-connected region; an empty board passes it |
| `Moves.ShoveLegal` | src/App.js:297-347 | a gust is legal only on a line that exists; its far-end cell must be on the board and empty (the `=== 0` tests) |
| `Moves.Shifted` | src/App.js:297-347 | the shoved board holds, at each cell, the token one step upstream on the gusted line; the near end becomes empty, and every other line is unchanged |
| `Moves.FarEnd` | src/App.js:297-347 | the cell a gust would push off the edge lies on the gusted line, its next step leaves the board, and it is on the board exactly when the line index is |
| `Moves.LineCell` | src/App.js:314-317 | the shove loops visit the cells of the line by depth from the far end, all on the board |
| `Moves.ShoveShiftsLine` | src/App.js:310-321 | a shove moves every token of the line one step, empties the near end and leaves every other line alone |
| `Moves.MovedSetSize` | src/App.js:297-347 | moving every cell of a set along the line never merges two of them |
| `Moves.ShiftedNonZero` | src/App.js:297-347 | after a legal shove the non-zero cells are exactly the old ones, each moved along |
| `Moves.ShoveKeepsShardCount` | src/App.js:297-347 | a legal shove neither creates nor destroys a token |
| `Moves.ShoveCarriesSelection` | src/App.js:175-206 | the selected token lands on the new selection; only an empty far-end selection steps off the board |
| `Moves.ArrowGuard` | src/App.js:207-234 | the corrected guard (see Findings): an arrow step is allowed exactly when the neighbour it lands on is on the board; the Left, Right and Up guards of the code are this one |
| `Moves.ArrowTaken` | src/App.js:207-234 | whether an arrow key moves an on-board selection in the code: the written guard holds and the neighbour is on the board (from the last row, ArrowDown throws and changes nothing); this equals the corrected guard except that ArrowDown is also refused from the last column |
| `Moves.ArrowDownGuardAsWrittenDisagrees` | src/App.js:228-234 | the written ArrowDown guard refuses a step onto the board from (2, 6) and allows one off the board from (6, 2) |
| `Moves.Swapped` | src/App.js:207-234 | an arrow step negates the selected cell and its neighbour and leaves every other cell alone |
| `Moves.SwapKeepsMagnitudes` | src/App.js:207-234 | an arrow step negates exactly the two cells, keeping every magnitude and every non-zero cell |
| `Session.Settle` | src/App.js:377-433 | the win check after a move sets the board to the given one, or, on a win, to its frozen form with hasWon set and Play disabled; it touches neither the selection, the mode, nor the starting and stored boards |
| `Session.Click` | src/App.js:15-23 | a cell click changes no magnitude except the clicked cell's, keeps the mode, the win flag and the starting and stored boards, and in Play before a win selects the cell and makes it non-positive |
| `Session.Shove` | src/App.js:297-347 | a gust keeps the mode and the starting and stored boards; if it changes anything, the game was in Play, not won, the selection's line was legal to shove, and the selection moved one step in the gust's direction |
| `Session.Arrow` | src/App.js:207-234 | an arrow key keeps the mode, the win and Play flags and the starting and stored boards; if it changes anything, the selection was on the board and moved one step onto the board, and for ArrowDown the selection was not in the last column (the code's written guard, src/App.js:229) |
| `Session.ToggleMode` | src/App.js:127-144 | the Edit/Play control keeps the stored board; it flips the mode, or stays in Setup with Play disabled; entering Play makes the board the starting board and keeps the selection |
| `Session.Store` | src/App.js:261-266 | Store changes only the stored board, to a copy of the current board, and changes it exactly when no frozen shard is on the board and it does not already hold that board |
| `Session.Recall` | src/App.js:268-291 | Recall keeps the stored board, the starting board and the selection; with a stored board it clears the win, loads a board with the stored magnitudes, and Play is enabled exactly when that board is non-empty |
| `Session.Clear` | src/App.js:293-295 | Clear empties the stored board and changes nothing else |
| `Session.Reset` | src/App.js:238-255 | Empty and N leave an empty board in Setup with Play disabled and no win, and keep the starting board, the stored board and the selection |
| `Session.Restart` | src/App.js:92-99 | Restart changes nothing, or brings back the starting board in Play with Play enabled, no win and the centre selected, keeping the stored board |
| `Session.Easy` | src/App.js:78-90 | E1 loads the E1 board as both current and starting board, in Play with Play enabled, no win and the centre selected |
| `Session.Randomize` | src/App.js:101-116 | Random loads the dealt 0/1 board as both current and starting board, in Play with Play enabled, no win and the centre selected |
| `Session.OnKey` | src/App.js:166-246 | no key touches the stored board; after a win every key but N, and at any time an unhandled key, changes nothing; only E and N can change the mode |
| `Session.InitialInv` | src/App.js:44-67 | the session the game opens with satisfies the invariant |
| `Session.EventKeepsInv` | src/App.js:70-347 | every event keeps the tokens legal, Setup boards non-negative, and Play enabled in Play before a win |
| `Session.ClickKeepsInv` | src/App.js:15-23 | a cell click keeps the invariant |
| `Session.RecallKeepsInv` | src/App.js:268-291 | Recall keeps the invariant |
| `Session.KeyKeepsInv` | src/App.js:166-246 | every key keeps the invariant |
| `Session.ShoveKeepsInv` | src/App.js:297-347 | a gust keeps the invariant |
| `Session.ArrowKeepsInv` | src/App.js:207-234 | an arrow step keeps the invariant |
| `Session.ToggleModeKeepsInv` | src/App.js:127-144 | the Edit/Play control keeps the invariant |
| `Session.SettleTokens` | src/App.js:415-427 | the win check keeps every token legal and touches the Play flag only on a win |
| `Session.ShoveRefused` | src/App.js:297-347 | a gust whose far-end cell is taken, or whose line is off the board, changes nothing |
| `Session.LegalShove` | src/App.js:297-347 | a legal gust shoves the line, moves the selection one step, runs the win check and keeps the starting and stored boards |
| `Session.SettleIgnoresGrid` | src/App.js:429-433 | the win check replaces the board, so the board held before it does not matter |
| `Session.SettleWins` | src/App.js:415-427 | the win check wins exactly when the board is one region; a win freezes every cell to 3 or 4 and disables Play; otherwise only the board changes |
| `Session.ClickInSetup` | src/App.js:146-155 | a Setup click toggles the clicked cell between empty and shard and normalises the rest; Play is enabled exactly when some cell is non-zero |
| `Session.ClickInPlay` | src/App.js:157-164 | a Play click before a win negates and selects the clicked cell, leaving it the only negative cell; after a win it changes nothing |
| `Session.ArrowMove` | src/App.js:207-234 | an arrow key either changes nothing, or negates exactly the selected cell and its neighbour and selects the neighbour; the win state is untouched; it changes something exactly when the game is in Play, not won, and `Moves.ArrowTaken` holds for the on-board selection |
| `Session.ArrowDownRefusedFromLastColumn` | src/App.js:229 | ArrowDown from a selection in the last column changes nothing, even when the cell below is on the board |
| `Session.StoreCopies` | src/App.js:261-266 | Store is refused while a frozen shard is on the board, and otherwise keeps a copy of the board |
| `Session.RecallLoads` | src/App.js:268-291 | Recall loads the stored board (normalised in Setup) and clears the win. In Setup, Play is enabled iff the board is non-empty; in Play, an empty board drops back to Setup |
| `Session.StoreThenRecall` | src/App.js:261-291 | Store followed by Recall gives back the board and keeps the copy |
| `Session.RestartReplays` | src/App.js:78-116 | Restart, when allowed, reloads the starting board in Play with the centre selected; E1 and Random make their board the starting board, so a Restart right after them changes nothing |
| `Session.ClearForgets` | src/App.js:293-295 | Clear forgets only the stored board, and a Recall after it changes nothing |
| `Session.ResetIdempotent` | src/App.js:248-255 | Empty (and N) leaves an empty board in Setup with Play disabled and no win; doing it twice is doing it once |
| `Session.ToggleModeSteps` | src/App.js:127-144 | Play to Setup normalises and drops the selection. Setup to Play wins exactly when the normalised board is one region, and makes the (possibly frozen) result the starting board. With Play disabled, nothing but the mode changes |
| `App.PartShiftedStep` | src/App.js:314-316 | one pass of a shove loop overwrites the cell at depth k with the cell at depth k + 1 |
| `App.PartShiftedDone` | src/App.js:317 | emptying the near end after the loop gives the shoved board |
| `App.FloodingDone` | src/App.js:381-401 | once all four neighbours of a walked cell are visited, every newly marked cell has its occupied neighbours marked |
| `App.Game.constructor` | src/App.js:44-67 | the game opens on E1 in Play with the centre selected, and satisfies the invariant |
| `App.Game.CountOccupied` | src/App.js:363-369 | squareCt is the number of non-zero cells |
| `App.Game.Walk` | src/App.js:381-401 | walkContiguous marks the cell and everything connected to it and not yet marked; every marked cell is connected to the start; it returns how many cells it marked |
| `App.Game.Mark` | src/App.js:382 | marking a cell adds exactly that cell to the visited mask |
| `App.Game.VisitPair` | src/App.js:384-398 | two neighbour tests leave both neighbours marked when occupied, and count what they mark |
| `App.Game.Visit` | src/App.js:384-386 | a neighbour test walks an unmarked occupied neighbour, leaves it marked, and counts what it marks |
| `App.Game.FloodFrom` | src/App.js:355-406 | a flood over a fresh mask returns the size of the start's region |
| `App.Game.ContiguousCount` | src/App.js:403-413 | contiguousCt is the size of the first occupied cell's region, or 0 for an empty board |
| `App.Game.Freeze` | src/App.js:418-426 | the freeze loop turns every 0 into 3 and every other token into 4 |
| `App.Game.Win` | src/App.js:415-427 | a win sets hasWon, disables Play and freezes the board |
| `App.Game.UpdateIfValid` | src/App.js:349-437 | the placement check only reports whether some cell is non-zero. Otherwise the win check runs and, unless checkStart, the selection moves; the result is true |
| `App.Game.AbsAll` | src/App.js:128 | the board is normalised in place |
| `App.Game.LoadGrid` | src/App.js:72 | the board becomes the given board |
| `App.Game.ShiftLine` | src/App.js:310-321 | the loop and the near-end write leave the board shoved |
| `App.Game.ShiftCell` | src/App.js:314-316 | one pass of the loop advances the board by one cell of the line |
| `App.Game.PopulateAndPlay` | src/App.js:70-76 | the board is loaded in Play with Play enabled and no win |
| `App.Game.HasFrozenShard` | src/App.js:262 | the result is true exactly when some cell holds a 4 |
| `App.Game.SetCell` | src/App.js:147 | one cell is written, nothing else changes |
| `App.Game.Place` | src/App.js:146-155 | the cell steps 0 to 1 and 1 to 0, and Play is enabled exactly when some cell is non-zero |
| `App.Game.Select` | src/App.js:157-164 | before a win the cell is negated and selected; after a win nothing changes |
| `App.Game.NegateCell` | src/App.js:159 | one cell is negated |
| `App.Game.SwapCells` | src/App.js:209-210 | the selected cell and its neighbour are both negated |
| `App.Game.SetSelection` | src/App.js:160-161 | only the selection changes |
| `App.Game.EnterPlay` | src/App.js:137-139 | the current board becomes the starting board, and the mode becomes Play |
| `App.Game.ClickSquare` | src/App.js:15-23 | a cell click does what `Session.Click` says |
| `App.Game.Gust` | src/App.js:297-347 | a gust button does what `Session.Shove` says |
| `App.Game.ArrowStep` | src/App.js:207-234 | an arrow key does what `Session.Arrow` says, with the ArrowDown guard as written |
| `App.Game.SetupModeChanged` | src/App.js:127-144 | the Edit/Play control does what `Session.ToggleMode` says |
| `App.Game.StoreClick` | src/App.js:261-266 | Store does what `Session.Store` says |
| `App.Game.RecallClick` | src/App.js:268-291 | Recall does what `Session.Recall` says |
| `App.Game.ClearClick` | src/App.js:293-295 | Clear does what `Session.Clear` says |
| `App.Game.ResetClick` | src/App.js:248-255 | Empty does what `Session.Reset` says |
| `App.Game.RestartClick` | src/App.js:92-99 | Restart does what `Session.Restart` says |
| `App.Game.EasyClick` | src/App.js:78-90 | E1 does what `Session.Easy` says |
| `App.Game.RandomClick` | src/App.js:101-116 | Random, with the dealt board given, does what `Session.Randomize` says |
| `App.Game.KeyDown` | src/App.js:166-246 | a key does what `Session.OnKey` says |
| `App.Game.Dispatch` | src/App.js:441-561 | every event keeps the session invariant and changes the session as `Session.Apply` says |

## Left out

- Rendering is not modelled: styles, labels ("Play"/"Edit"), the rules panel and the rotating background. Neither are the R key and `handleRulesClick`, which change only presentation state.
- Key decoding (`String.fromCharCode`, `event.code`) is not modelled: a key arrives as the enum `Session.Key`.
- Randomness: the board that Random deals is a parameter of `App.Game.RandomClick`, required to hold only 0s and 1s.
- Crashes: a `TypeError` from indexing a missing row is modelled as a no-op, as the handler throws before any setter runs. This covers a row gust with no selection (after Play to Setup to Play), a row gust whose selection a shove moved to row -1 or 7, an arrow step from such a row, and ArrowDown from row 6. Column gusts with an out-of-range column are no-ops in the code too.
- `Session.Arrow`: an arrow step from a selection in column -1 or 7 (which a gust of an empty edge cell leaves behind) is a no-op in the model. In the code it often does not throw: ArrowLeft from column 7, ArrowRight from column -1, ArrowUp from either, and ArrowDown from column -1 write `NaN` to an index outside the row (column 7 lengthens the row to 8 entries), negate the on-board neighbour when there is one, and move the selection. The model keeps the board 7 by 7 and does not follow these steps.
- Board aliasing: the N key and Empty build their board from one shared row array. The model uses a plain empty board; every later write copies the board first, so the sharing is never observed.
- Board dimensions: the row and column counts are the constants 7, as the source never changes them. The visited mask is 7 by 7, as in the source.
- Copy semantics: the starting and stored boards are values, as the source only ever copies them whole.
- Event timing: React applies a handler's setters after the handler returns. The model applies each handler as one step.
- `App.Game.Place`: requires the clicked cell to be non-negative, which the normalisation before it guarantees. This keeps Dafny's `%` equal to JavaScript's.
- Recursion shape: walkContiguous's four neighbour tests are modelled as `App.Game.VisitPair` twice, each running two `App.Game.Visit` calls in the source's order.

## Findings

| source | as written | input that shows it | evidently intended | confidence | as-written member | corrected member |
|---|---|---|---|---|---|---|
| src/App.js:229 | the ArrowDown guard tests `selectedCol < numberOfRows - 1` | selection (2, 6): ArrowDown is refused although (3, 6) is on the board; selection (6, 2): ArrowDown is allowed and indexes row 7, which does not exist (a `TypeError`) | `selectedRow < numberOfRows - 1` | high, not executed | `Moves.ArrowDownGuardAsWrittenDisagrees` | `Moves.ArrowGuard` |

The session keeps the code's behaviour: `Session.Arrow` and `App.Game.ArrowStep` use `Moves.ArrowTaken`, the written guard with the `TypeError` from row 6 as a no-op, and `Session.ArrowDownRefusedFromLastColumn` shows the refusal at (2, 6). `Moves.ArrowTaken` is proved equal to the corrected `Moves.ArrowGuard` except for ArrowDown from the last column.
