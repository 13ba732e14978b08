# Flood, modelled in Dafny

Flood is a terminal puzzle on a square board of coloured tiles. Each turn the player
gives a colour letter, and the region of tiles that are connected to the corner (0, 0)
and share its colour is repainted in that colour. The player may also type `u` to
undo. The game is won when the whole board has one colour. It is lost when the move
budget runs out first. This project models the game engine, class `Flood` in
`main.py`, without the terminal rendering and the console input. It proves what the
engine does to its board, its history of boards and its counters.

The project has four modules, one file each:

- `flood_fill.dfy`, module `FloodFill`. It defines what a fill means, independently
  of the code. A board is a `seq<seq<int>>`. A tile is in the corner's region when a
  path of 4-adjacent, corner-coloured tiles leads from (0, 0) to it. `Flooded(g, n, c)`
  is the board with exactly that region repainted in `c`. The module also proves the
  lemmas about regions and masks that the traversal's proof and the game lemmas need.
- `game.dfy`, module `Game`. It holds the engine's state as a value, `State`, and one
  function per step the engine takes: saving and restoring a board, the win test, the
  fill, a colour move, one turn, the turn loop and the whole game. It also defines the
  letter-to-command decoding.
- `engine.dfy`, module `Engine`. It defines class `Flood`. The live board, the visited
  mask and each history slot are `array2` arrays. The move count, the history cursor
  and the won flag are fields that the methods update. The fill is the recursive,
  visited-mask-guarded traversal of the source. `Abs()` reads the object as a
  `Game.State`: methods that change the game's state are proved to change it as the
  `Game` function of the same name does, and the traversal is proved to paint exactly
  `Flooded` and to mark exactly the corner's region.
- `game_facts.dfy`, module `GameFacts`. It proves what the rules imply: how a turn
  moves the counters, what undo restores, how the loop can end, the bounds of the
  history, and a concrete game in which undo fails to bring back a saved board.

Two behaviours of the code are modelled as written, although the game's description
suggests otherwise:

- The history has room for `max_moves_num` boards (main.py:54). The first save uses
  slot 0, and each colour move saves one slot further on. So the colour move that
  would save at slot `max_moves_num` indexes past the end, and the game stops with
  `IndexError`. A game of colour moves only therefore never reaches "Out of moves".
  With `max_moves_num == 0` the first save (main.py:98) already fails.
- Restoring makes the live board be the history slot, as one shared array
  (main.py:71), while saving copies values (main.py:60). After an undo to slot k, the
  next fill repaints slot k as well. A later undo to slot k then brings back the
  repainted board, not the one saved there. The ghost field `alias` records which slot
  the live board is. `GameFacts.UndoAfterUndoKeepsRepaintedBoard` plays such a game
  on a 2×2 board.

A board of size 0 makes the win test read a tile that does not exist (main.py:79).
That game also ends with `IndexError`.

Input is a sequence of commands that are already decoded (`Colour(0..3)` or `Undo`).
`Game.DecodeLetter` is the letter lookup. When the commands run out before the game
ends, the outcome is `AwaitingInput`.

## Model

| member | source | states |
|---|---|---|
| Game.DecodeLetter | main.py:8-17 | a letter is accepted exactly when it is in LEGAL_INPUT; `u` is undo; every other accepted letter is the colour COLOR_LETTER_TO_NUM gives it, in 0..3 |
| Game.DecodeLetterOf | main.py:8-17 | decoding is the inverse of the letter of a command: every playable command's letter decodes to it, and every accepted letter is the letter of what it decodes to |
| Game.Init | main.py:39-54 | a new game is a consistent state: the history has exactly max_moves_num slots, each of the board's shape |
| Game.SaveBoard | main.py:56-60 | only the slot at the cursor changes, and it takes the live board's values |
| Game.RestorePrevBoard | main.py:62-71 | at cursor 0 nothing changes; otherwise the cursor steps back by one and the live board is that slot (aliased); history, moves and won flag are untouched |
| Game.CheckForWin | main.py:78-87 | the won flag becomes set exactly when it was set or every tile equals the corner; nothing else changes |
| Game.ColourMove | main.py:108-111 | a colour move advances the cursor by one and crashes exactly when the new cursor is past the last slot |
| Game.Step | main.py:106-112 | a counted turn keeps the move count and, unless it crashes, leaves the board saved at the cursor with the cursor within the moves |
| Game.Turn | main.py:99-112 | every turn counts exactly one move, and a turn that does not crash leaves a resting state |
| Game.SpreadColour | main.py:128-151 | a fill changes only the board and, when the live board is a history slot, that slot; every other slot and the counters are untouched (what the board becomes: FloodFill.FloodedTiles, Engine.Flood.SpreadColour) |
| Game.Loop | main.py:99-113 | the move count never decreases; the loop's ending is characterised by GameFacts.LoopOutcome |
| Game.Play | main.py:89-113 | the move count never decreases; a new game's ending is characterised by GameFacts.GameOutcome |
| Engine.Flood.constructor | main.py:32-54 | the live board is the given array, and the state is Init: max_moves_num fresh, distinct zero-filled slots |
| Engine.Flood.SaveBoard | main.py:56-60 | writes only the slot array at the cursor, and acts on the state as Game.SaveBoard |
| Engine.Flood.RestorePrevBoard | main.py:62-71 | acts as Game.RestorePrevBoard, and after a step back the board field is that slot's array itself |
| Engine.Flood.AllTilesMatchCorner | main.py:78-83 | the nested scan returns true exactly when every tile equals the corner tile |
| Engine.Flood.CheckForWin | main.py:78-87 | sets the won flag as Game.CheckForWin, never clears it |
| Engine.Flood.Play | main.py:89-113 | the outcome and final state are those of Game.Play on the starting state |
| Engine.Flood.Loop | main.py:99-113 | the while loop's outcome and final state are those of Game.Loop |
| Engine.Flood.Turn | main.py:99-112 | one pass of the loop body acts as Game.Turn and reports its crash |
| Engine.Flood.Step | main.py:106-112 | the undo or colour branch, then the win test, acts as Game.Step |
| Engine.Flood.CountMove | main.py:100 | raises the move count by one, nothing else |
| Engine.Flood.ColourMove | main.py:108-111 | fill, cursor advance and save act as Game.ColourMove, with the crash when no slot is left |
| Engine.Flood.SpreadColour | main.py:128-137 | with a fresh mask, repaints the board (and the slot it aliases) to Flooded of the old board, and the visited mask marks exactly the corner's old region |
| Engine.Flood.SpreadColourToNeighbors | main.py:139-164 | the tile entered gets marked; on return every tile visited is painted and in the region, all others keep their old value, marks were only added, and every newly marked tile has no unmarked corner-coloured neighbour; it terminates because the unvisited set shrinks |
| Engine.Flood.SpreadToNeighbour | main.py:154-164 | one guarded neighbour test in the order down, right, up, left keeps the traversal invariant and completes that neighbour |
| Engine.Flood.TraversalIsFlood | main.py:136-164 | a traversal from the corner with a fresh mask leaves exactly Flooded on the board and marks exactly the region |
| FloodFill.InRegion | main.py:139-164 | the tiles the traversal reaches: those joined to the corner by a path of 4-adjacent tiles of the corner's colour; Engine.Flood.TraversalIsFlood proves the visited mask equals it |
| FloodFill.Flooded | main.py:128-164 | the reference result of a fill, square of the board's size; Engine.Flood.TraversalIsFlood proves the traversal leaves it, FloodFill.FloodedTiles and FloodFill.FloodWithCornerColourIsIdentity describe it |
| FloodFill.IsUniform | main.py:78-83 | the win condition, every tile equal to the corner; Engine.Flood.AllTilesMatchCorner proves the scan computes it and FloodFill.UniformIffRegionIsWholeBoard ties it to the region |
| FloodFill.RegionHasCornerColour | main.py:150-164 | every tile of the region has the corner's colour before the fill, so every old_color read equals it |
| FloodFill.CornerInRegion | main.py:137 | the traversal's starting tile is in the region |
| FloodFill.PathStaysInMask | main.py:154-164 | a corner-coloured path from the corner stays inside any mask that contains the corner and is closed |
| FloodFill.ClosedMaskCoversRegion | main.py:154-164 | a closed mask containing the corner covers the whole region |
| FloodFill.MaskIsRegion | main.py:136-164 | a closed mask of region tiles containing the corner is exactly the region |
| FloodFill.IsolatedCorner | main.py:154-164 | when both neighbours of the corner differ from it, a fill repaints the corner alone |
| FloodFill.FloodWithCornerColourIsIdentity | main.py:150-164 | filling with the corner's own colour changes no tile |
| FloodFill.FloodedTiles | main.py:128-164 | after a fill the region has the new colour and no tile outside it changed |
| FloodFill.RegionGrows | main.py:128-164 | every tile of the old region is in the region of the filled board |
| FloodFill.UniformIffRegionIsWholeBoard | main.py:78-83 | the win condition holds exactly when the corner's region is the whole board |
| FloodFill.OneDifferentTileIsNotUniform | main.py:78-83 | one tile with another colour makes a board of two or more rows not uniform |
| GameFacts.UndoTurn | main.py:62-71 | undo never crashes and counts one move; at cursor 0 board and cursor stay; otherwise the cursor drops by one and the board is the slot there; the history is untouched |
| GameFacts.ColourTurn | main.py:99-111 | a colour move counts one move, raises the cursor by one, paints Flooded, saves it at the new cursor, crashes exactly when the new cursor equals max_moves_num, and changes no other slot except the one the live board is |
| GameFacts.CrashedTurn | main.py:108-111 | only a colour move from the last slot crashes, and the won flag stays as it was |
| GameFacts.ColourMoveAfterUndoRepaintsSlot | main.py:71 | after an undo to slot k, the next colour move repaints slot k |
| GameFacts.UndoAfterColourMove | main.py:60-71 | if the live board was not the slot at the cursor, undoing a colour move gives back the board from before the move; if it was, the undo gives the filled board |
| GameFacts.TurnKeepsWon | main.py:86-87 | no turn clears the won flag |
| GameFacts.TurnAdvancesCursor | main.py:106-111 | the cursor rises only on a colour move, by at most one |
| GameFacts.LoopOutcome | main.py:99-113 | moves stay within the budget and grow by at most one per command; the cursor grows by at most the number of colour moves; Won exactly when the flag is set; Lost exactly when unwon at the budget without a crash; AwaitingInput only when all commands were played; IndexError only at the cursor max_moves_num |
| GameFacts.ColourOnlyLoopIsNeverLost | main.py:99-111 | from a resting state whose cursor equals its move count, colour moves alone never end Lost |
| GameFacts.ColourOnlyGameIsNeverLost | main.py:54 | a new game of colour moves only is never lost, and with at least max_moves_num moves it is won or crashes |
| GameFacts.NoBudgetIsIndexError | main.py:54 | with max_moves_num 0 the first save fails, whatever the commands |
| GameFacts.UniformBoardIsWonAtOnce | main.py:97 | a uniform starting board is won with zero moves and the board unchanged |
| GameFacts.GameOutcome | main.py:89-113 | the bounds of LoopOutcome for a new game: moves within budget and commands, cursor within colour moves, Won exactly when the flag is set (with a budget), Lost exactly when unwon at the budget without a crash |
| GameFacts.UndoAfterUndoKeepsRepaintedBoard | main.py:60-71 | on [[0, 1], [2, 3]] with four moves, "b", "u", "g", "u" ends Lost on [[2, 1], [2, 3]], not on the starting board saved in slot 0 |

The lemmas `Game.TurnIsCountedStep`, `Game.LoopStep`, `Game.LoopStops` and
`Game.PlayStarts` only unfold `Turn`, `Loop` and `Play` one step; they are proof
helpers for the methods of `Engine.Flood` and model nothing of their own.

## Left out

- Terminal output: tile colours, `print_tile_color`, and the messages of the win test, `__game_won`, `__game_over` and `play`. Only the win predicate and the won flag are modelled.
- `input()` and the loop that asks again after an unsupported letter (main.py:102-105). The model takes a sequence of decoded commands. `Game.DecodeLetter` covers the letter lookup. A run that uses up the commands before the game ends stops with `AwaitingInput`.
- Random board generation with `np.random.randint` (main.py:48). The constructor takes the starting board as an argument, with any integer tiles.
- The default arguments of `__init__` (`size=18`, `max_moves_num=21`, main.py:32): the constructor takes both values explicitly.
- A negative `max_moves_num` or `size`, for which `np.zeros` (main.py:54) or `np.random.randint` (main.py:48) raises ValueError: the constructor takes both as `nat`.
- The module-level start of a game (main.py:175-177) and the class-level default attributes (main.py:23-30), which `__init__` overrides.
- NumPy details: `astype(int)` and the float zeros of the visited mask. Tiles are `int` and the mask is `bool`.
- Python's recursion-depth limit: the traversal is modelled as unbounded recursion.
- Engine.Flood.SpreadColourToNeighbors: the four neighbour tests are one loop over the directions down, right, up, left, in the source's order, with each test in `SpreadToNeighbour`.
- Engine.Flood.Turn, Engine.Flood.Step, Engine.Flood.CountMove, Engine.Flood.ColourMove: these are the body of `play`'s loop, split into methods. The order of the updates is the source's.
- The crash at a save past the last slot, or at the corner of a size-0 board, is the outcome `IndexError`. The state at that point is what the code has written before the failing access.
