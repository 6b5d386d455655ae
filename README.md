# Reversi rule engine

This is a Dafny model of the rule engine inside the `ReversiGUI` class (`TUclassNo2-4.py`), with proofs about it. The engine holds two pieces of state:

- an 8×8 board `board[y][x]`, where 0 is empty, 1 is black and 2 is white;
- the player to move, `turn`, which is 1 or 2.

It changes that state in four places:

- **Setup and reset.** Both lay out the starting position.
- **The move check `is_valid_move`.** It walks the eight compass rays from the target cell. With `flip` set, it also turns the captured stones.
- **A click.** The engine flips, places the stone, hands the turn to the opponent and runs the pass check.
- **The pass and game-over state machine.** When it ends the game, the stones are counted and the winner is named.

The model is split into four modules:

- `board.dfy`, module `Board`:
  - the grid as a sequence of rows of integers;
  - writing one cell (`Put`);
  - the starting layout;
  - the stone counts, `Count`, which sums one `RowCount` per row just as the engine computes `sum(row.count(v))`;
  - lemmas on how a write changes the counts.
- `rules.dfy`, module `Rules`: the move rule as functions, with the proofs about them.
  - The inner while loop is `Walk`, and `Ray` is that walk for one direction.
  - `Captures` is the engine's test of whether a ray counts. `Legal` is the move check's result.
  - `Flips` holds the flip lists of the eight rays, concatenated in scan order.
  - `FlipRays` is flipping ray by ray during the scan, as the engine does. `Flipped` applies the union of the flip sets at once.
  - `Move` is an accepted move.
- `game.dfy`, module `Game`: the session and its state machine.
  - Class `Reversi` has the fields `board` and `turn`. Its methods follow the engine's methods and loops and are proved against the functions in `Rules`.
  - The hand-over after a move is the function `Advance`. A whole click is the function `Click`.
  - The dialogs the engine opens become data: an `Outcome` value `Rejected | Continue | Pass | GameOver(black, white, verdict)`.
- `scenarios.dfy`, module `Scenarios`: concrete positions.
  - the opening layout and its counts;
  - black's legal opening move on (2, 3), which flips (3, 3);
  - the illegal corner (0, 0) and an occupied cell;
  - the board and the counts after that first move.

All main results are connected:

- The engine flips each ray as soon as it finds it, so the later rays are walked on a board the earlier rays have already changed. `FlipRaysIsUnion` proves this gives the same board as computing the union of the eight flip sets first and then setting all of them. Its proof rests on three facts: each flipped stone lies on the ray of its own heading (`FlipsUpToHeadings`), so it lies on no later ray; a ray depends only on the cells along it (`RayAgree`, hence `RayUnaffected`); and running the flip loop twice is running it over the joined list (`SetCellsConcat`, `SetCellsIsOverwrite`).
- The stone counts of a move (`MoveCounts`) need two more facts: the flip list names no cell twice (`RayDistinct`, `RaysDisjoint`, hence `FlipsUpToDistinct`), and it never contains the target cell (`FlipsAvoidTarget`), so placing the stone is a separate write to an empty cell.
- `LegalIff` states the move rule on the board alone. `IsValidMove` returns exactly `Legal`. With `flip` set, it leaves exactly `Flipped`.
- `ClickEffect` gives the stone bookkeeping of a click and the turn rules, and `HandleClick` is proved to be `Click`.

## Model

| member | source | states |
|---|---|---|
| Board.Opponent | TUclassNo2-4.py:58 | `3 - turn` maps a player to the other player, which is again 1 or 2 |
| Board.Put | TUclassNo2-4.py:57 | writing one cell sets that cell to the new value and keeps every other cell; cells stay in 0..2 |
| Board.EmptyGrid | TUclassNo2-4.py:13 | the fresh grid has 8 rows of 8 cells, all empty |
| Board.Initial | TUclassNo2-4.py:13-18 | the starting layout holds white on (3, 3) and (4, 4), black on (4, 3) and (3, 4), and nothing else |
| Board.RowCount | TUclassNo2-4.py:124-125 | `row.count(v)`: the number of cells of one row holding v, at most the row's length; characterised by `CountPut`, `CountTotal`, `CountZero`, `CountAbsent` |
| Board.Count | TUclassNo2-4.py:124-125 | definition of `sum(row.count(v) for row in board)`: one `RowCount` per row, summed; characterised by `CountPut`, `CountTotal`, `CountZero`, `CountAbsent` |
| Board.CountPut | TUclassNo2-4.py:124-125 | writing one cell moves it from the count of its old value to the count of its new value |
| Board.CountTotal | TUclassNo2-4.py:124-125 | on a valid board, empty + black + white counts add up to 64 |
| Board.CountZero | TUclassNo2-4.py:124-125 | a value with count zero appears in no cell |
| Board.CountAbsent | TUclassNo2-4.py:124-125 | a value that appears in no cell has count zero |
| Rules.Walk | TUclassNo2-4.py:74-80 | definition of the inner while loop from step k: keep stepping while the cell is on the board and holds the opponent; characterised by `WalkStones`, `WalkCells`, `WalkStop`, `WalkLength` |
| Rules.Ray | TUclassNo2-4.py:74-80 | definition: the walk of one direction from the cell next to (x, y), as `nx, ny = x + dx, y + dy` starts it; characterised by `RayOnRay`, `RayDistinct`, and proved equal to the loop by `Game.Reversi.WalkRay` |
| Rules.Captures | TUclassNo2-4.py:82 | definition of line 82's test: the run is non-empty and the stopping cell is on the board and holds the mover's stone; characterised by `CapturesIff` (against `Brackets`) |
| Rules.Legal | TUclassNo2-4.py:64-88 | definition of `is_valid_move`'s result: the target is empty and some direction captures; characterised by `LegalIff` and `LegalIffFlips` |
| Rules.Flips | TUclassNo2-4.py:73-86 | definition: the flip lists of the eight directions concatenated in scan order; characterised by `FlipsUpToDistinct`, `FlipsAvoidTarget`, `LegalIffFlips` |
| Rules.FlipSet | TUclassNo2-4.py:73-86 | definition: the set of all stones the move flips; characterised by `FlippedEffect` |
| Rules.FlipRays | TUclassNo2-4.py:73-86 | the in-loop flipping: after n directions, each walked on the board the earlier ones left, the grid is still 8×8; characterised by `FlipRaysSequential` and `FlipRaysIsUnion` |
| Rules.Flipped | TUclassNo2-4.py:65-86 | definition of the board `is_valid_move(x, y, flip=True)` leaves: unchanged on an occupied target, else the flip set overwritten; characterised by `FlippedEffect`, `FlippedIllegal`, `FlippedCounts` |
| Rules.Move | TUclassNo2-4.py:56-57 | definition of an accepted move: flip, then place the mover's stone on (x, y); characterised by `MoveValid`, `MoveCounts` |
| Rules.DirectionsWellFormed | TUclassNo2-4.py:68-70 | the scan order holds eight pairwise different unit steps, and none of them is (0, 0) |
| Rules.AtStep | TUclassNo2-4.py:79-80 | each step of the walk moves by (dx, dy) |
| Rules.WalkStones | TUclassNo2-4.py:77-78 | every stone a walk collects is an opponent stone on the board, and the walk stops at a cell that is not one |
| Rules.WalkCells | TUclassNo2-4.py:74-80 | the i-th collected stone is the cell i steps further on |
| Rules.WalkStop | TUclassNo2-4.py:74-80 | the walk stops at the first cell after its run |
| Rules.WalkLength | TUclassNo2-4.py:77-80 | a run of opponent stones on steps k..m closed at step m + 1 gives a walk of m + 1 - k stones |
| Rules.WalkAgree | TUclassNo2-4.py:77 | the walk depends only on which cells along it hold opponent stones |
| Rules.AtOnRay | TUclassNo2-4.py:74-80 | every cell k >= 1 steps out lies on the ray of that direction |
| Rules.AtInjective | TUclassNo2-4.py:74-80 | different step counts reach different cells |
| Rules.RayOnRay | TUclassNo2-4.py:74-80 | every stone of a ray, and its stopping cell, lie on that ray |
| Rules.RayDistinct | TUclassNo2-4.py:74-80 | a ray's stones are pairwise different cells |
| Rules.RayFlips | TUclassNo2-4.py:82-85 | the stones a ray contributes are opponent stones on the board |
| Rules.FlipsUpTo | TUclassNo2-4.py:73-85 | every stone in the first n flip lists is an opponent stone on the board |
| Rules.CapturesBrackets | TUclassNo2-4.py:82 | a capturing ray brackets a non-empty run of opponent stones with one of the mover's stones just past it |
| Rules.BracketsCaptures | TUclassNo2-4.py:82 | a bracketed run of length m makes the ray capture, with exactly m stones |
| Rules.CapturesIff | TUclassNo2-4.py:74-86 | a ray counts if and only if it brackets a non-empty run of opponent stones |
| Rules.LegalIff | TUclassNo2-4.py:64-88 | a move is legal if and only if the target is empty and some direction brackets a non-empty run of opponent stones with the mover's stone |
| Rules.FlipsUpToHeadings | TUclassNo2-4.py:73-85 | every stone flipped by the first n directions lies on the ray of its own heading, and that heading is one of those n directions |
| Rules.RaysDisjoint | TUclassNo2-4.py:73-85 | the flip list of a direction shares no cell with those of the directions scanned before it |
| Rules.FlipsUpToDistinct | TUclassNo2-4.py:73-85 | no cell is listed twice in the flip lists |
| Rules.FlipsAvoidTarget | TUclassNo2-4.py:73-85 | the target cell is never among the flipped stones |
| Rules.FlipsNonEmpty | TUclassNo2-4.py:82-86 | the first n flip lists are non-empty if and only if one of the first n directions captures |
| Rules.LegalIffFlips | TUclassNo2-4.py:64-88 | a move is legal if and only if its cell is empty and its flip list is non-empty |
| Rules.Overwrite | TUclassNo2-4.py:84-85 | setting a set of cells at once: listed cells become p, every other cell is kept |
| Rules.SetCells | TUclassNo2-4.py:84-85 | the flip loop: after it, listed cells hold p and every other cell is kept |
| Rules.SetCellsConcat | TUclassNo2-4.py:84-85 | running the flip loop over a and then over b equals running it over a + b |
| Rules.SetCellsIsOverwrite | TUclassNo2-4.py:84-85 | the flip loop over a list equals setting the set of its cells at once |
| Rules.RayAgree | TUclassNo2-4.py:77-82 | boards that agree on one ray give it the same walk, verdict and flip list |
| Rules.RayUnaffected | TUclassNo2-4.py:73-85 | flipping the earlier rays' stones does not change a later ray's walk, verdict or flip list |
| Rules.FlipRaysSequential | TUclassNo2-4.py:73-85 | after n directions, flipping during the scan has set exactly the first n flip lists of the original board |
| Rules.LaterRayUnaffected | TUclassNo2-4.py:73-85 | the ray of direction n, walked on the board the earlier rays left, behaves as on the original board |
| Rules.ScanStep | TUclassNo2-4.py:73-86 | one pass of the direction loop with flipping on produces the next board of the scan |
| Rules.FlipRaysIsUnion | TUclassNo2-4.py:73-86 | flipping ray by ray during the scan gives the same board as setting the union of the eight flip sets at once |
| Rules.FlippedEffect | TUclassNo2-4.py:77-86 | with flipping on, only the stones of qualifying runs change, each from the opponent to the mover; the target and every other cell keep their value |
| Rules.FlippedIllegal | TUclassNo2-4.py:65-86 | a move check that finds no capture (an occupied target included) leaves the board as it was |
| Rules.MoveValid | TUclassNo2-4.py:56-57 | after an accepted move every cell still holds 0, 1 or 2 |
| Rules.SetCellsCounts | TUclassNo2-4.py:84-85 | setting k distinct q-stones to p adds k to p's count and takes k from q's |
| Rules.FlippedIsSetCells | TUclassNo2-4.py:83-85 | on an empty target, the flipped board is the flip loop run over the flip list |
| Rules.FlippedCounts | TUclassNo2-4.py:83-85 | flipping moves k stones from the opponent's count to the mover's |
| Rules.MoveCount | TUclassNo2-4.py:56-57 | the count of any value after a move on an empty cell |
| Rules.MoveCounts | TUclassNo2-4.py:56-57 | an accepted move sets the target to the mover, gives the mover 1 + k stones, takes k from the opponent (k >= 1 flips) and fills one empty cell |
| Game.AnyLegal | TUclassNo2-4.py:92-99 | definition of what the scan (and its copy at lines 111-118) looks for: some cell is a legal move for p; proved equal to the loop by `Game.Reversi.HasLegalMove` |
| Game.Advance | TUclassNo2-4.py:90-121 | definition of the hand-over as a function of board and incoming turn; characterised by `AdvanceRules`, proved equal to the method by `Game.Reversi.TurnChangeIfNeeded` |
| Game.Click | TUclassNo2-4.py:56-62 | definition of a click as a function of the state; characterised by `ClickEffect`, proved equal to the method by `Game.Reversi.HandleClick` |
| Game.Winner | TUclassNo2-4.py:127-132 | black wins iff black > white, white wins iff white > black, a draw iff the counts are equal |
| Game.Summary | TUclassNo2-4.py:124-132 | the final result holds the black and white counts and the verdict on them; the counts plus the empty cells make 64 |
| Game.AdvanceRules | TUclassNo2-4.py:90-121 | after a move the opponent moves if they can; otherwise the mover moves again (a pass) if they can; otherwise the game is over, scored on the board, with the turn on the mover |
| Game.ClickEffect | TUclassNo2-4.py:56-62 | a click is accepted iff the move is legal; a rejected click changes neither board nor turn; an accepted one sets the target, moves the stone counts by 1 + k and k, fills one empty cell and hands over the turn by the pass rule |
| Game.FullBoardEndsGame | TUclassNo2-4.py:90-121 | on a full board neither player can move and the hand-over ends the game with the final count |
| Game.Reversi.constructor | TUclassNo2-4.py:13-18 | a new game is the starting layout with black to move |
| Game.Reversi.Reset | TUclassNo2-4.py:143-147 | from any state, reset gives the same starting layout with black to move |
| Game.Reversi.WalkRay | TUclassNo2-4.py:74-80 | the inner while loop collects exactly the ray's run and stops at the ray's stopping cell |
| Game.Reversi.FlipStones | TUclassNo2-4.py:84-85 | the flip loop sets exactly the listed cells to the player to move |
| Game.Reversi.ScanDirection | TUclassNo2-4.py:73-86 | one pass of the direction loop reports whether that ray captures on the original board, and with flipping on leaves the next board of the scan |
| Game.Reversi.IsValidMove | TUclassNo2-4.py:64-88 | the result is `Legal` (false on an occupied cell); without flip the board is unchanged; with flip the board becomes the union flip; the turn is unchanged |
| Game.Reversi.HasLegalMove | TUclassNo2-4.py:92-99 | the row-by-row scan finds a move iff the player to move has a legal move, and it leaves board and turn unchanged |
| Game.Reversi.TurnChangeIfNeeded | TUclassNo2-4.py:90-121 | the board is unchanged, and the new turn and the outcome are those of the hand-over rule |
| Game.Reversi.HandleClick | TUclassNo2-4.py:56-62 | the new board, turn and outcome are those of `Click`, and the state stays valid |
| Scenarios.OpeningEastRay | TUclassNo2-4.py:74-82 | from the start, black's ray east of (2, 3) passes over (3, 3) and captures at (4, 3) |
| Scenarios.OpeningMoveLegal | TUclassNo2-4.py:64-88 | from the start, black may play (2, 3) |
| Scenarios.OpeningMoveFlips | TUclassNo2-4.py:73-86 | that move's flip list is exactly [(3, 3)] |
| Scenarios.OnlyEastFlips | TUclassNo2-4.py:73-86 | when only the eastward ray contributes, the flip list is that ray's list |
| Scenarios.CornerIllegal | TUclassNo2-4.py:64-88 | from the start, black may not play (0, 0) |
| Scenarios.OccupiedIllegal | TUclassNo2-4.py:65-66 | the occupied cell (3, 3) is illegal for both players |
| Scenarios.InitialIsStartRows | TUclassNo2-4.py:13-18 | the starting layout written out row by row |
| Scenarios.InitialCounts | TUclassNo2-4.py:13-18 | the start has 2 black and 2 white stones and 60 empty cells |
| Scenarios.OpeningFlipSet | TUclassNo2-4.py:73-86 | the flip set of black's (2, 3) is {(3, 3)} |
| Scenarios.SingleFlip | TUclassNo2-4.py:83-85 | a move whose flip set is one cell changes only that cell |
| Scenarios.OpeningMove | TUclassNo2-4.py:56-57 | black's first move on (2, 3) turns (3, 3) and fills (2, 3) |
| Scenarios.OpeningMoveCells | TUclassNo2-4.py:56-57 | after that move, (2, 3) and (3, 3) are black and every other cell keeps its starting value |
| Scenarios.OpeningMoveCounts | TUclassNo2-4.py:56-57 | after that move, black holds 4 stones, white 1, and 59 cells are empty |

## Left out

- Drawing and the window: the window title and size setting (TUclassNo2-4.py:7-8), `draw_board`, the canvas and the later title updates (TUclassNo2-4.py:20-50). These are rendering through the Tk toolkit and contain no rule.
- Event binding and the main loop (TUclassNo2-4.py:25, 151-154). These are event plumbing.
- Game.Reversi.TurnChangeIfNeeded: when the game ends, the engine first shows the pass notice (TUclassNo2-4.py:104-106), because the first scan found no move, and then the result (TUclassNo2-4.py:121, 134). The model reports only `GameOver`, which implies that pass notice, and `Pass` only when play goes on. The same holds on a full board (`FullBoardEndsGame`).
- Turning a click's pixel into a cell (TUclassNo2-4.py:53-54). The cell is a parameter, with the precondition that it is on the board.
- Python's negative indexing. The engine indexes `board[y][x]` with no bounds check, and the on-board precondition rules this out rather than modelling the wrap-around.
- The dialogs (TUclassNo2-4.py:106, 134-141). The pass notice and the final result are returned as an `Outcome`, one value per click. The "play again" choice is the caller calling `Reset`, and `root.quit()` is the caller stopping.
- The scan appears twice in the engine (TUclassNo2-4.py:92-99 and 111-118). Here it is one method, `HasLegalMove`, called twice. That method keeps the nested loops, the early exit and the skip of occupied cells.
- The body of the direction loop of `is_valid_move` is a method of its own, `ScanDirection`. The loop itself stays in `IsValidMove` and runs over the eight directions in the engine's order.
