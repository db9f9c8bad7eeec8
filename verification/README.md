# 2048 game logic in Dafny

A model of the game logic of a desktop 2048 clone. The board is a 4×4 grid of
naturals, where 0 is an empty cell, and the game carries a score. An arrow key
runs one pipeline: `stack` (compact each row to the left), `combine` (merge
equal neighbours left to right and score the doubled value), then `stack`
again. For right, up and down the pipeline is wrapped in `reverse` (mirror the
rows) and/or `transpose` (swap rows and columns). After the pipeline,
`add_new_tile` puts a 2 or a 4 on an empty cell, and `game_over` decides
between win, loss and continue.

The model is functional. Boards are `seq<seq<nat>>` restricted to 4×4, and
every operation is a pure function. The two loops whose shape matters are also
modelled as methods that mirror the source loop, and each is proved to compute
its declarative definition:
- the `fill_position` loop of `stack`;
- the in-place merge loop of `combine`.

Files:
- `rows.dfy` (module `Rows`): the row primitives stack, combine and reverse, with their scan methods and lemmas.
- `grid.dfy` (module `Grid`): the `Board` type, the `Game` state, the board-level stack, combine, reverse and transpose, cell multisets and sums.
- `terminal.dfy` (module `Terminal`): the horizontal and vertical move-exists scans, `check_for_win` and `game_over`.
- `moves.dfy` (module `Moves`): the four moves, `add_new_tile` with explicit random draws, one key press (`Step`), `start_game`, and the finding below.

Randomness becomes parameters. `add_new_tile` draws `(randint(0,3), randint(0,3))` until it hits an
empty cell; the model takes the whole sequence of draws and uses the first one
that hits. The value from `random.choice([2, 4])` is a `TileValue` parameter.
The retry loop ends only if some draw hits an empty cell, so every member that
spawns a tile has `SomeHit(board, draws)` as a precondition.

## Model

| member | source | states |
|---|---|---|
| Rows.StackRow | 2048/main.py:75-83 | The result has the row's width and holds the row's non-zero values in their original order. No empty cell comes before an occupied one. |
| Rows.StackRowScan | 2048/main.py:77-83 | The `fill_position` loop produces exactly `StackRow`: non-zeros in order, then zeros. |
| Rows.StackRowPreservesSum | 2048/main.py:75-83 | Compaction keeps the row's total. |
| Rows.StackRowFixesCompacted | 2048/main.py:75-83 | A row that is already compacted is returned unchanged. |
| Rows.StackRowIdempotent | 2048/main.py:75-83 | Stacking twice gives the same row as stacking once. |
| Rows.FullStackedRow | 2048/main.py:75-83 | If the compacted row has no empty cell, then the row had none and is unchanged. |
| Rows.CombineRow | 2048/main.py:85-91 | After one pass, each cell holds 0, its old value, or double its old value. The width is kept. |
| Rows.CombineRowScan | 2048/main.py:86-91 | The in-place loop gives the same row as the declarative greedy-left merge `MergeAt`. The score it accumulates is the sum of the doubled values. |
| Rows.CombineRowPreservesSum | 2048/main.py:85-91 | Combining keeps the row's total, because x + x becomes 2x and 0. |
| Rows.MergeEmptiesRightCell | 2048/main.py:87-90 | A merge doubles its left cell and empties its right cell. The right cell then starts no merge of its own, so each cell takes part in at most one merge. |
| Rows.NoMergeKeepsRow | 2048/main.py:85-91 | A pass that finds no equal non-zero pair changes nothing and scores nothing. |
| Rows.FullCombinedRow | 2048/main.py:85-91 | If the pass leaves no empty cell, then no merge happened. |
| Rows.UnmovedRowScoresNothing | 2048/main.py:75-91 | If stack, combine, stack gives a row back, no merge happened and the pass scored nothing. |
| Rows.CombineFourEqual | 2048/main.py:87-90 | [2,2,2,2] combines to [4,0,4,0] and scores 8. |
| Rows.SlideMergesOnce | 2048/main.py:135-138 | [2,2,4,0] moved left gives [4,4,0,0] and scores 4. |
| Rows.ReverseRowPermutes | 2048/main.py:93-99 | Mirroring a row keeps the multiset of its values. |
| Rows.ReverseRowPreservesSum | 2048/main.py:93-99 | Mirroring a row keeps its total. |
| Grid.Stack | 2048/main.py:75-83 | Every row of the result is compacted and keeps that row's non-zero values in order. |
| Grid.Combine | 2048/main.py:85-91 | The score never decreases. Every cell becomes 0, its old value, or double its old value. |
| Grid.CombinePreservesSum | 2048/main.py:85-91 | Combining keeps the board's total. |
| Grid.Reverse | 2048/main.py:93-99 | Cell (i, j) of the result is cell (i, 3 - j) of the board. |
| Grid.ReverseInvolutive | 2048/main.py:93-99 | Reversing twice gives back the board. |
| Grid.ReversePermutes | 2048/main.py:93-99 | Reversing keeps the multiset of cell values. |
| Grid.Transpose | 2048/main.py:101-106 | Cell (i, j) of the result is cell (j, i) of the board. |
| Grid.TransposeInvolutive | 2048/main.py:101-106 | Transposing twice gives back the board. |
| Grid.TransposePermutes | 2048/main.py:101-106 | Transposing keeps the multiset of cell values. |
| Grid.TransposePreservesSum | 2048/main.py:101-106 | Transposing keeps the board's total. |
| Grid.PlaceSwapsOneValue | 2048/main.py:113 | Setting one cell removes the old value from the board's multiset and adds the new value. |
| Terminal.HorizontalScan | 2048/main.py:177-181 | The scan from (i, j) returns true exactly when some cell at or after (i, j), in row-major order, equals its right neighbour. |
| Terminal.VerticalScan | 2048/main.py:184-188 | The scan from (i, j) returns true exactly when some cell at or after (i, j), in row-major order, equals the cell below it. |
| Terminal.HorizontalMoveExists | 2048/main.py:176-181 | True exactly when two horizontally adjacent cells are equal. |
| Terminal.VerticalMoveExists | 2048/main.py:183-188 | True exactly when two vertically adjacent cells are equal. |
| Terminal.CheckForWin | 2048/main.py:190-191 | True exactly when some cell holds 2048. |
| Terminal.GameOver | 2048/main.py:194-209 | Returns Win exactly when some cell is 2048, whatever else is on the board. Returns Loss exactly when there is no 2048, no empty cell and no horizontally or vertically adjacent equal pair. Otherwise returns Continue. |
| Terminal.TransposeSwapsPairs | 2048/main.py:176-188 | Transposing turns vertical pairs into horizontal pairs and back. |
| Moves.Slide | 2048/main.py:135-138 | After stack, combine, stack, every row is compacted and the score has not decreased. |
| Moves.Shift | 2048/main.py:135-170 | The pipeline of each of the four moves. It never lowers the score and never changes the board's total. |
| Moves.ShiftPacksTowardEdge | 2048/main.py:135-170 | Each move leaves the tiles packed against its own edge: rows for left and right, columns for up and down. |
| Moves.DirectionsAreConjugates | 2048/main.py:143-170 | Moving a mirrored board right, or a transposed board up, equals moving the original left and then mirroring or transposing. Moving a transposed board down equals moving the original right and then transposing. |
| Moves.ShiftPreservesPowers | 2048/main.py:85-106 | If every tile is a power of two before a move's pipeline, every tile is one after it. |
| Moves.LossLeavesGameUnchanged | 2048/main.py:194-209 | On a board `game_over` calls lost, every move leaves both board and score unchanged. |
| Moves.FullShiftIsIdentity | 2048/main.py:135-170 | If a move's pipeline leaves no empty cell, then it changed nothing. |
| Moves.FirstHit | 2048/main.py:110-112 | The retry loop stops at the first draw that lands on an empty cell. Every earlier draw landed on an occupied cell. |
| Moves.SpawnNeedsEmptyCell | 2048/main.py:109-113 | Some draw can land on an empty cell exactly when the board has one. |
| Moves.AddNewTile | 2048/main.py:109-113 | Exactly the first hit cell, which was 0, now holds the new value. Every other cell is unchanged, one 0 in the multiset is replaced by the value, and the total grows by the value. |
| Moves.AddNewTilePreservesPowers | 2048/main.py:113 | Adding a 2 or a 4 keeps every tile a power of two. |
| Moves.Step | 2048/main.py:135-173 | One key press as the source runs it. The score does not decrease. The total grows by exactly the spawned value. The outcome is Win or Loss under the same conditions as `GameOver`. |
| Moves.StepPreservesPowers | 2048/main.py:85-113 | If every tile is a power of two, it stays so after any key press. |
| Moves.LeftOnStuckBoardNeverSpawns | 2048/main.py:135-141 | On a full board whose only equal neighbours are vertical, `game_over` says Continue. Left changes nothing, and no sequence of draws can finish `add_new_tile`. |
| Moves.LeftOnVerticalOnlyBoard | 2048/main.py:135-141 | The same for every full board without a 2048 and without horizontal pairs but with a vertical pair. |
| Moves.FullBoardNeverHit | 2048/main.py:109-112 | On a board without an empty cell, no draw lands on an empty cell, so the retry loop cannot stop. |
| Moves.VerticalOnlyBoardContinues | 2048/main.py:194-209 | A full board without a 2048 whose only equal neighbours are vertical is neither won nor lost. |
| Moves.StepAfterLossNeverSpawns | 2048/main.py:109-113 | After a loss, no key press can finish its spawn. |
| Moves.UnmovedShiftKeepsGame | 2048/main.py:135-170 | A move whose pipeline leaves the board as it is leaves the score as it is too. |
| Moves.MovedBoardHasEmptyCell | 2048/main.py:135-170 | A move that changed the board leaves an empty cell. |
| Moves.StepIfMoved | 2048/main.py:135-173 | Corrected key press: a move that changes nothing leaves the game, board and score, as it is. Otherwise it is `Step`. The total grows by the spawned value only when the board moved. |
| Moves.StepIfMovedCanFinish | 2048/main.py:109-113 | Whenever the corrected key press spawns a tile, some draw lands on an empty cell. |
| Moves.StepIfMovedPreservesPowers | 2048/main.py:85-113 | The corrected key press keeps every tile a power of two. |
| Moves.StartGame | 2048/main.py:56-68 | A new game has score 0, exactly two cells holding 2, and fourteen empty cells. |

## Left out

- The tkinter user interface is not modelled: `__init__`, `make_GUI`, `update_GUI`, `display_game_over`, key bindings, the restart button, and the `after(3000, reset)` timer (2048/main.py:6-54, 117-132, 211-221). It is presentation and event-loop plumbing, and the colours and fonts come from the `colors` module, which is not part of this model. `GameOver` returns the outcome instead of showing a banner.
- `reset` (2048/main.py:70-72) is not modelled separately. It is `start_game` followed by a redraw, and `StartGame` covers the logic.
- `initialize_game` and `random_move` (2048/main.py:225-234) are not modelled. `initialize_game` builds a `Game` and calls `start_game`, which `StartGame` covers. `random_move` takes no `self`. It builds a list of `game.move_*` attributes that `Game` does not define, so it raises AttributeError before choosing. Nothing calls it, so it has no behaviour to model.
- Probabilities are not modelled. The draws and the tile value are parameters, so the model says nothing about how likely a 2 or a 4 is, or that random draws hit an empty cell with probability 1 when one exists.
- Rows in `Rows` have arbitrary width. The source's `range(3)` merge loop becomes the last index of the row. Boards are fixed at 4×4, as in the source.
- Python integers are unbounded, so `nat` needs no wrap-around.

## Findings

| source | as written | input that shows it | evidently intended | confidence | as-written member | corrected member |
|---|---|---|---|---|---|---|
| 2048/main.py:135-141 | Every arrow key calls `add_new_tile`, even when the move changed nothing. The retry loop at lines 110-112 runs until it draws an empty cell. | The full board `StuckBoard` [[2,4,8,16],[2,8,16,32],[4,16,32,64],[8,32,64,128]]: `game_over` says Continue because column 0 has a vertical pair. Left leaves the board full and unchanged, so the loop never ends. Any key after a loss hangs the same way. | Add a tile only when the move changed the board. A changed board always has an empty cell. | high (not executed) | Moves.LeftOnStuckBoardNeverSpawns | Moves.StepIfMoved |

The corrected `StepIfMoved` comes with proofs that:
- a move that changes the board leaves an empty cell (`MovedBoardHasEmptyCell`);
- its spawn can therefore always finish (`StepIfMovedCanFinish`).

In the code, `game_over` runs after `add_new_tile`, and Continue does not imply that the pressed direction changes anything.
