# Game rule components of js-html-game, in Dafny

This project models four small rule components of the js-html-game repository
and proves properties of them.

- **The noughts-and-crosses AI players** (`src/games/nought-and-cross/ai.ts`).
  `aiPlayer.getMarkIndex` scans the winning lines. It collects three lists:
  cells that complete two of its own marks, cells that block two of the
  opponent's marks, and all empty cells. `gameNoughtAndCrossAi` finds the
  first two lists by trial placement instead: it places a mark on a copy of
  the board and asks `isWin`. Both players pick at random from the first
  non-empty list, and answer `Reset` when the board has no empty cell.
- **The noughts-and-crosses page** (`src/games/nought-and-cross/components/app.tsx`).
  The `status()` classification, and the guard in `handleClick` that ignores
  clicks on occupied cells.
- **Knight pseudo-move generation** (`chess/wasm/src/get_ply/knight.rs`). The
  `KNIGHT_STEPS` table, the plies the step iterator yields for it, and the
  scenario of `test_knight_iterator`.
- **Random selection** (`src/scripts/random-select.ts`): `randomRange` and
  `randomSelect`.

Files and modules:

- `random_select.dfy`, module `RandomSelection`. A `Draw` is the value of one
  `Math.random()` call: a real number in [0, 1), passed in as a parameter.
  `Option` stands for `T | undefined`.
- `nought_and_cross.dfy`, module `NoughtAndCross`. Marks, cells and the
  `Index | Reset` answer. `At` models a JavaScript array read, which gives
  `undefined` outside the array. The module also holds the parts both AI
  players share: the empty-cell scan and the final
  `randomSelect(clear) ?? randomSelect(inter) ?? randomSelect(empty) ?? Reset`.
- `nought_and_cross_ai.dfy`, module `NoughtAndCrossAi`. Both players as
  methods with loops. Each method is proved equal to a specification function,
  and lemmas about those functions state what the source promises.
- `nought_and_cross_app.dfy`, module `NoughtAndCrossApp`. The `status()`
  classification and the click guard.
- `chess_state.dfy`, module `ChessState`. The smallest board state the knight
  test needs: a `Board` class over a 64-square array, updated in place by
  `SetPiece`.
- `knight_ply.dfy`, module `KnightPly`. `KNIGHT_STEPS`, the step iterator as a
  function that returns the sequence of plies, and the test scenario.

Helpers defined in other modules (types.ts, game.ts, game-model.ts,
components/reversi/const.ts) are modelled as parameters or small definitions:

- `winnerLines` is the parameter `lines`, a sequence of index triples.
- `isWin` and `filledBoard` are function parameters.
- `invertMark` (game.ts) and `turnMark` (game-model.ts) both swap the two
  marks. Both are modelled as `Mark.Opponent`.
- `CellEmpty` (components/reversi/const.ts) and the game's `Empty` (types.ts)
  are assumed to be the same value; both are modelled as the cell value `Empty`.
- `Math.random()` is a `Draw` parameter. `randomSelect` draws only for a
  non-empty list, so one AI call draws at most once. That single draw is
  used by the first non-empty list.

## Model

| member | source | states |
|---|---|---|
| RandomSelection.RandomRange | src/scripts/random-select.ts:1-3 | for any draw in [0, 1), the result is at least `min` when `min <= max`, and strictly below `max` when `min < max` |
| RandomSelection.RandomSelect | src/scripts/random-select.ts:5-11 | the result is `undefined` exactly when the list is empty; otherwise it is `list[i]` for some index `0 <= i < length` |
| RandomSelection.RandomSelectReaches | src/scripts/random-select.ts:5-11 | every position of a non-empty list is returned for some draw, so the pick can be any element |
| NoughtAndCross.At | src/games/nought-and-cross/ai.ts:65 | a board read yields a cell exactly for an index inside the board, and that cell is the one stored there |
| NoughtAndCross.EmptyIndices | src/games/nought-and-cross/ai.ts:89-93 | `emptyCells` holds exactly the indices of `Empty` cells, in ascending order |
| NoughtAndCross.EmptyIndicesNoneIff | src/games/nought-and-cross/ai.ts:95-98 | `emptyCells` is empty exactly when the board has no `Empty` cell |
| NoughtAndCross.FirstAvailable | src/games/nought-and-cross/ai.ts:101 | the `??` chain answers `Reset` only when all three lists are empty; otherwise it answers a member of the first non-empty list |
| NoughtAndCross.Decide | src/games/nought-and-cross/ai.ts:95-101 | `Reset` exactly when there is no empty cell, so the trailing `?? Reset` is unreachable; otherwise clear beats inter, and inter beats any empty cell |
| NoughtAndCrossAi.CompletingCellIsEmpty | src/games/nought-and-cross/ai.ts:67-85 | every cell pushed for a line is an in-board `Empty` cell |
| NoughtAndCrossAi.LinePushes | src/games/nought-and-cross/ai.ts:65-85 | one line pushes exactly the cells that are its `Empty` cell while the other two cells hold the tested mark |
| NoughtAndCrossAi.LineCells | src/games/nought-and-cross/ai.ts:64-86 | `clearCells` (own mark) and `interCells` (opponent's mark) hold exactly the cells that complete some line for that mark |
| NoughtAndCrossAi.GetMarkIndex | src/games/nought-and-cross/ai.ts:55-103 | the loops build the three lists, and the method's answer is the specification `AiChoice` |
| NoughtAndCrossAi.AiResetIff | src/games/nought-and-cross/ai.ts:89-98 | `getMarkIndex` answers `Reset` exactly when no cell is `Empty` |
| NoughtAndCrossAi.AiPlacesOnEmpty | src/games/nought-and-cross/ai.ts:67-101 | any index `getMarkIndex` answers is an `Empty` cell of the board |
| NoughtAndCrossAi.AiWinsFirst | src/games/nought-and-cross/ai.ts:77-101 | if some line has two own marks and an empty cell, the answer is such a completing cell |
| NoughtAndCrossAi.AiBlocksSecond | src/games/nought-and-cross/ai.ts:67-101 | if nothing completes an own line but some line has two opponent marks and an empty cell, the answer is such a blocking cell |
| NoughtAndCrossAi.Trials | src/games/nought-and-cross/ai.ts:111-123 | `clearCells` (and `interCells`) hold exactly the `Empty` indices where placing the mark (the opponent's mark) on a copy makes `isWin` true |
| NoughtAndCrossAi.TrialsNoneIff | src/games/nought-and-cross/ai.ts:111-123 | no index is pushed exactly when no empty cell wins by placing |
| NoughtAndCrossAi.GameNoughtAndCrossAi | src/games/nought-and-cross/ai.ts:105-139 | the loops build the three lists and the answer is the specification `GameAiChoice`; the method has no `modifies` clause, so the input board is unchanged |
| NoughtAndCrossAi.GameAiResetIff | src/games/nought-and-cross/ai.ts:126-135 | `gameNoughtAndCrossAi` answers `Reset` exactly when no cell is `CellEmpty` |
| NoughtAndCrossAi.GameAiPlacesOnEmpty | src/games/nought-and-cross/ai.ts:111-138 | any index it answers is an empty cell |
| NoughtAndCrossAi.GameAiWinsFirst | src/games/nought-and-cross/ai.ts:116-138 | if placing the own mark on some empty cell wins, the answer is such a cell |
| NoughtAndCrossAi.GameAiBlocksSecond | src/games/nought-and-cross/ai.ts:120-138 | if no own placement wins but an opponent placement would, the answer is such a blocking cell |
| NoughtAndCrossAi.TrialMatchesScan | src/games/nought-and-cross/ai.ts:105-123 | when `isWin` is "some line holds three of the mark", the lines have distinct cells and the mark has no line yet, a trial placement wins exactly on the cells the line scan of `getMarkIndex` finds |
| NoughtAndCrossApp.GameStatus | src/games/nought-and-cross/components/app.tsx:62-80 | each status holds exactly under its condition in the test order: WinO if O has won; WinX if X has won and O has not; Draw if there is no winner and the board is full; NextO or NextX by the current mark; None otherwise |
| NoughtAndCrossApp.GameOverIff | src/games/nought-and-cross/components/app.tsx:62-80 | the status is a win or a draw exactly when some mark has won or the board is full, whoever is to move |
| NoughtAndCrossApp.HandleClick | src/games/nought-and-cross/components/app.tsx:40-46 | `resolve(index)` happens exactly for a click on an in-board `Empty` cell, and passes on that index; any other click does nothing |
| NoughtAndCrossApp.AiChoicesPassClickGuard | src/games/nought-and-cross/components/app.tsx:40-46 | every cell either AI player chooses is one the click guard would also accept |
| ChessState.Board.constructor | chess/wasm/src/get_ply/knight.rs:42 | `Board::new()` gives a board whose squares are all empty |
| ChessState.Board.SetPiece | chess/wasm/src/get_ply/knight.rs:43-54 | `set_piece` puts the piece on its square and changes no other square |
| KnightPly.KnightSteps | chess/wasm/src/get_ply/knight.rs:4-13 | the table has eight distinct offsets, each with absolute components 1 and 2 in some order |
| KnightPly.KnightStepsComplete | chess/wasm/src/get_ply/knight.rs:4-13 | an offset is in the table exactly when it is L-shaped, so the table lists all of them |
| KnightPly.StepPlies | chess/wasm/src/get_ply/knight.rs:15 | the iterator yields at most one ply per step; every ply is a move from `from` to an on-board square without a friendly piece |
| KnightPly.StepPliesMembers | chess/wasm/src/get_ply/knight.rs:15 | a move to a square is yielded exactly when some step leads there and the square is on the board and not held by a friendly piece; a square with an enemy piece is yielded as a plain move |
| KnightPly.StepPliesAppend | chess/wasm/src/get_ply/knight.rs:60-67 | the plies of earlier table entries come first: splitting the table splits the output the same way |
| KnightPly.GetKnightPly | chess/wasm/src/get_ply/knight.rs:3-16 | on a 64-square board, reads the board only; yields at most eight moves, all from `from`; a move to a square is yielded exactly when the square is on the board, an L-shaped offset away, and not held by a friendly piece |
| KnightPly.ScenarioYields | chess/wasm/src/get_ply/knight.rs:30-68 | on the test's board the seven plies come out in the asserted order, the friendly pawn's square (2, 3) is skipped, and the black pawn's square (6, 5) is a plain move |
| KnightPly.KnightIteratorScenario | chess/wasm/src/get_ply/knight.rs:42-67 | building the test board with `Board::new` and three `set_piece` calls, `get_knight_ply` from (4, 4) yields exactly the seven asserted plies and then ends |

## Left out

- The chess engine's board state, move generation, state transition, position notation, evaluation and alpha-beta search live in chess/js/game/*.ts and chess/js/ai.ts and are not modelled. `chess/js/ai.test.ts` and `chess/js/game.ts` only call them.
- `ResolvablePromise` and `humanPlayer` (ai.ts) are promise and async plumbing. They are not modelled.
- `reset`, `terminate` and the component rendering in app.tsx are not modelled. They reassign bindings and Solid signals. `handleClick`'s call to `resolve` is modelled as returning the index that would be passed on.
- The shogi game loop, the UI components, `js_function.rs` and the klondike constants are not modelled. They are WebAssembly glue, rendering, a foreign call, or constant declarations.
- `winnerLines`, `isWin`, `filledBoard`, `invertMark` and `turnMark` are defined in types.ts, game.ts and game-model.ts, which are not modelled. They are parameters, or the swap of the two marks.
- RandomSelection.RandomRange: floating point is not modelled. Exact real arithmetic is used, so the IEEE rounding that could round `Math.random() * (max - min)` up to `max - min` is outside the model.
- NoughtAndCrossAi.GameNoughtAndCrossAi: the board's `number[]` is an array of cells, not of arbitrary numbers, and `mark: number` is one of the two marks.
- NoughtAndCrossAi.TrialMatchesScan: assumes reversi's `CellEmpty`, which `gameNoughtAndCrossAi` tests, equals the game's `Empty`, which `getMarkIndex` tests; the two constants come from different modules.
- NoughtAndCrossApp.AiChoicesPassClickGuard: assumes reversi's `CellEmpty`, which `gameNoughtAndCrossAi` tests, equals the game's `Empty`, which the click guard tests; the two constants come from different modules.
- NoughtAndCrossApp.GameStatus: the current-mark signal is a cell. `StatusNone` is the case where it holds neither mark, which corresponds to the source's final `return`.
- NoughtAndCrossAi.Trials: the model defines the lists in index order but proves only their membership, not that they are ascending.
- KnightPly.StepPlies: the step iterator (get_ply/steps.rs) is not modelled. Three of its behaviours are assumptions:
  - The side to move is the side of the piece standing on `from`.
  - Targets off the 8 x 8 board are skipped.
  - The lazy `next()` protocol is replaced by the whole sequence of plies.
- The `i8` coordinates of `Position` are unbounded integers; Rust's 8-bit arithmetic is not modelled.
- `randomSelect`'s readonly list, `get_knight_ply`'s `&Board` and `board.with` copies are non-mutation guarantees. They hold by construction: lists are values, `GetKnightPly` only `reads` the board, and `GameNoughtAndCrossAi` has no `modifies` clause.
