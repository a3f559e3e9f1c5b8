# Grid games: rule engines of the arcade

This project models the rules of four browser games of a small React arcade.
Each game's rules are pure steps over integer boards, and the project proves what those rules promise.

- **Puzzle (2048)**, `src/games/Puzzle.jsx`. A 4×4 board of tiles.
  - Every arrow key is turned into "slide left": the board is rotated clockwise, each row is slid and merged, and the board is rotated back.
  - A move that changed the board adds a random 2 or 4 and checks for game over.
- **Tetris**, `src/Tetris.jsx`. A 20×10 board of settled blocks and one falling tetromino, modelled with:
  - the rotation tables;
  - collision testing;
  - locking, line clearing and scoring;
  - spawning with game over;
  - sideways moves, the wall-kick rotation and soft and hard drops;
  - the key handler and reset.
- **Jeweled (match-3)**, `src/games/Jeweled.jsx`. An 8×8 board of gems 1..6, modelled with:
  - run detection;
  - removal, gravity and refill;
  - the swap rule (a swap stays only if it makes a match);
  - the cascade loop, capped at 20 rounds, scoring ten points per gem times the round number;
  - the click-selection state machine;
  - construction of a board with no initial match.
- **Snake**, `src/games/Snake.jsx`. A 20×20 grid. The model covers:
  - the timer's tick: advance the head, end the game on a wall or the body, grow on food or drop the tail;
  - the reverse-direction filter of the key handler;
  - the speed rule;
  - the food draw and reset.

Modelling choices:

- Boards are immutable `seq<seq<int>>` (`Grid.Board`); 0 is an empty cell.
- Every React state update becomes a field of a state record, and every handler becomes a function from state to state.
- `Math.random()` is a parameter:
  - A draw is a fraction `num/den` in [0, 1) (`Chance.Draw`), and `Math.floor(u * n)` is `Chance.Scale`.
  - The random tile, the random tetromino kind and the new food cell are parameters of the step that uses them.
- The two retry loops that only end by chance consume a finite list of draws and return `None` when the list runs out:
  - `randomCell` in Snake;
  - the per-cell `do … while` of `makeBoardNoInitialMatches` in Jeweled.
- Loops that matter to the proof are methods with invariants:
  - `slideAndMerge`'s in-place merge loop (`Puzzle.MergeInPlace`);
  - the run scan of `findMatches`;
  - `removeMatches` and `collapse`;
  - the cascade loop and `handleCell`.

Files:

- `grid.dfy`: shared boards, `Sum`, `NonZero` (the `filter(n => n !== 0)` of a line), packed lines, `Option` and random draws.
- `puzzle.dfy`, `tetris.dfy`, `jeweled.dfy`, `snake.dfy`: one module per game. Snake's corrected key handler is in a second module, `SnakeTurns`.

## Model

| member | source | states |
|---|---|---|
| Puzzle.MergePass | src/games/Puzzle.jsx:33-41 | One merge pass over the packed tiles keeps their sum. It never lengthens the line and at most halves it. Tiles stay powers of two and the gain is never negative |
| Puzzle.MergeInPlace | src/games/Puzzle.jsx:31-41 | The in-place loop as written doubles the left tile of a pair, empties the right one and skips past the pair. Compacting its array gives exactly the merge pass. Its `scoreGain` is the pass's gain and equals the sum of the cells the loop changed, that is, of the newly doubled tiles |
| Puzzle.SlideAndMerge | src/games/Puzzle.jsx:29-46 | A line of at most four cells becomes a line of exactly four. Non-empty cells form a prefix followed only by zeros. The sum of the line is preserved, and a line of tiles stays a line of tiles with non-negative gain |
| Puzzle.SlideKeepsMerged | src/games/Puzzle.jsx:29-46 | The tiles of the slid line are exactly one merge pass over the tiles of the input line: sliding never reorders or invents tiles |
| Puzzle.MergePassIdle | src/games/Puzzle.jsx:33-41 | Without two adjacent equal tiles the pass returns its input and gains nothing |
| Puzzle.MergePassShrinksIffPair | src/games/Puzzle.jsx:33-41 | The pass shortens the list of tiles if and only if two adjacent tiles are equal |
| Puzzle.GainIffMerge | src/games/Puzzle.jsx:33-41 | For positive tiles the score gain is positive if and only if some adjacent pair merges |
| Puzzle.MergePassUniform | src/games/Puzzle.jsx:34-40 | `k` equal tiles `v` become `k/2` tiles `2v` followed by `k%2` leftover tiles `v`, gaining `(k/2)·2v`. The skip after a pair means no tile merges twice |
| Puzzle.SlideFourEqual | src/games/Puzzle.jsx:34-40 | `[2,2,2,2]` slides to `[4,4,0,0]` with gain 8 |
| Puzzle.SlideOnePair | src/games/Puzzle.jsx:34-40 | `[2,2,0,0]` slides to `[4,0,0,0]` with gain 4 |
| Puzzle.SlideThreeEqual | src/games/Puzzle.jsx:34-40 | `[2,2,2,0]` slides to `[4,2,0,0]`: the leftmost pair merges first |
| Puzzle.SlideIdleIff | src/games/Puzzle.jsx:29-46 | A four-cell line is left unchanged if and only if it is already packed and no two adjacent tiles are equal |
| Puzzle.PairLineMoves | src/games/Puzzle.jsx:33-41 | A line with two adjacent equal tiles always changes its tiles |
| Puzzle.Rotate | src/games/Puzzle.jsx:48-57 | `rotateBoard` turns the board a quarter clockwise: the cell at row `y`, column `x` goes to row `x`, column `3 - y` |
| Puzzle.FourRotations | src/games/Puzzle.jsx:48-57 | Four clockwise rotations give back the original board |
| Puzzle.RotateNAdd | src/games/Puzzle.jsx:48-57 | Rotating `m` times and then `n` times is rotating `m + n` times |
| Puzzle.RotateBack | src/games/Puzzle.jsx:63-82 | Undoing `k` rotations with `(4 - k) % 4` more restores the board, so `move`'s rotate-slide-unrotate is consistent |
| Puzzle.Move | src/games/Puzzle.jsx:59-85 | As written: `move` returns a 4×4 board. What it does to the tiles is stated by `MovedIffChanged`, `MoveKeepsSum`, `MoveKeepsTiles` and `SlideRows` |
| Puzzle.SlideRows | src/games/Puzzle.jsx:71-79 | Every row of the board is slid and merged on its own. Each new row is packed to the left and keeps its row's sum, and a row of tiles stays a row of tiles |
| Puzzle.DiffersIff | src/games/Puzzle.jsx:71-79 | The cell-by-cell comparison that sets `moved` holds exactly when the two boards differ |
| Puzzle.MovedIffChanged | src/games/Puzzle.jsx:59-85 | `move` reports `moved` if and only if the board it returns differs from its input, in every direction |
| Puzzle.MoveKeepsSum | src/games/Puzzle.jsx:59-85 | A move in any direction keeps the sum of all tiles |
| Puzzle.RotateNKeepsSum | src/games/Puzzle.jsx:48-57 | Rotation keeps the sum of all tiles |
| Puzzle.HasMoves | src/games/Puzzle.jsx:88-97 | `hasMoves` holds if and only if some cell is empty or equals its right or lower neighbour |
| Puzzle.StuckCannotMove | src/games/Puzzle.jsx:88-97 | When `hasMoves` is false, no direction moves anything |
| Puzzle.MovedLeavesRoom | src/games/Puzzle.jsx:59-85 | A move that changed the board leaves an empty cell, so the tile that follows always finds a place |
| Puzzle.AddRandomTile | src/games/Puzzle.jsx:16-27 | A full board is unchanged. Otherwise exactly one previously empty cell becomes 2 or 4 and no other cell changes |
| Puzzle.AnyEmptyCellCanBeChosen | src/games/Puzzle.jsx:16-27 | Every empty cell, with either value 2 or 4, is the outcome of some draw |
| Puzzle.NewBoardHasTwoTiles | src/games/Puzzle.jsx:100-104 | A new board holds exactly two tiles, each 2 or 4, in two different cells, and nothing else |
| Puzzle.Start | src/games/Puzzle.jsx:138-145 | A reset starts from a board of tiles with score 0, neither paused nor over |
| Puzzle.OnKey | src/games/Puzzle.jsx:111-133 | As written: the board stays 4×4. While the game is not over, P toggles pause, R starts a new game, and unmapped keys and arrows while paused change nothing. A running arrow key is stated by `IdleMoveChangesNothing` and `MoveAddsOneTile` |
| Puzzle.OverIgnoresKeys | src/games/Puzzle.jsx:111-112 | After game over every key is ignored, R included |
| Puzzle.IdleMoveChangesNothing | src/games/Puzzle.jsx:126-132 | An arrow key whose move changes nothing leaves the whole state unchanged: no tile, no score, no game-over check |
| Puzzle.MoveAddsOneTile | src/games/Puzzle.jsx:126-132 | An arrow key whose move changes the board adds exactly one tile to the moved board and adds the move's gain to the score. It sets game over exactly when no cell of the new board is empty or equal to its right or lower neighbour, and then no direction can move |
| Puzzle.OnKeyKeepsInv | src/games/Puzzle.jsx:111-133 | Every key keeps the board a 4×4 board of tiles with a non-negative score |
| Puzzle.MoveKeepsTiles | src/games/Puzzle.jsx:59-85 | A move keeps every cell empty or a power of two and gains a non-negative amount |
| Puzzle.AddRandomTileKeepsTiles | src/games/Puzzle.jsx:16-27 | The new tile is a power of two |
| Tetris.KindId | src/Tetris.jsx:111-112 | A kind's colour id lies in 1..7 and is one plus its position in the list of kinds |
| Tetris.TableWellFormed | src/Tetris.jsx:15-108 | Every rotation matrix of every kind is a rectangle of 0/1 entries with exactly four blocks, some of them in its top row |
| Tetris.FitsAt | src/Tetris.jsx:123-141 | The row-major scan with its early `return false` accepts a placed shape exactly when none of its blocks is left of, right of or below the board or on a settled block. Rows above the board are free |
| Tetris.IsValidPosition | src/Tetris.jsx:123-141 | The same statement for a piece with column and row offsets and an explicit rotation |
| Tetris.MergePiece | src/Tetris.jsx:144-160 | Locking returns a 20×10 board. It writes the kind's id on exactly the in-bounds cells covered by the shape and leaves every other cell unchanged |
| Tetris.ClearLines | src/Tetris.jsx:163-172 | The result has 20 rows of 10 cells. The line count is the number of full input rows. That many empty rows come first, then the non-full input rows in their order, and no row of the result is full |
| Tetris.ClearLinesIdempotent | src/Tetris.jsx:163-172 | Clearing again clears nothing and returns the same board |
| Tetris.ClearNothing | src/Tetris.jsx:163-172 | A board without full rows is returned unchanged with zero lines |
| Tetris.LockClearsAtMostFour | src/Tetris.jsx:223-224 | Locking a piece onto a board without full rows clears at most as many lines as the piece has rows, so at most four |
| Tetris.LineScoreIncreasing | src/Tetris.jsx:229-230 | Clearing more lines at once, from one to four, scores strictly more |
| Tetris.Settle | src/Tetris.jsx:223-231 | Locking merges the piece and clears the full rows. The board becomes the cleared board, the line count grows by the number of cleared rows, and the score grows by the table's points for that number. So score and lines never go down, the score changes exactly when lines were cleared, and by at least 100 per line |
| Tetris.SpawnCentred | src/Tetris.jsx:197-206 | The spawn column centres the spawn shape, rounding left, and keeps every block inside the columns |
| Tetris.SpawnAlwaysFits | src/Tetris.jsx:197-211 | A piece spawned at row -2 fits on every board, because every spawn shape is at most two rows high |
| Tetris.Spawn | src/Tetris.jsx:197-214 | A spawn that does not fit sets game over and keeps the old piece. One that fits becomes the falling piece. Board, score and lines are untouched |
| Tetris.LockAsWritten | src/Tetris.jsx:222-233 | As written: the board, score and lines are those of the settled piece. The next piece is the fresh spawn of kind `k`, and game over is left as it was, because the spawn test against the board from before the lock always passes |
| Tetris.Lock | src/Tetris.jsx:222-233 | Corrected, with lock-out: the board, score and lines are those of the settled piece. A piece that settles with a block above the board ends the game, and the piece stays where it is. Otherwise the fresh spawn of kind `k` follows and game over is left as it was |
| Tetris.StepDownAsWritten | src/Tetris.jsx:217-234 | As written: a piece that can fall moves one row down and nothing else changes. Otherwise the step is the as-written lock. Score and lines never go down, and game over stays |
| Tetris.StepDown | src/Tetris.jsx:217-234 | Corrected: a piece that can fall moves one row down and nothing else changes. Otherwise the step is the lock-out lock |
| Tetris.SoftDropAsWritten | src/Tetris.jsx:265-268 | As written: the soft drop and the gravity timer do nothing while paused or over, and otherwise take the as-written step |
| Tetris.SoftDrop | src/Tetris.jsx:265-268 | Corrected: the soft drop and the gravity timer do nothing while paused or over, and otherwise take the lock-out step |
| Tetris.MoveSideways | src/Tetris.jsx:257-262 | As written: nothing changes while paused or over, or when the shifted piece does not fit. Otherwise the piece moves `dx` columns and nothing else changes. A piece that moved fits |
| Tetris.MoveSidewaysUndo | src/Tetris.jsx:257-262 | A sideways step that happened is undone by the opposite step |
| Tetris.RotatePiece | src/Tetris.jsx:271-285 | As written: nothing changes while paused or over. Otherwise only the piece changes, keeping its kind and row. A piece that turned has the next rotation, is shifted by one of the kicks and fits |
| Tetris.RotateTakesFirstKick | src/Tetris.jsx:271-285 | Rotation targets `(rot + 1) mod n` and commits the first kick of `[0, -1, 1, -2, 2]` that fits. Every earlier kick does not fit, and when none fits the state is unchanged |
| Tetris.FrozenIgnoresKeys | src/Tetris.jsx:238-316 | While paused or over, every key but P leaves the state unchanged, in the handler as written and in the corrected one |
| Tetris.OnKey | src/Tetris.jsx:289-316 | Corrected handler: Down steps with lock-out and Space drops to the landing row. The board shape is kept, score and lines never go down, only P changes pause, and game over stays |
| Tetris.OnKeyAsWritten | src/Tetris.jsx:289-316 | As written: the handler fails to return exactly on Space while the game runs and the piece can fall (the hard-drop loop). Every other key keeps the board shape and never lowers score or lines |
| Tetris.ResetInv | src/Tetris.jsx:350-364 | A reset satisfies the invariant: a 20×10 board of colour ids without full rows, and a piece of a valid rotation that does not collide while the game runs |
| Tetris.StepDownInv | src/Tetris.jsx:217-234 | Corrected game: the lock-out step keeps a 20×10 board of colour ids without full rows and a piece that fits while the game runs |
| Tetris.OnKeyInv | src/Tetris.jsx:289-316 | Corrected game: every key of the corrected handler keeps the same invariant |
| Tetris.LockAsWrittenInv | src/Tetris.jsx:222-233 | As written: locking keeps the invariant, because the stale spawn test passes on any board and so does the test on the new one |
| Tetris.StepDownAsWrittenInv | src/Tetris.jsx:217-234 | As written: the gravity step keeps the invariant |
| Tetris.OnKeyAsWrittenInv | src/Tetris.jsx:289-316 | As written: every key keeps the invariant whenever the handler returns |
| Tetris.MergeColours | src/Tetris.jsx:144-160 | Locking keeps every cell empty or a colour id 1..7 |
| Tetris.ClearColours | src/Tetris.jsx:163-172 | Clearing keeps every cell empty or a colour id 1..7 |
| Tetris.HardDropAsWrittenHangs | src/Tetris.jsx:239-243 | The hard-drop loop re-tests the unchanging `piece`: from a fresh reset it never ends |
| Tetris.HardDropAsWritten | src/Tetris.jsx:237-254 | As written: nothing happens while paused or over. Otherwise the drop fails to return exactly when the piece can fall one row, and when it cannot the piece locks where it is, as `LockAsWritten` |
| Tetris.DropTarget | src/Tetris.jsx:237-243 | The corrected drop moves the piece straight down to a row where it cannot fall further, through rows where it fits |
| Tetris.HardDropLands | src/Tetris.jsx:237-254 | The corrected hard drop keeps column and rotation and lands on a fitting row from which the piece cannot fall. It then locks there |
| Tetris.HardDrop | src/Tetris.jsx:237-254 | Corrected: the piece falls to its landing row and locks with lock-out. The board shape is kept, score and lines never go down, and game over stays |
| Tetris.StepDownAsWrittenNeverEnds | src/Tetris.jsx:207-232 | As written, locking never ends the game: the spawn test always passes |
| Tetris.AsWrittenNeverEnds | src/Tetris.jsx:205-211 | As written: no key and no gravity step ever sets game over |
| Tetris.LockAgreesUnlessLockOut | src/Tetris.jsx:222-233 | A lock that does not lock out is the same in both games |
| Tetris.OnKeyAgreesUnlessLockOut | src/Tetris.jsx:289-316 | Every key but Space does the same in both handlers, unless its soft drop locks out |
| Tetris.StepDownAsWrittenDropsBlocks | src/Tetris.jsx:217-234 | As written, an O piece that locks above a full stack vanishes: the board and line count are unchanged and play goes on |
| Tetris.LockOutEndsGame | src/Tetris.jsx:217-234 | With lock-out, that same lock ends the game |
| Tetris.LockKeepsEveryBlock | src/Tetris.jsx:144-160 | With lock-out, every block of a piece that locks while play goes on lands on the board with its kind's id |
| Jeweled.RandomGem | src/games/Jeweled.jsx:11-12 | A random gem lies in 1..6 |
| Jeweled.ScanLine | src/games/Jeweled.jsx:38-52 | The run-length scan of one line collects exactly the cells that lie in a run of three or more equal non-empty cells |
| Jeweled.RunFlush | src/games/Jeweled.jsx:38-52 | A maximal run is collected whole when it has at least three cells and not at all otherwise |
| Jeweled.FindMatches | src/games/Jeweled.jsx:34-70 | A cell is matched if and only if it lies in a horizontal or vertical run of three or more equal non-empty cells |
| Jeweled.RemoveMatches | src/games/Jeweled.jsx:72-79 | Exactly the matched cells become empty; every other cell is unchanged |
| Jeweled.CollapseColumn | src/games/Jeweled.jsx:81-94 | A column becomes empty cells on top of its non-empty cells, in their original order |
| Jeweled.Collapse | src/games/Jeweled.jsx:81-94 | Every column of the board falls that way |
| Jeweled.Refill | src/games/Jeweled.jsx:96-104 | No cell is left empty, every gem stays, and every empty cell gets a gem 1..6 |
| Jeweled.AdjacentIff | src/games/Jeweled.jsx:106-108 | Two cells are adjacent if and only if one is directly above, below, left or right of the other |
| Jeweled.Swap | src/games/Jeweled.jsx:123-124 | The two cells exchange their gems and no other cell changes |
| Jeweled.SwapTwice | src/games/Jeweled.jsx:123-124 | Swapping the same two cells twice restores the board |
| Jeweled.Round | src/games/Jeweled.jsx:145-147 | Removing a board's matches, letting the gems fall and refilling gives the next board: the matched cells emptied, each column settled, then the empty cells drawn |
| Jeweled.NextBoardGems | src/games/Jeweled.jsx:145-147 | A round on a board of gems and empty cells leaves gems 1..6 in every cell |
| Jeweled.GainStep | src/games/Jeweled.jsx:143 | Round `n` adds ten points per matched gem times `n` to the points of the rounds before it |
| Jeweled.GainAtLeastFirst | src/games/Jeweled.jsx:143 | A cascade scores at least ten points per gem of its first round |
| Jeweled.TraceExtend | src/games/Jeweled.jsx:139-149 | A round on a board with matches extends the cascade by the next board and by the round's matched-cell count |
| Jeweled.TracesAgree | src/games/Jeweled.jsx:139-152 | Two cascades from the same start with the same drops agree board by board |
| Jeweled.CascadeUnique | src/games/Jeweled.jsx:139-152 | A cascade is determined by its start and its drops: any two agree on every board and every round's count |
| Jeweled.CascadeFirst | src/games/Jeweled.jsx:135-143 | A start without matches is the whole cascade. Otherwise the first round counts exactly the start's matched cells |
| Jeweled.TraceInRange | src/games/Jeweled.jsx:145-147 | Every board of a cascade from gems and empty cells holds only gems and empty cells |
| Jeweled.Cascade | src/games/Jeweled.jsx:135-152 | The loop computes the cascade of its start. Each round counts the board's matched cells, scores them and produces the next board. The loop stops at the first board without matches or after 20 rounds. It returns the last board and the sum of ten points per gem times the round number |
| Jeweled.HandleCell | src/games/Jeweled.jsx:116-157 | With no selection a click selects. Clicking the selected cell deselects, and a non-adjacent click moves the selection. An adjacent swap without a match keeps board and score, clears the selection and shows the message. A swap with a match clears the selection, takes the last board of the cascade on the swapped board, and adds the cascade's points to the score, at least ten per matched gem |
| Jeweled.Accept | src/games/Jeweled.jsx:134-156 | The accepted swap: the game takes the cascade's last board and adds its points to the score, at least ten per gem the swap matched. The selection and message are cleared, and gems stay in range |
| Jeweled.AcceptableGemExists | src/games/Jeweled.jsx:20-25 | Each cell's retry loop has an acceptable gem: at most two of the six are excluded |
| Jeweled.FilledHasNoMatch | src/games/Jeweled.jsx:14-30 | A board built cell by cell this way holds gems everywhere and has no match |
| Jeweled.MakeBoard | src/games/Jeweled.jsx:14-30 | A new board, when the draws suffice, has gems 1..6 and no match |
| Jeweled.Reset | src/games/Jeweled.jsx:159-164 | A reset gives a match-free board of gems, score 0, no selection and no message |
| Snake.RandomCell | src/games/Snake.jsx:21-28 | A drawn food cell, when the draws suffice, lies on the grid and outside the excluded cells |
| Snake.RandomCellReachesAll | src/games/Snake.jsx:21-28 | Every free cell is drawn by some draw |
| Snake.Initial | src/games/Snake.jsx:31-41 | The first state is the reset snake, with food on a free cell |
| Snake.SpeedAfterEating | src/games/Snake.jsx:91-92 | The interval changes only on every fifth food, when the score before it plus 10 is a multiple of 50. Then it drops to `max(70, sp - 10)`, strictly lower while above 70. It never rises and never drops below 70 |
| Snake.Tick | src/games/Snake.jsx:65-101 | Paused or over: nothing happens. The new head is the old head plus the pending direction; a wall or any body cell, the tail included, ends the game with the snake unchanged. Food grows the snake by its new head and adds 10; otherwise the snake keeps its length, dropping its last cell. Eating sets the interval by the speed rule |
| Snake.TailIsNotFree | src/games/Snake.jsx:78-83 | Moving onto the cell the tail is about to leave still ends the game |
| Snake.ResetInv | src/games/Snake.jsx:107-116 | The reset state satisfies the invariant: a non-empty snake of distinct in-bounds cells, food on a free cell, a score of whole foods and a speed of at least 70 |
| Snake.TickKeepsInv | src/games/Snake.jsx:74-101 | A tick keeps that invariant |
| Snake.SpeedFloor | src/games/Snake.jsx:88-97 | A tick keeps the interval, lowers it by 10 or sets it to 70, and it stays at least 70 |
| Snake.OnKeyKeepsInv | src/games/Snake.jsx:48-59 | Keys keep the invariant |
| Snake.DirectionFilter | src/games/Snake.jsx:51-58 | A direction key is ignored while paused or over or when it reverses the pending direction; any other becomes the pending direction |
| Snake.OnKey | src/games/Snake.jsx:48-59 | As written: P toggles pause, R resets and any other key is ignored. A direction key changes only the pending direction, and only while the game runs and the key does not reverse the pending direction. The pending direction stays a unit step |
| SnakeTurns.DoubleTurnEndsGame | src/games/Snake.jsx:52-58 | As written, Up then Left within one tick, while moving right, sets Left as pending, and the next tick runs into the neck and ends the game |
| SnakeTurns.OnKeyChecked | src/games/Snake.jsx:48-59 | Corrected: the same handler, with the reverse test made against the direction of the last tick |
| SnakeTurns.OnKeyCheckedKeepsInv | src/games/Snake.jsx:48-59 | The corrected handler keeps the invariant |
| SnakeTurns.TickKeepsSteered | src/games/Snake.jsx:65-101 | A tick keeps the snake steered. The pending direction never reverses the direction of the last tick, and the neck lies one such step behind the head |
| SnakeTurns.OnKeyCheckedKeepsSteered | src/games/Snake.jsx:48-59 | The corrected handler keeps that property |
| SnakeTurns.NeverIntoNeck | src/games/Snake.jsx:69-83 | With that property the next head is never the second body cell |
| SnakeTurns.DoubleTurnSurvives | src/games/Snake.jsx:52-58 | With the corrected handler, Up then Left within one tick keeps Up pending and the next tick is safe |

## Left out

- Pong, the routing and the static pages: outside the rule engines.
- React machinery is left out: state hooks, effects, timers, key listeners and rendering (Tetris `renderBoard` duplicates `mergePiece`). Each handler is a step function on an explicit state record.
- `Math.random()`: draws are parameters. The random tile, tetromino kind, refill grid and food cell are parameters of the step that consumes them.
- The retry loops of `randomCell` and of `makeBoardNoInitialMatches` end only by chance. They are modelled over a finite list of draws that returns `None` when the list runs out.
- Tetris gravity timer: it runs `stepDown` only while neither paused nor over, which is exactly `SoftDropAsWritten` (and `SoftDrop` in the corrected game).
- Tetris has no reset key. The reset button is `Reset`, with the drawn kind as a parameter, and the initial state is the same as a reset.
- Tetris `spawn` after a lock tests the board from before the lock (a stale closure).
  - `LockAsWritten` models this.
  - It changes nothing, because a spawn at row -2 fits on every board (`SpawnAlwaysFits`).
- Tetris.LineScore: states only the lower bound of 100 per line. The 100/300/500/800 table is its definition.
- Snake: the food a tick eats comes from the food state.
  - After a reset at score 0 the running timer keeps the old food (a stale closure); the model uses the current food.
  - The speed rule's captured `score` is the current score in the model.
- Snake: `heading` is not part of the source. It records the direction of the last tick, and only the corrected handler reads it.
- Snake: the `dir` state kept in sync for display only.
- Puzzle: `maxTile` and the board display.
- Puzzle: R after game over is ignored, as written, because `if (over) return` comes first. The reset button still calls `reset` (`Start`).
- Puzzle.Move: its own contract promises only a 4×4 board. Its effect on the tiles is stated by the lemmas named in its row.
- Puzzle.OnKey: its own contract leaves a running arrow key to `IdleMoveChangesNothing` and `MoveAddsOneTile`, to keep the handler's proof small.
- Tetris.Lock: the corrected lock, with lock-out. The source's lock is `LockAsWritten`.
- Tetris.StepDown: the corrected step, locking with lock-out. The source's step is `StepDownAsWritten`.
- Tetris.SoftDrop: the corrected soft drop over `StepDown`. The source's is `SoftDropAsWritten`.
- Tetris.HardDrop: the corrected hard drop, which lands and locks with lock-out. The source's loop is `HardDropAsWritten`.
- Tetris.OnKey: the corrected handler, built from the corrected steps. The source's handler is `OnKeyAsWritten`.
- Tetris.StepDownInv: about the corrected step. The same invariant for the step as written is `StepDownAsWrittenInv`.
- Tetris.OnKeyInv: about the corrected handler. The same invariant for the handler as written is `OnKeyAsWrittenInv`.
- Snake.Tick: it requires a free cell for the new food. A tick that eats the last free cell fills all 400 cells, and the source's `randomCell` then never returns. The model leaves that tick out.
- Jeweled: the ghost list of boards that `Cascade` returns is not part of the source; it names the cascade that the loop computes.
- Jeweled: refill draws one gem per empty cell, from a grid of draws (`DrawGrid`), rather than from a shared stream.

## Findings

| source | as written | input that shows it | evidently intended | confidence | as-written member | corrected member |
|---|---|---|---|---|---|---|
| src/Tetris.jsx:239-243 | The hard-drop loop re-tests `isValidPosition(board, piece, 0, 1)` on the closure's `piece`, which the loop never changes. Whenever the piece can fall one row the loop never ends, and otherwise the piece locks where it is | Any fresh game (`Reset(k)`) followed by Space | Fall to the lowest row where the piece fits, then lock | not executed | Tetris.HardDropAsWrittenHangs | Tetris.HardDropLands |
| src/Tetris.jsx:205-211 | Spawn tests row -2, where every spawn shape (at most two rows high) lies wholly above the board, so game over is never set. A piece that locks with blocks above the board loses them silently | An O piece at its spawn position over a board whose every row is filled except column 0 (`Ceiling`) | Lock-out: a piece that locks with any block above the board ends the game | not executed | Tetris.StepDownAsWrittenDropsBlocks | Tetris.LockOutEndsGame |
| src/games/Snake.jsx:55-58 | The reverse test compares a key with the pending direction, not with the direction the snake last moved. Two keys inside one tick can still reverse the snake | Moving right from the start, press Up then Left before the next tick | Reject a key that reverses the last moved direction | not executed | SnakeTurns.DoubleTurnEndsGame | SnakeTurns.DoubleTurnSurvives |
