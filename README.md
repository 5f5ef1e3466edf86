# Tic-Tac-Toe game logic in Dafny

A model of the game logic of `TicTacToeApp` (`Tic-Tac-Toe.py`), without its
tkinter widgets. The human plays X and the computer plays O. There are four
parts.

- **Board** (`board.dfy`): nine cells holding `Empty`, `X` or `O`, and the
  eight win lines scanned in a fixed order. `Winner` is `check_winner`: the mark
  on the first complete line, or `None`. `EmptyCells` is the list comprehension
  of empty indices.
- **Search** (`search.dfy`): the Expert tier's minimax as functions on board
  values. `Minimax` scores a computer win `10 - depth`, a player win
  `depth - 10` and a full board 0; otherwise it takes the max or min over the
  children. `ChildrenBest` is that search loop. `RootScan`/`BestMove` is the loop
  of `minimax_best_move`, which keeps a cell only on a strictly greater score.
  Python's `±float('inf')` starting values are the datatype `Ext`.
- **Strategy** (`strategy.dfy`): `SelectMove` gives the move of each difficulty
  tier. Easy makes a random choice. Medium and Hard run a win-now pass, then a
  block pass, then Hard's preference order `[4,0,2,6,8,1,3,5,7]` or Medium's
  random choice. Expert uses `BestMove`. `random.choice` takes an injected
  number `choice` and returns the element at `choice % |list|`. `None` stands
  for the `IndexError` that `random.choice` raises on an empty list.
- **Game** (`game.dfy`): the class `TicTacToe` holds the mutable state:
  - the board array;
  - `currentTurn`;
  - `gameActive`;
  - the three score counters;
  - the difficulty.

  Its methods are `player_move`, `ai_move`, `make_move`, `check_game_end`,
  `reset_game`, `reset_all_scores`, the confirmed "New Game" action and the
  difficulty selector. `get_ai_move`, `minimax_best_move` and `minimax` work
  as the source does: they place a mark on the live board, recurse or test,
  and clear the cell again. Each is proved to leave the board exactly as it
  found it and to return what the matching function of Search/Strategy
  returns. `Valid()` is the class invariant: the round is running exactly
  while the position is not finished. The constructor, `PlayerMove`, `AiMove`,
  `ResetGame`, `NewGame` and `SetDifficulty` establish or keep it, and
  `ResetAllScores` keeps it. `MakeMove` and `CheckGameEnd` are steps inside
  `PlayerMove` and `AiMove`: between the two, a round can run on a won board,
  so neither promises `Valid()` on its own. `GetAiMove` and the searches it
  calls leave the board as they found it.
- **Color** (`color.dfy`): `lighten_color`. A string starting with `#` has its
  three two-character slices parsed as hexadecimal. Each channel becomes
  `min(255, c + 30)` and is written back as two lower-case hex digits. Any
  other string is returned unchanged.

The timers (`root.after`) are replaced by direct calls. `PlayerMove` returns
whether it handed the turn to the computer, which is when the source schedules
`ai_move`. `AiMove` is a separate method with no guard, as in the source. A
pending `ai_move` can fire after "Next Round" or a difficulty change has reset
the board, so the model lets `AiMove` run in any valid state.

Three facts about the code shape the model:
- `make_move` (Tic-Tac-Toe.py:395-396) writes the cell without any check.
  `player_move` silently ignores a click on an occupied cell, in an inactive
  round or on the computer's turn (Tic-Tac-Toe.py:369-370). No move is ever
  rejected with an error.
- `get_ai_move` returns a move on a won board that still has empty cells. Only
  a full board makes it fail.
- The computer always plays O (Tic-Tac-Toe.py:15). So
  `Strategy.ExpertCompletesTopRow` puts O on cells 0, 1 and 3.

## Model

| member | source | states |
|---|---|---|
| Board.Winner | Tic-Tac-Toe.py:519-528 | `check_winner` as a function of the board. Its contract is stated by `Board.WinnerIsFirstCompleteLine` and `Board.WinnerNone`: the mark of the first complete line, and None exactly when no line is complete. |
| Board.WinnerIsFirstCompleteLine | Tic-Tac-Toe.py:519-528 | `check_winner` returns mark m exactly when the first complete line, in the listed order of rows, columns and diagonals, is made of m. Such an m is never empty. |
| Board.WinnerNone | Tic-Tac-Toe.py:519-528 | `check_winner` returns None exactly when none of the 8 lines holds three equal non-empty marks. |
| Board.LoneMarkNoWinner | Tic-Tac-Toe.py:519-528 | A board with a single mark has no winner. |
| Board.WinnerPersists | Tic-Tac-Toe.py:519-528 | A won position stays won after a mark is placed on one of its empty cells. |
| Board.EmptyCells | Tic-Tac-Toe.py:447 | The list of empty cells holds exactly the indices whose cell is empty, in strictly ascending order. It is empty exactly when the board has no empty cell. |
| Board.PlaceDecreasesEmptyCount | Tic-Tac-Toe.py:503-506 | A trial placement on an empty cell removes exactly one empty cell. This is the termination measure of the minimax recursion. |
| Search.Minimax | Tic-Tac-Toe.py:491-517 | `minimax` as a function of the board. Its contract is stated by `Search.MinimaxBounds` (the score bounds) and `Search.ChildrenBest` (never an infinity while a cell is empty). `Game.TicTacToe.Minimax` is proved equal to it. |
| Search.ChildrenBest | Tic-Tac-Toe.py:500-517 | The running best score of the minimax loop stays at its infinite start value until an empty cell has been visited. After that it is finite, so `minimax` never returns an infinity when a cell is empty. |
| Search.MinimaxBounds | Tic-Tac-Toe.py:491-517 | While the leaves are at most 10 plies deep, `minimax(depth, ·)` lies in `[depth-10, 10-depth]`. |
| Search.ChildrenBestBounds | Tic-Tac-Toe.py:500-517 | Every finite best score of the loop at depth d lies in `[d+1-10, 10-d-1]`, the bounds of the children one ply deeper. |
| Search.RootScan | Tic-Tac-Toe.py:477-488 | The loop of `minimax_best_move` after n cells. Its contract is stated by `Search.RootScanIsFirstBest`. |
| Search.BestMove | Tic-Tac-Toe.py:477-489 | The move `minimax_best_move` keeps. Its contract is stated by `Search.BestMoveIsFirstBest`: the lowest-index empty cell of maximal score, and none exactly on a full board. |
| Search.RootScanIsFirstBest | Tic-Tac-Toe.py:477-488 | After scanning cells 0..n-1, `best_move` is None exactly when none of them is empty; then `best_score` is still -inf. Otherwise `best_move` is the lowest-index empty cell with the maximal child score, and `best_score` is that score. |
| Search.BestMoveIsFirstBest | Tic-Tac-Toe.py:477-489 | `minimax_best_move` keeps cell i exactly when i is the lowest-index empty cell whose score is maximal. It keeps none exactly on a full board. |
| Search.NonWinningChildBelowTen | Tic-Tac-Toe.py:491-517 | A root child that is not an immediate computer win scores at most 9. |
| Search.ExpertTakesImmediateWin | Tic-Tac-Toe.py:477-498 | When placing O on some empty cell wins at once, `minimax_best_move` returns the lowest such cell. |
| Strategy.RandomChoice | Tic-Tac-Toe.py:450 | `random.choice` fails exactly on an empty list. Otherwise it returns an element of the list. |
| Strategy.RandomChoiceAt | Tic-Tac-Toe.py:450 | Each position of the list is the outcome of some choice. |
| Strategy.FirstCompleting | Tic-Tac-Toe.py:453-465 | One trial pass of `get_ai_move`. Its contract is stated by `Strategy.TrialPassFindsLowest`: over the empty cells it returns the lowest one on which the mark wins, and None exactly when there is none. |
| Strategy.TrialPassFindsLowest | Tic-Tac-Toe.py:452-465 | A trial pass for mark m over the empty cells in ascending order returns i exactly when i is the lowest empty cell on which m completes a line. It returns nothing exactly when no empty cell does. |
| Strategy.FirstIn | Tic-Tac-Toe.py:467-471 | The preference loop of Hard. Its contract is stated by `Strategy.PreferenceFindsFirstEmpty`: the first entry of `[4,0,2,6,8,1,3,5,7]` whose cell is empty. |
| Strategy.PreferenceFindsFirstEmpty | Tic-Tac-Toe.py:467-471 | On a board with an empty cell, the preference loop returns the first entry of `[4,0,2,6,8,1,3,5,7]` whose cell is empty. |
| Strategy.SelectMove | Tic-Tac-Toe.py:446-489 | `get_ai_move` for a difficulty tier. Its contract is stated by `Strategy.SelectMoveIsLegal` (an empty cell, failing exactly on a full board) and by the tier lemmas below. |
| Strategy.HeuristicMove | Tic-Tac-Toe.py:452-473 | The Medium/Hard branch of `get_ai_move`. Its contract is stated by `Strategy.MediumHardWinNow`, `Strategy.MediumHardBlock` and `Strategy.FallbackWhenNoPassFires`. |
| Strategy.ExpertMove | Tic-Tac-Toe.py:475-489 | The Expert branch: the kept move, or `random.choice` when none is kept. Its contract is stated by `Strategy.ExpertIsFirstBest` and `Strategy.ExpertWinsNow`. |
| Strategy.SelectMoveIsLegal | Tic-Tac-Toe.py:446-489 | For every difficulty, `get_ai_move` fails exactly when no cell is empty. Otherwise it returns an empty cell. |
| Strategy.EasyReachesEveryEmptyCell | Tic-Tac-Toe.py:447-450 | Easy can return any empty cell, depending only on the random choice. |
| Strategy.MediumHardWinNow | Tic-Tac-Toe.py:452-458 | Medium and Hard return the lowest empty cell that wins at once for O, whatever the random choice. |
| Strategy.MediumHardBlock | Tic-Tac-Toe.py:460-465 | If no empty cell wins for O, Medium and Hard return the lowest empty cell on which X would win. |
| Strategy.FallbackWhenNoPassFires | Tic-Tac-Toe.py:467-473 | If neither pass fires, Hard returns the first empty cell of the preference order and Medium returns the random choice among the empty cells. |
| Strategy.ExpertIsFirstBest | Tic-Tac-Toe.py:475-489 | On a board with an empty cell, Expert returns i exactly when i is the lowest-index empty cell of maximal minimax score. The result does not depend on the random choice. |
| Strategy.ExpertWinsNow | Tic-Tac-Toe.py:475-498 | Expert, too, returns the lowest empty cell that wins at once. |
| Strategy.HardOpensInCentre | Tic-Tac-Toe.py:467-471 | On an empty board, Hard returns 4. |
| Strategy.BlocksTopRow | Tic-Tac-Toe.py:460-465 | With X on cells 0 and 1 and nothing else on the board, Medium and Hard return 2. |
| Strategy.ExpertCompletesTopRow | Tic-Tac-Toe.py:477-498 | With O on cells 0, 1, 3 and X on cell 4, Expert returns 2. |
| Game.Increments | Tic-Tac-Toe.py:530-560 | The counter increments of `check_game_end` add up to 1 on a finished position and to 0 otherwise. The player's counter rises exactly on an X win, the computer's on any other winner, and draws on a full board without a winner. |
| Game.TicTacToe.constructor | Tic-Tac-Toe.py:13-23 | At start-up the board is empty, X is to move, the round is running, all scores are 0 and the difficulty is Expert. |
| Game.TicTacToe.MakeMove | Tic-Tac-Toe.py:395-396 | Cell `index` gets the symbol and nothing else changes. |
| Game.TicTacToe.CheckGameEnd | Tic-Tac-Toe.py:530-560 | Reports an end exactly on a finished position. It then clears `gameActive` and adds `Increments` to the counters. Otherwise nothing changes. |
| Game.TicTacToe.ResetGame | Tic-Tac-Toe.py:562-565 | A new all-empty board, the round running and X to move. The scores and the difficulty are kept. |
| Game.TicTacToe.ResetAllScores | Tic-Tac-Toe.py:436-439 | The three counters become 0 and nothing else changes, so a valid state stays valid. |
| Game.TicTacToe.NewGame | Tic-Tac-Toe.py:426-429 | The scores become 0, then the game is reset as by `reset_game`. |
| Game.TicTacToe.SetDifficulty | Tic-Tac-Toe.py:253 | Choosing a difficulty stores it and resets the round; the scores are kept. |
| Game.TicTacToe.PlayerMove | Tic-Tac-Toe.py:368-381 | When the round is inactive, the cell is occupied or it is not X's turn, nothing changes. Otherwise X is placed and the counters move as `check_game_end` says. The turn passes to O exactly when the position is not finished. |
| Game.TicTacToe.AiMove | Tic-Tac-Toe.py:383-393 | On a full board nothing changes, as with the IndexError. Otherwise O is placed on the empty cell that `SelectMove` gives, the counters move as `check_game_end` says, and the turn goes back to X unless the position is finished. |
| Game.TicTacToe.GetAiMove | Tic-Tac-Toe.py:446-475 | The board is left exactly as it was, and the result is `SelectMove` of that board for the current difficulty. |
| Game.TicTacToe.WinBlockOrFallback | Tic-Tac-Toe.py:452-473 | The Medium/Hard branch leaves the board as it was and returns `HeuristicMove` of it. |
| Game.TicTacToe.PreferredCell | Tic-Tac-Toe.py:467-471 | The loop over the preference order returns its first entry that is in the empty list. |
| Game.TicTacToe.TrialPass | Tic-Tac-Toe.py:453-465 | Each place/test/clear step is undone on both the early-return and the fall-through path. The board ends as it started, and the result is the first listed cell on which the mark wins. |
| Game.TicTacToe.MinimaxBestMove | Tic-Tac-Toe.py:477-489 | The board is left as it was, and the result is the kept move, or the random fallback when no move was kept. |
| Game.TicTacToe.Minimax | Tic-Tac-Toe.py:491-517 | Throughout the recursion every trial mark is cleared again, so the board is left as it was. The result equals the minimax value of that board. |
| Color.DigitValue | Tic-Tac-Toe.py:363 | A hexadecimal digit has a value below 16. A lower-case digit is the character at that position of "0123456789abcdef". |
| Color.ParseHex | Tic-Tac-Toe.py:363 | Any channel `int(..., 16)` accepts has a value in [-15, 255]. So `min(255, c+30)` always fits in two hex digits. |
| Color.Hex2 | Tic-Tac-Toe.py:365 | The `:02x` format of a value below 256 is two lower-case hex digits. |
| Color.ParseHex2 | Tic-Tac-Toe.py:363-365 | Parsing a formatted channel gives back the formatted value (round trip). |
| Color.Lighten | Tic-Tac-Toe.py:361-366 | `lighten_color`. Its contract is stated by `Color.LightenedChannels` (the output form and the channels), `Color.LightenFails` (the error case) and `Color.NonHexUntouched` (strings not starting with `#`). |
| Color.LightenedChannels | Tic-Tac-Toe.py:361-365 | A lightened colour is `#` followed by six lower-case hex digits. Each of its channels reads back as `min(255, c+30)` of the input channel c, so it is at least c and at most 255. |
| Color.LightenFails | Tic-Tac-Toe.py:362-363 | For a `#` colour, `lighten_color` raises exactly when one of the three channel slices is not a hexadecimal number. |
| Color.NonHexUntouched | Tic-Tac-Toe.py:362-366 | A string that does not start with `#` is returned unchanged. |
| Color.LightenAccent | Tic-Tac-Toe.py:361-365 | The accent colour "#6366f1" lightens to "#8184ff"; the blue channel saturates at ff. |
| Color.LightenShortColour | Tic-Tac-Toe.py:363 | "#abc" has an empty third slice, so `int("", 16)` raises. |

## Left out

- Everything tkinter: window centring, resize handling and font scaling, styles, widgets, hover colours, button `config` calls and status labels. This is display only.
- The highlighting of the winning line's buttons in `check_game_end` (Tic-Tac-Toe.py:534-546). It only configures widgets.
- `messagebox` dialogs (`offer_next_round`, `show_stats`, the confirmation of `new_game_with_confirmation`, `exit_game`). These are user I/O. `NewGame` models the confirmed path. `start_next_round` is `ResetGame` plus display.
- `root.after` scheduling. It is replaced by direct calls, as described above, so the exact interleaving of timer callbacks with clicks is not modelled.
- `get_score_text`, `update_score` and `show_stats`. They do float percentage formatting for display.
- `random.choice` internals. The random number is a parameter, so the model does not claim uniformity.
- Expert's optimality (that it never loses) is not proved. Only the structure of the search is proved: its score bounds, its tie-break, immediate wins, and that the board is restored.
- `Game.TicTacToe.PlayerMove` takes a cell index 0..8, the only values the nine buttons pass. Python's negative list indices are not modelled.
- `Game.TicTacToe.Minimax`: the source's two loops, one for each side to move, are written as one loop parameterised by the side. The placements and their order are the same.
- Search.MinimaxBounds: the bound `[depth-10, 10-depth]` is proved when depth plus the number of empty cells is at most 10. That is always so for the calls `minimax_best_move` makes: depth 0 and at most 8 empty cells. For `depth <= 10` alone it fails: at depth 10, a child that wins at depth 11 scores -1.
- ParseHex: `int(..., 16)` also accepts surrounding whitespace and non-ASCII decimal digits. The model reports such a slice as an error.
