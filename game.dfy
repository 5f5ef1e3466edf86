/**
  The round state of `TicTacToeApp` without its widgets: the board list, the
  turn, whether the round is running, the three score counters and the chosen
  difficulty, with the computer player's searches that place and undo marks
  on the live board.
 */
module Game {
  import opened Wrappers
  import opened Board
  import opened Search
  import opened Strategy

  /** What `check_game_end` adds to (player_score, ai_score, draws) on board `b`. */
  function Increments(b: Grid): (r: (nat, nat, nat))
    ensures r.0 + r.1 + r.2 == (if Terminal(b) then 1 else 0)
    ensures r.0 == 1 <==> Winner(b) == Some(Player)
    ensures r.1 == 1 <==> Winner(b).Some? && Winner(b) != Some(Player)
    ensures r.2 == 1 <==> Winner(b).None? && Empty !in b
  {
    var w := Winner(b);
    if w.Some? then (if w.value == Player then (1, 0, 0) else (0, 1, 0))
    else if Empty !in b then (0, 0, 1)
    else (0, 0, 0)
  }

  class TicTacToe {
    var board: array<Mark>
    var currentTurn: Mark
    var gameActive: bool
    var playerScore: nat
    var aiScore: nat
    var draws: nat
    var difficulty: Difficulty

    /** Nine cells, and the round runs exactly while the position is not finished. */
    ghost predicate Valid()
      reads this, board
    {
      && board.Length == 9
      && (gameActive <==> !Terminal(board[..]))
    }

    /** The state right after start-up: an empty board, X to move, no score, Expert. */
    constructor ()
      ensures Valid() && fresh(board)
      ensures board[..] == EmptyGrid && currentTurn == Player && gameActive
      ensures playerScore == 0 && aiScore == 0 && draws == 0
      ensures difficulty == Expert
    {
      board := new Mark[9](_ => Empty);
      currentTurn := Player;
      gameActive := true;
      playerScore, aiScore, draws := 0, 0, 0;
      difficulty := Expert;
      new;
      assert board[..] == EmptyGrid;
    }

    /** `make_move`: write `symbol` into cell `index`. */
    method MakeMove(index: Cell, symbol: Mark)
      requires board.Length == 9
      modifies board
      ensures board[..] == old(board[..])[index := symbol]
    {
      board[index] := symbol;
    }

    /**
      `check_game_end`: a winner ends the round and scores for the player or the
      computer; otherwise a full board ends it as a draw; otherwise nothing changes.
     */
    method CheckGameEnd() returns (ended: bool)
      requires board.Length == 9
      modifies this
      ensures board == old(board) && currentTurn == old(currentTurn) && difficulty == old(difficulty)
      ensures ended == Terminal(board[..])
      ensures gameActive == (old(gameActive) && !ended)
      ensures var (p, a, d) := Increments(board[..]);
        playerScore == old(playerScore) + p && aiScore == old(aiScore) + a && draws == old(draws) + d
    {
      var winner := Winner(board[..]);
      if winner.Some? {
        gameActive := false;
        if winner.value == Player {
          playerScore := playerScore + 1;
        } else {
          aiScore := aiScore + 1;
        }
        return true;
      }
      if Empty !in board[..] {
        gameActive := false;
        draws := draws + 1;
        return true;
      }
      return false;
    }

    /** `reset_game`: a fresh empty board, the round running, X to move; scores kept. */
    method ResetGame()
      modifies this
      ensures Valid() && fresh(board)
      ensures board[..] == EmptyGrid && gameActive && currentTurn == Player
      ensures playerScore == old(playerScore) && aiScore == old(aiScore) && draws == old(draws)
      ensures difficulty == old(difficulty)
    {
      board := new Mark[9](_ => Empty);
      gameActive := true;
      currentTurn := Player;
      assert board[..] == EmptyGrid;
    }

    /** `reset_all_scores`: the three counters back to zero. */
    method ResetAllScores()
      modifies this
      ensures playerScore == 0 && aiScore == 0 && draws == 0
      ensures board == old(board) && currentTurn == old(currentTurn)
      ensures gameActive == old(gameActive) && difficulty == old(difficulty)
      ensures old(Valid()) ==> Valid()
    {
      playerScore, aiScore, draws := 0, 0, 0;
    }

    /** The confirmed "New Game" action: scores to zero, then a fresh round. */
    method NewGame()
      modifies this
      ensures Valid() && fresh(board)
      ensures board[..] == EmptyGrid && gameActive && currentTurn == Player
      ensures playerScore == 0 && aiScore == 0 && draws == 0
      ensures difficulty == old(difficulty)
    {
      ResetAllScores();
      ResetGame();
    }

    /** Picking a difficulty in the selector: the new tier, then `reset_game`. */
    method SetDifficulty(d: Difficulty)
      modifies this
      ensures Valid() && fresh(board)
      ensures difficulty == d
      ensures board[..] == EmptyGrid && gameActive && currentTurn == Player
      ensures playerScore == old(playerScore) && aiScore == old(aiScore) && draws == old(draws)
    {
      difficulty := d;
      ResetGame();
    }

    /**
      `player_move`: ignored unless the round runs, the cell is empty and it is
      X's turn; otherwise X is placed, the end of the round is checked and, if
      it goes on, the turn passes to the computer (`aiTurn`, the scheduled
      `ai_move`).
     */
    method PlayerMove(index: Cell) returns (aiTurn: bool)
      requires Valid()
      modifies this, board
      ensures Valid() && board == old(board) && difficulty == old(difficulty)
      ensures !(old(gameActive) && old(board[index]) == Empty && old(currentTurn) == Player) ==>
        && unchanged(this) && board[..] == old(board[..]) && !aiTurn
      ensures old(gameActive) && old(board[index]) == Empty && old(currentTurn) == Player ==>
        && board[..] == old(board[..])[index := Player]
        && aiTurn == !Terminal(board[..])
        && currentTurn == (if aiTurn then Ai else Player)
        && var (p, a, d) := Increments(board[..]);
           playerScore == old(playerScore) + p && aiScore == old(aiScore) + a && draws == old(draws) + d
    {
      if !gameActive || board[index] != Empty || currentTurn != Player {
        return false;
      }
      MakeMove(index, Player);
      var ended := CheckGameEnd();
      if ended {
        return false;
      }
      currentTurn := Ai;
      return true;
    }

    /**
      `ai_move`: the move chosen by `get_ai_move` for the current difficulty is
      played for O, the end of the round is checked and, if it goes on, the turn
      passes back to X. On a full board `random.choice` raises and nothing changes.
     */
    method AiMove(choice: nat)
      requires Valid()
      modifies this, board
      ensures Valid() && board == old(board) && difficulty == old(difficulty)
      ensures Empty !in old(board[..]) ==> unchanged(this) && board[..] == old(board[..])
      ensures Empty in old(board[..]) ==>
        var m := SelectMove(old(board[..]), difficulty, choice);
        && m.Some? && old(board[..])[m.value] == Empty
        && board[..] == old(board[..])[m.value := Ai]
        && currentTurn == (if Terminal(board[..]) then old(currentTurn) else Player)
        && var (p, a, d) := Increments(board[..]);
           playerScore == old(playerScore) + p && aiScore == old(aiScore) + a && draws == old(draws) + d
    {
      ghost var b0: Grid := board[..];
      SelectMoveIsLegal(b0, difficulty, choice);
      var move := GetAiMove(choice);
      if move.None? {
        return;
      }
      var i := move.value;
      MakeMove(i, Ai);
      if Winner(b0).Some? {
        WinnerPersists(b0, i, Ai);
      }
      var ended := CheckGameEnd();
      if ended {
        return;
      }
      currentTurn := Player;
    }

    /**
      `get_ai_move`: the move of the current difficulty tier, computed by trial
      placements on the live board that are all undone before it returns.
     */
    method GetAiMove(choice: nat) returns (move: Option<Cell>)
      requires board.Length == 9
      modifies board
      ensures board[..] == old(board[..])
      ensures move == SelectMove(old(board[..]), difficulty, choice)
    {
      var empty := EmptyCells(board[..]);
      if difficulty == Easy {
        return RandomChoice(empty, choice);
      }
      if difficulty == Medium || difficulty == Hard {
        move := WinBlockOrFallback(difficulty == Hard, empty, choice);
        return;
      }
      move := MinimaxBestMove(choice);
    }

    /**
      The Medium and Hard branch of `get_ai_move`: the win-now pass, the block
      pass, then Hard's preference order, then `random.choice`.
     */
    method WinBlockOrFallback(hard: bool, empty: seq<Cell>, choice: nat) returns (move: Option<Cell>)
      requires board.Length == 9
      requires empty == EmptyCells(board[..])
      modifies board
      ensures board[..] == old(board[..])
      ensures move == HeuristicMove(old(board[..]), hard, choice)
    {
      var win := TrialPass(Ai, empty);
      if win.Some? {
        return win;
      }
      var block := TrialPass(Player, empty);
      if block.Some? {
        return block;
      }
      if hard && |empty| > 0 {
        var preferred := PreferredCell(empty);
        if preferred.Some? {
          return preferred;
        }
      }
      return RandomChoice(empty, choice);
    }

    /** Hard's fallback loop: the first cell of the preference order that is in `empty`. */
    static method PreferredCell(empty: seq<Cell>) returns (found: Option<Cell>)
      ensures found == FirstIn(Preference, empty)
    {
      var preferred := Preference;
      for p := 0 to |preferred|
        invariant FirstIn(preferred, empty) == FirstIn(preferred[p..], empty)
      {
        assert preferred[p..][1..] == preferred[p + 1..];
        if preferred[p] in empty {
          return Some(preferred[p]);
        }
      }
      return None;
    }

    /**
      One pass of `get_ai_move` over the empty cells: place `m`, test for a win,
      and clear the cell again, returning the first cell that wins.
     */
    method TrialPass(m: Mark, empty: seq<Cell>) returns (found: Option<Cell>)
      requires board.Length == 9
      requires forall i :: i in empty ==> board[i] == Empty
      modifies board
      ensures board[..] == old(board[..])
      ensures found == FirstCompleting(old(board[..]), m, empty)
    {
      ghost var b0: Grid := board[..];
      for j := 0 to |empty|
        invariant board[..] == b0
        invariant FirstCompleting(b0, m, empty) == FirstCompleting(b0, m, empty[j..])
      {
        assert empty[j..][1..] == empty[j + 1..];
        var i := empty[j];
        board[i] := m;
        if Winner(board[..]) == Some(m) {
          board[i] := Empty;
          assert board[..] == b0;
          return Some(i);
        }
        board[i] := Empty;
        assert board[..] == b0;
      }
      return None;
    }

    /**
      `minimax_best_move`: try O on each empty cell in ascending order, score it
      with `minimax(0, False)`, undo, and keep a cell only on a strictly greater
      score; `random.choice` over the empty cells when no cell was kept.
     */
    method MinimaxBestMove(choice: nat) returns (move: Option<Cell>)
      requires board.Length == 9
      modifies board
      ensures board[..] == old(board[..])
      ensures move == ExpertMove(old(board[..]), choice)
    {
      ghost var b0: Grid := board[..];
      var bestScore := NegInf;
      var bestMove: Option<Cell> := None;
      for i := 0 to 9
        invariant board[..] == b0
        invariant (bestScore, bestMove) == RootScan(b0, i)
      {
        if board[i] == Empty {
          board[i] := Ai;
          var score := Minimax(0, false);
          board[i] := Empty;
          assert board[..] == b0;
          if Greater(Fin(score), bestScore) {
            bestScore := Fin(score);
            bestMove := Some(i);
          }
        }
      }
      if bestMove.Some? {
        return bestMove;
      }
      move := RandomChoice(EmptyCells(board[..]), choice);
    }

    /**
      `minimax(depth, is_maximizing)` on the live board: terminal scores, else
      every empty cell is tried for the side to move, scored one ply deeper and
      cleared again, keeping the maximum (computer) or minimum (player).
     */
    method Minimax(depth: int, maximizing: bool) returns (score: int)
      requires board.Length == 9
      modifies board
      ensures board[..] == old(board[..])
      ensures score == Search.Minimax(old(board[..]), depth, maximizing)
      decreases EmptyCount(board[..])
    {
      var winner := Winner(board[..]);
      if winner == Some(Ai) {
        return 10 - depth;
      }
      if winner == Some(Player) {
        return depth - 10;
      }
      if Empty !in board[..] {
        return 0;
      }
      ghost var b0: Grid := board[..];
      var bestScore := Start(maximizing);
      for i := 0 to 9
        invariant board[..] == b0
        invariant bestScore == ChildrenBest(b0, depth, maximizing, i)
      {
        if board[i] == Empty {
          ghost var child := b0[i := Mover(maximizing)];
          PlaceDecreasesEmptyCount(b0, i, Mover(maximizing));
          board[i] := Mover(maximizing);
          assert board[..] == child;
          var s := Minimax(depth + 1, !maximizing);
          assert s == Search.Minimax(child, depth + 1, !maximizing);
          board[i] := Empty;
          assert board[..] == b0;
          bestScore := if maximizing then Max(bestScore, Fin(s)) else Min(bestScore, Fin(s));
        }
      }
      assert Search.Minimax(b0, depth, maximizing) == ChildrenBest(b0, depth, maximizing, 9).v;
      score := bestScore.v;
    }
  }
}
