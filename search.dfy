/**
  The exhaustive search of the Expert tier, as functions on board values:
  `minimax` (the score of a position) and the root scan of `minimax_best_move`.
  The in-place place/undo implementations in module Game are proved equal to these.
 */
module Search {
  import opened Wrappers
  import opened Board

  /** A running best score: Python's `-float('inf')`, a finite score, or `float('inf')`. */
  datatype Ext = NegInf | Fin(v: int) | PosInf

  /** Python's `a > b` on scores and infinities. */
  predicate Greater(a: Ext, b: Ext)
  {
    match (a, b)
    case (Fin(x), Fin(y)) => x > y
    case (Fin(_), NegInf) => true
    case (PosInf, Fin(_)) => true
    case (PosInf, NegInf) => true
    case _ => false
  }

  /** Python's `max(a, b)`: the first argument unless the second is greater. */
  function Max(a: Ext, b: Ext): Ext
  {
    if Greater(b, a) then b else a
  }

  /** Python's `min(a, b)`: the first argument unless the second is smaller. */
  function Min(a: Ext, b: Ext): Ext
  {
    if Greater(a, b) then b else a
  }

  /** The side to move: the computer on a maximising layer, the player on a minimising one. */
  function Mover(maximizing: bool): Mark
  {
    if maximizing then Ai else Player
  }

  /** The value `best_score` starts from on a layer. */
  function Start(maximizing: bool): Ext
  {
    if maximizing then NegInf else PosInf
  }

  /**
    `minimax(depth, is_maximizing)` on board `b`: a computer win scores
    `10 - depth`, a player win `depth - 10`, a full board without winner 0;
    otherwise the best child score for the side to move.
   */
  function Minimax(b: Grid, depth: int, maximizing: bool): int
    decreases EmptyCount(b), 1, 0
  {
    var w := Winner(b);
    if w == Some(Ai) then 10 - depth
    else if w == Some(Player) then depth - 10
    else if Empty !in b then 0
    else ChildrenBest(b, depth, maximizing, 9).v
  }

  /**
    The search loop of `minimax` after it has visited cells `0 .. n-1`: `best_score`
    folded with `max` (or `min`) over the scores of the children at empty cells.
   */
  function ChildrenBest(b: Grid, depth: int, maximizing: bool, n: nat): (r: Ext)
    requires n <= 9
    ensures r.Fin? || r == Start(maximizing)
    ensures r.Fin? <==> exists k :: 0 <= k < n && b[k] == Empty
    decreases EmptyCount(b), 0, n
  {
    if n == 0 then Start(maximizing)
    else
      var acc := ChildrenBest(b, depth, maximizing, n - 1);
      if b[n - 1] == Empty then
        PlaceDecreasesEmptyCount(b, n - 1, Mover(maximizing));
        var score := Fin(Minimax(b[n - 1 := Mover(maximizing)], depth + 1, !maximizing));
        if maximizing then Max(acc, score) else Min(acc, score)
      else acc
  }

  /**
    Scores stay within `[depth - 10, 10 - depth]`, as long as the leaves are
    no deeper than 10 plies (depth plus the empty cells still to fill).
   */
  lemma {:induction false} MinimaxBounds(b: Grid, depth: int, maximizing: bool)
    requires depth + EmptyCount(b) <= 10
    ensures depth - 10 <= Minimax(b, depth, maximizing) <= 10 - depth
    decreases EmptyCount(b), 1, 0
  {
    var w := Winner(b);
    if w != Some(Ai) && w != Some(Player) && Empty in b {
      ChildrenBestBounds(b, depth, maximizing, 9);
    }
  }

  /** Every finite value of the search loop lies one ply inside the bounds of its layer. */
  lemma {:induction false} ChildrenBestBounds(b: Grid, depth: int, maximizing: bool, n: nat)
    requires n <= 9
    requires depth + EmptyCount(b) <= 10
    ensures var r := ChildrenBest(b, depth, maximizing, n);
      r.Fin? ==> depth + 1 - 10 <= r.v <= 10 - depth - 1
    decreases EmptyCount(b), 0, n
  {
    if n > 0 {
      ChildrenBestBounds(b, depth, maximizing, n - 1);
      if b[n - 1] == Empty {
        PlaceDecreasesEmptyCount(b, n - 1, Mover(maximizing));
        MinimaxBounds(b[n - 1 := Mover(maximizing)], depth + 1, !maximizing);
      }
    }
  }

  /** The score `minimax_best_move` gives to playing the computer's mark on cell `i`. */
  function ChildScore(b: Grid, i: Cell): int
  {
    Minimax(b[i := Ai], 0, false)
  }

  /**
    The loop of `minimax_best_move` after cells `0 .. n-1`: the pair
    (`best_score`, `best_move`), replaced only on a strictly greater score.
   */
  function RootScan(b: Grid, n: nat): (Ext, Option<Cell>)
    requires n <= 9
  {
    if n == 0 then (NegInf, None)
    else
      var (best, move) := RootScan(b, n - 1);
      if b[n - 1] == Empty && Greater(Fin(ChildScore(b, n - 1)), best)
      then (Fin(ChildScore(b, n - 1)), Some(n - 1))
      else (best, move)
  }

  /** The move `minimax_best_move` keeps, or None when the board has no empty cell. */
  function BestMove(b: Grid): Option<Cell>
  {
    RootScan(b, 9).1
  }

  /** Cell `i` is empty, no empty cell scores more, and every empty cell before it scores less. */
  predicate FirstBest(b: Grid, i: Cell, n: nat)
  {
    && i < n
    && b[i] == Empty
    && (forall k: Cell :: k < n && b[k] == Empty ==> ChildScore(b, k) <= ChildScore(b, i))
    && (forall k: Cell :: k < i && b[k] == Empty ==> ChildScore(b, k) < ChildScore(b, i))
  }

  lemma {:induction false} RootScanIsFirstBest(b: Grid, n: nat)
    requires n <= 9
    ensures RootScan(b, n).1.None? <==> forall k: Cell :: k < n ==> b[k] != Empty
    ensures RootScan(b, n).1.None? ==> RootScan(b, n).0 == NegInf
    ensures RootScan(b, n).1.Some? ==>
      var i := RootScan(b, n).1.value;
      FirstBest(b, i, n) && RootScan(b, n).0 == Fin(ChildScore(b, i))
  {
    if n > 0 {
      RootScanIsFirstBest(b, n - 1);
    }
  }

  /** The first-best cell is unique: two cells that are both first-best are equal. */
  lemma FirstBestUnique(b: Grid, i: Cell, j: Cell, n: nat)
    requires FirstBest(b, i, n) && FirstBest(b, j, n)
    ensures i == j
  {
  }

  /**
    `minimax_best_move` keeps exactly the lowest-index empty cell among those
    with the maximal child score, and keeps none only on a full board.
   */
  lemma BestMoveIsFirstBest(b: Grid, i: Cell)
    ensures BestMove(b) == Some(i) <==> FirstBest(b, i, 9)
    ensures BestMove(b) == None <==> Empty !in b
  {
    RootScanIsFirstBest(b, 9);
    if FirstBest(b, i, 9) {
      FirstBestUnique(b, i, RootScan(b, 9).1.value, 9);
    }
  }

  /** A child that is not an immediate computer win scores at most 9. */
  lemma NonWinningChildBelowTen(b: Grid, i: Cell)
    requires b[i] == Empty
    requires Winner(b[i := Ai]) != Some(Ai)
    ensures ChildScore(b, i) <= 9
  {
    var c := b[i := Ai];
    EmptyCountAtMostNine(b);
    PlaceDecreasesEmptyCount(b, i, Ai);
    if Winner(c) != Some(Player) && Empty in c {
      ChildrenBestBounds(c, 0, false, 9);
    }
  }

  /**
    If the computer can complete a line at once, `minimax_best_move` plays the
    lowest such cell: its score is 10, and no other child reaches 10 earlier.
   */
  lemma ExpertTakesImmediateWin(b: Grid, i: Cell)
    requires b[i] == Empty && Winner(b[i := Ai]) == Some(Ai)
    requires forall k: Cell :: k < i && b[k] == Empty ==> Winner(b[k := Ai]) != Some(Ai)
    ensures BestMove(b) == Some(i)
  {
    assert ChildScore(b, i) == 10;
    forall k: Cell | b[k] == Empty
      ensures ChildScore(b, k) <= 10
      ensures k < i ==> ChildScore(b, k) < 10
    {
      EmptyCountAtMostNine(b);
      PlaceDecreasesEmptyCount(b, k, Ai);
      MinimaxBounds(b[k := Ai], 0, false);
      if k < i {
        NonWinningChildBelowTen(b, k);
      }
    }
    BestMoveIsFirstBest(b, i);
  }
}
