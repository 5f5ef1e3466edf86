/**
  The 3x3 board of `TicTacToeApp`: nine cells in row-major order, the eight
  winning lines and the read-only queries the game and the computer player
  make on it.
 */
module Board {
  import opened Wrappers

  /** The contents of one cell: Python's "", "X" or "O". */
  datatype Mark = Empty | X | O

  /** The human always plays X and the computer O. */
  const Player: Mark := X
  const Ai: Mark := O

  /** An index into the board. */
  type Cell = i: nat | i < 9

  /** The board: exactly nine cells. */
  type Grid = b: seq<Mark> | |b| == 9
    witness [Empty, Empty, Empty, Empty, Empty, Empty, Empty, Empty, Empty]

  /** The board of a fresh round. */
  const EmptyGrid: Grid := [Empty, Empty, Empty, Empty, Empty, Empty, Empty, Empty, Empty]

  /** The three rows, the three columns and the two diagonals, in the order they are scanned. */
  const Lines: seq<(Cell, Cell, Cell)> :=
    [(0, 1, 2), (3, 4, 5), (6, 7, 8),
     (0, 3, 6), (1, 4, 7), (2, 5, 8),
     (0, 4, 8), (2, 4, 6)]

  /** Line `k` holds three equal marks that are not empty. */
  predicate Complete(b: Grid, k: nat)
    requires k < |Lines|
  {
    var (p, q, r) := Lines[k];
    b[p] == b[q] && b[q] == b[r] && b[r] != Empty
  }

  /** The scan of `check_winner` from line `k` on: the mark of the first complete line. */
  function ScanLines(b: Grid, k: nat): Option<Mark>
    requires k <= |Lines|
    decreases |Lines| - k
  {
    if k == |Lines| then None
    else if Complete(b, k) then Some(b[Lines[k].0])
    else ScanLines(b, k + 1)
  }

  /** `check_winner`: the mark on the first complete line, or None. */
  function Winner(b: Grid): Option<Mark>
  {
    ScanLines(b, 0)
  }

  /** Line `k` is the first complete line and it is made of `m`. */
  predicate FirstLineOf(b: Grid, k: nat, m: Mark)
  {
    && k < |Lines|
    && Complete(b, k)
    && b[Lines[k].0] == m
    && forall j :: 0 <= j < k ==> !Complete(b, j)
  }

  lemma {:induction false} ScanLinesFirst(b: Grid, k: nat, m: Mark)
    requires k <= |Lines|
    requires forall j :: 0 <= j < k ==> !Complete(b, j)
    ensures ScanLines(b, k) == Some(m) <==> exists n :: k <= n && FirstLineOf(b, n, m)
    ensures ScanLines(b, k) == None <==> forall j :: k <= j < |Lines| ==> !Complete(b, j)
    decreases |Lines| - k
  {
    if k < |Lines| {
      if Complete(b, k) {
        if ScanLines(b, k) == Some(m) {
          assert FirstLineOf(b, k, m);
        }
      } else {
        ScanLinesFirst(b, k + 1, m);
      }
    }
  }

  /** `check_winner` returns `m` exactly when the first complete line in the listed order is made of `m`. */
  lemma WinnerIsFirstCompleteLine(b: Grid, m: Mark)
    ensures Winner(b) == Some(m) <==> exists k :: FirstLineOf(b, k, m)
    ensures Winner(b) == Some(m) ==> m != Empty
  {
    ScanLinesFirst(b, 0, m);
  }

  /** `check_winner` returns None exactly when no line is complete. */
  lemma WinnerNone(b: Grid)
    ensures Winner(b) == None <==> forall k :: 0 <= k < |Lines| ==> !Complete(b, k)
  {
    ScanLinesFirst(b, 0, Empty);
  }

  /** A won position stays won when a mark is placed on one of its empty cells. */
  lemma {:induction false} WinnerPersists(b: Grid, i: Cell, m: Mark)
    requires Winner(b).Some? && b[i] == Empty && m != Empty
    ensures Winner(b[i := m]).Some?
  {
    WinnerNone(b);
    var k :| 0 <= k < |Lines| && Complete(b, k);
    assert Complete(b[i := m], k);
    WinnerNone(b[i := m]);
  }

  /** A board with a single mark has no winner. */
  lemma LoneMarkNoWinner(c: Grid, i: Cell)
    requires forall j: Cell :: j != i ==> c[j] == Empty
    ensures Winner(c) == None
  {
    forall k | 0 <= k < |Lines|
      ensures !Complete(c, k)
    {
      assert Lines[k].0 != Lines[k].1;
    }
    WinnerNone(c);
  }

  /** The list comprehension `[i for i in range(9) if board[i] == ""]`, from index `k` on. */
  function EmptyCellsFrom(b: Grid, k: nat): (r: seq<Cell>)
    requires k <= 9
    ensures forall i: Cell :: i in r <==> k <= i && b[i] == Empty
    ensures forall p, q :: 0 <= p < q < |r| ==> r[p] < r[q]
    decreases 9 - k
  {
    if k == 9 then []
    else if b[k] == Empty then
      var rest := EmptyCellsFrom(b, k + 1);
      assert forall p :: 0 <= p < |rest| ==> rest[p] in rest;
      [k as Cell] + rest
    else EmptyCellsFrom(b, k + 1)
  }

  /** The empty cells of the board in ascending order. */
  function EmptyCells(b: Grid): (r: seq<Cell>)
    ensures forall i: Cell :: i in r <==> b[i] == Empty
    ensures forall p, q :: 0 <= p < q < |r| ==> r[p] < r[q]
    ensures r == [] <==> Empty !in b
  {
    EmptyCellsFrom(b, 0)
  }

  /** Number of empty cells: the measure that every placement decreases. */
  function EmptyCount(b: Grid): nat
  {
    multiset(b)[Empty]
  }

  /** Placing a mark on an empty cell removes exactly one empty cell. */
  lemma PlaceDecreasesEmptyCount(b: Grid, i: Cell, m: Mark)
    requires b[i] == Empty && m != Empty
    ensures EmptyCount(b[i := m]) == EmptyCount(b) - 1
  {
  }

  /** No more empty cells than cells. */
  lemma EmptyCountAtMostNine(b: Grid)
    ensures EmptyCount(b) <= 9
    ensures EmptyCount(b) > 0 <==> Empty in b
  {
    CountAtMostLength(b, Empty);
  }

  lemma {:induction false} CountAtMostLength(s: seq<Mark>, x: Mark)
    ensures multiset(s)[x] <= |s|
    ensures multiset(s)[x] > 0 <==> x in s
  {
    if s != [] {
      CountAtMostLength(s[..|s| - 1], x);
      assert s == s[..|s| - 1] + [s[|s| - 1]];
    }
  }

  /** A finished position: somebody has a line, or no cell is empty. */
  predicate Terminal(b: Grid)
  {
    Winner(b).Some? || Empty !in b
  }
}
