/**
  What `get_ai_move` returns for each difficulty tier, as a function of the
  board, with `random.choice` replaced by an injected choice index.
 */
module Strategy {
  import opened Wrappers
  import opened Board
  import opened Search

  /** The four entries of the difficulty selector. */
  datatype Difficulty = Easy | Medium | Hard | Expert

  /**
    `random.choice(s)` driven by the injected number `choice`; None stands for
    the IndexError that `random.choice` raises on an empty list.
   */
  function RandomChoice(s: seq<Cell>, choice: nat): (r: Option<Cell>)
    ensures r.None? <==> s == []
    ensures r.Some? ==> r.value in s
  {
    if s == [] then None else Some(s[choice % |s|])
  }

  /** A choice below the length of the list picks the element at that position. */
  lemma RandomChoiceAt(s: seq<Cell>, k: nat)
    requires k < |s|
    ensures RandomChoice(s, k) == Some(s[k])
  {
    assert k % |s| == k;
  }

  /** Placing `m` on cell `i` makes `check_winner` report `m`. */
  predicate Completes(b: Grid, i: Cell, m: Mark)
  {
    Winner(b[i := m]) == Some(m)
  }

  /**
    One trial pass of `get_ai_move`: the first cell of `cells` on which placing
    `m` makes `m` the winner.
   */
  function FirstCompleting(b: Grid, m: Mark, cells: seq<Cell>): Option<Cell>
  {
    if cells == [] then None
    else if Completes(b, cells[0], m) then Some(cells[0])
    else FirstCompleting(b, m, cells[1..])
  }

  /** Cell `i` is the lowest empty cell on which `m` completes a line. */
  predicate LowestCompleting(b: Grid, m: Mark, i: Cell)
  {
    && b[i] == Empty
    && Completes(b, i, m)
    && forall k: Cell :: k < i && b[k] == Empty ==> !Completes(b, k, m)
  }

  lemma {:induction false} FirstCompletingInOrder(b: Grid, m: Mark, cells: seq<Cell>)
    requires forall p, q :: 0 <= p < q < |cells| ==> cells[p] < cells[q]
    ensures FirstCompleting(b, m, cells).None? <==> forall k :: k in cells ==> !Completes(b, k, m)
    ensures FirstCompleting(b, m, cells).Some? ==>
      var i := FirstCompleting(b, m, cells).value;
      i in cells && Completes(b, i, m) && forall k :: k in cells && k < i ==> !Completes(b, k, m)
  {
    if cells != [] {
      FirstCompletingInOrder(b, m, cells[1..]);
      assert forall k :: k in cells ==> k == cells[0] || k in cells[1..];
      assert forall k :: k in cells[1..] ==> cells[0] < k;
    }
  }

  /**
    A trial pass over the empty cells in ascending order finds exactly the
    lowest empty cell that completes a line for `m`, and finds nothing when
    no empty cell does.
   */
  lemma TrialPassFindsLowest(b: Grid, m: Mark, i: Cell)
    ensures FirstCompleting(b, m, EmptyCells(b)) == Some(i) <==> LowestCompleting(b, m, i)
    ensures FirstCompleting(b, m, EmptyCells(b)) == None <==>
      forall k: Cell :: b[k] == Empty ==> !Completes(b, k, m)
  {
    var cells := EmptyCells(b);
    FirstCompletingInOrder(b, m, cells);
    if LowestCompleting(b, m, i) {
      assert i in cells;
      var j := FirstCompleting(b, m, cells).value;
      assert j <= i;
      assert j >= i;
    }
  }

  /** Hard's positional preference: centre, corners, edges. */
  const Preference: seq<Cell> := [4, 0, 2, 6, 8, 1, 3, 5, 7]

  /** `for pos in preferred: if pos in empty: return pos` */
  function FirstIn(prefs: seq<Cell>, empty: seq<Cell>): Option<Cell>
  {
    if prefs == [] then None
    else if prefs[0] in empty then Some(prefs[0])
    else FirstIn(prefs[1..], empty)
  }

  /** Position `j` of the preference order is the first whose cell is empty. */
  predicate FirstPreferred(b: Grid, j: nat)
  {
    && j < |Preference|
    && b[Preference[j]] == Empty
    && forall p :: 0 <= p < j ==> b[Preference[p]] != Empty
  }

  lemma {:induction false} FirstInFromPosition(b: Grid, n: nat)
    requires n <= |Preference|
    requires forall p :: 0 <= p < n ==> b[Preference[p]] != Empty
    ensures FirstIn(Preference[n..], EmptyCells(b)).None? <==>
      forall p :: n <= p < |Preference| ==> b[Preference[p]] != Empty
    ensures FirstIn(Preference[n..], EmptyCells(b)).Some? ==>
      exists j :: n <= j && FirstPreferred(b, j) && FirstIn(Preference[n..], EmptyCells(b)) == Some(Preference[j])
    decreases |Preference| - n
  {
    if n < |Preference| {
      assert Preference[n..][1..] == Preference[n + 1..];
      if b[Preference[n]] == Empty {
        assert FirstPreferred(b, n);
      } else {
        FirstInFromPosition(b, n + 1);
      }
    }
  }

  /** The preference order lists every cell, so it finds one whenever the board is not full. */
  lemma PreferenceFindsFirstEmpty(b: Grid)
    requires Empty in b
    ensures exists j: nat :: FirstPreferred(b, j) && FirstIn(Preference, EmptyCells(b)) == Some(Preference[j])
  {
    FirstInFromPosition(b, 0);
    var k :| 0 <= k < 9 && b[k] == Empty;
    var p := match k
      case 0 => 1 case 1 => 5 case 2 => 2 case 3 => 6 case 4 => 0
      case 5 => 7 case 6 => 3 case 7 => 8 case _ => 4;
    assert Preference[p] == k;
    assert Preference[0..] == Preference;
  }

  /** The win-now pass, the block pass, then Hard's preference order or Medium's random choice. */
  function HeuristicMove(b: Grid, hard: bool, choice: nat): Option<Cell>
  {
    var empty := EmptyCells(b);
    var win := FirstCompleting(b, Ai, empty);
    if win.Some? then win
    else
      var block := FirstCompleting(b, Player, empty);
      if block.Some? then block
      else
        var preferred := FirstIn(Preference, empty);
        if hard && |empty| > 0 && preferred.Some? then preferred
        else RandomChoice(empty, choice)
  }

  /** `minimax_best_move`: the kept move, or `random.choice` over the empty cells when none was kept. */
  function ExpertMove(b: Grid, choice: nat): Option<Cell>
  {
    var best := BestMove(b);
    if best.Some? then best else RandomChoice(EmptyCells(b), choice)
  }

  /**
    `get_ai_move` for a difficulty tier; None where the source raises
    IndexError from `random.choice` on an empty list.
   */
  function SelectMove(b: Grid, difficulty: Difficulty, choice: nat): Option<Cell>
  {
    match difficulty
    case Easy => RandomChoice(EmptyCells(b), choice)
    case Medium => HeuristicMove(b, false, choice)
    case Hard => HeuristicMove(b, true, choice)
    case Expert => ExpertMove(b, choice)
  }

  /**
    Every tier returns an empty cell of the board, and fails exactly when no
    cell is empty.
   */
  lemma SelectMoveIsLegal(b: Grid, difficulty: Difficulty, choice: nat)
    ensures SelectMove(b, difficulty, choice).None? <==> Empty !in b
    ensures SelectMove(b, difficulty, choice).Some? ==> b[SelectMove(b, difficulty, choice).value] == Empty
  {
    var empty := EmptyCells(b);
    FirstCompletingInOrder(b, Ai, empty);
    FirstCompletingInOrder(b, Player, empty);
    if Empty in b {
      PreferenceFindsFirstEmpty(b);
    }
    if BestMove(b).Some? {
      BestMoveIsFirstBest(b, BestMove(b).value);
    }
  }

  /** Easy can return any empty cell, depending only on the random choice. */
  lemma EasyReachesEveryEmptyCell(b: Grid, i: Cell)
    requires b[i] == Empty
    ensures exists choice: nat :: SelectMove(b, Easy, choice) == Some(i)
  {
    var empty := EmptyCells(b);
    var k :| 0 <= k < |empty| && empty[k] == i;
    RandomChoiceAt(empty, k);
    assert SelectMove(b, Easy, k) == RandomChoice(empty, k);
    assert SelectMove(b, Easy, k) == Some(i);
  }

  /** Medium and Hard play the lowest empty cell that wins at once, whatever the random choice. */
  lemma MediumHardWinNow(b: Grid, difficulty: Difficulty, choice: nat, i: Cell)
    requires difficulty == Medium || difficulty == Hard
    requires LowestCompleting(b, Ai, i)
    ensures SelectMove(b, difficulty, choice) == Some(i)
  {
    TrialPassFindsLowest(b, Ai, i);
  }

  /**
    With no winning cell, Medium and Hard play the lowest empty cell on which
    the player would win.
   */
  lemma MediumHardBlock(b: Grid, difficulty: Difficulty, choice: nat, i: Cell)
    requires difficulty == Medium || difficulty == Hard
    requires forall k: Cell :: b[k] == Empty ==> !Completes(b, k, Ai)
    requires LowestCompleting(b, Player, i)
    ensures SelectMove(b, difficulty, choice) == Some(i)
  {
    TrialPassFindsLowest(b, Ai, i);
    TrialPassFindsLowest(b, Player, i);
  }

  /**
    When neither pass fires, Hard plays the first empty cell of the preference
    order and Medium plays the random choice among the empty cells.
   */
  lemma FallbackWhenNoPassFires(b: Grid, choice: nat)
    requires Empty in b
    requires forall k: Cell :: b[k] == Empty ==> !Completes(b, k, Ai) && !Completes(b, k, Player)
    ensures exists j: nat :: FirstPreferred(b, j) && SelectMove(b, Hard, choice) == Some(Preference[j])
    ensures SelectMove(b, Medium, choice) == RandomChoice(EmptyCells(b), choice)
  {
    TrialPassFindsLowest(b, Ai, 0);
    TrialPassFindsLowest(b, Player, 0);
    PreferenceFindsFirstEmpty(b);
  }

  /** Expert plays the lowest-index empty cell of maximal minimax score; no randomness is involved. */
  lemma ExpertIsFirstBest(b: Grid, choice: nat, i: Cell)
    requires Empty in b
    ensures SelectMove(b, Expert, choice) == Some(i) <==> FirstBest(b, i, 9)
  {
    BestMoveIsFirstBest(b, i);
  }

  /** Expert, too, completes a line when it can, at the lowest such cell. */
  lemma ExpertWinsNow(b: Grid, choice: nat, i: Cell)
    requires LowestCompleting(b, Ai, i)
    ensures SelectMove(b, Expert, choice) == Some(i)
  {
    ExpertTakesImmediateWin(b, i);
  }

  /** Hard opens in the centre on an empty board. */
  lemma HardOpensInCentre(b: Grid, choice: nat)
    requires forall k: Cell :: b[k] == Empty
    ensures SelectMove(b, Hard, choice) == Some(4)
  {
    forall k: Cell | b[k] == Empty
      ensures !Completes(b, k, Ai) && !Completes(b, k, Player)
    {
      LoneMarkNoWinner(b[k := Ai], k);
      LoneMarkNoWinner(b[k := Player], k);
    }
    assert b[4] == Empty;
    FallbackWhenNoPassFires(b, choice);
    assert FirstPreferred(b, 0);
  }

  /** With X on cells 0 and 1 and nothing else, Medium and Hard block at cell 2. */
  lemma BlocksTopRow(difficulty: Difficulty, choice: nat)
    requires difficulty == Medium || difficulty == Hard
    ensures SelectMove([X, X, Empty, Empty, Empty, Empty, Empty, Empty, Empty], difficulty, choice) == Some(2)
  {
    var b: Grid := [X, X, Empty, Empty, Empty, Empty, Empty, Empty, Empty];
    forall k: Cell | b[k] == Empty
      ensures !Completes(b, k, Ai)
    {
      WinnerNone(b[k := Ai]);
    }
    assert Completes(b, 2, Player);
    MediumHardBlock(b, difficulty, choice, 2);
  }

  /** With O on cells 0, 1, 3 and X on cell 4, Expert completes the top row at cell 2. */
  lemma ExpertCompletesTopRow(choice: nat)
    ensures SelectMove([O, O, Empty, O, X, Empty, Empty, Empty, Empty], Expert, choice) == Some(2)
  {
    var b: Grid := [O, O, Empty, O, X, Empty, Empty, Empty, Empty];
    assert Completes(b, 2, Ai);
    ExpertWinsNow(b, choice, 2);
  }
}
