/** The three heuristic estimates used to order the best-first frontier: the
    number of misplaced tiles, the Manhattan distance, and the heuristic H that
    adds three times the clockwise sequence score to the Manhattan distance. */
module Heuristics {
  import opened Boards
  import opened Moves

  /** The goal-position table of the Manhattan distance: the goal index of
      every non-blank goal tile; a lookup of any other value inserts and
      returns the default 0. */
  function GoalPosition(t: int): (r: nat)
    ensures r < 9
    ensures t != 0 && t in Goal ==> Goal[r] == t
  {
    if t != 0 && GoalIndex(t) < 9 then GoalIndex(t) else 0
  }

  /** The Manhattan distance of the tile in cell `i` from its goal cell; the
      blank contributes nothing. */
  function TileDistance(b: Board, i: int): nat
    requires 0 <= i < 9
  {
    if b[i] == 0 then 0
    else
      var g := GoalPosition(b[i]);
      Dist(i / 3, g / 3) + Dist(i % 3, g % 3)
  }

  /** The sum of the tile distances of cells 0 .. n - 1. */
  function ManDistBelow(b: Board, n: nat): nat
    requires n <= 9
  {
    if n == 0 then 0 else ManDistBelow(b, n - 1) + TileDistance(b, n - 1)
  }

  /** cManDist. */
  function ManhattanDistance(b: Board): nat {
    ManDistBelow(b, 9)
  }

  /** Cell `i` holds a tile, and not the goal's. */
  predicate Misplaced(b: Board, i: int)
    requires 0 <= i < 9
  {
    b[i] != Goal[i] && b[i] != 0
  }

  /** The number of misplaced tiles among cells 0 .. n - 1. */
  function MisplacedBelow(b: Board, n: nat): nat
    requires n <= 9
  {
    if n == 0 then 0 else MisplacedBelow(b, n - 1) + (if Misplaced(b, n - 1) then 1 else 0)
  }

  /** cTilesOutOfPlace. */
  function TilesOutOfPlace(b: Board): nat {
    MisplacedBelow(b, 9)
  }

  /** The cells of the outer ring in clockwise order, from the top-left
      corner. */
  const Ring: seq<int> := [0, 1, 2, 5, 8, 7, 6, 3]

  /** The tile that follows `t` clockwise in the goal: 8 wraps round to 1. */
  function GoalSuccessor(t: int): int {
    if t == 8 then 1 else t + 1
  }

  /** 2 when ring position `i` holds a tile whose clockwise neighbour is not
      its goal successor, else 0. */
  function RingPenalty(b: Board, i: int): nat
    requires 0 <= i < 8
  {
    var tile := b[Ring[i]];
    if tile == 0 then 0
    else if b[Ring[(i + 1) % 8]] != GoalSuccessor(tile) then 2
    else 0
  }

  /** The penalties of ring positions 0 .. n - 1. */
  function RingScoreBelow(b: Board, n: nat): nat
    requires n <= 8
  {
    if n == 0 then 0 else RingScoreBelow(b, n - 1) + RingPenalty(b, n - 1)
  }

  /** cSeqScore: 1 for a tile in the centre, plus the ring penalties. */
  function SequenceScore(b: Board): nat {
    (if b[4] != 0 then 1 else 0) + RingScoreBelow(b, 8)
  }

  /** cHeuristicH: the Manhattan distance plus three times the sequence
      score. */
  function HeuristicH(b: Board): (r: nat)
    ensures r >= ManhattanDistance(b) && r >= 3 * SequenceScore(b)
    ensures r % 3 == ManhattanDistance(b) % 3
  {
    ManhattanDistance(b) + 3 * SequenceScore(b)
  }

  // ---------------------------------------------------------------------------
  // The counting loops.

  /** cTilesOutOfPlace, as the loop over the nine cells. */
  method CountTilesOutOfPlace(b: Board) returns (count: int)
    ensures count == TilesOutOfPlace(b)
    ensures 0 <= count <= 9
  {
    count := 0;
    for i := 0 to 9
      invariant count == MisplacedBelow(b, i)
      invariant count <= i
    {
      if b[i] != Goal[i] && b[i] != 0 {
        count := count + 1;
      }
    }
  }

  /** cManDist, as the loop over the nine cells with the goal-position
      table. */
  method ComputeManhattanDistance(b: Board) returns (totalDistance: int)
    ensures totalDistance == ManhattanDistance(b)
    ensures 0 <= totalDistance <= 36
  {
    totalDistance := 0;
    for i := 0 to 9
      invariant totalDistance == ManDistBelow(b, i)
      invariant totalDistance <= 4 * i
    {
      var tile := b[i];
      if tile != 0 {
        var goalIndex := GoalPosition(tile);
        var goalRow, goalCol := goalIndex / 3, goalIndex % 3;
        var currentRow, currentCol := i / 3, i % 3;
        var distance := Dist(currentRow, goalRow) + Dist(currentCol, goalCol);
        assert distance == TileDistance(b, i);
        totalDistance := totalDistance + distance;
      }
      TileDistanceBound(b, i);
    }
  }

  /** cSeqScore, as the centre test followed by the loop round the ring. */
  method ComputeSequenceScore(b: Board) returns (score: int)
    ensures score == SequenceScore(b)
    ensures score % 2 == (if b[4] != 0 then 1 else 0)
    ensures 0 <= score <= 17
  {
    score := 0;
    if b[4] != 0 {
      score := score + 1;
    }
    var start := score;
    for i := 0 to 8
      invariant score == start + RingScoreBelow(b, i)
      invariant RingScoreBelow(b, i) <= 2 * i
      invariant RingScoreBelow(b, i) % 2 == 0
    {
      var tile := b[Ring[i]];
      if tile == 0 {
        continue;
      }
      var goalSuccessor := if tile == 8 then 1 else tile + 1;
      var neighbour := b[Ring[(i + 1) % 8]];
      if neighbour != goalSuccessor {
        score := score + 2;
      }
    }
  }

  /** cHeuristicH, from the two loops. */
  method ComputeHeuristicH(b: Board) returns (h: int)
    ensures h == HeuristicH(b)
    ensures 0 <= h <= 36 + 3 * 17
  {
    var d := ComputeManhattanDistance(b);
    var s := ComputeSequenceScore(b);
    h := d + 3 * s;
  }

  // ---------------------------------------------------------------------------
  // Bounds.

  /** Each tile lies at most four moves from its goal cell. */
  lemma TileDistanceBound(b: Board, i: int)
    requires 0 <= i < 9
    ensures TileDistance(b, i) <= 4
    ensures b[i] == 0 ==> TileDistance(b, i) == 0
  {
  }

  /** A tile in its goal cell is at distance 0; a misplaced tile of a board
      whose cells hold 0..8 is at distance at least 1. */
  lemma TileDistanceMisplaced(b: Board, i: int)
    requires 0 <= i < 9
    ensures !Misplaced(b, i) ==> TileDistance(b, i) == 0
    ensures Misplaced(b, i) && 0 <= b[i] < 9 ==> 1 <= TileDistance(b, i)
  {
    if b[i] == Goal[i] && b[i] != 0 {
      GoalIndexAt(i);
    }
    if Misplaced(b, i) && 0 <= b[i] < 9 {
      GoalHolds(b[i]);
      var g := GoalPosition(b[i]);
      assert Goal[g] == b[i];
      assert g != i;
      assert g == 3 * (g / 3) + g % 3 && i == 3 * (i / 3) + i % 3;
    }
  }

  lemma {:induction false} MisplacedBelowBound(b: Board, n: nat, z: int)
    requires n <= 9 && 0 <= z < 9 && b[z] == 0
    ensures MisplacedBelow(b, n) <= if z < n then n - 1 else n
    decreases n
  {
    if n > 0 {
      MisplacedBelowBound(b, n - 1, z);
    }
  }

  /** On a well-formed board at most the eight tiles can be misplaced. */
  lemma TilesOutOfPlaceBound(b: Board)
    requires IsPerm(b)
    ensures TilesOutOfPlace(b) <= 8
  {
    PermBlank(b);
    MisplacedBelowBound(b, 9, FindBlankIndex(b));
  }

  lemma {:induction false} ManDistBelowBetween(b: Board, n: nat)
    requires n <= 9
    requires forall i :: 0 <= i < 9 ==> 0 <= b[i] < 9
    ensures MisplacedBelow(b, n) <= ManDistBelow(b, n) <= 4 * MisplacedBelow(b, n)
    decreases n
  {
    if n > 0 {
      ManDistBelowBetween(b, n - 1);
      TileDistanceMisplaced(b, n - 1);
      TileDistanceBound(b, n - 1);
    }
  }

  /** On a well-formed board every misplaced tile adds between 1 and 4 to the
      Manhattan distance, and every other cell nothing. */
  lemma ManhattanBetween(b: Board)
    requires IsPerm(b)
    ensures TilesOutOfPlace(b) <= ManhattanDistance(b) <= 4 * TilesOutOfPlace(b)
  {
    PermCells(b);
    ManDistBelowBetween(b, 9);
  }

  /** The Manhattan distance of a well-formed board is at most 32. */
  lemma ManhattanBound(b: Board)
    requires IsPerm(b)
    ensures ManhattanDistance(b) <= 32
  {
    ManhattanBetween(b);
    TilesOutOfPlaceBound(b);
  }

  // ---------------------------------------------------------------------------
  // The sequence score.

  lemma {:induction false} RingScoreBelowShape(b: Board, n: nat, j: int)
    requires n <= 8 && 0 <= j < 8 && b[Ring[j]] == 0
    ensures RingScoreBelow(b, n) % 2 == 0
    ensures RingScoreBelow(b, n) <= if j < n then 2 * (n - 1) else 2 * n
    decreases n
  {
    if n > 0 {
      RingScoreBelowShape(b, n - 1, j);
    }
  }

  lemma {:induction false} RingScoreBelowEven(b: Board, n: nat)
    requires n <= 8
    ensures RingScoreBelow(b, n) % 2 == 0
    ensures RingScoreBelow(b, n) <= 2 * n
    decreases n
  {
    if n > 0 {
      RingScoreBelowEven(b, n - 1);
    }
  }

  /** The sequence score is odd exactly when the centre holds a tile. */
  lemma SequenceScoreParity(b: Board)
    ensures SequenceScore(b) % 2 == (if b[4] != 0 then 1 else 0)
    ensures SequenceScore(b) <= 17
  {
    RingScoreBelowEven(b, 8);
  }

  /** The ring cell that holds the blank of a board whose blank is not in the
      centre. */
  lemma BlankOnRing(b: Board) returns (j: int)
    requires IsPerm(b) && b[4] != 0
    ensures 0 <= j < 8 && b[Ring[j]] == 0
  {
    PermBlank(b);
    var z := FindBlankIndex(b);
    j := if z == 0 then 0 else if z == 1 then 1 else if z == 2 then 2
      else if z == 5 then 3 else if z == 8 then 4 else if z == 7 then 5
      else if z == 6 then 6 else 7;
  }

  /** On a well-formed board the sequence score is at most 16: with the blank
      in the centre only the ring scores, and otherwise the ring holds the
      blank, which scores nothing. */
  lemma SequenceScoreBound(b: Board)
    requires IsPerm(b)
    ensures SequenceScore(b) <= 16
  {
    if b[4] != 0 {
      var j := BlankOnRing(b);
      RingScoreBelowShape(b, 8, j);
    } else {
      RingScoreBelowEven(b, 8);
    }
  }

  // ---------------------------------------------------------------------------
  // The goal scores zero, and only the goal.

  lemma {:induction false} MisplacedBelowZero(b: Board, n: nat)
    requires n <= 9
    ensures MisplacedBelow(b, n) == 0 <==> forall i :: 0 <= i < n ==> !Misplaced(b, i)
    decreases n
  {
    if n > 0 {
      MisplacedBelowZero(b, n - 1);
    }
  }

  /** A well-formed board whose tiles all sit in their goal cells is the
      goal: the blank has nowhere else to be. */
  lemma NoneMisplacedIsGoal(b: Board)
    requires IsPerm(b)
    requires forall i :: 0 <= i < 9 ==> !Misplaced(b, i)
    ensures b == Goal
  {
    PermBlank(b);
    var z := FindBlankIndex(b);
    assert !Misplaced(b, 4) && Goal[4] == 0;
    assert z == 4;
    forall i | 0 <= i < 9
      ensures b[i] == Goal[i]
    {
      assert !Misplaced(b, i);
    }
  }

  /** On a well-formed board no tile is misplaced exactly at the goal. */
  lemma TilesOutOfPlaceZero(b: Board)
    requires IsPerm(b)
    ensures TilesOutOfPlace(b) == 0 <==> b == Goal
  {
    MisplacedBelowZero(b, 9);
    if TilesOutOfPlace(b) == 0 {
      NoneMisplacedIsGoal(b);
    }
    if b == Goal {
      assert forall i :: 0 <= i < 9 ==> !Misplaced(b, i);
    }
  }

  /** On a well-formed board the Manhattan distance is 0 exactly at the
      goal. */
  lemma ManhattanZero(b: Board)
    requires IsPerm(b)
    ensures ManhattanDistance(b) == 0 <==> b == Goal
  {
    ManhattanBetween(b);
    TilesOutOfPlaceZero(b);
  }

  /** Each tile of the goal is followed clockwise by its goal successor. */
  lemma GoalRingPenalties(i: int)
    requires 0 <= i < 8
    ensures RingPenalty(Goal, i) == 0
  {
  }

  lemma {:induction false} GoalRingScoreBelow(n: nat)
    requires n <= 8
    ensures RingScoreBelow(Goal, n) == 0
    decreases n
  {
    if n > 0 {
      GoalRingScoreBelow(n - 1);
      GoalRingPenalties(n - 1);
    }
  }

  /** The goal has the blank in the centre and every tile followed clockwise
      by its successor, so its sequence score is 0. */
  lemma GoalSequenceScore()
    ensures SequenceScore(Goal) == 0
  {
    GoalRingScoreBelow(8);
  }

  /** On a well-formed board the heuristic H is 0 exactly at the goal. */
  lemma HeuristicHZero(b: Board)
    requires IsPerm(b)
    ensures HeuristicH(b) == 0 <==> b == Goal
  {
    ManhattanZero(b);
    if b == Goal {
      GoalSequenceScore();
    }
  }

  /** All three estimates of a well-formed board, and their bounds. */
  lemma HeuristicBounds(b: Board)
    requires IsPerm(b)
    ensures TilesOutOfPlace(b) <= 8 && ManhattanDistance(b) <= 32
    ensures SequenceScore(b) <= 16 && HeuristicH(b) <= 32 + 3 * 16
  {
    TilesOutOfPlaceBound(b);
    ManhattanBound(b);
    SequenceScoreBound(b);
  }
}
