/** The solvability gate: the parity of the number of tile pairs whose order on
    the board is the reverse of their order in the goal. */
module Solvability {
  import opened Boards
  import opened Moves

  /** 1 when `u`, placed before `v`, is a pair of tiles that the goal orders
      the other way round, else 0. */
  function Inverted(u: int, v: int): nat {
    if u != 0 && v != 0 && GoalIndex(u) > GoalIndex(v) then 1 else 0
  }

  /** The number of values in `s` that form an inverted pair with `u` placed
      before them. */
  function CountInverted(u: int, s: seq<int>): nat {
    if s == [] then 0 else Inverted(u, s[0]) + CountInverted(u, s[1..])
  }

  /** The number of inverted pairs (i, j), i < j, of `s`: the nested loop of
      the solvability check. */
  function Inversions(s: seq<int>): nat {
    if s == [] then 0 else CountInverted(s[0], s[1..]) + Inversions(s[1..])
  }

  /** isSolvable: the number of inversions is even. */
  function IsSolvable(b: Board): bool {
    Inversions(b) % 2 == 0
  }

  /** isSolvable, as the nested loop over the pairs i < j, each looking both
      tiles up in the goal. */
  method CheckSolvable(b: Board) returns (r: bool)
    ensures r == IsSolvable(b)
    ensures r <==> Inversions(b) % 2 == 0
  {
    var inversions := 0;
    for i := 0 to 9
      invariant inversions + Inversions(b[i..]) == Inversions(b)
    {
      assert b[i..][1..] == b[i + 1..];
      for j := i + 1 to 9
        invariant inversions + CountInverted(b[i], b[j..]) + Inversions(b[i + 1..]) == Inversions(b)
      {
        assert b[j..][1..] == b[j + 1..];
        var posI := GoalIndex(b[i]);
        var posJ := GoalIndex(b[j]);
        if b[i] != 0 && b[j] != 0 && posI > posJ {
          inversions := inversions + 1;
        }
      }
    }
    r := inversions % 2 == 0;
  }

  // ---------------------------------------------------------------------------
  // An exchange of neighbouring entries changes the count only through the pair
  // itself.

  function SwapNext(s: seq<int>, p: nat): seq<int>
    requires p + 1 < |s|
  {
    s[p := s[p + 1]][p + 1 := s[p]]
  }

  lemma {:induction false} CountSwapNext(u: int, s: seq<int>, p: nat)
    requires p + 1 < |s|
    ensures CountInverted(u, SwapNext(s, p)) == CountInverted(u, s)
    decreases p
  {
    var t := SwapNext(s, p);
    if p == 0 {
      assert t[1..][1..] == s[1..][1..];
    } else {
      CountSwapNext(u, s[1..], p - 1);
      assert t[1..] == SwapNext(s[1..], p - 1);
    }
  }

  /** Exchanging entries p and p + 1 trades the inversion of that pair for the
      inversion of the reversed pair and leaves every other pair alone. */
  lemma {:induction false} SwapNextInversions(s: seq<int>, p: nat)
    requires p + 1 < |s|
    ensures Inversions(SwapNext(s, p)) + Inverted(s[p], s[p + 1]) == Inversions(s) + Inverted(s[p + 1], s[p])
    decreases p
  {
    var t := SwapNext(s, p);
    if p == 0 {
      var rest := s[2..];
      assert s[1..] == [s[1]] + rest && t[1..] == [s[0]] + rest;
      assert s[1..][1..] == rest && t[1..][1..] == rest;
    } else {
      SwapNextInversions(s[1..], p - 1);
      assert t[1..] == SwapNext(s[1..], p - 1);
      CountSwapNext(s[0], s[1..], p - 1);
    }
  }

  /** Two distinct tiles form an inverted pair in exactly one of their two
      orders. */
  lemma InvertedOneWay(u: int, v: int)
    requires 0 < u < 9 && 0 < v < 9 && u != v
    ensures Inverted(u, v) + Inverted(v, u) == 1
  {
    GoalIndexFacts();
    assert Goal[GoalIndex(u)] == u && Goal[GoalIndex(v)] == v;
  }

  /** Moving the blank down from `p` (the tile three cells on moves up over the
      two cells between) changes the number of inversions by -2, 0 or 2. */
  lemma VerticalMoveParity(b: Board, p: int)
    requires IsPerm(b) && 0 <= p && p + 3 < 9 && b[p] == 0
    ensures Inversions(Swap(b, p, p + 3)) % 2 == Inversions(b) % 2
  {
    PermCells(b);
    PermDistinct(b, p, p + 1);
    PermDistinct(b, p, p + 2);
    PermDistinct(b, p, p + 3);
    PermDistinct(b, p + 1, p + 3);
    PermDistinct(b, p + 2, p + 3);
    TileJumpParity(b, p);
  }

  lemma TileJumpParity(b: seq<int>, p: int)
    requires |b| == 9 && 0 <= p && p + 3 < 9 && b[p] == 0
    requires 0 < b[p + 1] < 9 && 0 < b[p + 2] < 9 && 0 < b[p + 3] < 9
    requires b[p + 3] != b[p + 1] && b[p + 3] != b[p + 2]
    ensures Inversions(Swap(b, p, p + 3)) % 2 == Inversions(b) % 2
  {
    var x, y, t := b[p + 1], b[p + 2], b[p + 3];
    // The blank walks right three times, then the tile walks left twice.
    var b1 := SwapNext(b, p);
    var b2 := SwapNext(b1, p + 1);
    var b3 := SwapNext(b2, p + 2);
    var b4 := SwapNext(b3, p + 1);
    var b5 := SwapNext(b4, p);
    WalkCells(b, p);
    SwapNextInversions(b, p);
    SwapNextInversions(b1, p + 1);
    SwapNextInversions(b2, p + 2);
    SwapNextInversions(b3, p + 1);
    SwapNextInversions(b4, p);
    InvertedOneWay(y, t);
    InvertedOneWay(x, t);
    assert Inverted(0, x) == 0 && Inverted(x, 0) == 0;
    assert Inverted(0, y) == 0 && Inverted(y, 0) == 0;
    assert Inverted(0, t) == 0 && Inverted(t, 0) == 0;
    EvenShift(Inversions(b), Inversions(b5), Inverted(y, t), Inverted(t, y), Inverted(x, t), Inverted(t, x));
  }

  lemma EvenShift(i0: int, i5: int, a: int, a': int, c: int, c': int)
    requires a + a' == 1 && c + c' == 1
    requires i5 + a + c == i0 + a' + c'
    ensures i5 % 2 == i0 % 2
  {
  }

  /** The five exchanges of neighbours used above: which values they exchange,
      and that together they exchange cells p and p + 3. */
  lemma WalkCells(b: seq<int>, p: int)
    requires |b| == 9 && 0 <= p && p + 3 < 9
    ensures var b1 := SwapNext(b, p);
      var b2 := SwapNext(b1, p + 1);
      var b3 := SwapNext(b2, p + 2);
      var b4 := SwapNext(b3, p + 1);
      b1[p] == b[p + 1] && b1[p + 1] == b[p] &&
      b2[p + 1] == b[p + 2] && b2[p + 2] == b[p] &&
      b3[p + 2] == b[p + 3] && b3[p + 3] == b[p] &&
      b3[p + 1] == b[p + 2] &&
      b4[p] == b[p + 1] && b4[p + 1] == b[p + 3] &&
      SwapNext(b4, p) == Swap(b, p, p + 3)
  {
    var b1 := SwapNext(b, p);
    var b2 := SwapNext(b1, p + 1);
    var b3 := SwapNext(b2, p + 2);
    var b4 := SwapNext(b3, p + 1);
    assert forall k :: 0 <= k < 9 ==> SwapNext(b4, p)[k] == Swap(b, p, p + 3)[k];
  }

  /** Moving the blank sideways leaves the order of the tiles, and so the
      number of inversions, unchanged. */
  lemma SideMoveInversions(b: Board, p: int)
    requires 0 <= p && p + 1 < 9 && (b[p] == 0 || b[p + 1] == 0)
    ensures Inversions(Swap(b, p, p + 1)) == Inversions(b)
    ensures Swap(b, p + 1, p) == Swap(b, p, p + 1)
  {
    SwapNextInversions(b, p);
    assert SwapNext(b, p) == Swap(b, p, p + 1);
  }

  /** No move of the blank changes the answer of the solvability check. */
  lemma MovePreservesSolvability(b: Board, s: Board)
    requires IsPerm(b) && Step(b, s)
    ensures IsSolvable(s) == IsSolvable(b)
  {
    var z := FindBlankIndex(b);
    PermBlank(b);
    SuccessorIsMove(b, s);
    var n :| 0 <= n < 9 && Adjacent(z, n) && s == Swap(b, z, n);
    AdjacentMoveParity(b, n);
  }

  lemma AdjacentMoveParity(b: Board, n: int)
    requires IsPerm(b) && 0 <= FindBlankIndex(b) && 0 <= n < 9
    requires Adjacent(FindBlankIndex(b), n)
    ensures IsSolvable(Swap(b, FindBlankIndex(b), n)) == IsSolvable(b)
  {
    AdjacentOffset(FindBlankIndex(b), n);
    MoveParity(b, n);
  }

  lemma MoveParity(b: Board, n: int)
    requires IsPerm(b) && 0 <= FindBlankIndex(b) && 0 <= n < 9
    requires n - FindBlankIndex(b) in Offsets
    ensures Inversions(Swap(b, FindBlankIndex(b), n)) % 2 == Inversions(b) % 2
  {
    var z := FindBlankIndex(b);
    if n == z + 1 || n == z - 1 {
      SideMoveParity(b, n);
    } else {
      UpDownMoveParity(b, n);
    }
  }

  lemma SideMoveParity(b: Board, n: int)
    requires 0 <= FindBlankIndex(b) && 0 <= n < 9
    requires n == FindBlankIndex(b) + 1 || n == FindBlankIndex(b) - 1
    ensures Inversions(Swap(b, FindBlankIndex(b), n)) == Inversions(b)
  {
    var z := FindBlankIndex(b);
    if n == z + 1 {
      SideMoveInversions(b, z);
    } else {
      SideMoveInversions(b, n);
    }
  }

  lemma UpDownMoveParity(b: Board, n: int)
    requires IsPerm(b) && 0 <= FindBlankIndex(b) && 0 <= n < 9
    requires n == FindBlankIndex(b) + 3 || n == FindBlankIndex(b) - 3
    ensures Inversions(Swap(b, FindBlankIndex(b), n)) % 2 == Inversions(b) % 2
  {
    var z := FindBlankIndex(b);
    if n == z + 3 {
      VerticalMoveParity(b, z);
    } else {
      var s := Swap(b, z, n);
      SwapPerm(b, z, n);
      SwapTwice(b, z, n);
      VerticalMoveParity(s, n);
    }
  }

  /** Every board reachable from a well-formed board by moves of the blank gets
      the same answer from the solvability check. */
  lemma {:induction false} ChainPreservesSolvability(p: seq<Board>)
    requires |p| > 0 && IsPerm(p[0]) && IsChain(p)
    ensures IsSolvable(p[|p| - 1]) == IsSolvable(p[0])
    ensures IsPerm(p[|p| - 1])
    decreases |p|
  {
    if |p| > 1 {
      var q := p[..|p| - 1];
      assert IsChain(q);
      ChainPreservesSolvability(q);
      assert Step(q[|q| - 1], p[|p| - 1]);
      MovePreservesSolvability(q[|q| - 1], p[|p| - 1]);
      SuccessorPerm(q[|q| - 1], p[|p| - 1]);
    }
  }

  // ---------------------------------------------------------------------------
  // The two reference boards.

  lemma {:induction false} NoInversionsInGoalOrder(i: nat)
    requires i <= 9
    ensures Inversions(Goal[i..]) == 0
    decreases 9 - i
  {
    if i < 9 {
      NoInversionsInGoalOrder(i + 1);
      GoalIndexFacts();
      NoneAfter(i, i + 1);
      assert Goal[i..][1..] == Goal[i + 1..];
    }
  }

  lemma {:induction false} NoneAfter(i: nat, j: nat)
    requires i < j <= 9
    ensures CountInverted(Goal[i], Goal[j..]) == 0
    decreases 9 - j
  {
    if j < 9 {
      NoneAfter(i, j + 1);
      GoalIndexAt(i);
      GoalIndexAt(j);
      assert Inverted(Goal[i], Goal[j]) == 0;
      assert Goal[j..][1..] == Goal[j + 1..];
    }
  }

  /** The goal has no inversions and passes the check. */
  lemma GoalIsSolvable()
    ensures Inversions(Goal) == 0 && IsSolvable(Goal)
  {
    NoInversionsInGoalOrder(0);
    assert Goal[0..] == Goal;
  }

  /** The goal orders its first two tiles, 1 and 2, the goal's way. */
  lemma GoalFirstPair()
    ensures Goal[0] == 1 && Goal[1] == 2
    ensures Inverted(Goal[0], Goal[1]) == 0 && Inverted(Goal[1], Goal[0]) == 1
  {
    GoalIndexAt(0);
    GoalIndexAt(1);
  }

  lemma SwapFirstPair()
    ensures SwapNext(Goal, 0) == Swap(Goal, 0, 1)
  {
  }

  /** Exchanging the first two entries, with the values of their inversion
      indicators in either order named `a` and `c`. */
  lemma ShiftByFirstPair(s: seq<int>, a: nat, c: nat)
    requires |s| >= 2
    requires a == Inverted(s[0], s[1]) && c == Inverted(s[1], s[0])
    ensures Inversions(SwapNext(s, 0)) + a == Inversions(s) + c
  {
    SwapNextInversions(s, 0);
  }

  lemma CountShift(x: int, y: int, a: int, c: int)
    requires x + a == y + c && y == 0 && a == 0 && c == 1
    ensures x == 1
  {
  }

  /** The goal with its first two tiles exchanged (the board
      [2, 1, 3, 8, 0, 4, 7, 6, 5], see Moves.SwappedGoalCells) has exactly one
      inversion and fails the check. */
  lemma SwappedTilesUnsolvable()
    ensures Inversions(Swap(Goal, 0, 1)) == 1
    ensures !IsSolvable(Swap(Goal, 0, 1))
  {
    var a, c := Inverted(Goal[0], Goal[1]), Inverted(Goal[1], Goal[0]);
    ShiftByFirstPair(Goal, a, c);
    GoalFirstPair();
    GoalIsSolvable();
    SwapFirstPair();
    CountShift(Inversions(Swap(Goal, 0, 1)), Inversions(Goal), a, c);
  }
}
