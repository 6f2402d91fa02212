/** The move generator: the boards one blank move away from a given board, and
    the chains of such moves that the searches return. */
module Moves {
  import opened Boards

  /** The blank offsets the generator tries, in order: up, down, left, right. */
  const Offsets: seq<int> := [-3, 3, -1, 1]

  /** The generator's test for moving the blank at `z` by `d`: the new index
      must lie on the board, and a left or right move must not wrap to
      another row. */
  predicate Legal(z: int, d: int) {
    0 <= z + d < 9 && !((d == -1 && z % 3 == 0) || (d == 1 && z % 3 == 2))
  }

  /** Two cells of the 3x3 grid share a side. */
  predicate Adjacent(i: int, j: int)
    requires 0 <= i < 9 && 0 <= j < 9
  {
    Dist(i / 3, j / 3) + Dist(i % 3, j % 3) == 1
  }

  function Dist(x: int, y: int): nat {
    if x < y then y - x else x - y
  }

  /** The board with cells `i` and `j` exchanged. */
  function Swap(b: Board, i: int, j: int): (r: Board)
    requires 0 <= i < 9 && 0 <= j < 9
    ensures multiset(r) == multiset(b)
  {
    b[i := b[j]][j := b[i]]
  }

  /** The boards produced for the offsets `ds`, in the order of `ds`. */
  function Candidates(b: Board, z: int, ds: seq<int>): seq<Board>
    requires 0 <= z < 9
  {
    if ds == [] then []
    else
      var d := ds[|ds| - 1];
      Candidates(b, z, ds[..|ds| - 1]) + if Legal(z, d) then [Swap(b, z, z + d)] else []
  }

  /** What the generator returns for a board that has a blank. */
  function Successors(b: Board): seq<Board>
    requires 0 in b
  {
    Candidates(b, FindBlankIndex(b), Offsets)
  }

  /** `c` is one move away from `a`. */
  predicate Step(a: Board, c: Board) {
    0 in a && c in Successors(a)
  }

  /** Each board of `p` is one move away from the one before it. */
  predicate IsChain(p: seq<Board>) {
    forall i :: 0 <= i < |p| - 1 ==> Step(p[i], p[i + 1])
  }

  /** getPossibleMoves: a copy of the board per legal offset, with the blank
      exchanged with the cell at that offset. */
  method GetPossibleMoves(b: Board) returns (moves: seq<Board>)
    requires 0 in b
    ensures moves == Successors(b)
  {
    var z := FindBlankIndex(b);
    moves := [];
    for k := 0 to |Offsets|
      invariant moves == Candidates(b, z, Offsets[..k])
    {
      CandidatesNext(b, z, k);
      var d := Offsets[k];
      var n := z + d;
      if 0 <= n < 9 {
        if (d == -1 && z % 3 == 0) || (d == 1 && z % 3 == 2) {
          continue;
        }
        var cells := new int[9](i requires 0 <= i < 9 => b[i]);
        cells[n], cells[z] := cells[z], cells[n];
        assert cells[..] == Swap(b, z, n);
        moves := moves + [cells[..]];
      }
    }
    assert Offsets[..|Offsets|] == Offsets;
  }

  /** One more offset: its board, if the move is legal, follows the boards
      of the offsets before it. */
  lemma CandidatesNext(b: Board, z: int, k: nat)
    requires 0 <= z < 9 && k < |Offsets|
    ensures Candidates(b, z, Offsets[..k + 1]) ==
      Candidates(b, z, Offsets[..k]) + if Legal(z, Offsets[k]) then [Swap(b, z, z + Offsets[k])] else []
  {
    assert Offsets[..k + 1][..k] == Offsets[..k];
  }

  // ---------------------------------------------------------------------------
  // What the generator produces.

  /** The offset and row-wrap test accepts exactly the moves of the blank to a
      cell that shares a side with it. */
  lemma LegalIsAdjacent(z: int, d: int)
    requires 0 <= z < 9 && d in Offsets
    ensures Legal(z, d) <==> 0 <= z + d < 9 && Adjacent(z, z + d)
  {
  }

  /** Cells sharing a side lie one of the generator's offsets apart. */
  lemma AdjacentOffset(z: int, n: int)
    requires 0 <= z < 9 && 0 <= n < 9 && Adjacent(z, n)
    ensures n - z in Offsets
  {
  }

  /** Exchanging the blank with a cell that shares a side with it gives a
      successor. */
  lemma MoveIsSuccessor(b: Board, n: int)
    requires 0 in b && 0 <= n < 9 && Adjacent(FindBlankIndex(b), n)
    ensures Swap(b, FindBlankIndex(b), n) in Successors(b)
  {
    var z := FindBlankIndex(b);
    AdjacentOffset(z, n);
    LegalIsAdjacent(z, n - z);
    UnfoldSuccessors(b);
    var d := n - z;
    assert n == z + d;
    if d == -3 {
      assert Legal(z, -3);
    } else if d == 3 {
      assert Legal(z, 3);
    } else if d == -1 {
      assert Legal(z, -1);
    } else {
      assert Legal(z, 1);
    }
  }

  /** Every successor exchanges the blank with a cell that shares a side with
      it. */
  lemma SuccessorIsMove(b: Board, s: Board)
    requires 0 in b && s in Successors(b)
    ensures exists n :: 0 <= n < 9 && Adjacent(FindBlankIndex(b), n) && s == Swap(b, FindBlankIndex(b), n)
  {
    var z := FindBlankIndex(b);
    var d := CandidateOffset(b, z, Offsets, s);
    LegalIsAdjacent(z, d);
    assert 0 <= z + d < 9 && Adjacent(z, z + d) && s == Swap(b, z, z + d);
  }

  /** Each candidate comes from one of the offsets tried, for which the move
      is legal. */
  lemma {:induction false} CandidateOffset(b: Board, z: int, ds: seq<int>, s: Board) returns (d: int)
    requires 0 <= z < 9 && s in Candidates(b, z, ds)
    ensures d in ds && Legal(z, d) && s == Swap(b, z, z + d)
    decreases |ds|
  {
    var init := ds[..|ds| - 1];
    var last := ds[|ds| - 1];
    if s in Candidates(b, z, init) {
      d := CandidateOffset(b, z, init, s);
      assert d in ds by {
        var i :| 0 <= i < |init| && init[i] == d;
        assert ds[i] == d;
      }
    } else {
      d := last;
    }
  }

  /** The successors are exactly the boards obtained by exchanging the blank
      with a cell that shares a side with it. */
  lemma SuccessorsAreMoves(b: Board, s: Board)
    requires 0 in b
    ensures var z := FindBlankIndex(b);
      s in Successors(b) <==> exists n :: 0 <= n < 9 && Adjacent(z, n) && s == Swap(b, z, n)
  {
    var z := FindBlankIndex(b);
    if exists n :: 0 <= n < 9 && Adjacent(z, n) && s == Swap(b, z, n) {
      var n :| 0 <= n < 9 && Adjacent(z, n) && s == Swap(b, z, n);
      MoveIsSuccessor(b, n);
    }
    if s in Successors(b) {
      SuccessorIsMove(b, s);
    }
  }

  /** The generator's output written out offset by offset. */
  lemma UnfoldSuccessors(b: Board)
    requires 0 in b
    ensures var z := FindBlankIndex(b);
      Successors(b) ==
        (if Legal(z, -3) then [Swap(b, z, z - 3)] else []) +
        (if Legal(z, 3) then [Swap(b, z, z + 3)] else []) +
        (if Legal(z, -1) then [Swap(b, z, z - 1)] else []) +
        (if Legal(z, 1) then [Swap(b, z, z + 1)] else [])
  {
    var z := FindBlankIndex(b);
    assert [-3][..0] == [];
    assert [-3, 3][..1] == [-3];
    assert [-3, 3, -1][..2] == [-3, 3];
    assert Offsets[..3] == [-3, 3, -1];
    assert Candidates(b, z, [-3]) == (if Legal(z, -3) then [Swap(b, z, z - 3)] else []);
    assert Candidates(b, z, [-3, 3]) == Candidates(b, z, [-3]) + (if Legal(z, 3) then [Swap(b, z, z + 3)] else []);
    assert Candidates(b, z, [-3, 3, -1]) == Candidates(b, z, [-3, 3]) + (if Legal(z, -1) then [Swap(b, z, z - 1)] else []);
  }

  /** A blank in a corner gives two successors, on the middle of an edge
      three, and in the centre four. */
  lemma SuccessorCount(b: Board)
    requires 0 in b
    ensures var z := FindBlankIndex(b);
      |Successors(b)| == if z == 4 then 4 else if z % 2 == 1 then 3 else 2
  {
    UnfoldSuccessors(b);
  }

  /** Exchanging two cells keeps a board well formed. */
  lemma SwapPerm(b: Board, i: int, j: int)
    requires IsPerm(b) && 0 <= i < 9 && 0 <= j < 9
    ensures IsPerm(Swap(b, i, j))
  {
  }

  /** Exchanging the same two cells again restores the board. */
  lemma SwapTwice(b: Board, i: int, j: int)
    requires 0 <= i < 9 && 0 <= j < 9
    ensures Swap(Swap(b, i, j), j, i) == b
  {
    assert forall k :: 0 <= k < 9 ==> Swap(Swap(b, i, j), j, i)[k] == b[k];
  }

  /** Exchanging two cells that hold different values changes exactly those
      two cells. */
  lemma SwapChanges(b: Board, i: int, j: int)
    requires 0 <= i < 9 && 0 <= j < 9 && b[i] != b[j]
    ensures (set k | 0 <= k < 9 && b[k] != Swap(b, i, j)[k]) == {i, j}
  {
    var s := Swap(b, i, j);
    forall k | 0 <= k < 9
      ensures b[k] != s[k] <==> k == i || k == j
    {
    }
  }

  lemma AdjacentSymmetric(i: int, j: int)
    requires 0 <= i < 9 && 0 <= j < 9 && Adjacent(i, j)
    ensures Adjacent(j, i)
  {
  }

  /** Exchanging the blank of a well-formed board with a neighbouring cell
      keeps the board well formed, moves the blank to that cell, changes
      exactly those two cells, and is undone by the reverse exchange. */
  lemma MoveShape(b: Board, n: int)
    requires IsPerm(b) && 0 <= n < 9
    requires 0 <= FindBlankIndex(b) && Adjacent(FindBlankIndex(b), n)
    ensures var z, s := FindBlankIndex(b), Swap(b, FindBlankIndex(b), n);
      IsPerm(s) && FindBlankIndex(s) == n && z != n &&
      (set k | 0 <= k < 9 && b[k] != s[k]) == {z, n} &&
      Swap(s, n, z) == b
  {
    var z := FindBlankIndex(b);
    var s := Swap(b, z, n);
    SwapPerm(b, z, n);
    PermBlank(s);
    assert s[n] == 0;
    PermDistinct(b, z, n);
    SwapChanges(b, z, n);
    SwapTwice(b, z, n);
  }

  /** No move leaves a well-formed board as it was. */
  lemma NoSelfStep(b: Board)
    requires IsPerm(b)
    ensures !Step(b, b)
  {
    if Step(b, b) {
      SuccessorFacts(b, b);
    }
  }

  /** A successor of a well-formed board is well formed. */
  lemma SuccessorPerm(b: Board, s: Board)
    requires IsPerm(b) && Step(b, s)
    ensures IsPerm(s)
  {
    var z := FindBlankIndex(b);
    PermBlank(b);
    SuccessorIsMove(b, s);
    var n :| 0 <= n < 9 && Adjacent(z, n) && s == Swap(b, z, n);
    SwapPerm(b, z, n);
  }

  /** A successor of a well-formed board is well formed, differs from it in
      exactly the two cells where the two blanks are, and has the board among
      its own successors. */
  lemma SuccessorFacts(b: Board, s: Board)
    requires IsPerm(b) && Step(b, s)
    ensures IsPerm(s)
    ensures 0 <= FindBlankIndex(b) < 9 && 0 <= FindBlankIndex(s) < 9
    ensures FindBlankIndex(b) != FindBlankIndex(s)
    ensures (set k | 0 <= k < 9 && b[k] != s[k]) == {FindBlankIndex(b), FindBlankIndex(s)}
    ensures Step(s, b)
  {
    var z := FindBlankIndex(b);
    PermBlank(b);
    SuccessorIsMove(b, s);
    var n :| 0 <= n < 9 && Adjacent(z, n) && s == Swap(b, z, n);
    MoveShape(b, n);
    assert FindBlankIndex(s) == n;
    AdjacentSymmetric(z, n);
    MoveIsSuccessor(s, z);
    assert Swap(s, n, z) == b;
  }

  /** The goal with its first two tiles exchanged, written out. */
  lemma SwappedGoalCells()
    ensures Swap(Goal, 0, 1) == [2, 1, 3, 8, 0, 4, 7, 6, 5]
  {
    var g: seq<int> := [1, 2, 3, 8, 0, 4, 7, 6, 5];
    assert Goal == g;
    assert g[0 := g[1]][1 := g[0]] == [2, 1, 3, 8, 0, 4, 7, 6, 5];
  }
}
