/** Puzzle boards: the nine cells of the 3x3 grid in row-major order, 0 being
    the blank, together with the state comparison operators, the blank lookup
    and the goal test. */
module Boards {

  /** The `board` array of a puzzle state. The `g`, `h`, `f`, `blankX` and
      `blankY` annotations of the state take no part in its identity and are
      not part of this type. */
  type Board = b: seq<int> | |b| == 9 witness [0, 0, 0, 0, 0, 0, 0, 0, 0]

  /** The fixed goal configuration. */
  const Goal: Board := [1, 2, 3, 8, 0, 4, 7, 6, 5]

  /** A well-formed board: each of 0..8 occurs exactly once. */
  predicate IsPerm(b: Board) {
    multiset(b) == multiset{0, 1, 2, 3, 4, 5, 6, 7, 8}
  }

  /** The first index at or after `i` where `s` holds `t`, or `|s|` when there
      is none (the contract of std::find). */
  function IndexOf(s: seq<int>, t: int, i: nat): (r: nat)
    requires i <= |s|
    ensures i <= r <= |s|
    ensures r < |s| ==> s[r] == t
    ensures forall k :: i <= k < r ==> s[k] != t
    decreases |s| - i
  {
    if i == |s| then |s| else if s[i] == t then i else IndexOf(s, t, i + 1)
  }

  /** The index of the blank: the least index holding 0, or -1 when no cell
      holds 0. */
  function FindBlankIndex(b: Board): (r: int)
    ensures -1 <= r < 9
    ensures r == -1 <==> 0 !in b
    ensures 0 <= r ==> b[r] == 0 && forall k :: 0 <= k < r ==> b[k] != 0
  {
    var k := IndexOf(b, 0, 0);
    if k == 9 then -1 else k
  }

  /** Where std::find locates `t` in the goal: its index there, or 9 when the
      goal does not hold `t`. */
  function GoalIndex(t: int): (r: nat)
    ensures r <= 9
    ensures r < 9 <==> t in Goal
    ensures r < 9 ==> Goal[r] == t
  {
    IndexOf(Goal, t, 0)
  }

  /** The state equality operator: a cell-by-cell comparison. */
  function Equal(a: Board, b: Board): (r: bool)
    ensures r <==> a == b
  {
    EqualFrom(a, b, 0)
  }

  function EqualFrom(a: Board, b: Board, i: nat): (r: bool)
    requires i <= 9
    ensures r <==> forall k :: i <= k < 9 ==> a[k] == b[k]
    decreases 9 - i
  {
    i == 9 || (a[i] == b[i] && EqualFrom(a, b, i + 1))
  }

  /** The state less-than operator: lexicographic on the cells. */
  function Less(a: Board, b: Board): bool {
    LessFrom(a, b, 0)
  }

  function LessFrom(a: Board, b: Board, i: nat): bool
    requires i <= 9
    decreases 9 - i
  {
    if i == 9 then false else if a[i] != b[i] then a[i] < b[i] else LessFrom(a, b, i + 1)
  }

  /** The goal test: a cell-wise comparison with the goal. */
  function IsGoalState(b: Board): (r: bool)
    ensures r <==> b == Goal
  {
    Equal(b, Goal)
  }

  // ---------------------------------------------------------------------------
  // The same comparisons as the loops over the nine cells.

  /** findBlankIndex: the first cell holding 0, or -1. */
  method FindBlank(b: Board) returns (r: int)
    ensures r == FindBlankIndex(b)
  {
    for i := 0 to 9
      invariant forall k :: 0 <= k < i ==> b[k] != 0
    {
      if b[i] == 0 {
        return i;
      }
    }
    return -1;
  }

  /** operator==: false at the first cell that differs. */
  method EqualCells(a: Board, b: Board) returns (r: bool)
    ensures r <==> a == b
  {
    for i := 0 to 9
      invariant forall k :: 0 <= k < i ==> a[k] == b[k]
    {
      if a[i] != b[i] {
        return false;
      }
    }
    assert forall k :: 0 <= k < 9 ==> a[k] == b[k];
    return true;
  }

  /** operator<: decided by the first cell that differs. */
  method LessCells(a: Board, b: Board) returns (r: bool)
    ensures r == Less(a, b)
  {
    for i := 0 to 9
      invariant forall k :: 0 <= k < i ==> a[k] == b[k]
      invariant LessFrom(a, b, i) == Less(a, b)
    {
      if a[i] != b[i] {
        return a[i] < b[i];
      }
    }
    return false;
  }

  /** isGoalState: false at the first cell that differs from the goal. */
  method CheckGoal(b: Board) returns (r: bool)
    ensures r == IsGoalState(b)
  {
    for i := 0 to 9
      invariant forall k :: 0 <= k < i ==> b[k] == Goal[k]
    {
      if b[i] != Goal[i] {
        return false;
      }
    }
    assert forall k :: 0 <= k < 9 ==> b[k] == Goal[k];
    return true;
  }

  // ---------------------------------------------------------------------------
  // The ordering is a strict total order on boards, so a set or map keyed by it
  // holds one entry per distinct board.

  lemma {:induction false} LessFromIrreflexive(a: Board, i: nat)
    requires i <= 9
    ensures !LessFrom(a, a, i)
    decreases 9 - i
  {
    if i < 9 {
      LessFromIrreflexive(a, i + 1);
    }
  }

  /** No board is less than itself. */
  lemma LessIrreflexive(a: Board)
    ensures !Less(a, a)
  {
    LessFromIrreflexive(a, 0);
  }

  lemma {:induction false} LessFromTransitive(a: Board, b: Board, c: Board, i: nat)
    requires i <= 9
    requires LessFrom(a, b, i) && LessFrom(b, c, i)
    ensures LessFrom(a, c, i)
    decreases 9 - i
  {
    if a[i] == b[i] && b[i] == c[i] {
      LessFromTransitive(a, b, c, i + 1);
    }
  }

  /** The ordering is transitive. */
  lemma LessTransitive(a: Board, b: Board, c: Board)
    requires Less(a, b) && Less(b, c)
    ensures Less(a, c)
  {
    LessFromTransitive(a, b, c, 0);
  }

  lemma {:induction false} LessFromTrichotomous(a: Board, b: Board, i: nat)
    requires i <= 9
    ensures (forall k :: i <= k < 9 ==> a[k] == b[k]) ==> !LessFrom(a, b, i) && !LessFrom(b, a, i)
    ensures !(forall k :: i <= k < 9 ==> a[k] == b[k]) ==> LessFrom(a, b, i) != LessFrom(b, a, i)
    decreases 9 - i
  {
    if i < 9 {
      LessFromTrichotomous(a, b, i + 1);
    }
  }

  /** For any two boards exactly one of a < b, b < a and a == b holds. */
  lemma LessTrichotomous(a: Board, b: Board)
    ensures a == b ==> !Less(a, b) && !Less(b, a)
    ensures a != b ==> Less(a, b) != Less(b, a)
  {
    LessFromTrichotomous(a, b, 0);
    if a != b {
      assert !(forall k :: 0 <= k < 9 ==> a[k] == b[k]);
    }
  }

  // ---------------------------------------------------------------------------
  // Facts about well-formed boards.

  /** Every cell of a well-formed board holds a value in 0..8. */
  lemma PermCells(b: Board)
    requires IsPerm(b)
    ensures forall i :: 0 <= i < 9 ==> 0 <= b[i] < 9
  {
    forall i | 0 <= i < 9
      ensures 0 <= b[i] < 9
    {
      assert b[i] in multiset(b);
    }
  }

  /** A value held at two indices occurs at least twice in the multiset. */
  lemma RepeatedValue(s: seq<int>, lo: int, hi: int)
    requires 0 <= lo < hi < |s| && s[lo] == s[hi]
    ensures multiset(s)[s[lo]] >= 2
  {
    var v := s[lo];
    var before, between, after := s[..lo], s[lo + 1..hi], s[hi + 1..];
    assert s == before + [v] + between + [v] + after;
    assert multiset(s) == multiset(before) + multiset{v} + multiset(between) + multiset{v} + multiset(after);
  }

  /** The cells of a well-formed board hold pairwise distinct values. */
  lemma PermDistinct(b: Board, i: int, j: int)
    requires IsPerm(b) && 0 <= i < 9 && 0 <= j < 9 && i != j
    ensures b[i] != b[j]
  {
    if b[i] == b[j] {
      PermCells(b);
      var v := b[i];
      if i < j { RepeatedValue(b, i, j); } else { RepeatedValue(b, j, i); }
    }
  }

  /** A well-formed board has exactly one blank, which the lookup finds. */
  lemma PermBlank(b: Board)
    requires IsPerm(b)
    ensures 0 in b
    ensures 0 <= FindBlankIndex(b) < 9
    ensures forall k :: 0 <= k < 9 ==> (b[k] == 0 <==> k == FindBlankIndex(b))
  {
    assert 0 in multiset(b);
    forall k | 0 <= k < 9
      ensures b[k] == 0 <==> k == FindBlankIndex(b)
    {
      if k != FindBlankIndex(b) {
        PermDistinct(b, k, FindBlankIndex(b));
      }
    }
  }

  /** The goal is well formed. */
  lemma GoalIsPerm()
    ensures IsPerm(Goal)
  {
    assert multiset(Goal) == multiset{1, 2, 3, 8, 0, 4, 7, 6, 5};
  }

  /** std::find locates every value 0..8 in the goal, each goal tile at its own
      index. */
  lemma GoalIndexFacts()
    ensures forall i :: 0 <= i < 9 ==> GoalIndex(Goal[i]) == i
    ensures forall t :: 0 <= t < 9 ==> GoalIndex(t) < 9
  {
    forall i | 0 <= i < 9
      ensures GoalIndex(Goal[i]) == i
    {
      GoalIndexAt(i);
    }
    forall t | 0 <= t < 9
      ensures GoalIndex(t) < 9
    {
      GoalHolds(t);
    }
  }

  lemma GoalIndexAt(i: int)
    requires 0 <= i < 9
    ensures GoalIndex(Goal[i]) == i
  {
  }

  lemma GoalHolds(t: int)
    requires 0 <= t < 9
    ensures t in Goal
  {
  }
}
