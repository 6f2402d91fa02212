# 8-puzzle solver, modelled in Dafny

This project models the core of a console 8-puzzle solver, `functions.h`.
A board is nine cells in row-major order. Cell value 0 is the blank, and the
goal board is `1 2 3 / 8 0 4 / 7 6 5`. The solver does four things:

- it tests whether a board can reach the goal, using inversion parity relative to that goal;
- it scores boards with three heuristics: tiles out of place, Manhattan distance, and the composite `H = Manhattan + 3 * sequence score`;
- it generates the moves of the blank;
- it searches for the goal three ways: depth-first with a stack, breadth-first with a queue, and greedy best-first with a priority queue.

The modules follow the source:

- `Boards` (`boards.dfy`): the board type, `operator==` and `operator<` as loops, `findBlankIndex`, `isGoalState`. Lemmas show the order is a strict total order, which is what `std::set` and `std::map` need. Other lemmas cover permutations of 0..8.
- `Moves` (`moves.dfy`): `getPossibleMoves` as a loop proved equal to a successor function. Lemmas state the move geometry, the successor count by blank position, reversibility, and that successors stay permutations.
- `Solvability` (`solvability.dfy`): `isSolvable` as its nested loop. Lemmas show every move keeps inversion parity, so every chain of moves keeps solvability. The goal is solvable, and the goal with tiles 1 and 2 exchanged is not.
- `Heuristics` (`heuristics.dfy`): the three heuristic loops, proved equal to recursive definitions. Lemmas give their bounds, the parity of the sequence score, and that each is zero exactly on the goal.
- `Search` (`search.dfy`): depth-first and breadth-first search as loops over a `seq` frontier, a `set` of visited boards and a `map` of recorded parents, with the source's last-writer-wins parent updates.
  - A ghost rank records when each board was expanded. The backtrace loop terminates because a parent always has a lower rank than its child.
  - The searches terminate because the visited set grows inside the finite set of nine-cell sequences over 0..8, and otherwise the frontier shrinks.
  - Both searches return a path from the start to the goal exactly when one exists. They return `[start]` on a goal start, and no board is expanded twice.
- `BestFirst` (`bestfirst.dfy`): best-first search.
  - Frontier entries are (board, path) pairs ordered by the source's comparator. The top entry is any entry that no other entry precedes; the model chooses it nondeterministically.
  - The search reproduces the source's result shape, which is recorded under Findings. A corrected wrapper returns a proper path.

## Model

| member | source | states |
|---|---|---|
| Boards.IndexOf | functions.h:182-183 | the `find` over the goal: the first index at or after `i` holding `t`, or the length when `t` does not occur |
| Boards.FindBlankIndex | functions.h:93-100 | -1 exactly when no cell is 0; otherwise a cell holding 0 with no 0 before it |
| Boards.FindBlank | functions.h:93-100 | the loop returns the least blank index, or -1 |
| Boards.GoalIndex | functions.h:182-183 | the goal position of a tile: below 9 exactly when the tile is in the goal, and the goal holds the tile there |
| Boards.Equal | functions.h:78-85 | cell-wise equality holds exactly when the two boards are equal |
| Boards.EqualFrom | functions.h:79-84 | the comparison from cell `i` holds exactly when all cells from `i` on agree |
| Boards.EqualCells | functions.h:78-89 | the `operator==` loop returns true exactly when the boards are equal (and `!=` is its negation) |
| Boards.LessCells | functions.h:69-76 | the `operator<` loop returns the lexicographic order on cells |
| Boards.Less | functions.h:69-76 | `operator<` as a definition: the order of the first differing cell, false on equal boards |
| Boards.LessFrom | functions.h:70-75 | the loop of `operator<` from cell `i` on: false past the last cell, the cell order at the first difference, else the next cell |
| Boards.LessFromIrreflexive | functions.h:70-75 | no suffix of a board is below itself |
| Boards.LessIrreflexive | functions.h:69-76 | no board is below itself |
| Boards.LessFromTransitive | functions.h:70-75 | the suffix order is transitive |
| Boards.LessTransitive | functions.h:69-76 | `<` is transitive |
| Boards.LessFromTrichotomous | functions.h:70-75 | equal suffixes are unordered, and of two different suffixes exactly one is below the other |
| Boards.LessTrichotomous | functions.h:69-76 | exactly one of `a < b`, `b < a`, `a == b` holds |
| Boards.IsGoalState | functions.h:106-113 | true exactly on the goal board |
| Boards.CheckGoal | functions.h:106-113 | the loop returns true exactly on the goal board |
| Boards.PermCells | functions.h:34-35 | every cell of a permutation of 0..8 lies in 0..8 |
| Boards.RepeatedValue | functions.h:34-35 | proof helper (multiset fact): a value at two positions occurs at least twice; used to show the cells of a permutation distinct |
| Boards.PermDistinct | functions.h:34-35 | the cells of a permutation are pairwise different |
| Boards.PermBlank | functions.h:93-100 | on a permutation the blank lookup gives the unique index in [0,9) holding 0 |
| Boards.GoalIsPerm | functions.h:17 | the goal is a permutation of 0..8 |
| Boards.GoalIndexFacts | functions.h:182-183 | goal lookup inverts indexing into the goal, and every value 0..8 is found |
| Boards.GoalIndexAt | functions.h:182-183 | the tile at goal index `i` is found at `i` |
| Boards.GoalHolds | functions.h:17 | every value 0..8 occurs in the goal |
| Moves.Swap | functions.h:248-249 | the swap keeps the multiset of cells |
| Moves.Legal | functions.h:244-246 | the generator's test for offset `d` from blank cell `z`: the target lies in 0..8, and neither a left move from column 0 nor a right move from column 2 |
| Moves.Candidates | functions.h:241-253 | the boards the loop pushes for a list of offsets, in list order: the swap of the blank with `z + d` for each offset `d` that passes the test |
| Moves.Successors | functions.h:235-256 | what `getPossibleMoves` returns: the candidates for the offsets -3, 3, -1, 1 (up, down, left, right) from the blank's index |
| Moves.Step | functions.h:235-256 | `c` is one move from `a`: `a` has a blank and `c` is among its generated boards |
| Moves.GetPossibleMoves | functions.h:235-256 | the loop returns exactly the successor sequence: offsets -3, 3, -1, 1 in order, each kept only when legal |
| Moves.CandidatesNext | functions.h:241-253 | one more offset appends that offset's swap when it is legal, and nothing otherwise |
| Moves.LegalIsAdjacent | functions.h:244-246 | an offset passes the bounds and wrap checks exactly when the target cell is inside the grid and orthogonally adjacent to the blank |
| Moves.AdjacentOffset | functions.h:238 | the difference between two adjacent cells is one of the four offsets |
| Moves.MoveIsSuccessor | functions.h:235-256 | swapping the blank with any adjacent cell gives a successor |
| Moves.SuccessorIsMove | functions.h:235-256 | every successor swaps the blank with an adjacent cell |
| Moves.CandidateOffset | functions.h:241-252 | every generated board comes from a legal offset of the list |
| Moves.SuccessorsAreMoves | functions.h:235-256 | a board is a successor exactly when it is the blank swapped with an adjacent cell |
| Moves.UnfoldSuccessors | functions.h:238-253 | the successor sequence is the up, down, left and right swaps, each present exactly when its check passes |
| Moves.SuccessorCount | functions.h:241-253 | a corner blank gives 2 successors, an edge blank 3, and the centre 4 |
| Moves.SwapPerm | functions.h:248-249 | a swap of a permutation is a permutation |
| Moves.SwapTwice | functions.h:249 | swapping the same two cells twice restores the board |
| Moves.SwapChanges | functions.h:248-249 | swapping two different values changes exactly those two cells |
| Moves.AdjacentSymmetric | functions.h:244-246 | adjacency is symmetric |
| Moves.MoveShape | functions.h:248-249 | after a move the board is a permutation with the blank at the target cell, it differs in exactly two cells, and swapping back restores the input |
| Moves.NoSelfStep | functions.h:248-249 | no board of a permutation is its own successor |
| Moves.SuccessorPerm | functions.h:248-251 | successors of a permutation are permutations |
| Moves.SuccessorFacts | functions.h:235-256 | a successor is a permutation, moves the blank, differs in exactly the two blank cells, and has the input among its own successors |
| Moves.SwappedGoalCells | functions.h:17 | the goal with cells 0 and 1 exchanged is `2 1 3 8 0 4 7 6 5` |
| Solvability.CheckSolvable | functions.h:178-190 | the nested loop accepts exactly when the number of inverted non-blank pairs, by goal position, is even |
| Solvability.Inverted | functions.h:184 | 1 when both tiles are non-blank and the first one's goal position is after the second's, else 0 |
| Solvability.CountInverted | functions.h:181-186 | the inner loop: how many later values form an inverted pair with tile `u` |
| Solvability.Inversions | functions.h:180-188 | both loops: the number of inverted pairs i < j |
| Solvability.IsSolvable | functions.h:178-190 | the verdict: the inversion count is even |
| Solvability.CountSwapNext | functions.h:180-186 | a tile's inversion count against a sequence ignores an exchange of two neighbours in it |
| Solvability.SwapNextInversions | functions.h:180-186 | exchanging neighbours changes the inversion count only by their own pair |
| Solvability.InvertedOneWay | functions.h:184 | two different non-blank tiles are inverted in exactly one order |
| Solvability.VerticalMoveParity | functions.h:178-190 | moving the blank down a row keeps inversion parity on permutations |
| Solvability.TileJumpParity | functions.h:180-186 | a tile jumping over two distinct tiles keeps inversion parity |
| Solvability.EvenShift | functions.h:180-186 | proof helper (arithmetic): two unit changes of opposite sign leave parity unchanged; a step of the vertical-move parity proof |
| Solvability.WalkCells | functions.h:249 | proof helper (sequence rewrite): exchanging cells `p` and `p + 3` equals five exchanges of neighbours; a step of the vertical-move parity proof |
| Solvability.SideMoveInversions | functions.h:180-186 | a sideways move of the blank leaves the inversion count unchanged |
| Solvability.MovePreservesSolvability | functions.h:178-190 | every move keeps the solvability verdict |
| Solvability.AdjacentMoveParity | functions.h:178-190 | swapping the blank with an adjacent cell keeps the verdict |
| Solvability.MoveParity | functions.h:178-190 | any of the four offset moves keeps inversion parity |
| Solvability.SideMoveParity | functions.h:178-190 | a left or right move keeps the inversion count |
| Solvability.UpDownMoveParity | functions.h:178-190 | an up or down move keeps inversion parity |
| Solvability.ChainPreservesSolvability | functions.h:178-190 | the end of a chain of moves from a permutation is a permutation with the same verdict as its start |
| Solvability.NoInversionsInGoalOrder | functions.h:180-186 | every suffix of the goal has no inversions |
| Solvability.NoneAfter | functions.h:182-184 | no tile of the goal is inverted with a later tile |
| Solvability.GoalIsSolvable | functions.h:178-190 | the goal has 0 inversions and is solvable |
| Solvability.GoalFirstPair | functions.h:17 | proof helper: the goal starts 1, 2, which are not inverted; a step of the unsolvable-example proof |
| Solvability.SwapFirstPair | functions.h:249 | proof helper (sequence rewrite): exchanging the first neighbours of the goal is the cell swap 0, 1; a step of the unsolvable-example proof |
| Solvability.ShiftByFirstPair | functions.h:180-186 | exchanging the first two entries changes the inversion count by their pair |
| Solvability.CountShift | functions.h:178-190 | proof helper (arithmetic): the count of the swapped goal is 1; a step of the unsolvable-example proof |
| Solvability.SwappedTilesUnsolvable | functions.h:178-190 | `2 1 3 8 0 4 7 6 5` has 1 inversion and is not solvable |
| Heuristics.GoalPosition | functions.h:126-131 | the goal-position map: below 9, and the goal holds each non-blank goal tile there |
| Heuristics.TileDistance | functions.h:134-142 | the row distance plus the column distance of the tile in cell `i` from its goal cell; 0 for the blank |
| Heuristics.ManDistBelow | functions.h:133-145 | the running total of the Manhattan loop after cells 0 .. n - 1 |
| Heuristics.ManhattanDistance | functions.h:124-148 | `cManDist`: the total over all nine cells |
| Heuristics.Misplaced | functions.h:162 | cell `i` holds a tile that differs from the goal's tile there |
| Heuristics.MisplacedBelow | functions.h:160-165 | the running count of the loop after cells 0 .. n - 1 |
| Heuristics.TilesOutOfPlace | functions.h:159-167 | `cTilesOutOfPlace`: the count over all nine cells |
| Heuristics.GoalSuccessor | functions.h:214 | the tile expected clockwise after `t`: `t + 1`, with 8 wrapping to 1 |
| Heuristics.RingPenalty | functions.h:209-219 | 2 when ring position `i` (ring cells 0, 1, 2, 5, 8, 7, 6, 3) holds a tile whose clockwise neighbour is not its successor; 0 for the blank or a matching neighbour |
| Heuristics.RingScoreBelow | functions.h:210-220 | the penalties of ring positions 0 .. n - 1, the loop's running total |
| Heuristics.SequenceScore | functions.h:202-222 | `cSeqScore`: 1 when the centre holds a tile, plus the penalties of all eight ring positions |
| Heuristics.HeuristicH | functions.h:103 | H is at least the Manhattan distance and at least 3 times the sequence score, and agrees with the Manhattan distance modulo 3 |
| Heuristics.ComputeHeuristicH | functions.h:103 | the Manhattan loop plus 3 times the sequence loop give H, within [0, 87] |
| Heuristics.CountTilesOutOfPlace | functions.h:159-167 | the loop counts the non-blank cells that differ from the goal, within [0, 9] |
| Heuristics.ComputeManhattanDistance | functions.h:124-148 | the loop sums the per-tile row plus column distances to the goal position, within [0, 36] |
| Heuristics.ComputeSequenceScore | functions.h:202-222 | the loop gives the sequence score: odd exactly when the centre is non-blank, within [0, 17] |
| Heuristics.TileDistanceBound | functions.h:135-142 | a tile is at most 4 moves from its goal cell, and the blank counts 0 |
| Heuristics.TileDistanceMisplaced | functions.h:135-142 | a tile in place has distance 0, and a misplaced tile of 1..8 has distance at least 1 |
| Heuristics.MisplacedBelowBound | functions.h:161-165 | the blank never counts as misplaced |
| Heuristics.TilesOutOfPlaceBound | functions.h:159-167 | on a permutation at most 8 tiles are out of place |
| Heuristics.ManDistBelowBetween | functions.h:133-145 | a prefix's Manhattan sum lies between its misplaced count and 4 times it |
| Heuristics.ManhattanBetween | functions.h:124-148 | on a permutation, tiles out of place ≤ Manhattan distance ≤ 4 × tiles out of place |
| Heuristics.ManhattanBound | functions.h:124-148 | on a permutation the Manhattan distance is at most 32 |
| Heuristics.RingScoreBelowShape | functions.h:209-220 | ring penalties are even, and the blank's ring cell contributes none |
| Heuristics.RingScoreBelowEven | functions.h:209-220 | the ring part of the score is even and at most 2 per cell |
| Heuristics.SequenceScoreParity | functions.h:202-222 | the sequence score is odd exactly when the centre is non-blank, and at most 17 |
| Heuristics.BlankOnRing | functions.h:206-212 | on a permutation with a non-blank centre the blank is on the ring |
| Heuristics.SequenceScoreBound | functions.h:202-222 | on a permutation the sequence score is at most 16 |
| Heuristics.MisplacedBelowZero | functions.h:161-165 | a prefix count is 0 exactly when no cell of the prefix is misplaced |
| Heuristics.NoneMisplacedIsGoal | functions.h:159-167 | a permutation with no misplaced tile is the goal |
| Heuristics.TilesOutOfPlaceZero | functions.h:159-167 | on a permutation, 0 tiles out of place exactly on the goal |
| Heuristics.ManhattanZero | functions.h:124-148 | on a permutation, Manhattan distance 0 exactly on the goal |
| Heuristics.GoalRingPenalties | functions.h:214-218 | on the goal every ring cell is followed by its successor |
| Heuristics.GoalRingScoreBelow | functions.h:209-220 | the ring part of the score is 0 on the goal |
| Heuristics.GoalSequenceScore | functions.h:202-222 | the sequence score of the goal is 0 |
| Heuristics.HeuristicHZero | functions.h:103 | on a permutation, H is 0 exactly on the goal |
| Heuristics.HeuristicBounds | functions.h:103 | on a permutation: tiles out of place ≤ 8, Manhattan ≤ 32, sequence score ≤ 16, H ≤ 80 |
| Search.PathReaches | functions.h:280-288 | a chain of moves from a board to another witnesses reachability |
| Search.ClosedHoldsChains | functions.h:290-301 | a chain starting in a set closed under moves stays in it |
| Search.ClosedUnreachable | functions.h:304 | nothing outside a closed set is reachable from inside it |
| Search.ReachesGoalSolvable | functions.h:178-190 | a permutation that reaches the goal is solvable |
| Search.CellsInCellSeqs | functions.h:276 | every sequence over 0..8 lies in the finite set bounding the search |
| Search.PermInCellSeqs | functions.h:276 | every permutation lies in that finite set |
| Search.Reverse | functions.h:286 | the reversal has the same length and mirrors the indices |
| Search.ReverseBackChain | functions.h:282-286 | reversing a goal-to-start chain of parent links gives a chain of moves |
| Search.ParentStep | functions.h:298 | a recorded parent was expanded earlier, moves to its child, and is the start or has a parent itself |
| Search.BackChainExtend | functions.h:282-284 | following one more parent link keeps the backward chain |
| Search.ReversedPath | functions.h:282-286 | the backward chain plus the start, reversed, runs from the start to the goal; it is `[start]` when the goal is the start |
| Search.Backtrace | functions.h:281-287 | the backtrace loop terminates and returns a path from the start to the goal, `[start]` when they coincide, every board of it but the goal an expanded one |
| Search.ReversedParents | functions.h:282-286 | the boards collected after the goal, and the start, are expanded, so every board of the reversed path but the goal is |
| Search.TraceGoal | functions.h:280-288 | popping the goal: the traced path runs from the start to the goal, and every board of it but the goal was expanded |
| Search.VisitedExpanded | functions.h:290-291 | visited boards are exactly the expanded ones |
| Search.Unvisited | functions.h:295-300 | the children pushed are exactly the unvisited children |
| Search.Recorded | functions.h:295-300 | the parent map after the pushes: the unvisited children gain the expanded board as parent, overwriting any earlier one (last writer wins), and every other entry is kept |
| Search.AppendAssoc | functions.h:295-300 | proof helper (sequence rewrite): concatenation is associative; used where the pushes extend the frontier |
| Search.PushChildren | functions.h:295-300 | the loop appends the unvisited children in order and records the parent of each |
| Search.ExpandOnce | functions.h:290-291 | marking a new board visited keeps every expanded board expanded once |
| Search.SearchInvInit | functions.h:274 | the frontier holding only the start satisfies the search invariant |
| Search.PopKeeps | functions.h:290 | popping an already-visited board keeps the invariant |
| Search.ExpandFrontier | functions.h:293-300 | after expansion every frontier board is a permutation and the start or a board with a parent |
| Search.ExpandParents | functions.h:290-300 | after expansion every parent link still steps forward and decreases in rank |
| Search.NewParentsCover | functions.h:298 | after expansion every visited board is the start or has a parent |
| Search.NewParentsStep | functions.h:298 | every new parent link is a move from a visited board |
| Search.NewParentsRank | functions.h:298 | every parent has a lower rank than its child |
| Search.ExpandClosed | functions.h:290-300 | after expansion every move from a visited board leads to a visited or frontier board |
| Search.ExpandKeeps | functions.h:290-301 | expanding an unvisited non-goal board keeps the whole invariant |
| Search.PoppedFacts | functions.h:277-278 | a popped board is a permutation, the start or has a parent, and what it left behind keeps the frontier facts |
| Search.ExpandRecord | functions.h:290-291 | the expansion order gains the new board at the next rank |
| Search.ExpandStart | functions.h:290-291 | the start stays visited or on the frontier |
| Search.PoppedBoard | functions.h:277-278 | a popped board is a permutation with a blank, the start or has a parent, and visiting it shrinks the termination measure |
| Search.Exhausted | functions.h:304 | when the frontier is empty the goal is unreachable from the start |
| Search.Expand | functions.h:290-301 | expansion keeps the invariant and shrinks the termination measure |
| Search.Visit | functions.h:277-301 | one iteration returns a path exactly when the popped board is the goal; otherwise it keeps the invariant and makes progress |
| Search.Advance | functions.h:290-301 | a non-goal pop keeps the invariant and makes progress |
| Search.PopLast | functions.h:277-278 | popping the top of the stack splits the frontier into top and rest |
| Search.PopFirst | functions.h:326-327 | popping the front of the queue splits the frontier into front and rest |
| Search.DepthFirstSearch | functions.h:268-305 | a non-empty result is a chain of moves from the start to the goal, each board before the goal an expanded one; on a goal start it is `[start]`; it is empty exactly when the goal is unreachable, and then the start was expanded and every move from an expanded board leads to an expanded board; no board is expanded twice |
| Search.BreadthFirstSearch | functions.h:317-354 | the same properties for the queue-based search |
| BestFirst.ComparatorIsScore | functions.h:371-381 | the comparator puts `a` after `b` exactly when `a` has the higher score |
| BestFirst.Comparator | functions.h:371-381 | the lambda: for types 1, 2 and 3, `a` comes after `b` when its `g` plus misplaced count, Manhattan distance or H is larger; any other type orders nothing |
| BestFirst.Score | functions.h:374-378 | the value the lambda compares: `g` plus the chosen heuristic, or 0 for another type |
| BestFirst.IsTop | functions.h:391 | entry `k` can be `top()`: no entry of the queue precedes it |
| BestFirst.ComparatorIgnoresG | functions.h:374-378 | with one shared g, over unbounded integers, the order is by heuristic value alone |
| BestFirst.ComparatorStrictWeakOrder | functions.h:371-382 | the comparator is irreflexive and transitive, and incomparability is transitive |
| BestFirst.TopExists | functions.h:391 | every non-empty frontier has a top entry that no other entry precedes |
| BestFirst.ChildEntries | functions.h:404-409 | the new entries are exactly the unvisited children, each with the parent path plus itself |
| BestFirst.ChildEntriesNext | functions.h:404-409 | one more child appends its entry exactly when it is unvisited |
| BestFirst.PushEntries | functions.h:404-409 | the loop appends exactly those entries in child order |
| BestFirst.PopTop | functions.h:391-392 | the popped entry is a top entry, and the rest is the frontier without it |
| BestFirst.RemoveAt | functions.h:392 | removing entry `k` leaves the entries and boards of the other positions |
| BestFirst.RemoveBoardAt | functions.h:392 | the boards of the frontier are the removed board plus the boards of the rest |
| BestFirst.BoardsOfAppend | functions.h:408 | the boards of a concatenation are the boards of its parts |
| BestFirst.ChainExtend | functions.h:406-407 | a chain plus a successor of its last board is a chain |
| BestFirst.ChildEntriesOk | functions.h:404-409 | every pushed entry has a well-formed path from the start |
| BestFirst.ChildEntryOk | functions.h:406-408 | a child's entry ends with the child and the start followed by its path is a chain |
| BestFirst.BestInvInit | functions.h:388 | the root entry with an empty path satisfies the invariant |
| BestFirst.PoppedEntryOk | functions.h:391-392 | a popped entry has a well-formed path |
| BestFirst.BestPopKeeps | functions.h:399 | popping a visited board keeps the invariant |
| BestFirst.BestExpandFrontier | functions.h:402-410 | after expansion every entry has a well-formed path |
| BestFirst.BestExpandClosed | functions.h:399-411 | after expansion every move from a visited board leads to a visited or frontier board |
| BestFirst.BestExpandKeeps | functions.h:399-411 | expanding an unvisited non-goal board keeps the invariant |
| BestFirst.BestExpandAncestors | functions.h:404-409 | after an expansion every entry's earlier boards are expanded, since a child's path is its parent's plus itself |
| BestFirst.ChildAncestors | functions.h:406-408 | a child's path is its parent's plus itself, so its earlier boards are the parent's earlier boards and the parent, all expanded |
| BestFirst.EntryFacts | functions.h:406-408 | an entry's path omits the start, is empty only for the root, ends with the entry's board, and follows the start by a chain |
| BestFirst.GoalEntryResult | functions.h:394-396 | the goal entry's path plus the goal is `[start]` on a goal start and has the goal twice otherwise |
| BestFirst.GoalPopped | functions.h:394-396 | popping the goal gives that result shape, with the start and the earlier boards expanded, and proves the goal reachable |
| BestFirst.GoalAncestors | functions.h:394-396 | the start and the boards of the result before its two goal boards are expanded |
| BestFirst.BestFirstSearch | functions.h:370-415 | as written: `[start]` on a goal start; otherwise a non-empty result ends with the goal twice, omits the start, and the start followed by all but its last entry is a chain, with the start and every board before the two goals expanded; empty exactly when the goal is unreachable, and then the start was expanded and the expanded boards are closed under moves; no board expanded twice |
| BestFirst.GoalTwiceIsNoPath | functions.h:394-396 | such a result is neither a chain of moves nor a path from the start to the goal |
| BestFirst.RepairedPath | functions.h:394-396 | the start followed by the result without its repeated goal is a path from the start to the goal |
| BestFirst.RepairedExpanded | functions.h:394-396 | the boards of the repaired path before the goal are expanded |
| BestFirst.CorrectedBestFirstSearch | functions.h:388-396 | a non-empty result is a path from the start to the goal whose boards before the goal were expanded, `[start]` on a goal start; empty exactly when the goal is unreachable, and then the expanded boards contain the start and are closed under moves |

## Left out

- `main.cpp` (the input menu and printing) and `printState`/`printStates` (functions.h:419-451) are console I/O and are not part of this model.
- `calculateHeuristic` (functions.h:54-67) is never called, and the fields `blankX`, `blankY`, `h` and `f` are never read by the searches. A board is its nine cells only.
- The field `g` is never assigned, so it stays whatever the start carried. Every child copies it from its parent (functions.h:248). The model therefore takes one shared integer `g` as a parameter of the best-first search. Because of that the order is greedy by heuristic value, as `BestFirst.ComparatorIgnoresG` states, and does not use the depth along the path. This holds for unbounded integers; overflow of `g + h` is covered below.
- Malformed boards are excluded. The searches require a permutation of 0..8, and the move generator requires a blank. Without a blank the source indexes `board[-1]`, which is undefined behaviour in C++.
- The tie order of `std::priority_queue` is unspecified. The model pops any entry that no other entry precedes, so the proved properties hold for every tie order.
- The `std::unordered_map` inside `cManDist` is modelled as the pure function `GoalPosition`. `std::set` and `std::map` are modelled as Dafny `set` and `map`. This is sound because `operator<` is a strict total order on boards, as the `Boards.Less*` lemmas state.
- The "number of nodes expanded" promised by the doc comments is not returned by the code. It is not modelled; the ghost `expanded` sequence only records expansion order for the proofs.
- Search.BreadthFirstSearch: does not state that its path is a shortest one. Minimality is not proved, and neither is comparing its length with the depth-first path.
- Solvability.CheckSolvable: the converse is not proved, namely that every board with even parity reaches the goal. The model proves only that moves keep parity, so an odd board is never solved.
- BestFirst.Comparator: the sums `g + h` are taken over unbounded integers. In the source `g` is uninitialised and can hold any `int`, so `g + h` can exceed the `int` range for a `g` near the maximum. That is undefined behaviour in C++; where it wraps, entries with a larger heuristic would come first, and the order would no longer be greedy. The model does not capture this.
- On boards whose cells lie in 0..8, which is the domain the searches require, no other arithmetic overflows. The heuristics are bounded by 36, 9, 17 and 87 (`ComputeManhattanDistance`, `CountTilesOutOfPlace`, `ComputeSequenceScore`, `ComputeHeuristicH`), and the inversion count is at most 36 pairs.
- Heuristics.ComputeSequenceScore: computes the successor `tile + 1` over unbounded integers. In the source (functions.h:214) a cell holding the largest `int` makes `tile + 1` overflow, which is undefined behaviour in C++. The source can reach it, because `main.cpp` accepts any nine integers that pass the solvability test. The model, like `Heuristics.SequenceScore` and `Heuristics.RingPenalty`, gives a defined score for such a board instead.
- Heuristics.GoalPosition: its contract states the position only for non-blank goal tiles. The source looks up every non-blank cell (functions.h:135-136), including values outside the goal such as 9 or -5; `std::unordered_map::operator[]` then inserts and returns 0. The body models that default of 0, but no contract states what a lookup outside the goal means.

## Findings

| source | as written | input that shows it | evidently intended | confidence | as-written member | corrected member |
|---|---|---|---|---|---|---|
| functions.h:388-396 | the root is pushed with an empty path, each child's path already ends with the child, and the goal is appended again on return; so for a start other than the goal the result omits the start and ends with the goal twice | start `1 2 3 8 4 0 7 6 5`, one move from the goal, with heuristic type 1, 2 or 3: the result is `[goal, goal]` | a path from the start to the goal including both ends, as the depth-first and breadth-first searches return | not executed | BestFirst.GoalTwiceIsNoPath | BestFirst.CorrectedBestFirstSearch |
