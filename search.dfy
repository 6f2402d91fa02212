/** The uninformed searches: depth-first with a stack and breadth-first with a
    queue, each with a visited set and a parent map that is traced back from
    the goal once the goal is popped. */
module Search {
  import opened Boards
  import opened Moves
  import opened Solvability

  // ---------------------------------------------------------------------------
  // Paths and reachability.

  /** `p` is a chain of moves from `a` to `c`. */
  predicate IsPathFromTo(p: seq<Board>, a: Board, c: Board) {
    |p| > 0 && p[0] == a && p[|p| - 1] == c && IsChain(p)
  }

  /** Some chain of moves leads from `a` to `c`. */
  ghost predicate Reaches(a: Board, c: Board) {
    exists p :: IsPathFromTo(p, a, c)
  }

  /** A chain of moves witnesses reachability. */
  lemma PathReaches(p: seq<Board>, a: Board, c: Board)
    requires IsPathFromTo(p, a, c)
    ensures Reaches(a, c)
  {
  }

  /** No value occurs twice in `s`. */
  predicate Distinct(s: seq<Board>) {
    forall i, j :: 0 <= i < j < |s| ==> s[i] != s[j]
  }

  /** Every move from a board of `s` leads to a board of `s`. */
  ghost predicate Closed(s: set<Board>) {
    forall v, c :: v in s && Step(v, c) ==> c in s
  }

  /** A chain that starts in a closed set never leaves it. */
  lemma {:induction false} ClosedHoldsChains(s: set<Board>, p: seq<Board>)
    requires Closed(s) && |p| > 0 && p[0] in s && IsChain(p)
    ensures p[|p| - 1] in s
    decreases |p|
  {
    if |p| > 1 {
      var q := p[..|p| - 1];
      assert IsChain(q);
      ClosedHoldsChains(s, q);
      assert Step(q[|q| - 1], p[|p| - 1]);
    }
  }

  /** Nothing outside a closed set is reachable from inside it. */
  lemma ClosedUnreachable(s: set<Board>, a: Board, c: Board)
    requires Closed(s) && a in s && c !in s
    ensures !Reaches(a, c)
  {
    if Reaches(a, c) {
      var p :| IsPathFromTo(p, a, c);
      ClosedHoldsChains(s, p);
    }
  }

  /** A well-formed board from which the goal is reachable passes the
      solvability check; so no search can succeed from a board that fails
      it. */
  lemma ReachesGoalSolvable(start: Board)
    requires IsPerm(start) && Reaches(start, Goal)
    ensures IsSolvable(start)
  {
    var p :| IsPathFromTo(p, start, Goal);
    ChainPreservesSolvability(p);
    GoalIsSolvable();
  }

  // ---------------------------------------------------------------------------
  // The state space is finite: every well-formed board is one of the 9^9
  // sequences of nine values in 0..8.

  ghost function CellSeqs(n: nat): set<seq<int>> {
    if n == 0 then {[]} else set s, v | s in CellSeqs(n - 1) && 0 <= v < 9 :: s + [v]
  }

  lemma {:induction false} CellsInCellSeqs(s: seq<int>)
    requires forall i :: 0 <= i < |s| ==> 0 <= s[i] < 9
    ensures s in CellSeqs(|s|)
    decreases |s|
  {
    if |s| > 0 {
      var p := s[..|s| - 1];
      CellsInCellSeqs(p);
      assert s == p + [s[|s| - 1]];
    }
  }

  /** Every well-formed board lies in the finite set CellSeqs(9). */
  lemma PermInCellSeqs(b: Board)
    requires IsPerm(b)
    ensures b in CellSeqs(|b|)
  {
    PermCells(b);
    CellsInCellSeqs(b);
  }

  // ---------------------------------------------------------------------------
  // Tracing the parents back.

  /** std::reverse. */
  function Reverse(s: seq<Board>): (r: seq<Board>)
    ensures |r| == |s|
    ensures forall i :: 0 <= i < |s| ==> r[i] == s[|s| - 1 - i]
  {
    if s == [] then [] else Reverse(s[1..]) + [s[0]]
  }

  /** Each board of `s` is one move away from the board after it. */
  predicate IsBackChain(s: seq<Board>) {
    forall i :: 0 <= i < |s| - 1 ==> Step(s[i + 1], s[i])
  }

  /** Reversing a chain of backward moves gives a chain of moves. */
  lemma ReverseBackChain(s: seq<Board>)
    requires IsBackChain(s)
    ensures IsChain(Reverse(s))
  {
    var r := Reverse(s);
    forall i | 0 <= i < |r| - 1
      ensures Step(r[i], r[i + 1])
    {
      var j := |s| - 2 - i;
      assert r[i] == s[j + 1] && r[i + 1] == s[j];
    }
  }

  /** The parent map as the searches keep it: every recorded parent has been
      expanded and is one move away from its child, every expanded board but
      the start has a parent, and an expanded child was expanded after its
      parent (`rank` is the expansion order). */
  ghost predicate ParentLinks(start: Board, cameFrom: map<Board, Board>, visited: set<Board>, rank: map<Board, nat>) {
    rank.Keys == visited &&
    (forall x :: x in cameFrom ==> cameFrom[x] in visited && Step(cameFrom[x], x)) &&
    (forall x :: x in cameFrom && x in visited ==> rank[cameFrom[x]] < rank[x]) &&
    (forall v :: v in visited ==> v == start || v in cameFrom)
  }

  /** One step back along the parent map: the parent has been expanded, is
      one move away, is the start or has a parent itself, and was expanded
      before the child if the child was expanded. */
  lemma ParentStep(start: Board, cameFrom: map<Board, Board>, visited: set<Board>, rank: map<Board, nat>, state: Board)
    requires ParentLinks(start, cameFrom, visited, rank) && state in cameFrom
    ensures cameFrom[state] in rank && Step(cameFrom[state], state)
    ensures cameFrom[state] == start || cameFrom[state] in cameFrom
    ensures state in rank ==> rank[cameFrom[state]] < rank[state]
  {
  }

  /** Adding a board one move before the last keeps a chain of backward
      moves. */
  lemma BackChainExtend(back: seq<Board>, state: Board)
    requires IsBackChain(back) && (back != [] ==> Step(state, back[|back| - 1]))
    ensures IsBackChain(back + [state])
  {
  }

  /** The boards collected from the goal back to the start, reversed, form a
      path from the start to the goal. */
  lemma ReversedPath(back: seq<Board>, start: Board, goal: Board)
    requires IsBackChain(back)
    requires back == [] ==> start == goal
    requires back != [] ==> back[0] == goal && Step(start, back[|back| - 1])
    ensures IsPathFromTo(Reverse(back + [start]), start, goal)
    ensures back == [] ==> Reverse(back + [start]) == [start]
  {
    BackChainExtend(back, start);
    ReverseBackChain(back + [start]);
  }

  /** The loop that follows the parent map from the goal back to the start,
      followed by the push of the start and the reversal. */
  method Backtrace(start: Board, goal: Board, cameFrom: map<Board, Board>, ghost visited: set<Board>, ghost rank: map<Board, nat>)
    returns (path: seq<Board>)
    requires ParentLinks(start, cameFrom, visited, rank)
    requires goal == start || goal in cameFrom
    ensures IsPathFromTo(path, start, goal)
    ensures goal == start ==> path == [start]
    ensures forall i :: 0 <= i < |path| - 1 ==> path[i] in visited
  {
    var back: seq<Board> := [];
    var state := goal;
    while state != start
      invariant state == start || state in cameFrom
      invariant back == [] ==> state == goal
      invariant back != [] ==> goal != start
      invariant back != [] ==> back[0] == goal && Step(state, back[|back| - 1])
      invariant IsBackChain(back)
      invariant back != [] ==> state in visited
      invariant forall j :: 1 <= j < |back| ==> back[j] in visited
      decreases if state in rank then 0 else 1, if state in rank then rank[state] else 0
    {
      ParentStep(start, cameFrom, visited, rank, state);
      BackChainExtend(back, state);
      back := back + [state];
      state := cameFrom[state];
    }
    ReversedPath(back, start, goal);
    ReversedParents(back, start, visited);
    back := back + [start];
    path := Reverse(back);
  }

  /** The boards collected after the goal, and the start once anything was
      collected, are expanded boards; so are all boards of the reversed path
      but its last. */
  lemma ReversedParents(back: seq<Board>, start: Board, visited: set<Board>)
    requires back != [] ==> start in visited
    requires forall j :: 1 <= j < |back| ==> back[j] in visited
    ensures var p := Reverse(back + [start]);
      forall i :: 0 <= i < |p| - 1 ==> p[i] in visited
  {
    var b := back + [start];
    var p := Reverse(b);
    forall i | 0 <= i < |p| - 1
      ensures p[i] in visited
    {
      assert p[i] == b[|b| - 1 - i];
      if |b| - 1 - i < |back| {
        assert b[|b| - 1 - i] == back[|b| - 1 - i];
      }
    }
  }

  // ---------------------------------------------------------------------------
  // Pushing the children.

  /** The children that have not been expanded, in order. */
  function Unvisited(children: seq<Board>, visited: set<Board>): (r: seq<Board>)
    ensures forall c :: c in r <==> c in children && c !in visited
  {
    if children == [] then []
    else
      var c := children[|children| - 1];
      Unvisited(children[..|children| - 1], visited) + if c !in visited then [c] else []
  }

  /** The parent map after the children of `parent` that are not in
      `visited` have been recorded: those children now map to `parent`, every
      other entry is unchanged. */
  ghost predicate Recorded(cameFrom': map<Board, Board>, cameFrom: map<Board, Board>, parent: Board,
                           children: seq<Board>, visited: set<Board>)
  {
    (forall c :: c in cameFrom' <==> c in cameFrom || (c in children && c !in visited)) &&
    (forall c :: c in cameFrom' ==> cameFrom'[c] == if c in children && c !in visited then parent else cameFrom[c])
  }

  lemma AppendAssoc<T>(a: seq<T>, b: seq<T>, c: seq<T>)
    ensures a + (b + c) == (a + b) + c
  {
  }

  /** One more child: it follows the unvisited children before it unless it
      was visited. */
  lemma UnvisitedNext(children: seq<Board>, k: nat, visited: set<Board>)
    requires k < |children|
    ensures Unvisited(children[..k + 1], visited) ==
      Unvisited(children[..k], visited) + if children[k] !in visited then [children[k]] else []
  {
    assert children[..k + 1][..k] == children[..k];
  }

  /** One more child: recording it, unless it was visited, extends the
      record to it. */
  lemma RecordedNext(cameFrom': map<Board, Board>, cameFrom: map<Board, Board>, parent: Board,
                     children: seq<Board>, k: nat, visited: set<Board>)
    requires k < |children|
    requires Recorded(cameFrom', cameFrom, parent, children[..k], visited)
    ensures var c := children[k];
      Recorded(if c !in visited then cameFrom'[c := parent] else cameFrom', cameFrom, parent, children[..k + 1], visited)
  {
    assert children[..k + 1] == children[..k] + [children[k]];
  }

  /** The loop over the children of an expanded board: each child not yet
      expanded is pushed onto the frontier and gets the expanded board as its
      parent, replacing any parent recorded before. */
  method PushChildren(parent: Board, children: seq<Board>, visited: set<Board>, frontier: seq<Board>, cameFrom: map<Board, Board>)
    returns (frontier': seq<Board>, cameFrom': map<Board, Board>)
    ensures frontier' == frontier + Unvisited(children, visited)
    ensures Recorded(cameFrom', cameFrom, parent, children, visited)
  {
    frontier', cameFrom' := frontier, cameFrom;
    for k := 0 to |children|
      invariant frontier' == frontier + Unvisited(children[..k], visited)
      invariant Recorded(cameFrom', cameFrom, parent, children[..k], visited)
    {
      var child := children[k];
      UnvisitedNext(children, k, visited);
      RecordedNext(cameFrom', cameFrom, parent, children, k, visited);
      if child !in visited {
        AppendAssoc(frontier, Unvisited(children[..k], visited), [child]);
        frontier' := frontier' + [child];
        cameFrom' := cameFrom'[child := parent];
      }
    }
    assert children[..|children|] == children;
  }

  // ---------------------------------------------------------------------------
  // The loop invariant shared by both searches.

  /** Every frontier entry is well formed and is the start or has a parent. */
  ghost predicate FrontierOk(start: Board, frontier: seq<Board>, cameFrom: map<Board, Board>) {
    forall x :: x in frontier ==> IsPerm(x) && (x == start || x in cameFrom)
  }

  /** `expanded` lists the visited boards once each, and `rank` gives each of
      them a position before the end of the list. */
  ghost predicate ExpansionOk(visited: set<Board>, rank: map<Board, nat>, expanded: seq<Board>) {
    (forall v :: v in rank ==> rank[v] < |expanded|) && ExpandedOnce(visited, expanded)
  }

  /** `expanded` lists the visited boards, each once. */
  ghost predicate ExpandedOnce(visited: set<Board>, expanded: seq<Board>) {
    ExpandedBoards(expanded) && (forall v :: v in expanded <==> v in visited)
  }

  /** A record of expansions: no board twice, every board well formed, never
      the goal. */
  predicate ExpandedBoards(expanded: seq<Board>) {
    Distinct(expanded) && forall v :: v in expanded ==> IsPerm(v) && v != Goal
  }

  /** Expanding one more board that is well formed, not the goal and not
      visited before. */
  lemma ExpandOnce(current: Board, visited: set<Board>, expanded: seq<Board>)
    requires ExpandedOnce(visited, expanded)
    requires current !in visited && IsPerm(current) && current != Goal
    ensures ExpandedOnce(visited + {current}, expanded + [current])
  {
    assert current !in expanded;
  }

  /** Every move from a visited board leads to a visited board or to a board
      on the frontier. */
  ghost predicate ClosedUpTo(visited: set<Board>, frontier: seq<Board>) {
    forall v, c :: v in visited && Step(v, c) ==> c in visited || c in frontier
  }

  /** Before the first expansion the frontier holds only the start; after it
      the start is visited; the goal is never expanded. */
  ghost predicate StartOk(start: Board, frontier: seq<Board>, visited: set<Board>) {
    (visited == {} ==> frontier == [start]) &&
    (visited != {} ==> start in visited) &&
    Goal !in visited
  }

  /** What holds of the frontier, the visited set, the parent map and the
      expansion record at the head of each iteration. */
  ghost predicate SearchInv(start: Board, frontier: seq<Board>, visited: set<Board>, cameFrom: map<Board, Board>,
                            rank: map<Board, nat>, expanded: seq<Board>)
  {
    FrontierOk(start, frontier, cameFrom) &&
    ParentLinks(start, cameFrom, visited, rank) &&
    ExpansionOk(visited, rank, expanded) &&
    ClosedUpTo(visited, frontier) &&
    StartOk(start, frontier, visited)
  }

  /** The invariant holds before the first iteration. */
  lemma SearchInvInit(start: Board)
    requires IsPerm(start)
    ensures SearchInv(start, [start], {}, map[], map[], [])
  {
  }

  /** Removing an already visited `current` from the frontier, where `rest` is
      what remains. */
  lemma PopKeeps(start: Board, frontier: seq<Board>, current: Board, rest: seq<Board>, visited: set<Board>,
                 cameFrom: map<Board, Board>, rank: map<Board, nat>, expanded: seq<Board>)
    requires SearchInv(start, frontier, visited, cameFrom, rank, expanded)
    requires forall x :: x in frontier <==> x == current || x in rest
    requires current in visited
    ensures SearchInv(start, rest, visited, cameFrom, rank, expanded)
  {
  }

  lemma ExpandFrontier(start: Board, current: Board, rest: seq<Board>, visited: set<Board>,
                       cameFrom: map<Board, Board>, frontier': seq<Board>, cameFrom': map<Board, Board>)
    requires IsPerm(current) && FrontierOk(start, rest, cameFrom)
    requires frontier' == rest + Unvisited(Successors(current), visited)
    requires Recorded(cameFrom', cameFrom, current, Successors(current), visited)
    ensures FrontierOk(start, frontier', cameFrom')
  {
    PermBlank(current);
    forall x | x in frontier'
      ensures IsPerm(x) && (x == start || x in cameFrom')
    {
      if x !in rest {
        SuccessorPerm(current, x);
      }
    }
  }

  lemma ExpandParents(start: Board, current: Board, visited: set<Board>, cameFrom: map<Board, Board>,
                      rank: map<Board, nat>, n: nat, cameFrom': map<Board, Board>)
    requires ParentLinks(start, cameFrom, visited, rank) && 0 in current
    requires forall v :: v in rank ==> rank[v] < n
    requires current !in visited && (current == start || current in cameFrom)
    requires Recorded(cameFrom', cameFrom, current, Successors(current), visited + {current})
    ensures ParentLinks(start, cameFrom', visited + {current}, rank[current := n])
  {
    NewParentsStep(current, visited, cameFrom, cameFrom');
    NewParentsRank(start, current, visited, cameFrom, rank, n, cameFrom');
    NewParentsCover(start, current, visited, cameFrom, rank, n, cameFrom');
  }

  /** After the expansion every expanded board is ranked and is the start or
      has a parent. */
  lemma NewParentsCover(start: Board, current: Board, visited: set<Board>, cameFrom: map<Board, Board>,
                        rank: map<Board, nat>, n: nat, cameFrom': map<Board, Board>)
    requires ParentLinks(start, cameFrom, visited, rank) && 0 in current
    requires current == start || current in cameFrom
    requires Recorded(cameFrom', cameFrom, current, Successors(current), visited + {current})
    ensures rank[current := n].Keys == visited + {current}
    ensures forall v :: v in visited + {current} ==> v == start || v in cameFrom'
  {
  }

  /** Every parent recorded after the expansion has been expanded and is one
      move away from its child. */
  lemma NewParentsStep(current: Board, visited: set<Board>, cameFrom: map<Board, Board>, cameFrom': map<Board, Board>)
    requires 0 in current
    requires forall x :: x in cameFrom ==> cameFrom[x] in visited && Step(cameFrom[x], x)
    requires Recorded(cameFrom', cameFrom, current, Successors(current), visited + {current})
    ensures forall x :: x in cameFrom' ==> cameFrom'[x] in visited + {current} && Step(cameFrom'[x], x)
  {
  }

  /** After the expansion every expanded child still ranks after its parent. */
  lemma NewParentsRank(start: Board, current: Board, visited: set<Board>, cameFrom: map<Board, Board>,
                       rank: map<Board, nat>, n: nat, cameFrom': map<Board, Board>)
    requires ParentLinks(start, cameFrom, visited, rank) && 0 in current
    requires forall v :: v in rank ==> rank[v] < n
    requires current !in visited
    requires Recorded(cameFrom', cameFrom, current, Successors(current), visited + {current})
    ensures var rank' := rank[current := n];
      forall x :: x in cameFrom' && x in visited + {current} ==>
        x in rank' && cameFrom'[x] in rank' && rank'[cameFrom'[x]] < rank'[x]
  {
    var rank' := rank[current := n];
    forall x | x in cameFrom' && x in visited + {current}
      ensures x in rank' && cameFrom'[x] in rank' && rank'[cameFrom'[x]] < rank'[x]
    {
      assert x in cameFrom && cameFrom'[x] == cameFrom[x];
    }
  }

  lemma ExpandClosed(current: Board, rest: seq<Board>, visited: set<Board>, frontier': seq<Board>)
    requires 0 in current
    requires forall v, c :: v in visited && Step(v, c) ==> c in visited || c == current || c in rest
    requires frontier' == rest + Unvisited(Successors(current), visited + {current})
    ensures ClosedUpTo(visited + {current}, frontier')
  {
  }

  /** Expanding `current`, popped from the frontier, neither the goal nor
      expanded before: it is added to the visited set, ranked last, and its
      unvisited children are pushed with it as their parent. */
  lemma ExpandKeeps(start: Board, frontier: seq<Board>, current: Board, rest: seq<Board>, visited: set<Board>,
                    cameFrom: map<Board, Board>, rank: map<Board, nat>, expanded: seq<Board>,
                    frontier': seq<Board>, cameFrom': map<Board, Board>)
    requires SearchInv(start, frontier, visited, cameFrom, rank, expanded)
    requires forall x :: x in frontier <==> x == current || x in rest
    requires current !in visited && current != Goal && IsPerm(current) && 0 in current
    requires frontier' == rest + Unvisited(Successors(current), visited + {current})
    requires Recorded(cameFrom', cameFrom, current, Successors(current), visited + {current})
    ensures SearchInv(start, frontier', visited + {current}, cameFrom', rank[current := |expanded|], expanded + [current])
  {
    PoppedFacts(start, frontier, current, rest, visited, cameFrom, rank, expanded);
    PermBlank(current);
    ExpandFrontier(start, current, rest, visited + {current}, cameFrom, frontier', cameFrom');
    ExpandParents(start, current, visited, cameFrom, rank, |expanded|, cameFrom');
    ExpandClosed(current, rest, visited, frontier');
    ExpandRecord(current, visited, rank, expanded);
    ExpandStart(start, frontier, current, visited, frontier');
  }

  /** What the invariant says of the popped board and of the rest of the
      frontier. */
  lemma PoppedFacts(start: Board, frontier: seq<Board>, current: Board, rest: seq<Board>, visited: set<Board>,
                    cameFrom: map<Board, Board>, rank: map<Board, nat>, expanded: seq<Board>)
    requires SearchInv(start, frontier, visited, cameFrom, rank, expanded)
    requires forall x :: x in frontier <==> x == current || x in rest
    ensures IsPerm(current) && (current == start || current in cameFrom) && current in frontier
    ensures FrontierOk(start, rest, cameFrom)
    ensures forall v, c :: v in visited && Step(v, c) ==> c in visited || c == current || c in rest
  {
  }

  lemma ExpandRecord(current: Board, visited: set<Board>, rank: map<Board, nat>, expanded: seq<Board>)
    requires ExpansionOk(visited, rank, expanded)
    requires current !in visited && IsPerm(current) && current != Goal
    ensures ExpansionOk(visited + {current}, rank[current := |expanded|], expanded + [current])
  {
    ExpandOnce(current, visited, expanded);
  }

  lemma ExpandStart(start: Board, frontier: seq<Board>, current: Board, visited: set<Board>, frontier': seq<Board>)
    requires StartOk(start, frontier, visited)
    requires current in frontier && current != Goal
    ensures StartOk(start, frontier', visited + {current})
  {
  }

  /** What the invariant says of a board taken from the frontier: it is well
      formed, it is the start or has a parent, and expanding it shrinks the
      set of boards never expanded. */
  lemma PoppedBoard(start: Board, frontier: seq<Board>, current: Board, visited: set<Board>,
                    cameFrom: map<Board, Board>, rank: map<Board, nat>, expanded: seq<Board>)
    requires SearchInv(start, frontier, visited, cameFrom, rank, expanded) && current in frontier
    ensures IsPerm(current) && 0 in current
    ensures current == start || current in cameFrom
    ensures current !in visited ==> CellSeqs(|start|) - (visited + {current}) < CellSeqs(|start|) - visited
  {
    PermBlank(current);
    PermInCellSeqs(current);
  }

  /** When the frontier runs empty, the expanded boards are closed under
      moves, contain the start and not the goal: the goal is unreachable. */
  lemma Exhausted(start: Board, visited: set<Board>, cameFrom: map<Board, Board>, rank: map<Board, nat>,
                  expanded: seq<Board>)
    requires SearchInv(start, [], visited, cameFrom, rank, expanded)
    ensures !Reaches(start, Goal)
  {
    ClosedUnreachable(visited, start, Goal);
  }

  /** The expansion shared by both searches: `current` is marked visited and
      its children that were never visited are pushed onto what remains of
      the frontier, with `current` as their parent. The invariant carries
      over, and the set of boards never expanded shrinks. */
  method Expand(start: Board, ghost frontier: seq<Board>, current: Board, rest: seq<Board>, visited: set<Board>,
                cameFrom: map<Board, Board>, ghost rank: map<Board, nat>, ghost expanded: seq<Board>)
    returns (frontier': seq<Board>, cameFrom': map<Board, Board>)
    requires SearchInv(start, frontier, visited, cameFrom, rank, expanded)
    requires forall x :: x in frontier <==> x == current || x in rest
    requires current !in visited && current != Goal
    ensures SearchInv(start, frontier', visited + {current}, cameFrom', rank[current := |expanded|], expanded + [current])
    ensures CellSeqs(|start|) - (visited + {current}) < CellSeqs(|start|) - visited
  {
    PoppedBoard(start, frontier, current, visited, cameFrom, rank, expanded);
    var children := GetPossibleMoves(current);
    frontier', cameFrom' := PushChildren(current, children, visited + {current}, rest, cameFrom);
    ExpandKeeps(start, frontier, current, rest, visited, cameFrom, rank, expanded, frontier', cameFrom');
  }

  /** The body of both search loops, after `current` has been taken from the
      frontier and `rest` remains: if `current` is the goal, the path traced
      back through the parent map; otherwise `current` is expanded unless it
      was before. The invariant carries over, and either the set of boards
      never expanded shrinks or only `current` left the frontier. */
  method Visit(start: Board, ghost frontier: seq<Board>, current: Board, rest: seq<Board>, visited: set<Board>,
               cameFrom: map<Board, Board>, ghost rank: map<Board, nat>, ghost expanded: seq<Board>)
    returns (found: bool, path: seq<Board>, frontier': seq<Board>, visited': set<Board>,
             cameFrom': map<Board, Board>, ghost rank': map<Board, nat>, ghost expanded': seq<Board>)
    requires SearchInv(start, frontier, visited, cameFrom, rank, expanded)
    requires forall x :: x in frontier <==> x == current || x in rest
    ensures found <==> current == Goal
    ensures found ==> IsPathFromTo(path, start, Goal) && (start == Goal ==> path == [start])
    ensures found ==> forall i :: 0 <= i < |path| - 1 ==> path[i] in expanded'
    ensures ExpandedBoards(expanded')
    ensures !found ==> SearchInv(start, frontier', visited', cameFrom', rank', expanded')
    ensures !found ==> CellSeqs(|start|) - visited' < CellSeqs(|start|) - visited ||
                       (visited' == visited && frontier' == rest)
  {
    found := CheckGoal(current);
    frontier', visited', cameFrom', rank', expanded' := rest, visited, cameFrom, rank, expanded;
    path := [];
    if found {
      path := TraceGoal(start, frontier, current, visited, cameFrom, rank, expanded);
    } else {
      frontier', visited', cameFrom', rank', expanded' := Advance(start, frontier, current, rest, visited, cameFrom, rank, expanded);
    }
  }

  /** The loop body when the goal has been popped: the path traced back
      through the parent map, every board of it but the goal expanded. */
  method TraceGoal(start: Board, ghost frontier: seq<Board>, current: Board, visited: set<Board>,
                   cameFrom: map<Board, Board>, ghost rank: map<Board, nat>, ghost expanded: seq<Board>)
    returns (path: seq<Board>)
    requires SearchInv(start, frontier, visited, cameFrom, rank, expanded)
    requires current in frontier && current == Goal
    ensures IsPathFromTo(path, start, Goal) && (start == Goal ==> path == [start])
    ensures forall i :: 0 <= i < |path| - 1 ==> path[i] in expanded
  {
    PoppedBoard(start, frontier, current, visited, cameFrom, rank, expanded);
    path := Backtrace(start, current, cameFrom, visited, rank);
    VisitedExpanded(visited, expanded, path);
  }

  /** Boards of a path that are visited are expanded. */
  lemma VisitedExpanded(visited: set<Board>, expanded: seq<Board>, path: seq<Board>)
    requires ExpandedOnce(visited, expanded)
    requires forall i :: 0 <= i < |path| - 1 ==> path[i] in visited
    ensures forall i :: 0 <= i < |path| - 1 ==> path[i] in expanded
  {
  }

  /** The rest of the loop body when `current` is not the goal: it is expanded
      unless it was before. */
  method Advance(start: Board, ghost frontier: seq<Board>, current: Board, rest: seq<Board>, visited: set<Board>,
                 cameFrom: map<Board, Board>, ghost rank: map<Board, nat>, ghost expanded: seq<Board>)
    returns (frontier': seq<Board>, visited': set<Board>, cameFrom': map<Board, Board>,
             ghost rank': map<Board, nat>, ghost expanded': seq<Board>)
    requires SearchInv(start, frontier, visited, cameFrom, rank, expanded)
    requires forall x :: x in frontier <==> x == current || x in rest
    requires current != Goal
    ensures SearchInv(start, frontier', visited', cameFrom', rank', expanded')
    ensures CellSeqs(|start|) - visited' < CellSeqs(|start|) - visited ||
            (visited' == visited && frontier' == rest)
  {
    if current !in visited {
      frontier', cameFrom' := Expand(start, frontier, current, rest, visited, cameFrom, rank, expanded);
      visited', rank', expanded' := visited + {current}, rank[current := |expanded|], expanded + [current];
    } else {
      PopKeeps(start, frontier, current, rest, visited, cameFrom, rank, expanded);
      frontier', visited', cameFrom', rank', expanded' := rest, visited, cameFrom, rank, expanded;
    }
  }

  /** Popping the top of a stack. */
  lemma PopLast(frontier: seq<Board>)
    requires frontier != []
    ensures forall x :: x in frontier <==> x == frontier[|frontier| - 1] || x in frontier[..|frontier| - 1]
  {
    assert frontier == frontier[..|frontier| - 1] + [frontier[|frontier| - 1]];
  }

  /** Popping the front of a queue. */
  lemma PopFirst(frontier: seq<Board>)
    requires frontier != []
    ensures forall x :: x in frontier <==> x == frontier[0] || x in frontier[1..]
  {
    assert frontier == [frontier[0]] + frontier[1..];
  }

  // ---------------------------------------------------------------------------
  // The searches.

  /** depthFirstSearch: the frontier is a stack whose top is the last entry.
      A non-empty result is a chain of moves from the start to the goal; the
      result is empty exactly when no chain of moves reaches the goal; no
      board is expanded twice (`expanded` records the expansions in order). */
  method DepthFirstSearch(start: Board) returns (path: seq<Board>, ghost expanded: seq<Board>)
    requires IsPerm(start)
    ensures path != [] ==> IsPathFromTo(path, start, Goal)
    ensures start == Goal ==> path == [start]
    ensures path != [] <==> Reaches(start, Goal)
    ensures ExpandedBoards(expanded)
    ensures path != [] ==> forall i :: 0 <= i < |path| - 1 ==> path[i] in expanded
    ensures path == [] ==> start in expanded && forall v, c :: v in expanded && Step(v, c) ==> c in expanded
  {
    var frontier: seq<Board> := [start];
    var visited: set<Board> := {};
    var cameFrom: map<Board, Board> := map[];
    ghost var rank: map<Board, nat> := map[];
    expanded := [];
    SearchInvInit(start);
    while frontier != []
      invariant SearchInv(start, frontier, visited, cameFrom, rank, expanded)
      decreases CellSeqs(|start|) - visited, |frontier|
    {
      var current := frontier[|frontier| - 1];
      var rest := frontier[..|frontier| - 1];
      ghost var before := frontier;
      PopLast(frontier);
      var found;
      found, path, frontier, visited, cameFrom, rank, expanded :=
        Visit(start, before, current, rest, visited, cameFrom, rank, expanded);
      if found {
        PathReaches(path, start, Goal);
        return;
      }
    }
    path := [];
    Exhausted(start, visited, cameFrom, rank, expanded);
  }

  /** breadthFirstSearch: the frontier is a queue whose front is the first
      entry. The same guarantees as the depth-first search. */
  method BreadthFirstSearch(start: Board) returns (path: seq<Board>, ghost expanded: seq<Board>)
    requires IsPerm(start)
    ensures path != [] ==> IsPathFromTo(path, start, Goal)
    ensures start == Goal ==> path == [start]
    ensures path != [] <==> Reaches(start, Goal)
    ensures ExpandedBoards(expanded)
    ensures path != [] ==> forall i :: 0 <= i < |path| - 1 ==> path[i] in expanded
    ensures path == [] ==> start in expanded && forall v, c :: v in expanded && Step(v, c) ==> c in expanded
  {
    var frontier: seq<Board> := [start];
    var visited: set<Board> := {};
    var cameFrom: map<Board, Board> := map[];
    ghost var rank: map<Board, nat> := map[];
    expanded := [];
    SearchInvInit(start);
    while frontier != []
      invariant SearchInv(start, frontier, visited, cameFrom, rank, expanded)
      decreases CellSeqs(|start|) - visited, |frontier|
    {
      var current := frontier[0];
      var rest := frontier[1..];
      ghost var before := frontier;
      PopFirst(frontier);
      var found;
      found, path, frontier, visited, cameFrom, rank, expanded :=
        Visit(start, before, current, rest, visited, cameFrom, rank, expanded);
      if found {
        PathReaches(path, start, Goal);
        return;
      }
    }
    path := [];
    Exhausted(start, visited, cameFrom, rank, expanded);
  }
}
