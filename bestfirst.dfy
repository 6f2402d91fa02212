/** The informed search: a priority queue of (board, path) entries ordered by
    one of the three heuristics, with a visited set. Every entry carries the
    same cost-so-far `g` (the start's, which no step changes), so the order is
    by heuristic value alone: a greedy best-first search. */
module BestFirst {
  import opened Boards
  import opened Moves
  import opened Heuristics
  import opened Search

  /** A frontier entry: a board and the boards of the moves that led to it,
      the start excluded. */
  datatype Entry = Entry(board: Board, path: seq<Board>)

  /** The comparator of the priority queue: `a` is served after `b`. Types 1,
      2 and 3 compare g plus the misplaced-tile count, the Manhattan distance
      and the heuristic H; any other type never orders two entries. */
  function Comparator(heuristicType: int, g: int, a: Entry, b: Entry): bool {
    if heuristicType == 1 then g + TilesOutOfPlace(a.board) > g + TilesOutOfPlace(b.board)
    else if heuristicType == 2 then g + ManhattanDistance(a.board) > g + ManhattanDistance(b.board)
    else if heuristicType == 3 then g + HeuristicH(a.board) > g + HeuristicH(b.board)
    else false
  }

  /** The score the comparator ranks by: g plus the chosen heuristic, or 0 for
      a type that ties everything. */
  function Score(heuristicType: int, g: int, b: Board): int {
    if heuristicType == 1 then g + TilesOutOfPlace(b)
    else if heuristicType == 2 then g + ManhattanDistance(b)
    else if heuristicType == 3 then g + HeuristicH(b)
    else 0
  }

  /** The comparator puts `a` after `b` exactly when `a` scores higher. */
  lemma ComparatorIsScore(heuristicType: int, g: int, a: Entry, b: Entry)
    ensures Comparator(heuristicType, g, a, b) <==> Score(heuristicType, g, a.board) > Score(heuristicType, g, b.board)
  {
  }

  /** The shared `g` takes no part in the order: the search is greedy. */
  lemma ComparatorIgnoresG(heuristicType: int, g: int, a: Entry, b: Entry)
    ensures Comparator(heuristicType, g, a, b) == Comparator(heuristicType, 0, a, b)
  {
  }

  /** The comparator is a strict weak order: irreflexive and transitive, and
      incomparability is transitive too. */
  lemma ComparatorStrictWeakOrder(heuristicType: int, g: int, a: Entry, b: Entry, c: Entry)
    ensures !Comparator(heuristicType, g, a, a)
    ensures Comparator(heuristicType, g, a, b) && Comparator(heuristicType, g, b, c) ==> Comparator(heuristicType, g, a, c)
    ensures !Comparator(heuristicType, g, a, b) && !Comparator(heuristicType, g, b, a) &&
            !Comparator(heuristicType, g, b, c) && !Comparator(heuristicType, g, c, b) ==>
            !Comparator(heuristicType, g, a, c) && !Comparator(heuristicType, g, c, a)
  {
    ComparatorIsScore(heuristicType, g, a, b);
    ComparatorIsScore(heuristicType, g, b, c);
    ComparatorIsScore(heuristicType, g, a, c);
    ComparatorIsScore(heuristicType, g, c, a);
    ComparatorIsScore(heuristicType, g, b, a);
    ComparatorIsScore(heuristicType, g, c, b);
  }

  /** Entry `k` may be at the top of the queue: no entry comes before it. */
  predicate IsTop(heuristicType: int, g: int, frontier: seq<Entry>, k: int) {
    0 <= k < |frontier| &&
    forall j :: 0 <= j < |frontier| ==> !Comparator(heuristicType, g, frontier[k], frontier[j])
  }

  /** A non-empty queue has a top: an entry of least score. */
  lemma {:induction false} TopExists(heuristicType: int, g: int, frontier: seq<Entry>) returns (k: int)
    requires frontier != []
    ensures IsTop(heuristicType, g, frontier, k)
    decreases |frontier|
  {
    var n := |frontier| - 1;
    if n == 0 {
      k := 0;
      ComparatorIsScore(heuristicType, g, frontier[0], frontier[0]);
    } else {
      var init := frontier[..n];
      var m := TopExists(heuristicType, g, init);
      var last := frontier[n];
      ComparatorIsScore(heuristicType, g, init[m], last);
      if Comparator(heuristicType, g, init[m], last) {
        k := n;
        forall j | 0 <= j < |frontier|
          ensures !Comparator(heuristicType, g, frontier[k], frontier[j])
        {
          ComparatorIsScore(heuristicType, g, last, frontier[j]);
          if j < n {
            assert frontier[j] == init[j];
            ComparatorIsScore(heuristicType, g, init[m], init[j]);
          }
        }
      } else {
        k := m;
        forall j | 0 <= j < |frontier|
          ensures !Comparator(heuristicType, g, frontier[k], frontier[j])
        {
          if j < n {
            assert frontier[j] == init[j];
          }
        }
      }
    }
  }

  /** The boards of the entries, in order. */
  function BoardsOf(entries: seq<Entry>): (r: seq<Board>)
    ensures |r| == |entries|
    ensures forall i :: 0 <= i < |entries| ==> r[i] == entries[i].board
  {
    seq(|entries|, i requires 0 <= i < |entries| => entries[i].board)
  }

  /** The entries pushed for the children of a board reached along `path`:
      one per child not yet visited, with the child appended to the path. */
  function ChildEntries(path: seq<Board>, children: seq<Board>, visited: set<Board>): (r: seq<Entry>)
    ensures forall e :: e in r <==> e.board in children && e.board !in visited && e.path == path + [e.board]
    ensures forall c :: c in BoardsOf(r) <==> c in children && c !in visited
  {
    if children == [] then []
    else
      var c := children[|children| - 1];
      var init := ChildEntries(path, children[..|children| - 1], visited);
      var r := init + if c !in visited then [Entry(c, path + [c])] else [];
      assert forall i :: 0 <= i < |init| ==> BoardsOf(r)[i] == BoardsOf(init)[i];
      r
  }

  /** One more child: its entry, if it was not visited, follows the entries
      of the children before it. */
  lemma ChildEntriesNext(path: seq<Board>, children: seq<Board>, k: nat, visited: set<Board>)
    requires k < |children|
    ensures ChildEntries(path, children[..k + 1], visited) ==
      ChildEntries(path, children[..k], visited) +
      if children[k] !in visited then [Entry(children[k], path + [children[k]])] else []
  {
    assert children[..k + 1][..k] == children[..k];
  }

  /** The loop over the children of an expanded board: each child not yet
      visited is pushed with the path extended by the child. */
  method PushEntries(path: seq<Board>, children: seq<Board>, visited: set<Board>, frontier: seq<Entry>)
    returns (frontier': seq<Entry>)
    ensures frontier' == frontier + ChildEntries(path, children, visited)
  {
    frontier' := frontier;
    for k := 0 to |children|
      invariant frontier' == frontier + ChildEntries(path, children[..k], visited)
    {
      var child := children[k];
      ChildEntriesNext(path, children, k, visited);
      if child !in visited {
        AppendAssoc(frontier, ChildEntries(path, children[..k], visited), [Entry(child, path + [child])]);
        var newPath := path + [child];
        frontier' := frontier' + [Entry(child, newPath)];
      }
    }
    assert children[..|children|] == children;
  }

  /** top() followed by pop(): an entry that no other entry comes before,
      chosen among equals in an order the queue does not specify, and the
      entries that remain. */
  method PopTop(heuristicType: int, g: int, frontier: seq<Entry>) returns (top: Entry, rest: seq<Entry>)
    requires frontier != []
    ensures exists k :: IsTop(heuristicType, g, frontier, k) && top == frontier[k] && rest == frontier[..k] + frontier[k + 1..]
    ensures Removed(frontier, top, rest) && |rest| == |frontier| - 1
  {
    ghost var some := TopExists(heuristicType, g, frontier);
    var k :| 0 <= k < |frontier| && IsTop(heuristicType, g, frontier, k);
    top, rest := frontier[k], frontier[..k] + frontier[k + 1..];
    RemoveAt(frontier, k);
  }

  // ---------------------------------------------------------------------------
  // The loop invariant.

  /** An entry's board is well formed; its path is empty only for the start,
      otherwise ends with the board; the path does not contain the start; and
      the start followed by the path is a chain of moves. */
  ghost predicate EntryOk(start: Board, e: Entry) {
    IsPerm(e.board) &&
    (e.path == [] ==> e.board == start) &&
    (e.path != [] ==> e.path[|e.path| - 1] == e.board) &&
    start !in e.path &&
    IsChain([start] + e.path)
  }

  /** The boards an entry's path passes through before its own board have
      been expanded, and so has the start once the path is non-empty. */
  ghost predicate AncestorsExpanded(start: Board, e: Entry, visited: set<Board>) {
    (e.path != [] ==> start in visited) &&
    forall i :: 0 <= i < |e.path| - 1 ==> e.path[i] in visited
  }

  ghost predicate BestInv(start: Board, frontier: seq<Entry>, visited: set<Board>, expanded: seq<Board>) {
    (forall e :: e in frontier ==> EntryOk(start, e)) &&
    (forall e :: e in frontier ==> AncestorsExpanded(start, e, visited)) &&
    ExpandedOnce(visited, expanded) &&
    (forall v, c :: v in visited && Step(v, c) ==> c in visited || c in BoardsOf(frontier)) &&
    (visited == {} ==> frontier == [Entry(start, [])]) &&
    (visited != {} ==> start in visited) &&
    Goal !in visited
  }

  /** Removing entry `k`: what remains is the rest, and the removed board. */
  lemma RemoveAt(frontier: seq<Entry>, k: int)
    requires 0 <= k < |frontier|
    ensures Removed(frontier, frontier[k], frontier[..k] + frontier[k + 1..])
  {
    assert frontier == frontier[..k] + [frontier[k]] + frontier[k + 1..];
    RemoveBoardAt(frontier, k);
  }

  lemma RemoveBoardAt(frontier: seq<Entry>, k: int)
    requires 0 <= k < |frontier|
    ensures var rest := frontier[..k] + frontier[k + 1..];
      forall c :: c in BoardsOf(frontier) <==> c == frontier[k].board || c in BoardsOf(rest)
  {
    var rest := frontier[..k] + frontier[k + 1..];
    forall c | c in BoardsOf(frontier)
      ensures c == frontier[k].board || c in BoardsOf(rest)
    {
      var i :| 0 <= i < |frontier| && BoardsOf(frontier)[i] == c;
      if i < k {
        assert BoardsOf(rest)[i] == c;
      } else if i > k {
        assert BoardsOf(rest)[i - 1] == c;
      }
    }
    forall c | c in BoardsOf(rest)
      ensures c in BoardsOf(frontier)
    {
      var i :| 0 <= i < |rest| && BoardsOf(rest)[i] == c;
      if i < k {
        assert BoardsOf(frontier)[i] == c;
      } else {
        assert BoardsOf(frontier)[i + 1] == c;
      }
    }
    assert BoardsOf(frontier)[k] == frontier[k].board;
  }

  lemma BoardsOfAppend(a: seq<Entry>, b: seq<Entry>)
    ensures forall c :: c in BoardsOf(a + b) <==> c in BoardsOf(a) || c in BoardsOf(b)
  {
    assert BoardsOf(a + b) == BoardsOf(a) + BoardsOf(b);
  }

  /** Appending a move to a chain. */
  lemma ChainExtend(q: seq<Board>, c: Board)
    requires |q| > 0 && IsChain(q) && Step(q[|q| - 1], c)
    ensures IsChain(q + [c])
  {
  }

  /** The entries pushed for the children of a well-formed entry are well
      formed, once the start has been visited. */
  lemma ChildEntriesOk(start: Board, parent: Entry, visited: set<Board>, e: Entry)
    requires EntryOk(start, parent) && start in visited && parent.board in visited
    requires e in ChildEntries(parent.path, Successors(parent.board), visited)
    ensures EntryOk(start, e)
  {
    assert e.board in Successors(parent.board) && e.board !in visited && e.path == parent.path + [e.board];
    ChildEntryOk(start, parent, e.board);
  }

  /** The entry for a child not equal to the start, one move from a
      well-formed entry's board, is well formed. */
  lemma ChildEntryOk(start: Board, parent: Entry, c: Board)
    requires EntryOk(start, parent) && Step(parent.board, c) && c != start
    ensures EntryOk(start, Entry(c, parent.path + [c]))
  {
    var b := parent.board;
    var q := [start] + parent.path;
    assert q[|q| - 1] == b;
    SuccessorPerm(b, c);
    ChainExtend(q, c);
    AppendAssoc([start], parent.path, [c]);
  }

  /** `rest` is `frontier` with `current` taken out. */
  ghost predicate Removed(frontier: seq<Entry>, current: Entry, rest: seq<Entry>) {
    (forall e :: e in frontier <==> e == current || e in rest) &&
    (forall c :: c in BoardsOf(frontier) <==> c == current.board || c in BoardsOf(rest))
  }

  /** The invariant holds before the first iteration. */
  lemma BestInvInit(start: Board)
    requires IsPerm(start)
    ensures BestInv(start, [Entry(start, [])], {}, [])
  {
    assert [start] + [] == [start];
  }

  /** The popped entry is well formed. */
  lemma PoppedEntryOk(start: Board, frontier: seq<Entry>, entry: Entry, rest: seq<Entry>, visited: set<Board>, expanded: seq<Board>)
    requires BestInv(start, frontier, visited, expanded) && Removed(frontier, entry, rest)
    ensures EntryOk(start, entry)
  {
    assert entry in frontier;
  }

  lemma BestPopKeeps(start: Board, frontier: seq<Entry>, current: Entry, rest: seq<Entry>, visited: set<Board>, expanded: seq<Board>)
    requires BestInv(start, frontier, visited, expanded)
    requires Removed(frontier, current, rest) && current.board in visited
    ensures BestInv(start, rest, visited, expanded)
  {
  }

  lemma BestExpandFrontier(start: Board, current: Entry, rest: seq<Entry>, visited: set<Board>, frontier': seq<Entry>)
    requires EntryOk(start, current) && (forall e :: e in rest ==> EntryOk(start, e))
    requires 0 in current.board && start in visited && current.board in visited
    requires frontier' == rest + ChildEntries(current.path, Successors(current.board), visited)
    ensures forall e :: e in frontier' ==> EntryOk(start, e)
  {
    forall e | e in frontier'
      ensures EntryOk(start, e)
    {
      if e !in rest {
        ChildEntriesOk(start, current, visited, e);
      }
    }
  }

  lemma BestExpandClosed(current: Board, rest: seq<Entry>, visited: set<Board>, path: seq<Board>, frontier': seq<Entry>)
    requires 0 in current
    requires forall v, c :: v in visited && Step(v, c) ==> c in visited || c == current || c in BoardsOf(rest)
    requires frontier' == rest + ChildEntries(path, Successors(current), visited + {current})
    ensures forall v, c :: v in visited + {current} && Step(v, c) ==> c in visited + {current} || c in BoardsOf(frontier')
  {
    BoardsOfAppend(rest, ChildEntries(path, Successors(current), visited + {current}));
  }

  /** Expanding `current`, taken from the frontier, neither the goal nor
      visited before: it joins the visited set and its unvisited children are
      pushed with their extended paths. */
  lemma BestExpandKeeps(start: Board, frontier: seq<Entry>, current: Entry, rest: seq<Entry>, visited: set<Board>,
                        expanded: seq<Board>, frontier': seq<Entry>)
    requires BestInv(start, frontier, visited, expanded)
    requires Removed(frontier, current, rest)
    requires current.board !in visited && current.board != Goal && 0 in current.board
    requires frontier' == rest + ChildEntries(current.path, Successors(current.board), visited + {current.board})
    ensures BestInv(start, frontier', visited + {current.board}, expanded + [current.board])
  {
    assert EntryOk(start, current);
    assert current in frontier;
    if visited == {} {
      assert current == Entry(start, []);
    }
    ExpandOnce(current.board, visited, expanded);
    BestExpandFrontier(start, current, rest, visited + {current.board}, frontier');
    BestExpandAncestors(start, current, rest, visited, frontier');
    BestExpandClosed(current.board, rest, visited, current.path, frontier');
  }

  /** After expanding `current`, every entry's earlier boards are expanded:
      a child's path is its parent's path, whose last board is the parent
      just expanded, plus the child. */
  lemma BestExpandAncestors(start: Board, current: Entry, rest: seq<Entry>, visited: set<Board>, frontier': seq<Entry>)
    requires AncestorsExpanded(start, current, visited) && (forall e :: e in rest ==> AncestorsExpanded(start, e, visited))
    requires start in visited + {current.board} && 0 in current.board
    requires current.path != [] ==> current.path[|current.path| - 1] == current.board
    requires frontier' == rest + ChildEntries(current.path, Successors(current.board), visited + {current.board})
    ensures forall e :: e in frontier' ==> AncestorsExpanded(start, e, visited + {current.board})
  {
    forall e | e in frontier'
      ensures AncestorsExpanded(start, e, visited + {current.board})
    {
      if e in rest {
        assert AncestorsExpanded(start, e, visited);
      } else {
        assert e.path == current.path + [e.board];
        ChildAncestors(start, current, visited, e);
      }
    }
  }

  /** A child's entry: its path is the parent's plus the child, so its
      earlier boards are the parent's earlier boards and the parent itself. */
  lemma ChildAncestors(start: Board, current: Entry, visited: set<Board>, e: Entry)
    requires AncestorsExpanded(start, current, visited) && start in visited + {current.board}
    requires current.path != [] ==> current.path[|current.path| - 1] == current.board
    requires e.path == current.path + [e.board]
    ensures AncestorsExpanded(start, e, visited + {current.board})
  {
    forall i | 0 <= i < |e.path| - 1
      ensures e.path[i] in visited + {current.board}
    {
      assert e.path[i] == current.path[i];
    }
  }

  /** What EntryOk says of an entry's path. */
  lemma EntryFacts(start: Board, e: Entry)
    requires EntryOk(start, e)
    ensures start !in e.path && (e.path == [] ==> e.board == start) && (e.path != [] ==> e.path[|e.path| - 1] == e.board)
    ensures IsChain([start] + e.path)
  {
  }

  /** The result returned when the goal entry is popped: its path with the
      goal appended once more. The facts required are those that EntryOk
      gives of the goal entry. */
  lemma GoalEntryResult(start: Board, p: seq<Board>)
    requires start !in p && (p == [] ==> start == Goal) && (p != [] ==> p[|p| - 1] == Goal)
    requires IsChain([start] + p)
    ensures start == Goal ==> p + [Goal] == [start]
    ensures start != Goal ==> GoalTwice(start, p + [Goal])
    ensures IsPathFromTo([start] + p, start, Goal)
  {
    assert p != [] ==> p[|p| - 1] in p;
    var path := p + [Goal];
    assert path[..|path| - 1] == p;
    var q := [start] + p;
    assert q[|q| - 1] == Goal;
  }

  /** Popping the goal entry: the path returned for it, and reachability. */
  lemma GoalPopped(start: Board, frontier: seq<Entry>, entry: Entry, rest: seq<Entry>, visited: set<Board>, expanded: seq<Board>)
    requires BestInv(start, frontier, visited, expanded)
    requires Removed(frontier, entry, rest) && entry.board == Goal
    ensures start == Goal ==> entry.path + [entry.board] == [start]
    ensures start != Goal ==> GoalTwice(start, entry.path + [entry.board])
    ensures start != Goal ==>
      start in expanded && forall i :: 0 <= i < |entry.path| - 1 ==> (entry.path + [entry.board])[i] in expanded
    ensures Reaches(start, Goal)
  {
    assert entry in frontier;
    EntryFacts(start, entry);
    GoalEntryResult(start, entry.path);
    PathReaches([start] + entry.path, start, Goal);
    GoalAncestors(start, entry, visited, expanded);
  }

  /** The boards of the returned result before its two goal boards, and the
      start, are expanded. */
  lemma GoalAncestors(start: Board, entry: Entry, visited: set<Board>, expanded: seq<Board>)
    requires AncestorsExpanded(start, entry, visited) && ExpandedOnce(visited, expanded)
    requires entry.board != start ==> entry.path != []
    ensures entry.board != start ==>
      start in expanded && forall i :: 0 <= i < |entry.path| - 1 ==> (entry.path + [entry.board])[i] in expanded
  {
    var path := entry.path + [entry.board];
    forall i | 0 <= i < |entry.path| - 1
      ensures path[i] in visited
    {
      assert path[i] == entry.path[i];
    }
  }

  /** A best-first result from a start that is not the goal: it ends with the
      goal twice, omits the start, and the start followed by all but its last
      entry is a chain of moves. */
  predicate GoalTwice(start: Board, path: seq<Board>) {
    |path| >= 2 && path[|path| - 1] == Goal && path[|path| - 2] == Goal &&
    start !in path && IsChain([start] + path[..|path| - 1])
  }

  // ---------------------------------------------------------------------------
  // The search.

  /** bestFirstSearch. On a goal start the result is [start]. Otherwise a
      non-empty result ends with the goal twice, omits the start, and the
      start followed by the result without its last entry is a chain of
      moves. The result is empty exactly when no chain of moves reaches the
      goal, and no board is expanded twice. */
  method BestFirstSearch(start: Board, heuristicType: int, g: int) returns (path: seq<Board>, ghost expanded: seq<Board>)
    requires IsPerm(start)
    ensures start == Goal ==> path == [start]
    ensures start != Goal && path != [] ==> GoalTwice(start, path)
    ensures path != [] <==> Reaches(start, Goal)
    ensures ExpandedBoards(expanded)
    ensures start != Goal && path != [] ==> start in expanded && forall i :: 0 <= i < |path| - 2 ==> path[i] in expanded
    ensures path == [] ==> start in expanded && forall v, c :: v in expanded && Step(v, c) ==> c in expanded
  {
    var frontier := [Entry(start, [])];
    var visited: set<Board> := {};
    expanded := [];
    BestInvInit(start);
    while frontier != []
      invariant BestInv(start, frontier, visited, expanded)
      decreases CellSeqs(|start|) - visited, |frontier|
    {
      var entry, rest := PopTop(heuristicType, g, frontier);
      var current, p := entry.board, entry.path;
      ghost var before := frontier;
      frontier := rest;
      var isGoal := CheckGoal(current);
      if isGoal {
        GoalPopped(start, before, entry, rest, visited, expanded);
        path := p + [current];
        return;
      }
      if current !in visited {
        PoppedEntryOk(start, before, entry, rest, visited, expanded);
        PermInCellSeqs(current);
        PermBlank(current);
        var children := GetPossibleMoves(current);
        frontier := PushEntries(p, children, visited + {current}, rest);
        BestExpandKeeps(start, before, entry, rest, visited, expanded, frontier);
        visited := visited + {current};
        expanded := expanded + [current];
      } else {
        BestPopKeeps(start, before, entry, rest, visited, expanded);
      }
    }
    path := [];
    ClosedUnreachable(visited, start, Goal);
  }

  /** From a start other than the goal, a result of the form bestFirstSearch
      returns is not a path from the start to the goal: it does not begin with
      the start, and its last two boards are equal, which no move produces. */
  lemma GoalTwiceIsNoPath(start: Board, path: seq<Board>)
    requires start != Goal && GoalTwice(start, path)
    ensures !IsPathFromTo(path, start, Goal)
    ensures !IsChain(path)
  {
    assert path[0] in path;
    GoalIsPerm();
    NoSelfStep(Goal);
    assert !Step(path[|path| - 2], path[|path| - 1]);
  }

  /** The result bestFirstSearch evidently intends, as the other two searches
      return it: the start followed by the path the goal entry carries. That
      is the result as written with the start put in front and the repeated
      goal dropped. */
  method CorrectedBestFirstSearch(start: Board, heuristicType: int, g: int) returns (path: seq<Board>, ghost expanded: seq<Board>)
    requires IsPerm(start)
    ensures path != [] ==> IsPathFromTo(path, start, Goal)
    ensures start == Goal ==> path == [start]
    ensures path != [] <==> Reaches(start, Goal)
    ensures ExpandedBoards(expanded)
    ensures path != [] ==> forall i :: 0 <= i < |path| - 1 ==> path[i] in expanded
    ensures path == [] ==> start in expanded && forall v, c :: v in expanded && Step(v, c) ==> c in expanded
  {
    var written;
    written, expanded := BestFirstSearch(start, heuristicType, g);
    if written == [] || start == Goal {
      path := written;
    } else {
      RepairedPath(start, written);
      RepairedExpanded(start, written, expanded);
      path := [start] + written[..|written| - 1];
    }
  }

  /** The boards of the repaired path before the goal are the start and the
      result's boards before its two goal boards. */
  lemma RepairedExpanded(start: Board, written: seq<Board>, expanded: seq<Board>)
    requires |written| >= 2 && start in expanded
    requires forall i :: 0 <= i < |written| - 2 ==> written[i] in expanded
    ensures var path := [start] + written[..|written| - 1];
      forall i :: 0 <= i < |path| - 1 ==> path[i] in expanded
  {
    var path := [start] + written[..|written| - 1];
    forall i | 0 <= i < |path| - 1
      ensures path[i] in expanded
    {
      if i > 0 {
        assert path[i] == written[i - 1];
      }
    }
  }

  /** Putting the start in front of such a result and dropping its repeated
      goal gives a path from the start to the goal. */
  lemma RepairedPath(start: Board, written: seq<Board>)
    requires GoalTwice(start, written)
    ensures IsPathFromTo([start] + written[..|written| - 1], start, Goal)
  {
    var p := [start] + written[..|written| - 1];
    assert p[|p| - 1] == written[|written| - 2];
  }
}
