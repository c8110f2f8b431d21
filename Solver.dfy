/**
 * The A* search: two frontiers, one seeded with the board and one with its
 * twin, advanced in lockstep until one of them takes a goal board off.
 */
module Search {
  import opened Wrappers
  import opened Grids
  import opened Boards
  import opened Nodes
  import opened MinPQs

  /** step() skips a neighbor that equals the board of the node's predecessor. */
  predicate UndoesLastMove(min: SearchNode, child: Board): (u: bool)
    ensures min.prev.None? ==> !u
    ensures u ==> child.tiles == min.prev.value.board.tiles
  {
    min.prev.Some? && SameBoard(child, min.prev.value.board)
  }

  /** The nodes step() inserts for the boards cs, in order. */
  ghost function Expand(min: SearchNode, cs: seq<Board>): (xs: seq<SearchNode>)
    ensures |xs| <= |cs|
  {
    if cs == [] then []
    else
      var c := cs[|cs| - 1];
      Expand(min, cs[..|cs| - 1]) + (if UndoesLastMove(min, c) then [] else [NewNode(c, Some(min))])
  }

  /** The nodes step() inserts after removing min. */
  ghost function Children(min: SearchNode): (xs: seq<SearchNode>)
    requires ValidBoard(min.board)
    ensures |xs| <= |NeighborBoards(min.board)| <= 4
    ensures forall k :: 0 <= k < |xs| ==> xs[k].prev == Some(min) && xs[k].moves == min.moves + 1
  {
    ExpandShape(min, NeighborBoards(min.board));
    Expand(min, NeighborBoards(min.board))
  }

  /** A neighbor that does not undo the last move extends the chain of min. */
  lemma ChildChained(min: SearchNode, c: Board, root: Board)
    requires ChainFrom(min, root) && c in NeighborBoards(min.board) && !UndoesLastMove(min, c)
    ensures ValidBoard(c) && ChainFrom(NewNode(c, Some(min)), root)
  {
    NeighborIsSlide(min.board, c);
  }

  /** Each node Expand yields is the node step() makes for one of the boards, one that does not undo min's last move. */
  lemma {:induction false} ExpandShape(min: SearchNode, cs: seq<Board>)
    requires forall k :: 0 <= k < |cs| ==> ValidBoard(cs[k])
    ensures forall x :: x in Expand(min, cs) ==>
      && x.board in cs && !UndoesLastMove(min, x.board)
      && ValidBoard(x.board) && x == NewNode(x.board, Some(min))
  {
    if cs != [] {
      var p, c := cs[..|cs| - 1], cs[|cs| - 1];
      ExpandShape(min, p);
      assert forall x :: x in p ==> x in cs;
    }
  }

  /** Pairwise different boards lose at most one entry to the pruning; none if none undoes the last move. */
  lemma {:induction false} ExpandSize(min: SearchNode, cs: seq<Board>)
    requires forall k1, k2 :: 0 <= k1 < k2 < |cs| ==> cs[k1].tiles != cs[k2].tiles
    ensures |Expand(min, cs)| >= |cs| - 1
    ensures (forall k :: 0 <= k < |cs| ==> !UndoesLastMove(min, cs[k])) ==> |Expand(min, cs)| == |cs|
    ensures (exists k :: 0 <= k < |cs| && UndoesLastMove(min, cs[k])) ==> |Expand(min, cs)| == |cs| - 1
  {
    if cs != [] {
      var p, c := cs[..|cs| - 1], cs[|cs| - 1];
      ExpandSize(min, p);
      assert forall k :: 0 <= k < |p| ==> p[k].tiles != c.tiles;
      if UndoesLastMove(min, c) {
        assert forall k :: 0 <= k < |p| ==> !UndoesLastMove(min, p[k]);
      } else if exists k :: 0 <= k < |cs| && UndoesLastMove(min, cs[k]) {
        var k :| 0 <= k < |cs| && UndoesLastMove(min, cs[k]);
        assert k < |p| && p[k] == cs[k];
      }
    }
  }

  /** The predecessor's board is a neighbor of a chained node, the one the pruning test rejects. */
  lemma PredecessorPruned(min: SearchNode, root: Board)
    requires ChainFrom(min, root) && min.prev.Some?
    ensures min.prev.value.board in NeighborBoards(min.board)
    ensures UndoesLastMove(min, min.prev.value.board)
  {
    var p := min.prev.value.board;
    assert Slide(p, min.board);
    SlideIsNeighbor(p, min.board);
    NeighborSymmetric(p, min.board);
  }

  /**
   * step() inserts one node fewer than there are neighbors when min has a
   * predecessor, and one per neighbor for the initial node.
   */
  lemma ChildrenCount(min: SearchNode, root: Board)
    requires ChainFrom(min, root)
    ensures min.prev.Some? ==> |Children(min)| == |NeighborBoards(min.board)| - 1
    ensures min.prev.None? ==> |Children(min)| == |NeighborBoards(min.board)|
  {
    if min.prev.Some? {
      PredecessorPruned(min, root);
    }
    PrunedCount(min);
  }

  /** The count of ChildrenCount, from the predecessor's board being a neighbor. */
  lemma PrunedCount(min: SearchNode)
    requires ValidBoard(min.board)
    requires min.prev.Some? ==> min.prev.value.board in NeighborBoards(min.board)
    ensures min.prev.Some? ==> |Children(min)| == |NeighborBoards(min.board)| - 1
    ensures min.prev.None? ==> |Children(min)| == |NeighborBoards(min.board)|
  {
    var ns := NeighborBoards(min.board);
    NeighborsDistinct(min.board);
    ExpandSize(min, ns);
    if min.prev.Some? {
      var k :| 0 <= k < |ns| && ns[k] == min.prev.value.board;
      assert UndoesLastMove(min, ns[k]);
    }
  }

  /**
   * What step() inserts: at least one node, each a child of min one move
   * deeper, on a neighbor of min's board that does not undo min's last move.
   */
  lemma ChildrenShape(min: SearchNode, root: Board)
    requires ChainFrom(min, root)
    ensures |Children(min)| >= 1
    ensures forall x :: x in Children(min) ==>
      && x.prev == Some(min) && x.moves == min.moves + 1
      && x.board in NeighborBoards(min.board) && !UndoesLastMove(min, x.board)
      && ChainFrom(x, root)
  {
    var ns := NeighborBoards(min.board);
    NeighborCount(min.board);
    NeighborsDistinct(min.board);
    ExpandSize(min, ns);
    ExpandShape(min, ns);
    forall x | x in Children(min)
      ensures x.prev == Some(min) && x.moves == min.moves + 1 && ChainFrom(x, root)
    {
      ChildChained(min, x.board, root);
    }
  }

  /** Expand over one more board of cs appends that board's node, unless it undoes the last move. */
  lemma ExpandPrefix(min: SearchNode, cs: seq<Board>, k: int)
    requires 0 <= k < |cs|
    ensures Expand(min, cs[..k + 1]) ==
      Expand(min, cs[..k]) + (if UndoesLastMove(min, cs[k]) then [] else [NewNode(cs[k], Some(min))])
  {
    assert cs[..k + 1][..k] == cs[..k];
  }

  /**
   * The loop of step(): inserts a node for each board of children, in order,
   * except the one equal to the board before min.
   */
  method InsertChildren(pq: MinPQ, min: SearchNode, children: seq<Board>)
    requires forall k :: 0 <= k < |children| ==> |children[k].tiles| == children[k].n
    requires min.prev.Some? ==> |min.prev.value.board.tiles| == min.prev.value.board.n
    modifies pq
    ensures multiset(pq.items) == multiset(old(pq.items)) + multiset(Expand(min, children))
  {
    for k := 0 to |children|
      invariant multiset(pq.items) == multiset(old(pq.items)) + multiset(Expand(min, children[..k]))
    {
      var child := children[k];
      var undo := false;
      if min.prev.Some? {
        undo := Equals(child, min.prev.value.board);
      }
      assert undo == UndoesLastMove(min, child);
      ghost var added := if undo then [] else [NewNode(child, Some(min))];
      ExpandPrefix(min, children, k);
      assert multiset(Expand(min, children[..k + 1])) == multiset(Expand(min, children[..k])) + multiset(added);
      ghost var before := multiset(pq.items);
      if !undo {
        pq.Insert(NewNode(child, Some(min)));
      }
      assert multiset(pq.items) == before + multiset(added);
    }
    assert children[..|children|] == children;
  }

  /**
   * step(): removes a node of least priority and inserts a node for each of
   * its neighbors except the one that undoes its last move.
   */
  method Step(pq: MinPQ, ghost root: Board) returns (min: SearchNode)
    requires pq.items != []
    requires forall x :: x in pq.items ==> ChainFrom(x, root)
    modifies pq
    ensures min in old(pq.items)
    ensures forall x :: x in old(pq.items) ==> min.priority <= x.priority
    ensures ChainFrom(min, root)
    ensures multiset(pq.items) == multiset(old(pq.items)) - multiset{min} + multiset(Children(min))
    ensures forall x :: x in pq.items ==> ChainFrom(x, root)
    ensures |pq.items| >= |old(pq.items)|
  {
    min := pq.DelMin();
    ghost var rest := pq.items;
    var children := Neighbors(min.board);
    InsertChildren(pq, min, children);
    ChildrenShape(min, root);
    forall x | x in pq.items ensures ChainFrom(x, root) {
      assert x in multiset(pq.items);
      if x !in multiset(Children(min)) {
        assert x in multiset(rest);
      }
    }
  }

  /** A queue holding just the root node holds only chained nodes. */
  lemma OnlyRoot(items: seq<SearchNode>, root: Board)
    requires ValidBoard(root) && multiset(items) == multiset{NewNode(root, None)}
    ensures items != [] && forall x :: x in items ==> ChainFrom(x, root)
  {
    RootPath(root);
    assert NewNode(root, None) in multiset(items);
    forall x | x in items ensures ChainFrom(x, root) {
      assert x in multiset(items);
    }
  }

  /** How solve() ends: with a goal node of the board, with a goal of the twin, or with its fuel spent. */
  datatype Outcome = Solved(node: SearchNode) | NoSolution | OutOfFuel

  /**
   * solve(): advances the board's and the twin's frontiers one step each in
   * turn.  The source loops until one takes a goal off; here at most fuel
   * rounds are run.
   */
  method Solve(initial: Board, twin: Board, fuel: nat) returns (r: Outcome, ghost twinGoal: Option<SearchNode>)
    requires ValidBoard(initial) && ValidBoard(twin)
    ensures r.Solved? ==> ChainFrom(r.node, initial) && IsGoalGrid(r.node.board.tiles)
    ensures r.NoSolution? ==>
      twinGoal.Some? && ChainFrom(twinGoal.value, twin) && IsGoalGrid(twinGoal.value.board.tiles)
  {
    var mainPQ := new MinPQ();
    var twinPQ := new MinPQ();
    RootPath(initial);
    RootPath(twin);
    mainPQ.Insert(NewNode(initial, None));
    twinPQ.Insert(NewNode(twin, None));
    assert multiset(mainPQ.items) == multiset{NewNode(initial, None)};
    assert multiset(twinPQ.items) == multiset{NewNode(twin, None)};
    OnlyRoot(mainPQ.items, initial);
    OnlyRoot(twinPQ.items, twin);
    twinGoal := None;
    var round := 0;
    while round < fuel
      invariant mainPQ.items != [] && twinPQ.items != []
      invariant forall x :: x in mainPQ.items ==> ChainFrom(x, initial)
      invariant forall x :: x in twinPQ.items ==> ChainFrom(x, twin)
    {
      var current := Step(mainPQ, initial);
      var goal := IsGoal(current.board);
      if goal {
        return Solved(current), None;
      }
      var other := Step(twinPQ, twin);
      goal := IsGoal(other.board);
      if goal {
        return NoSolution, Some(other);
      }
      round := round + 1;
    }
    return OutOfFuel, None;
  }

  /** The solver: the goal node found for the initial board, if any. */
  class Solver {
    var result: Option<SearchNode>
    ghost const initial: Board
    /** The search stopped because its fuel ran out. */
    ghost const exhausted: bool
    /** The goal node the twin's frontier produced when the board is unsolvable. */
    ghost const twinGoal: Option<SearchNode>

    ghost predicate Valid()
      reads this
    {
      && ValidBoard(initial)
      && (result.Some? ==> ChainFrom(result.value, initial) && IsGoalGrid(result.value.board.tiles))
      && (result.None? && !exhausted ==>
            twinGoal.Some? && ChainFrom(twinGoal.value, TwinOf(initial))
            && IsGoalGrid(twinGoal.value.board.tiles))
    }

    constructor (initial: Board, fuel: nat)
      requires ValidBoard(initial)
      ensures Valid() && this.initial == initial
      ensures result.Some? ==> ChainFrom(result.value, initial) && IsGoalGrid(result.value.board.tiles)
      ensures result.None? && !exhausted ==>
        twinGoal.Some? && ChainFrom(twinGoal.value, TwinOf(initial)) && IsGoalGrid(twinGoal.value.board.tiles)
      ensures IsGoalGrid(initial.tiles) ==>
        && result == Some(NewNode(initial, None)) && !exhausted
        && Moves() == 0 && Path(result.value) == [initial]
    {
      this.initial := initial;
      var goal := IsGoal(initial);
      if goal {
        RootPath(initial);
        result := Some(NewNode(initial, None));
        exhausted := false;
        twinGoal := None;
      } else {
        var t := Twin(initial);
        var r: Outcome;
        ghost var w: Option<SearchNode>;
        r, w := Solve(initial, t, fuel);
        result := if r.Solved? then Some(r.node) else None;
        exhausted := r.OutOfFuel?;
        twinGoal := w;
      }
    }

    /**
     * isSolvable(): true exactly when the search of the initial board found a
     * goal; false after a completed search means the twin reached its goal.
     */
    function IsSolvable(): (s: bool)
      reads this
      requires Valid()
      ensures s <==> result.Some?
      ensures s ==> ChainFrom(result.value, initial) && IsGoalGrid(result.value.board.tiles)
      ensures !s && !exhausted ==>
        twinGoal.Some? && ChainFrom(twinGoal.value, TwinOf(initial)) && IsGoalGrid(twinGoal.value.board.tiles)
    {
      result.Some?
    }

    /** moves(): the goal node's move count, or -1 exactly when there is none. */
    function Moves(): (m: int)
      reads this
      requires Valid()
      ensures m == -1 <==> !IsSolvable()
      ensures IsSolvable() ==> m == result.value.moves && m >= 0
    {
      if result.Some? then
        PathShape(result.value, initial);
        result.value.moves
      else -1
    }

    /**
     * solution(): pushes the boards of the goal node's chain on a stack, goal
     * first, so that iterating the stack lists them from the initial board on.
     */
    method Solution() returns (s: Option<seq<Board>>)
      requires Valid()
      ensures s.None? <==> !IsSolvable()
      ensures s.Some? ==>
        && s.value == Path(result.value)
        && |s.value| == Moves() + 1
        && s.value[0] == initial
        && ValidBoard(s.value[|s.value| - 1]) && IsGoalGrid(s.value[|s.value| - 1].tiles)
        && forall k :: 0 <= k < |s.value| - 1 ==>
             ValidBoard(s.value[k]) && s.value[k + 1] in NeighborBoards(s.value[k])
    {
      if result.None? {
        return None;
      }
      var goal := result.value;
      var stack := PathBoards(goal);
      GoalPath(goal, initial);
      s := Some(stack);
    }
  }

  /**
   * The path of a goal node chained from root: moves + 1 boards from root to
   * the goal, each a neighbor of the one before.
   */
  lemma GoalPath(x: SearchNode, root: Board)
    requires ChainFrom(x, root) && IsGoalGrid(x.board.tiles)
    ensures |Path(x)| == x.moves + 1 && Path(x)[0] == root
    ensures ValidBoard(Path(x)[|Path(x)| - 1]) && IsGoalGrid(Path(x)[|Path(x)| - 1].tiles)
    ensures forall k :: 0 <= k < |Path(x)| - 1 ==> ValidBoard(Path(x)[k]) && Path(x)[k + 1] in NeighborBoards(Path(x)[k])
  {
    PathShape(x, root);
    PathNeighbors(x);
  }

  /** Along the path of a chain, each board is among the neighbors of the board before it. */
  lemma PathNeighbors(x: SearchNode)
    requires Slides(x)
    ensures forall k :: 0 <= k < |Path(x)| - 1 ==> ValidBoard(Path(x)[k]) && Path(x)[k + 1] in NeighborBoards(Path(x)[k])
  {
    var p := Path(x);
    PathSlides(x);
    forall k | 0 <= k < |p| - 1 ensures ValidBoard(p[k]) && p[k + 1] in NeighborBoards(p[k]) {
      SlideIsNeighbor(p[k], p[k + 1]);
    }
  }

  /**
   * The walk of solution(): follows prev from x and pushes each board on a
   * stack, so that the stack lists the chain root first.
   */
  method PathBoards(x: SearchNode) returns (stack: seq<Board>)
    ensures stack == Path(x)
  {
    stack := [];
    var cur := Some(x);
    while cur.Some?
      invariant PathOf(cur) + stack == Path(x)
      decreases cur
    {
      assert Path(cur.value) == PathOf(cur.value.prev) + [cur.value.board];
      stack := [cur.value.board] + stack;
      cur := cur.value.prev;
    }
  }

  /** The boards of a chain that may be absent. */
  ghost function PathOf(x: Option<SearchNode>): seq<Board> {
    match x
    case None => []
    case Some(n) => Path(n)
  }
}
