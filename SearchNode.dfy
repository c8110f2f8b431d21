/**
 * Search nodes: immutable back-pointer chains from a board to the root of a
 * search, each holding its move count and its A* priority.
 */
module Nodes {
  import opened Wrappers
  import opened Grids
  import opened Boards

  datatype SearchNode = SearchNode(board: Board, moves: int, prev: Option<SearchNode>, priority: int)

  /**
   * A node for board reached from prev: one move more than prev, or 0 at a
   * root, and for a valid board the priority Manhattan distance + moves.
   */
  function NewNode(board: Board, prev: Option<SearchNode>): (s: SearchNode)
    ensures s.board == board && s.prev == prev
    ensures s.moves == (if prev.None? then 0 else prev.value.moves + 1)
    ensures ValidBoard(board) ==> s.priority == ManhattanSum(board.tiles) + s.moves
  {
    var moves := if prev.None? then 0 else prev.value.moves + 1;
    SearchNode(board, moves, prev, board.cachedManhattan + moves)
  }

  /** compareTo: negative, zero or positive as a's priority is below, equal to or above b's. */
  function CompareTo(a: SearchNode, b: SearchNode): (c: int)
    ensures c < 0 <==> a.priority < b.priority
    ensures c == 0 <==> a.priority == b.priority
    ensures c > 0 <==> a.priority > b.priority
  {
    a.priority - b.priority
  }

  /** Both boards are the same dimension and grid, as Boards.Equals decides. */
  predicate SameBoard(a: Board, b: Board) {
    a.n == b.n && a.tiles == b.tiles
  }

  /** The relation equals() decides is reflexive and symmetric. */
  lemma SameBoardEquivalence(a: Board, b: Board)
    ensures SameBoard(a, a)
    ensures SameBoard(a, b) <==> SameBoard(b, a)
  {
  }

  /**
   * x heads a chain back to a root holding board root: every node has a valid
   * board and priority Manhattan + moves, the root has 0 moves and each link
   * adds one move.
   */
  ghost predicate Linked(x: SearchNode, root: Board)
    decreases x
  {
    && ValidBoard(x.board)
    && x.priority == ManhattanSum(x.board.tiles) + x.moves
    && match x.prev
       case None => x.moves == 0 && x.board == root
       case Some(p) => x.moves == p.moves + 1 && Linked(p, root)
  }

  /** Each link of the chain slides one tile, and no link undoes the move before it. */
  ghost predicate Slides(x: SearchNode)
    decreases x
  {
    match x.prev
    case None => true
    case Some(p) =>
      && Slide(p.board, x.board)
      && (p.prev.Some? ==> !SameBoard(x.board, p.prev.value.board))
      && Slides(p)
  }

  /** The invariant of every node a search creates from root. */
  ghost predicate ChainFrom(x: SearchNode, root: Board) {
    Linked(x, root) && Slides(x)
  }

  /** The boards of the chain, root first. */
  ghost function Path(x: SearchNode): seq<Board>
    decreases x
  {
    match x.prev
    case None => [x.board]
    case Some(p) => Path(p) + [x.board]
  }

  /** The node k links up the chain from x, or x's root if the chain is shorter. */
  ghost function Ancestor(x: SearchNode, k: nat): SearchNode
    decreases x
  {
    if k == 0 then x
    else match x.prev
      case None => x
      case Some(p) => Ancestor(p, k - 1)
  }

  /** Following prev from x, each link drops the move count by one, and after x.moves links the root is reached. */
  lemma {:induction false} AncestorMoves(x: SearchNode, root: Board, k: nat)
    requires Linked(x, root) && k <= x.moves
    ensures Linked(Ancestor(x, k), root)
    ensures Ancestor(x, k).moves == x.moves - k
    ensures k == x.moves ==> Ancestor(x, k).prev.None? && Ancestor(x, k).board == root
    decreases x
  {
    if k > 0 {
      match x.prev
      case None =>
      case Some(p) => AncestorMoves(p, root, k - 1);
    }
    else {
      MovesNonNegative(x, root);
      if x.moves == 0 && x.prev.Some? {
        MovesNonNegative(x.prev.value, root);
      }
    }
  }

  lemma {:induction false} MovesNonNegative(x: SearchNode, root: Board)
    requires Linked(x, root)
    ensures x.moves >= 0
    decreases x
  {
    match x.prev
    case None =>
    case Some(p) => MovesNonNegative(p, root);
  }

  /** The path of a chain has moves + 1 boards, starts at the root board and ends at the node's board. */
  lemma {:induction false} PathShape(x: SearchNode, root: Board)
    requires Linked(x, root)
    ensures x.moves >= 0
    ensures |Path(x)| == x.moves + 1
    ensures Path(x)[0] == root && Path(x)[|Path(x)| - 1] == x.board
    decreases x
  {
    match x.prev
    case None =>
    case Some(p) =>
      PathShape(p, root);
      assert Path(x) == Path(p) + [x.board];
  }

  /** Along the path of a chain, each board is one slide from the board before it. */
  lemma {:induction false} PathSlides(x: SearchNode)
    requires Slides(x)
    ensures forall k :: 0 <= k < |Path(x)| - 1 ==> Slide(Path(x)[k], Path(x)[k + 1])
    decreases x
  {
    match x.prev
    case None =>
    case Some(p) =>
      PathSlides(p);
      var q := Path(p);
      assert Path(x) == q + [x.board];
      assert q[|q| - 1] == p.board by {
        PathLast(p);
      }
  }

  lemma {:induction false} PathLast(x: SearchNode)
    ensures |Path(x)| >= 1 && Path(x)[|Path(x)| - 1] == x.board
    decreases x
  {
    match x.prev
    case None =>
    case Some(p) => PathLast(p);
  }

  /** A root node has no moves and its path is its board alone. */
  lemma RootPath(b: Board)
    requires ValidBoard(b)
    ensures ChainFrom(NewNode(b, None), b)
    ensures NewNode(b, None).moves == 0 && Path(NewNode(b, None)) == [b]
  {
  }
}
