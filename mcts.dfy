/** The search tree of the later revision (player::node): a node is a board
    with win/visit counters, its children held by value, and a pointer to
    its parent. Nodes live in an arena; a node's children are arena
    indices, all larger than its own, and the parent pointer is an index
    (-1 for the root's nullptr). Unlike the judge revision, a node keeps no
    candidate lists: every expansion and every playout draws a fresh
    shuffled order of all 81 cells. */
module Mcts {
  import opened Wrappers
  import opened Seqs
  import opened Board
  import opened Random

  datatype Node<B> = Node(
    state: B,         // the board this node is (node derives from board)
    move: Point,      // info().last_move: the move that led here (NoPoint at the root)
    parent: int,      // arena index of the parent node, -1 for the root
    child: seq<nat>,  // arena indices of the children, in expansion order
    win: nat,         // playouts through this node won by the side to move at the root
    visit: nat)       // playouts through this node

  /** ucb_score(): from the child's win and visit counts and its parent's
      visit count. The formula is floating point and stays abstract. */
  type Ucb = (nat, nat, nat) -> int

  /** The cells 0..80 that are legal for the side to move on b. */
  ghost function LegalSet<B>(g: Game<B>, b: B): set<Point> {
    set p | 0 <= p < Cells && g.legal(b, p)
  }

  /** is_selectable(): as many children as legal moves, and at least one
      legal move. */
  ghost predicate Selectable<B>(g: Game<B>, n: Node<B>) {
    |n.child| == |LegalSet(g, n.state)| && |LegalSet(g, n.state)| > 0
  }

  /** A child is its parent's board with the child's move played, and that
      move was legal there. */
  ghost predicate Link<B>(g: Game<B>, n: Node<B>, c: Node<B>) {
    && 0 <= c.move < Cells
    && g.legal(n.state, c.move)
    && c.state == g.place(n.state, c.move)
  }

  /** The moves of the children listed in ch (NoPoint for an index
      outside the arena, which the arena invariant rules out). */
  ghost function Moves<B>(nodes: seq<Node<B>>, ch: seq<nat>): (r: seq<Point>)
    ensures |r| == |ch| && forall k :: 0 <= k < |ch| && ch[k] < |nodes| ==> r[k] == nodes[ch[k]].move
  {
    seq(|ch|, k requires 0 <= k < |ch| => if ch[k] < |nodes| then nodes[ch[k]].move else NoPoint)
  }

  /** The invariant of node i: its children come after it, point back to it
      as their parent, extend its board by a legal move, and no move is
      expanded twice. */
  ghost predicate NodeOk<B>(g: Game<B>, nodes: seq<Node<B>>, i: nat)
    requires i < |nodes|
  {
    var n := nodes[i];
    && (forall k :: 0 <= k < |n.child| ==> i < n.child[k] < |nodes|)
    && (forall k :: 0 <= k < |n.child| ==> nodes[n.child[k]].parent == i)
    && (forall k :: 0 <= k < |n.child| ==> Link(g, n, nodes[n.child[k]]))
    && Distinct(Moves(nodes, n.child))
  }

  ghost predicate Shaped<B>(g: Game<B>, nodes: seq<Node<B>>) {
    && |nodes| > 0 && nodes[0].parent == -1
    && forall i :: 0 <= i < |nodes| ==> NodeOk(g, nodes, i)
  }

  /** Every legal move of node i is the move of one of its children. */
  ghost predicate Complete<B>(g: Game<B>, nodes: seq<Node<B>>, i: nat)
    requires i < |nodes|
  {
    forall p :: 0 <= p < Cells && g.legal(nodes[i].state, p) ==> p in Moves(nodes, nodes[i].child)
  }

  /** No node has won more playouts than it has seen. */
  ghost predicate Bounded<B>(nodes: seq<Node<B>>) {
    forall j :: 0 <= j < |nodes| ==> nodes[j].win <= nodes[j].visit
  }

  /** The visit counts of the nodes listed in ch (0 for an index outside
      the arena, which the arena invariant rules out). */
  ghost function ChildVisits<B>(nodes: seq<Node<B>>, ch: seq<nat>): (r: seq<int>)
    ensures |r| == |ch| && forall k :: 0 <= k < |ch| && ch[k] < |nodes| ==> r[k] == nodes[ch[k]].visit
  {
    seq(|ch|, k requires 0 <= k < |ch| => if ch[k] < |nodes| then nodes[ch[k]].visit else 0)
  }

  /** Every node has been through at least as many playouts as its
      children together: a playout through a child passed through it. */
  ghost predicate Tallied<B>(nodes: seq<Node<B>>) {
    forall i :: 0 <= i < |nodes| ==> Sum(ChildVisits(nodes, nodes[i].child)) <= nodes[i].visit
  }

  /** Every node but a childless root has been through at least one
      playout, so ucb_score() never divides by a zero visit count. */
  ghost predicate Visited<B>(nodes: seq<Node<B>>) {
    && |nodes| > 0
    && (forall j :: 0 < j < |nodes| ==> nodes[j].visit > 0)
    && (nodes[0].child != [] ==> nodes[0].visit > 0)
  }

  /** Between playouts, a node with children has been visited, and so has
      each of its children: the score of a child divides by the child's
      visits and takes the logarithm of its parent's. */
  lemma ScoredVisited<B>(g: Game<B>, nodes: seq<Node<B>>, i: nat)
    requires Shaped(g, nodes) && Visited(nodes) && i < |nodes| && nodes[i].child != []
    ensures nodes[i].visit > 0
    ensures forall k :: 0 <= k < |nodes[i].child| ==> nodes[i].child[k] < |nodes| && nodes[nodes[i].child[k]].visit > 0
  {
    assert NodeOk(g, nodes, i);
  }

  /** The expanded moves of a node are distinct legal moves, so there are
      never more children than legal moves, and there are as many exactly
      when every legal move has been expanded. */
  lemma ChildrenWithinLegal<B>(g: Game<B>, nodes: seq<Node<B>>, i: nat)
    requires Shaped(g, nodes) && i < |nodes|
    ensures |nodes[i].child| <= |LegalSet(g, nodes[i].state)|
    ensures |nodes[i].child| == |LegalSet(g, nodes[i].state)| <==> Complete(g, nodes, i)
  {
    var n := nodes[i];
    assert NodeOk(g, nodes, i);
    var ms := Moves(nodes, n.child);
    var done := set p | p in ms;
    var legal := LegalSet(g, n.state);
    DistinctCard(ms);
    forall p | p in done ensures p in legal {
      var k :| 0 <= k < |ms| && ms[k] == p;
      assert Link(g, n, nodes[n.child[k]]);
    }
    assert legal == done + (legal - done);
    assert |legal| == |done| + |legal - done|;
    if |n.child| == |legal| {
      assert legal - done == {};
      forall p | 0 <= p < Cells && g.legal(n.state, p) ensures p in ms {
        assert p in legal && p !in legal - done;
      }
    }
    if forall p :: 0 <= p < Cells && g.legal(n.state, p) ==> p in ms {
      forall p | p in legal ensures p in done {
        assert p in ms;
      }
      assert legal == done;
    }
  }

  /** A node that is not selectable either is terminal or still has a legal
      move that no child has taken. */
  lemma UnselectableCases<B>(g: Game<B>, nodes: seq<Node<B>>, i: nat)
    requires Shaped(g, nodes) && i < |nodes| && !Selectable(g, nodes[i])
    ensures LegalSet(g, nodes[i].state) == {} ||
            exists p :: 0 <= p < Cells && g.legal(nodes[i].state, p) && p !in Moves(nodes, nodes[i].child)
  {
    ChildrenWithinLegal(g, nodes, i);
    if LegalSet(g, nodes[i].state) != {} {
      assert |LegalSet(g, nodes[i].state)| > 0;
    }
  }

  /** The counting loop of is_selectable(): the number of cells 0..80 that
      are legal on b. */
  method CountLegal<B>(g: Game<B>, b: B) returns (n: nat)
    ensures n == |LegalSet(g, b)|
  {
    n := 0;
    for m := 0 to Cells
      invariant n == |set p | 0 <= p < m && g.legal(b, p)|
    {
      ghost var before := set p | 0 <= p < m && g.legal(b, p);
      ghost var after := set p | 0 <= p < m + 1 && g.legal(b, p);
      if g.legal(b, m) {
        assert after == before + {m};
        n := n + 1;
      } else {
        assert after == before;
      }
    }
  }

  /** all_moves(): the cells 0..80 in shuffled order, each once. */
  method AllMoves(engine: Engine) returns (moves: seq<Point>)
    modifies engine
    ensures |moves| == Cells && Distinct(moves)
    ensures forall p :: p in moves <==> 0 <= p < Cells
  {
    var ordered: seq<Point> := [];
    for m := 0 to Cells
      invariant |ordered| == m && Distinct(ordered)
      invariant forall p :: p in ordered <==> 0 <= p < m
    {
      DistinctSnoc(ordered, m);
      ordered := ordered + [m];
    }
    moves := Shuffle(ordered, engine);
    DistinctSub(moves, ordered);
    forall p ensures p in moves <==> p in ordered {
      assert p in multiset(moves) <==> p in multiset(ordered);
    }
  }

  /** The index of the first move of moves that is legal on b, or |moves|
      when there is none. */
  method FirstLegal<B>(g: Game<B>, b: B, moves: seq<Point>) returns (k: nat)
    ensures k <= |moves| && forall j :: 0 <= j < k ==> !g.legal(b, moves[j])
    ensures k < |moves| ==> g.legal(b, moves[k])
  {
    k := 0;
    while k < |moves| && !g.legal(b, moves[k])
      invariant k <= |moves| && forall j :: 0 <= j < k ==> !g.legal(b, moves[j])
    {
      k := k + 1;
    }
  }

  /** The counters of b are those of a (zero for nodes a does not have),
      plus one visit and z wins for each node on path. */
  ghost predicate Counted<B>(a: seq<Node<B>>, b: seq<Node<B>>, path: seq<nat>, z: nat) {
    && |a| <= |b|
    && forall j :: 0 <= j < |b| ==>
         && b[j].visit == (if j < |a| then a[j].visit else 0) + (if j in path then 1 else 0)
         && b[j].win == (if j < |a| then a[j].win else 0) + (if j in path then z else 0)
  }

  /** A search path: from the root, each node a child of the one before, at
      strictly increasing arena indices. */
  ghost predicate IsPath<B>(nodes: seq<Node<B>>, path: seq<nat>) {
    && |path| > 0 && path[0] == 0
    && (forall k :: 0 <= k < |path| ==> path[k] < |nodes|)
    && (forall k, m :: 0 <= k < m < |path| ==> path[k] < path[m])
    && (forall k :: 0 <= k < |path| - 1 ==> path[k + 1] in nodes[path[k]].child)
  }

  /** A path extended by a child of its last node, at a larger index. */
  lemma PathSnoc<B>(nodes: seq<Node<B>>, path: seq<nat>, x: nat)
    requires IsPath(nodes, path) && x < |nodes| && path[|path| - 1] < x && x in nodes[path[|path| - 1]].child
    ensures IsPath(nodes, path + [x])
  {
    var q := path + [x];
    assert forall k :: 0 <= k < |path| ==> q[k] == path[k];
  }

  /** The arena after expand() adds a child to node i: node i has the new
      index appended to its children, and the new node is node i's board
      with a legal move played that no child of node i had taken. */
  ghost predicate Added<B>(g: Game<B>, a: seq<Node<B>>, b: seq<Node<B>>, i: nat)
    requires i < |a| && NodeOk(g, a, i)
  {
    var n := a[i];
    && |b| == |a| + 1
    && var c := b[|a|];
    && b[..|a|] == a[i := n.(child := n.child + [|a|])]
    && c.parent == i && c.child == [] && c.win == 0 && c.visit == 0
    && 0 <= c.move < Cells && g.legal(n.state, c.move) && c.move !in Moves(a, n.child)
    && c.state == g.place(n.state, c.move)
  }

  /** A node whose children's boards, moves and parents are untouched keeps
      its links. */
  lemma LinksKeep<B>(g: Game<B>, a: seq<Node<B>>, b: seq<Node<B>>, j: nat)
    requires Shaped(g, a) && j < |a| <= |b|
    requires b[j].child == a[j].child && b[j].state == a[j].state
    requires forall k :: 0 <= k < |a| ==> b[k].move == a[k].move && b[k].state == a[k].state && b[k].parent == a[k].parent
    ensures NodeOk(g, b, j)
  {
    var n := a[j];
    assert NodeOk(g, a, j);
    assert Moves(b, n.child) == Moves(a, n.child);
    forall k | 0 <= k < |n.child| ensures Link(g, b[j], b[n.child[k]]) {
      assert Link(g, n, a[n.child[k]]);
    }
  }

  /** Adding a child keeps the arena invariant. */
  lemma AddedShaped<B>(g: Game<B>, a: seq<Node<B>>, b: seq<Node<B>>, i: nat)
    requires Shaped(g, a) && i < |a| && NodeOk(g, a, i) && Added(g, a, b, i)
    ensures Shaped(g, b)
    ensures Counted(a, b, [], 0)
    ensures forall j :: 0 <= j < |a| ==> a[j].child <= b[j].child && b[j].state == a[j].state
  {
    forall k | 0 <= k < |a|
      ensures b[k].move == a[k].move && b[k].state == a[k].state && b[k].parent == a[k].parent
      ensures b[k].visit == a[k].visit && b[k].win == a[k].win && a[k].child <= b[k].child
      ensures k != i ==> b[k].child == a[k].child
    {
      assert b[k] == b[..|a|][k];
    }
    forall j | 0 <= j < |b| ensures NodeOk(g, b, j) {
      if j == |a| {
        assert Moves(b, b[j].child) == [];
      } else if j != i {
        LinksKeep(g, a, b, j);
      } else {
        AddedParent(g, a, b, i);
      }
    }
  }

  /** Node i itself after the addition: its old children and the new one
      hang under it, and the new move differs from all the old ones. */
  lemma AddedParent<B>(g: Game<B>, a: seq<Node<B>>, b: seq<Node<B>>, i: nat)
    requires Shaped(g, a) && i < |a| && NodeOk(g, a, i) && Added(g, a, b, i)
    requires forall k :: 0 <= k < |a| ==> b[k].move == a[k].move && b[k].state == a[k].state && b[k].parent == a[k].parent
    ensures NodeOk(g, b, i)
  {
    var n, m, c := a[i], b[i], b[|a|];
    assert m == b[..|a|][i];
    assert m.child == n.child + [|a|];
    forall k | 0 <= k < |m.child| ensures Link(g, m, b[m.child[k]]) {
      if k < |n.child| {
        assert Link(g, n, a[n.child[k]]);
      }
    }
    assert Moves(b, m.child) == Moves(a, n.child) + [c.move];
    DistinctSnoc(Moves(a, n.child), c.move);
  }

  /** Adding a child keeps every search path of the old arena a path. */
  lemma AddedPath<B>(a: seq<Node<B>>, b: seq<Node<B>>, path: seq<nat>)
    requires IsPath(a, path) && |a| <= |b|
    requires forall j :: 0 <= j < |a| ==> a[j].child <= b[j].child
    ensures IsPath(b, path)
  {
    forall k | 0 <= k < |path| - 1 ensures path[k + 1] in b[path[k]].child {
      assert path[k + 1] in a[path[k]].child;
    }
  }

  /** Adding nodes, then crediting a path, credits the path. */
  lemma CountedCompose<B>(a: seq<Node<B>>, m: seq<Node<B>>, b: seq<Node<B>>, path: seq<nat>, z: nat)
    requires Counted(a, m, [], 0) && Counted(m, b, path, z) && |m| == |b|
    ensures Counted(a, b, path, z)
  {
  }

  /** Crediting a path through the root and through every new node keeps
      every node visited. */
  lemma VisitedAfter<B>(a: seq<Node<B>>, b: seq<Node<B>>, path: seq<nat>, z: nat)
    requires Visited(a) && Counted(a, b, path, z) && 0 in path
    requires forall j :: |a| <= j < |b| ==> j in path
    ensures Visited(b)
  {
  }

  /** A cycle credits a path from the root that ends at the new node,
      if any: every node stays visited. */
  lemma GrownVisited<B>(a: seq<Node<B>>, b: seq<Node<B>>, down: seq<nat>, path: seq<nat>, z: nat)
    requires Visited(a) && Counted(a, b, path, z) && |path| > 0 && path[0] == 0
    requires |b| == |a| ==> path == down
    requires |b| != |a| ==> |b| == |a| + 1 && path == down + [|a|]
    ensures Visited(b)
  {
    if |b| != |a| {
      assert path[|path| - 1] == |a|;
    }
    VisitedAfter(a, b, path, z);
  }

  /** Along a search path, each node after the first hangs under the one
      before it. */
  lemma PathParents<B>(g: Game<B>, nodes: seq<Node<B>>, path: seq<nat>)
    requires Shaped(g, nodes) && IsPath(nodes, path)
    ensures forall n :: 0 < n < |path| ==> nodes[path[n]].parent == path[n - 1]
  {
    forall n | 0 < n < |path| ensures nodes[path[n]].parent == path[n - 1] {
      PathParent(g, nodes, path[..n + 1]);
    }
  }

  /** Crediting a search path keeps each node's visits at least its
      children's together: a node on the path gains one visit and only the
      next node of the path among its children gains one, and a node off
      the path has no child on it. */
  lemma TalliedCredit<B>(g: Game<B>, a: seq<Node<B>>, b: seq<Node<B>>, path: seq<nat>, z: nat)
    requires Shaped(g, a) && Tallied(a) && IsPath(a, path) && Counted(a, b, path, z) && |a| == |b|
    requires forall j :: 0 <= j < |a| ==> b[j].child == a[j].child
    ensures Tallied(b)
  {
    PathParents(g, a, path);
    forall j | 0 <= j < |b| ensures Sum(ChildVisits(b, b[j].child)) <= b[j].visit {
      TalliedAt(g, a, b, path, z, j);
    }
  }

  /** TalliedCredit at node j. */
  lemma TalliedAt<B>(g: Game<B>, a: seq<Node<B>>, b: seq<Node<B>>, path: seq<nat>, z: nat, j: nat)
    requires Shaped(g, a) && Tallied(a) && IsPath(a, path) && Counted(a, b, path, z) && |a| == |b|
    requires forall n :: 0 < n < |path| ==> a[path[n]].parent == path[n - 1]
    requires j < |a| && b[j].child == a[j].child
    ensures Sum(ChildVisits(b, b[j].child)) <= b[j].visit
  {
    var ch := a[j].child;
    assert NodeOk(g, a, j);
    assert Sum(ChildVisits(a, ch)) <= a[j].visit;
    if m :| 0 <= m < |path| - 1 && path[m] == j {
      assert path[m + 1] in a[path[m]].child;
      var q :| 0 <= q < |ch| && ch[q] == path[m + 1];
      OtherChildrenOff(g, a, path, j, m, q);
      BumpedChildren(a, b, ch, q, path, z);
    } else {
      ChildrenOff(g, a, path, j);
      assert ChildVisits(b, ch) == ChildVisits(a, ch);
    }
  }

  /** Below a node on a search path, only the next node of the path is on
      it. */
  lemma OtherChildrenOff<B>(g: Game<B>, a: seq<Node<B>>, path: seq<nat>, j: nat, m: nat, q: nat)
    requires Shaped(g, a) && IsPath(a, path) && j < |a|
    requires forall n :: 0 < n < |path| ==> a[path[n]].parent == path[n - 1]
    requires m < |path| - 1 && path[m] == j && q < |a[j].child| && a[j].child[q] == path[m + 1]
    ensures forall k :: 0 <= k < |a[j].child| && k != q ==> a[j].child[k] !in path
  {
    var ch := a[j].child;
    assert NodeOk(g, a, j);
    forall k | 0 <= k < |ch| && k != q ensures ch[k] !in path {
      DistinctAt(Moves(a, ch), k, q);
      forall n | 0 <= n < |path| ensures path[n] != ch[k] {
        PathChild(g, a, path, j, k, n);
      }
    }
  }

  /** Below a node that is not followed on a search path, no node is on
      it. */
  lemma ChildrenOff<B>(g: Game<B>, a: seq<Node<B>>, path: seq<nat>, j: nat)
    requires Shaped(g, a) && IsPath(a, path) && j < |a|
    requires forall n :: 0 < n < |path| ==> a[path[n]].parent == path[n - 1]
    requires forall m :: 0 <= m < |path| - 1 ==> path[m] != j
    ensures forall k :: 0 <= k < |a[j].child| ==> a[j].child[k] !in path
  {
    forall k | 0 <= k < |a[j].child| ensures a[j].child[k] !in path {
      forall n | 0 <= n < |path| ensures path[n] != a[j].child[k] {
        PathChild(g, a, path, j, k, n);
      }
    }
  }

  /** When a path credits exactly one of the nodes listed in ch, their
      visits together gain one. */
  lemma BumpedChildren<B>(a: seq<Node<B>>, b: seq<Node<B>>, ch: seq<nat>, q: nat, path: seq<nat>, z: nat)
    requires Counted(a, b, path, z) && |a| == |b| && q < |ch| && ch[q] in path
    requires forall k :: 0 <= k < |ch| ==> ch[k] < |a|
    requires forall k :: 0 <= k < |ch| && k != q ==> ch[k] !in path
    ensures Sum(ChildVisits(b, ch)) == Sum(ChildVisits(a, ch)) + 1
  {
    SumBump(ChildVisits(a, ch), ChildVisits(b, ch), q);
  }

  /** Crediting a search path keeps the arena invariant, the counters in
      range, the order of growth and the tallies. */
  lemma CreditValid<B>(g: Game<B>, a: seq<Node<B>>, b: seq<Node<B>>, path: seq<nat>, z: nat)
    requires Shaped(g, a) && Bounded(a) && Settled(g, a) && Tallied(a) && IsPath(a, path) && z <= 1
    requires |a| == |b| && forall j :: 0 <= j < |b| ==> b[j] == a[j].(win := b[j].win, visit := b[j].visit)
    requires forall j :: 0 <= j < |b| ==>
               b[j].visit == a[j].visit + (if j in path then 1 else 0) &&
               b[j].win == a[j].win + (if j in path then z else 0)
    ensures Shaped(g, b) && Bounded(b) && Settled(g, b) && Tallied(b)
  {
    forall j | 0 <= j < |b| ensures NodeOk(g, b, j) {
      LinksKeep(g, a, b, j);
    }
    CountersSettled(g, a, b);
    assert Counted(a, b, path, z);
    TalliedCredit(g, a, b, path, z);
  }

  /** A child of node j met on a search path comes right after j there. */
  lemma PathChild<B>(g: Game<B>, a: seq<Node<B>>, path: seq<nat>, j: nat, k: nat, n: nat)
    requires Shaped(g, a) && IsPath(a, path) && j < |a| && k < |a[j].child| && n < |path|
    requires forall n :: 0 < n < |path| ==> a[path[n]].parent == path[n - 1]
    ensures path[n] == a[j].child[k] ==> 0 < n && path[n - 1] == j
  {
    assert NodeOk(g, a, j);
  }

  /** Adding a child, which has no visits yet, keeps each node's visits at
      least its children's together. */
  lemma AddedTallied<B>(g: Game<B>, a: seq<Node<B>>, b: seq<Node<B>>, i: nat)
    requires Shaped(g, a) && Tallied(a) && i < |a| && NodeOk(g, a, i) && Added(g, a, b, i)
    ensures Tallied(b)
  {
    AddedOld(g, a, b, i);
    forall j | 0 <= j < |b| ensures Sum(ChildVisits(b, b[j].child)) <= b[j].visit {
      if j < |a| {
        AddedTalliedAt(g, a, b, i, j);
      } else {
        assert ChildVisits(b, b[j].child) == [];
      }
    }
  }

  /** AddedTallied at an old node j. */
  lemma AddedTalliedAt<B>(g: Game<B>, a: seq<Node<B>>, b: seq<Node<B>>, i: nat, j: nat)
    requires Shaped(g, a) && Tallied(a) && i < |a| && j < |a| && |b| == |a| + 1 && b[|a|].visit == 0
    requires forall k :: 0 <= k < |a| ==> b[k].visit == a[k].visit
    requires b[j].visit == a[j].visit && b[j].child == if j == i then a[i].child + [|a|] else a[j].child
    ensures Sum(ChildVisits(b, b[j].child)) <= b[j].visit
  {
    assert NodeOk(g, a, j) && Sum(ChildVisits(a, a[j].child)) <= a[j].visit;
    assert ChildVisits(b, a[j].child) == ChildVisits(a, a[j].child);
    if j == i {
      assert ChildVisits(b, b[i].child) == ChildVisits(a, a[i].child) + [0];
    }
  }

  /** Every node but the root has its parent earlier in the arena. */
  ghost predicate Rooted<B>(nodes: seq<Node<B>>) {
    forall j :: 0 < j < |nodes| ==> 0 <= nodes[j].parent < j
  }

  /** A node has children only once its parent has expanded every legal
      move. Children are held by value, so a parent's child vector may
      move its elements when it grows; it grows only while none of them has
      children of its own, so no parent pointer is left dangling. */
  ghost predicate Settled<B>(g: Game<B>, nodes: seq<Node<B>>) {
    && Rooted(nodes)
    && forall j :: 0 < j < |nodes| && nodes[j].child != [] ==> Complete(g, nodes, nodes[j].parent)
  }

  /** A node that can still gain a child has no grandchildren. */
  lemma GrowingHasBareChildren<B>(g: Game<B>, nodes: seq<Node<B>>, i: nat)
    requires Shaped(g, nodes) && Settled(g, nodes) && i < |nodes| && !Complete(g, nodes, i)
    ensures forall k :: 0 <= k < |nodes[i].child| ==> nodes[i].child[k] < |nodes| && nodes[nodes[i].child[k]].child == []
  {
    assert NodeOk(g, nodes, i);
    forall k | 0 <= k < |nodes[i].child| ensures nodes[i].child[k] < |nodes| && nodes[nodes[i].child[k]].child == [] {
    }
  }

  /** Completeness of node p depends only on its board, its children and
      their moves. */
  lemma CompleteKeeps<B>(g: Game<B>, a: seq<Node<B>>, b: seq<Node<B>>, p: nat)
    requires Shaped(g, a) && p < |a| <= |b| && Complete(g, a, p)
    requires b[p].state == a[p].state && b[p].child == a[p].child
    requires forall k :: 0 <= k < |a| ==> b[k].move == a[k].move
    ensures Complete(g, b, p)
  {
    assert NodeOk(g, a, p);
    assert Moves(b, b[p].child) == Moves(a, a[p].child);
  }

  /** Changing only counters keeps the order of growth. */
  lemma CountersSettled<B>(g: Game<B>, a: seq<Node<B>>, b: seq<Node<B>>)
    requires Shaped(g, a) && Settled(g, a) && |a| == |b|
    requires forall j :: 0 <= j < |a| ==> b[j] == a[j].(win := b[j].win, visit := b[j].visit)
    ensures Settled(g, b)
  {
    forall j | 0 < j < |b| ensures 0 <= b[j].parent < j {
      assert b[j].parent == a[j].parent;
    }
    forall j | 0 < j < |b| && b[j].child != [] ensures Complete(g, b, b[j].parent) {
      assert b[j].parent == a[j].parent && a[j].child != [];
      assert b[a[j].parent] == a[a[j].parent].(win := b[a[j].parent].win, visit := b[a[j].parent].visit);
      CompleteKeeps(g, a, b, a[j].parent);
    }
  }

  /** What adding a child to node i leaves of the old nodes. */
  lemma AddedOld<B>(g: Game<B>, a: seq<Node<B>>, b: seq<Node<B>>, i: nat)
    requires i < |a| && NodeOk(g, a, i) && Added(g, a, b, i)
    ensures forall k :: 0 <= k < |a| ==>
              && b[k].move == a[k].move && b[k].state == a[k].state && b[k].parent == a[k].parent
              && a[k].child <= b[k].child && (k != i ==> b[k] == a[k])
    ensures b[i].child == a[i].child + [|a|]
  {
    forall k | 0 <= k < |a|
      ensures b[k].move == a[k].move && b[k].state == a[k].state && b[k].parent == a[k].parent
      ensures a[k].child <= b[k].child && (k != i ==> b[k] == a[k])
    {
      assert b[k] == b[..|a|][k];
    }
    assert b[i] == b[..|a|][i];
  }

  /** Adding a child to node i keeps every node hanging under an earlier
      one. */
  lemma AddedRooted<B>(g: Game<B>, a: seq<Node<B>>, b: seq<Node<B>>, i: nat)
    requires Rooted(a) && i < |a| && NodeOk(g, a, i) && Added(g, a, b, i)
    ensures Rooted(b)
  {
    AddedOld(g, a, b, i);
    forall j | 0 < j < |b| ensures 0 <= b[j].parent < j {
    }
  }

  /** Adding a child to node i, whose parent has expanded every legal move,
      keeps the order of growth. */
  lemma AddedSettled<B>(g: Game<B>, a: seq<Node<B>>, b: seq<Node<B>>, i: nat)
    requires Shaped(g, a) && Settled(g, a) && i < |a| && NodeOk(g, a, i) && Added(g, a, b, i)
    requires i > 0 ==> Complete(g, a, a[i].parent)
    ensures Settled(g, b)
  {
    assert b[|a|].move !in Moves(a, a[i].child);
    assert !Complete(g, a, i);
    AddedOld(g, a, b, i);
    AddedRooted(g, a, b, i);
    GrowthComplete(g, a, b, i);
  }

  /** Node i gains children while incomplete and its parent is complete:
      every node with children still has a complete parent. */
  lemma GrowthComplete<B>(g: Game<B>, a: seq<Node<B>>, b: seq<Node<B>>, i: nat)
    requires Shaped(g, a) && Settled(g, a) && Rooted(b) && i < |a| < |b| && |b| == |a| + 1
    requires !Complete(g, a, i) && (i > 0 ==> Complete(g, a, a[i].parent)) && b[|a|].child == []
    requires forall k :: 0 <= k < |a| ==>
               && b[k].move == a[k].move && b[k].state == a[k].state && b[k].parent == a[k].parent
               && a[k].child <= b[k].child && (k != i ==> b[k] == a[k])
    ensures forall j :: 0 < j < |b| && b[j].child != [] ==> Complete(g, b, b[j].parent)
  {
    forall j | 0 < j < |b| && b[j].child != [] ensures Complete(g, b, b[j].parent) {
      CompleteKeeps(g, a, b, a[j].parent);
    }
  }

  /** On a search path, each node's parent is the node before it. */
  lemma PathParent<B>(g: Game<B>, nodes: seq<Node<B>>, path: seq<nat>)
    requires Shaped(g, nodes) && IsPath(nodes, path) && |path| > 1
    ensures nodes[path[|path| - 1]].parent == path[|path| - 2]
  {
    var i, c := path[|path| - 2], path[|path| - 1];
    assert NodeOk(g, nodes, i) && c in nodes[i].child;
    var k :| 0 <= k < |nodes[i].child| && nodes[i].child[k] == c;
  }

  /** Expanding the last node of a path whose second-to-last node is
      selectable keeps the order of growth. */
  lemma ExtendSettled<B>(g: Game<B>, a: seq<Node<B>>, b: seq<Node<B>>, path: seq<nat>)
    requires Shaped(g, a) && Settled(g, a) && IsPath(a, path)
    requires |path| > 1 ==> Selectable(g, a[path[|path| - 2]])
    requires NodeOk(g, a, path[|path| - 1]) && Added(g, a, b, path[|path| - 1])
    ensures Settled(g, b)
  {
    var i := path[|path| - 1];
    if |path| > 1 {
      PathParent(g, a, path);
      ChildrenWithinLegal(g, a, path[|path| - 2]);
    } else {
      assert i == 0;
    }
    AddedSettled(g, a, b, i);
  }

  class Tree<B(!new)> {
    const game: Game<B>
    var nodes: seq<Node<B>>

    /** The arena invariant, on a game that obeys the rules' basic facts. */
    ghost predicate Wf()
      reads this
    {
      Sound(game) && Shaped(game, nodes)
    }

    /** Wf, with the counters in range. */
    ghost predicate Valid()
      reads this
    {
      Wf() && Bounded(nodes) && Settled(game, nodes) && Tallied(nodes)
    }

    /** node(state): a root with no parent, no children and zero counters. */
    constructor (g: Game<B>, s: B)
      requires Sound(g)
      ensures game == g && Valid() && Visited(nodes)
      ensures nodes == [Node(s, NoPoint, -1, [], 0, 0)]
    {
      game := g;
      nodes := [Node(s, NoPoint, -1, [], 0, 0)];
      new;
      assert Moves(nodes, []) == [];
      assert NodeOk(g, nodes, 0);
    }

    /** is_selectable(): as many children as legal moves, and at least one. */
    method IsSelectable(i: nat) returns (r: bool)
      requires Wf() && i < |nodes|
      ensures r <==> Selectable(game, nodes[i])
    {
      var count := CountLegal(game, nodes[i].state);
      r := |nodes[i].child| == count && count > 0;
    }

    /** The inner find_if of expand(): whether some child of node i has
        last move m. */
    method IsExpanded(i: nat, m: Point) returns (r: bool)
      requires Wf() && i < |nodes|
      ensures r <==> m in Moves(nodes, nodes[i].child)
    {
      var ch := nodes[i].child;
      assert NodeOk(game, nodes, i);
      var ms := Moves(nodes, ch);
      for k := 0 to |ch|
        invariant forall j :: 0 <= j < k ==> ms[j] != m
      {
        if nodes[ch[k]].move == m {
          return true;
        }
      }
      return false;
    }

    /** The outer find_if of expand(): the index of the first move of
        moves that no child of node i has taken and that is legal on node
        i's board, or |moves| when there is none. */
    method FirstUnexpanded(i: nat, moves: seq<Point>) returns (k: nat)
      requires Wf() && i < |nodes|
      ensures k <= |moves|
      ensures forall j :: 0 <= j < k ==> moves[j] in Moves(nodes, nodes[i].child) || !game.legal(nodes[i].state, moves[j])
      ensures k < |moves| ==> moves[k] !in Moves(nodes, nodes[i].child) && game.legal(nodes[i].state, moves[k])
    {
      k := 0;
      while k < |moves|
        invariant k <= |moves|
        invariant forall j :: 0 <= j < k ==> moves[j] in Moves(nodes, nodes[i].child) || !game.legal(nodes[i].state, moves[j])
      {
        var expanded := IsExpanded(i, moves[k]);
        if !expanded && game.legal(nodes[i].state, moves[k]) {
          return;
        }
        k := k + 1;
      }
    }

    /** expand(): in a fresh shuffled order of all cells, find the first
        move no child has taken and the board accepts; play it on a copy of
        the board as a new child. With no such move the node itself comes
        back (a terminal node, or one whose every legal move is taken) and
        nothing changes. */
    method Expand(i: nat, engine: Engine) returns (leaf: nat, ghost moves: seq<Point>)
      requires Wf() && i < |nodes|
      modifies this, engine
      ensures Wf() && NodeOk(game, old(nodes), i)
      ensures |moves| == Cells && Distinct(moves) && forall p :: p in moves <==> 0 <= p < Cells
      ensures leaf == i <==> old(Complete(game, nodes, i))
      ensures leaf == i ==> nodes == old(nodes)
      ensures leaf != i ==> leaf == |old(nodes)| && Added(game, old(nodes), nodes, i)
      ensures leaf != i ==>
                exists k :: 0 <= k < |moves| && moves[k] == nodes[leaf].move &&
                  forall j :: 0 <= j < k ==>
                    moves[j] in Moves(old(nodes), old(nodes[i].child)) || !game.legal(old(nodes[i].state), moves[j])
    {
      assert NodeOk(game, nodes, i);
      var n := nodes[i];
      var all := AllMoves(engine);
      moves := all;
      var k := FirstUnexpanded(i, all);
      if k == |all| {
        forall p | 0 <= p < Cells && game.legal(n.state, p) ensures p in Moves(nodes, n.child) {
          assert p in all;
          var j :| 0 <= j < |all| && all[j] == p;
        }
        return i, moves;
      }
      var p := all[k];
      assert p in all;
      ghost var a := nodes;
      nodes := nodes[i := n.(child := n.child + [|nodes|])] + [Node(game.place(n.state, p), p, i, [], 0, 0)];
      assert nodes[..|a|] == a[i := n.(child := n.child + [|a|])];
      AddedShaped(game, a, nodes, i);
      leaf := |nodes| - 1;
      assert nodes[leaf].move == p;
      assert game.legal(n.state, p) && p !in Moves(a, n.child);
    }

    /** simulate(): from node i's board, keep playing the first legal move
        of one fresh shuffled order of all cells until none is legal; the
        winner is the side that moved last. */
    method Simulate(i: nat, engine: Engine) returns (winner: Color, ghost last: B, ghost placed: seq<Point>)
      requires Wf() && i < |nodes|
      modifies engine
      ensures Replay(game, nodes[i].state, placed) == Some(last)
      ensures forall p :: 0 <= p < Cells ==> !game.legal(last, p)
      ensures winner == Opponent(game.turn(last))
    {
      var moves := AllMoves(engine);
      var rollout := nodes[i].state;
      placed := [];
      var k: nat := FirstLegal(game, rollout, moves);
      while k < |moves|
        invariant k <= |moves|
        invariant forall j :: 0 <= j < k ==> !game.legal(rollout, moves[j])
        invariant k < |moves| ==> game.legal(rollout, moves[k])
        invariant Replay(game, nodes[i].state, placed) == Some(rollout)
        decreases Free(game, rollout)
      {
        var p := moves[k];
        assert p in moves;
        PlaceShrinksFree(game, rollout, p);
        assert (placed + [p])[..|placed|] == placed;
        placed := placed + [p];
        rollout := game.place(rollout, p);
        k := FirstLegal(game, rollout, moves);
      }
      forall p | 0 <= p < Cells ensures !game.legal(rollout, p) {
        assert p in moves;
      }
      winner, last := Opponent(game.turn(rollout)), rollout;
    }

    /** update(path, winner): every node on the path gains a visit, and a
        win when the winner is the side to move at the root. */
    method Update(path: seq<nat>, winner: Color)
      requires Valid() && IsPath(nodes, path)
      modifies this
      ensures Valid() && |nodes| == |old(nodes)|
      ensures forall j :: 0 <= j < |nodes| ==> nodes[j] == old(nodes[j]).(win := nodes[j].win, visit := nodes[j].visit)
      ensures Counted(old(nodes), nodes, path, if winner == game.turn(nodes[0].state) then 1 else 0)
    {
      var z := if winner == game.turn(nodes[0].state) then 1 else 0;
      ghost var a := nodes;
      for k := 0 to |path|
        invariant |nodes| == |a|
        invariant forall j :: 0 <= j < |nodes| ==> nodes[j] == a[j].(win := nodes[j].win, visit := nodes[j].visit)
        invariant forall j :: 0 <= j < |nodes| ==>
                    nodes[j].visit == a[j].visit + (if j in path[..k] then 1 else 0) &&
                    nodes[j].win == a[j].win + (if j in path[..k] then z else 0)
      {
        assert path[..k + 1] == path[..k] + [path[k]];
        assert path[k] !in path[..k];
        var n := nodes[path[k]];
        nodes := nodes[path[k] := n.(win := n.win + z, visit := n.visit + 1)];
      }
      assert path[..|path|] == path;
      CreditValid(game, a, nodes, path, z);
    }

    /** The ucb scores of node i's children, each read against its own
        parent's visit count. */
    function Scores(i: nat, ucb: Ucb): (r: seq<int>)
      reads this
      requires Wf() && i < |nodes|
      ensures |r| == |nodes[i].child|
      ensures forall k :: 0 <= k < |r| ==>
                && nodes[i].child[k] < |nodes| && nodes[nodes[i].child[k]].parent == i
                && r[k] == ucb(nodes[nodes[i].child[k]].win, nodes[nodes[i].child[k]].visit, nodes[i].visit)
    {
      var ns := nodes;
      var ch := ns[i].child;
      assert NodeOk(game, ns, i);
      seq(|ch|, k requires 0 <= k < |ch| && ch[k] < |ns| && 0 <= ns[ch[k]].parent < |ns| =>
        ucb(ns[ch[k]].win, ns[ch[k]].visit, ns[ns[ch[k]].parent].visit))
    }

    /** The visit counts of node i's children. */
    function Visits(i: nat): (r: seq<int>)
      reads this
      requires Wf() && i < |nodes|
      ensures |r| == |nodes[i].child|
      ensures forall k :: 0 <= k < |r| ==> nodes[i].child[k] < |nodes| && r[k] == nodes[nodes[i].child[k]].visit
    {
      var ns := nodes;
      var ch := ns[i].child;
      assert NodeOk(game, ns, i);
      seq(|ch|, k requires 0 <= k < |ch| && ch[k] < |ns| => ns[ch[k]].visit)
    }

    /** Node i is selectable and max_element by ucb picks its child j. */
    ghost predicate Chosen(i: nat, j: nat, ucb: Ucb)
      reads this
      requires Wf()
    {
      && i < |nodes| && Selectable(game, nodes[i])
      && exists m :: IsFirstMax(Scores(i, ucb), m) && j == nodes[i].child[m]
    }

    /** What select() returns: a search path along which every node but the
        last is selectable and chose the next, and whose last node is not
        selectable. */
    ghost predicate Selection(path: seq<nat>, ucb: Ucb)
      reads this
      requires Wf()
    {
      && IsPath(nodes, path)
      && !Selectable(game, nodes[path[|path| - 1]])
      && forall k :: 0 <= k < |path| - 1 ==> Chosen(path[k], path[k + 1], ucb)
    }

    /** Appending a choice keeps every earlier choice. */
    lemma ChosenSnoc(path: seq<nat>, x: nat, ucb: Ucb)
      requires Wf() && |path| > 0
      requires forall k :: 0 <= k < |path| - 1 ==> Chosen(path[k], path[k + 1], ucb)
      requires Chosen(path[|path| - 1], x, ucb)
      ensures forall k :: 0 <= k < |path| ==> Chosen((path + [x])[k], (path + [x])[k + 1], ucb)
    {
      forall k | 0 <= k < |path| ensures Chosen((path + [x])[k], (path + [x])[k + 1], ucb) {
        if k < |path| - 1 {
          assert (path + [x])[k] == path[k] && (path + [x])[k + 1] == path[k + 1];
        }
      }
    }

    /** A selection from an unselectable root is the root alone. */
    lemma SelectionAtRoot(path: seq<nat>, ucb: Ucb)
      requires Wf() && Selection(path, ucb)
      ensures !Selectable(game, nodes[0]) ==> path == [0]
    {
      if |path| > 1 {
        assert Chosen(path[0], path[1], ucb);
      }
    }

    /** select(): from the root, move to the first child of highest ucb
        while the current node is selectable. */
    method Select(ucb: Ucb) returns (path: seq<nat>)
      requires Wf()
      ensures Selection(path, ucb)
    {
      path := [0];
      var cur := 0;
      var selectable := IsSelectable(0);
      while selectable
        invariant IsPath(nodes, path) && cur == path[|path| - 1]
        invariant selectable <==> Selectable(game, nodes[cur])
        invariant forall k :: 0 <= k < |path| - 1 ==> Chosen(path[k], path[k + 1], ucb)
        decreases |nodes| - cur
      {
        assert NodeOk(game, nodes, cur);
        var k := FirstMax(Scores(cur, ucb));
        var next := nodes[cur].child[k];
        assert Chosen(cur, next, ucb);
        PathSnoc(nodes, path, next);
        ChosenSnoc(path, next, ucb);
        path := path + [next];
        cur := next;
        selectable := IsSelectable(cur);
      }
    }

    /** take_action() of a node: the last move of the first most visited
        child, for the side to move at node i; no action without children. */
    method Best(i: nat) returns (a: Action)
      requires Wf() && i < |nodes|
      ensures a == NoAction <==> nodes[i].child == []
      ensures a.Play? ==> exists k :: IsFirstMax(Visits(i), k) && nodes[i].child[k] < |nodes| &&
                                      a == Play(Move(nodes[nodes[i].child[k]].move, game.turn(nodes[i].state)))
      ensures a.Play? ==> a.move.color == game.turn(nodes[i].state) && 0 <= a.move.at < Cells &&
                          game.legal(nodes[i].state, a.move.at)
    {
      if nodes[i].child == [] {
        return NoAction;
      }
      var k := FirstMax(Visits(i));
      var c := nodes[i].child[k];
      assert NodeOk(game, nodes, i) && Link(game, nodes[i], nodes[c]);
      a := Play(Move(nodes[c].move, game.turn(nodes[i].state)));
    }

    /** The middle of a cycle: expand the last node of the selected path;
        a new child joins the path. Expansion happens exactly when that node
        has a legal move no child has taken. */
    method Extend(down: seq<nat>, engine: Engine) returns (trail: seq<nat>)
      requires Valid() && IsPath(nodes, down)
      requires |down| > 1 ==> Selectable(game, nodes[down[|down| - 2]])
      modifies this, engine
      ensures Valid() && IsPath(nodes, trail) && Counted(old(nodes), nodes, [], 0)
      ensures forall j :: 0 <= j < |old(nodes)| ==> old(nodes[j].child) <= nodes[j].child && nodes[j].state == old(nodes[j].state)
      ensures |nodes| == |old(nodes)| ==> trail == down
      ensures |nodes| != |old(nodes)| ==>
                && |nodes| == |old(nodes)| + 1 && trail == down + [|old(nodes)|]
                && nodes[down[|down| - 1]].child == old(nodes[down[|down| - 1]].child) + [|old(nodes)|]
      ensures |nodes| == |old(nodes)| <==> old(Complete(game, nodes, down[|down| - 1]))
    {
      var back := down[|down| - 1];
      ghost var start := nodes;
      var leaf, moves := Expand(back, engine);
      trail := down;
      if leaf != back {
        AddedShaped(game, start, nodes, back);
        ExtendSettled(game, start, nodes, down);
        AddedTallied(game, start, nodes, back);
        AddedPath(start, nodes, down);
        assert nodes[back] == nodes[..|start|][back];
        PathSnoc(nodes, down, leaf);
        trail := down + [leaf];
      }
    }

    /** The rest of a cycle after select(): expand the last node of the
        path, simulate from the leaf, and update the extended path. */
    method Grow(down: seq<nat>, engine: Engine) returns (trail: seq<nat>, winner: Color, ghost last: B, ghost placed: seq<Point>)
      requires Valid() && IsPath(nodes, down)
      requires |down| > 1 ==> Selectable(game, nodes[down[|down| - 2]])
      modifies this, engine
      ensures Valid() && IsPath(nodes, trail)
      ensures |nodes| == |old(nodes)| ==> trail == down
      ensures |nodes| != |old(nodes)| ==>
                && |nodes| == |old(nodes)| + 1 && trail == down + [|old(nodes)|]
                && nodes[down[|down| - 1]].child == old(nodes[down[|down| - 1]].child) + [|old(nodes)|]
      ensures |nodes| == |old(nodes)| <==> old(Complete(game, nodes, down[|down| - 1]))
      ensures forall j :: 0 <= j < |old(nodes)| ==> old(nodes[j].child) <= nodes[j].child && nodes[j].state == old(nodes[j].state)
      ensures Replay(game, nodes[trail[|trail| - 1]].state, placed) == Some(last)
      ensures forall p :: 0 <= p < Cells ==> !game.legal(last, p)
      ensures winner == Opponent(game.turn(last))
      ensures Counted(old(nodes), nodes, trail, if winner == game.turn(nodes[0].state) then 1 else 0)
    {
      trail := Extend(down, engine);
      winner, last, placed := Score(trail, engine, old(nodes));
    }

    /** Simulate from the last node of trail and update trail with the
        winner: after a growth step from start, the counters are those of
        start plus the credit for trail, and nothing else changes. */
    method Score(trail: seq<nat>, engine: Engine, ghost start: seq<Node<B>>) returns (winner: Color, ghost last: B, ghost placed: seq<Point>)
      requires Valid() && IsPath(nodes, trail) && Counted(start, nodes, [], 0)
      modifies this, engine
      ensures Valid() && |nodes| == |old(nodes)|
      ensures forall j :: 0 <= j < |nodes| ==> nodes[j] == old(nodes[j]).(win := nodes[j].win, visit := nodes[j].visit)
      ensures Replay(game, nodes[trail[|trail| - 1]].state, placed) == Some(last)
      ensures forall p :: 0 <= p < Cells ==> !game.legal(last, p)
      ensures winner == Opponent(game.turn(last))
      ensures Counted(start, nodes, trail, if winner == game.turn(nodes[0].state) then 1 else 0)
    {
      var who;
      who, last, placed := Simulate(trail[|trail| - 1], engine);
      winner := who;
      ghost var mid := nodes;
      Update(trail, who);
      CountedCompose(start, mid, nodes, trail, if winner == game.turn(nodes[0].state) then 1 else 0);
    }

    /** One cycle of run_mcts(): select a path, expand its last node (a new
        child joins the path), simulate from the leaf, and update the path
        with the winner. A childless root with a legal move always gains a
        child. */
    method Cycle(ucb: Ucb, engine: Engine)
      returns (ghost path: seq<nat>, ghost selected: seq<nat>, ghost winner: Color, ghost last: B, ghost placed: seq<Point>)
      requires Valid() && Visited(nodes)
      modifies this, engine
      ensures Valid() && Visited(nodes) && IsPath(nodes, path) && old(Selection(selected, ucb))
      ensures |nodes| == |old(nodes)| ==> path == selected
      ensures |nodes| != |old(nodes)| ==> |nodes| == |old(nodes)| + 1 && path == selected + [|old(nodes)|]
      ensures nodes[0].state == old(nodes[0].state)
      ensures forall j :: 0 <= j < |old(nodes)| ==> old(nodes[j].child) <= nodes[j].child
      ensures Replay(game, nodes[path[|path| - 1]].state, placed) == Some(last)
      ensures forall p :: 0 <= p < Cells ==> !game.legal(last, p)
      ensures winner == Opponent(game.turn(last))
      ensures Counted(old(nodes), nodes, path, if winner == game.turn(nodes[0].state) then 1 else 0)
      ensures old(nodes[0].child) == [] && LegalSet(game, old(nodes[0].state)) != {} ==> nodes[0].child != []
    {
      var down := Select(ucb);
      selected := down;
      if nodes[0].child == [] && LegalSet(game, nodes[0].state) != {} {
        SelectionAtRoot(down, ucb);
        var p :| p in LegalSet(game, nodes[0].state);
        assert !Complete(game, nodes, 0) by {
          assert p !in Moves(nodes, nodes[0].child);
        }
      }
      if |down| > 1 {
        assert Chosen(down[|down| - 2], down[|down| - 1], ucb);
      }
      var trail, who;
      trail, who, last, placed := Grow(down, engine);
      path, winner := trail, who;
      GrownVisited(old(nodes), nodes, down, path, if winner == game.turn(nodes[0].state) then 1 else 0);
    }

    /** run_mcts(N, engine): N cycles, then take_action(). The root gains
        N visits, and once there has been a cycle, the root has children
        iff its board has a legal move, so a move is found whenever one
        exists. */
    method RunMcts(count: nat, ucb: Ucb, engine: Engine) returns (a: Action)
      requires Valid() && Visited(nodes)
      modifies this, engine
      ensures Valid() && Visited(nodes) && nodes[0].state == old(nodes[0].state)
      ensures nodes[0].visit == old(nodes[0].visit) + count
      ensures a == NoAction <==> nodes[0].child == []
      ensures a.Play? ==> exists k :: IsFirstMax(Visits(0), k) && nodes[0].child[k] < |nodes| &&
                                      a == Play(Move(nodes[nodes[0].child[k]].move, game.turn(nodes[0].state)))
      ensures a.Play? ==> a.move.color == game.turn(nodes[0].state) && 0 <= a.move.at < Cells &&
                          game.legal(nodes[0].state, a.move.at)
      ensures count > 0 ==> (a == NoAction <==> forall p :: 0 <= p < Cells ==> !game.legal(nodes[0].state, p))
    {
      for t := 0 to count
        invariant Valid() && Visited(nodes) && nodes[0].state == old(nodes[0].state)
        invariant nodes[0].visit == old(nodes[0].visit) + t
        invariant t > 0 ==> (nodes[0].child == [] ==> LegalSet(game, nodes[0].state) == {})
      {
        ghost var before := nodes;
        var path, selected, winner, last, placed := Cycle(ucb, engine);
        assert path[0] == 0;
        if before[0].child != [] {
          assert before[0].child <= nodes[0].child;
        }
      }
      a := Best(0);
      if count > 0 && nodes[0].child == [] {
        forall p | 0 <= p < Cells ensures !game.legal(nodes[0].state, p) {
          assert p !in LegalSet(game, nodes[0].state);
        }
      }
    }
  }
}
