/** The search tree of the judge revision (player::node): every node keeps
    its own board, the legal moves it has not expanded yet, the vacant cells
    its rollouts draw from, and win/visit counters. Nodes live in an arena;
    a node's children are arena indices, all larger than its own. */
module JudgeMcts {
  import opened Wrappers
  import opened Seqs
  import opened Board
  import opened Random

  datatype Node<B> = Node(
    state: B,            // the position of this node
    move: Move,          // the move that led here, in the colour that played it
    child: seq<nat>,     // arena indices of the children, in expansion order
    legal: seq<Point>,   // legal moves not expanded yet; expand takes the last
    empty: seq<Point>,   // the vacant cells, reordered by every rollout
    win: Option<Color>,  // the winner when the node was born without legal moves
    value: nat,          // playouts through this node won by the side to move at the root
    visit: nat)          // playouts through this node
  {
    /** is_fully_expanded(): some child exists and no legal move is left. */
    predicate IsFullyExpanded() {
      child != [] && legal == []
    }
  }

  /** The score select() maximises, from the depth of the selecting node
      (which fixes ps = psi^depth), its visits, and the child's value and
      visits. The UCB formula itself is floating point and stays abstract. */
  type Scorer = (nat, nat, nat, nat) -> int

  /** node(s, pempty, engine, p): the vacant cells of pempty in their order,
      the legal ones among them in some order, no children, zero counters,
      and a recorded winner (the side that just moved) iff no move is legal. */
  ghost predicate Born<B>(g: Game<B>, n: Node<B>, s: B, pempty: seq<Point>, at: Point) {
    && n.state == s
    && n.move == Move(at, Opponent(g.turn(s)))
    && n.empty == Keep(g.vacant, s, pempty)
    && multiset(n.legal) == multiset(Keep(g.legal, s, n.empty))
    && n.child == [] && n.value == 0 && n.visit == 0
    && n.win == (if n.legal == [] then Some(n.move.color) else None)
  }

  /** What holds of every node on its own: counters, colour, and the two
      candidate lists, which are duplicate-free, hold only legal moves and
      exactly the vacant cells respectively. */
  ghost predicate Local<B(!new)>(g: Game<B>, n: Node<B>) {
    && n.value <= n.visit
    && n.move.color == Opponent(g.turn(n.state))
    && Distinct(n.legal) && Distinct(n.empty)
    && (forall p :: p in n.legal ==> 0 <= p < Cells && g.legal(n.state, p))
    && (forall p :: p in n.empty <==> 0 <= p < Cells && g.vacant(n.state, p))
  }

  /** A child is its parent's board with the child's move played; that move
      was legal there and has left the parent's unexpanded list. */
  ghost predicate Parent<B>(g: Game<B>, n: Node<B>, c: Node<B>) {
    && 0 <= c.move.at < Cells
    && g.legal(n.state, c.move.at)
    && c.state == g.place(n.state, c.move.at)
    && c.move.at !in n.legal
  }

  /** The moves of the children listed in ch. */
  ghost function Moves<B>(nodes: seq<Node<B>>, ch: seq<nat>): (r: seq<Point>)
    requires forall k :: 0 <= k < |ch| ==> ch[k] < |nodes|
    ensures |r| == |ch| && forall k :: 0 <= k < |ch| ==> r[k] == nodes[ch[k]].move.at
  {
    seq(|ch|, k requires 0 <= k < |ch| => nodes[ch[k]].move.at)
  }

  /** The invariant of node i of the arena: it is locally sound, it has a
      recorded winner exactly when it has neither children nor unexpanded
      moves, its children come after it and hang under it, no move is
      expanded twice, and every legal move is either unexpanded or the move
      of a child. */
  ghost predicate NodeOk<B(!new)>(g: Game<B>, nodes: seq<Node<B>>, i: nat)
    requires i < |nodes|
  {
    var n := nodes[i];
    && Local(g, n)
    && n.win == (if n.child == [] && n.legal == [] then Some(n.move.color) else None)
    && (forall k :: 0 <= k < |n.child| ==> i < n.child[k] < |nodes|)
    && (forall k :: 0 <= k < |n.child| ==> Parent(g, n, nodes[n.child[k]]))
    && Distinct(Moves(nodes, n.child))
    && (forall p :: 0 <= p < Cells && g.legal(n.state, p) ==> p in n.legal || p in Moves(nodes, n.child))
  }

  ghost predicate Shaped<B(!new)>(g: Game<B>, nodes: seq<Node<B>>) {
    |nodes| > 0 && forall i :: 0 <= i < |nodes| ==> NodeOk(g, nodes, i)
  }

  /** Every node but a childless root has been through at least one playout,
      so the UCB of a child never divides by zero. */
  ghost predicate Visited<B>(nodes: seq<Node<B>>) {
    && |nodes| > 0
    && (forall j :: 0 < j < |nodes| ==> nodes[j].visit > 0)
    && (nodes[0].child != [] ==> nodes[0].visit > 0)
  }

  /** No node hangs under two nodes: a child index names one parent. */
  ghost predicate Unshared<B>(nodes: seq<Node<B>>) {
    forall i, j, k, m ::
      && 0 <= i < |nodes| && 0 <= j < |nodes| && 0 <= k < |nodes[i].child| && 0 <= m < |nodes[j].child|
      && nodes[i].child[k] == nodes[j].child[m]
      ==> i == j
  }

  /** The visit counts of the nodes listed in ch (0 for an index outside
      the arena, which the arena invariant rules out). */
  ghost function ChildVisits<B>(nodes: seq<Node<B>>, ch: seq<nat>): (r: seq<int>)
    ensures |r| == |ch| && forall k :: 0 <= k < |ch| && ch[k] < |nodes| ==> r[k] == nodes[ch[k]].visit
  {
    seq(|ch|, k requires 0 <= k < |ch| => if ch[k] < |nodes| then nodes[ch[k]].visit else 0)
  }

  /** Every node has been through at least as many playouts as its
      children together: a playout through a child passed through it. */
  ghost predicate Tallied<B>(nodes: seq<Node<B>>) {
    forall i :: 0 <= i < |nodes| ==> Sum(ChildVisits(nodes, nodes[i].child)) <= nodes[i].visit
  }

  /** Between playouts, a node with children has been visited, and so has
      each of its children: the score of a child divides by the child's
      visits and takes the logarithm of its parent's. */
  lemma ScoredVisited<B(!new)>(g: Game<B>, nodes: seq<Node<B>>, i: nat)
    requires Shaped(g, nodes) && Visited(nodes) && i < |nodes| && nodes[i].child != []
    ensures nodes[i].visit > 0
    ensures forall k :: 0 <= k < |nodes[i].child| ==> nodes[i].child[k] < |nodes| && nodes[nodes[i].child[k]].visit > 0
  {
    assert NodeOk(g, nodes, i);
  }

  /** A node has a recorded winner iff its board has no legal move at all. */
  lemma TerminalIffStuck<B(!new)>(g: Game<B>, nodes: seq<Node<B>>, i: nat)
    requires Shaped(g, nodes) && i < |nodes|
    ensures nodes[i].win.Some? <==> forall p :: 0 <= p < Cells ==> !g.legal(nodes[i].state, p)
  {
    var n := nodes[i];
    assert NodeOk(g, nodes, i) && Local(g, n);
    if n.legal != [] {
      var p := n.legal[0];
      assert p in n.legal;
      assert 0 <= p < Cells && g.legal(n.state, p);
    } else if n.child != [] {
      assert Parent(g, n, nodes[n.child[0]]);
    } else {
      assert Moves(nodes, n.child) == [];
    }
  }

  /** is_fully_expanded() read against the board: a node is fully expanded
      iff it has a child and every legal move of its board is the move of
      one of its children. */
  lemma FullyExpandedIff<B(!new)>(g: Game<B>, nodes: seq<Node<B>>, i: nat)
    requires Shaped(g, nodes) && i < |nodes|
    ensures forall k :: 0 <= k < |nodes[i].child| ==> nodes[i].child[k] < |nodes|
    ensures nodes[i].IsFullyExpanded() <==>
              && nodes[i].child != []
              && forall p :: 0 <= p < Cells && g.legal(nodes[i].state, p) ==> p in Moves(nodes, nodes[i].child)
  {
    assert NodeOk(g, nodes, i);
    var n := nodes[i];
    if n.child != [] && n.legal != [] {
      var p := n.legal[0];
      forall k | 0 <= k < |n.child| ensures Moves(nodes, n.child)[k] != p {
        assert Parent(g, n, nodes[n.child[k]]);
      }
      assert p !in Moves(nodes, n.child) && g.legal(n.state, p);
    }
  }

  /** The node built from s and a candidate list holding each vacant cell of
      s once is locally sound, and lists every legal move of s. */
  lemma BornLocal<B(!new)>(g: Game<B>, n: Node<B>, s: B, pempty: seq<Point>, at: Point)
    requires Sound(g) && Born(g, n, s, pempty, at) && Distinct(pempty)
    requires forall p :: p in pempty ==> 0 <= p < Cells
    requires forall p :: 0 <= p < Cells && g.vacant(s, p) ==> p in pempty
    ensures Local(g, n)
    ensures forall p :: 0 <= p < Cells && g.legal(s, p) ==> p in n.legal
  {
    KeepSubMultiset(g.vacant, s, pempty);
    KeepSubMultiset(g.legal, s, n.empty);
    DistinctSub(n.empty, pempty);
    DistinctSub(Keep(g.legal, s, n.empty), n.empty);
    DistinctSub(n.legal, Keep(g.legal, s, n.empty));
    forall p ensures p in n.empty <==> 0 <= p < Cells && g.vacant(s, p) {
      KeepMembers(g.vacant, s, pempty, p);
    }
    forall p ensures p in n.legal <==> p in n.empty && g.legal(s, p) {
      KeepMembers(g.legal, s, n.empty, p);
      assert p in n.legal <==> p in multiset(n.legal);
      assert p in Keep(g.legal, s, n.empty) <==> p in multiset(Keep(g.legal, s, n.empty));
    }
  }

  /** The arena after expand(): node i has the new child appended and its
      last unexpanded move removed, and the new node is born from node i's
      board with that move played. */
  ghost predicate Grown<B>(g: Game<B>, a: seq<Node<B>>, b: seq<Node<B>>, i: nat)
    requires i < |a| && a[i].legal != []
  {
    var n := a[i];
    var p := n.legal[|n.legal| - 1];
    && |b| == |a| + 1
    && b[..|a|] == a[i := n.(child := n.child + [|a|], legal := n.legal[..|n.legal| - 1])]
    && Born(g, b[|a|], g.place(n.state, p), n.empty, p)
  }

  /** Expansion keeps the arena invariant. */
  lemma ExpandShaped<B(!new)>(g: Game<B>, a: seq<Node<B>>, b: seq<Node<B>>, i: nat)
    requires Sound(g) && Shaped(g, a) && i < |a| && a[i].legal != [] && Grown(g, a, b, i)
    ensures Shaped(g, b)
  {
    var n := a[i];
    var p := n.legal[|n.legal| - 1];
    var c := b[|a|];
    assert NodeOk(g, a, i);
    assert p in n.legal;
    DropLast(n.legal);
    forall q | 0 <= q < Cells && g.vacant(c.state, q) ensures q in n.empty {
      assert g.vacant(g.place(n.state, p), q);
    }
    BornLocal(g, c, c.state, n.empty, p);
    assert NodeOk(g, b, |a|) by {
      assert Moves(b, c.child) == [];
    }
    forall j | 0 <= j < |a| ensures NodeOk(g, b, j) {
      assert b[j] == b[..|a|][j];
      if j == i {
        ParentKeeps(g, a, b, i);
      } else {
        LinksKeep(g, a, b, j);
      }
    }
  }

  /** Node i itself after expansion: the old children still hang under it,
      the new child is the move taken off its list, and the child moves stay
      distinct because an expanded move is never still unexpanded. */
  lemma ParentKeeps<B(!new)>(g: Game<B>, a: seq<Node<B>>, b: seq<Node<B>>, i: nat)
    requires Sound(g) && Shaped(g, a) && i < |a| && a[i].legal != [] && Grown(g, a, b, i)
    requires Local(g, b[|a|])
    ensures NodeOk(g, b, i)
  {
    var n, m := a[i], b[i];
    assert m == b[..|a|][i];
    assert NodeOk(g, a, i);
    PopLocal(g, n, m);
    GrownLinks(g, a, b, i);
    GrownMoves(g, a, b, i);
  }

  /** Taking the last unexpanded move off a node keeps it locally sound. */
  lemma PopLocal<B(!new)>(g: Game<B>, n: Node<B>, m: Node<B>)
    requires Local(g, n) && n.legal != []
    requires m == n.(child := m.child, legal := n.legal[..|n.legal| - 1])
    ensures Local(g, m)
  {
    DropLast(n.legal);
    forall q | q in m.legal ensures q in n.legal {
    }
  }

  /** After expansion, node i's old children and its new child hang under
      it. */
  lemma GrownLinks<B(!new)>(g: Game<B>, a: seq<Node<B>>, b: seq<Node<B>>, i: nat)
    requires Shaped(g, a) && i < |a| && a[i].legal != [] && Grown(g, a, b, i)
    ensures forall k :: 0 <= k < |b[i].child| ==> i < b[i].child[k] < |b|
    ensures forall k :: 0 <= k < |b[i].child| ==> Parent(g, b[i], b[b[i].child[k]])
  {
    var n, m := a[i], b[i];
    assert m == b[..|a|][i];
    assert NodeOk(g, a, i);
    DropLast(n.legal);
    assert m.child == n.child + [|a|];
    forall k | 0 <= k < |m.child| ensures Parent(g, m, b[m.child[k]]) {
      if k < |n.child| {
        assert b[n.child[k]] == b[..|a|][n.child[k]];
        assert Parent(g, n, a[n.child[k]]);
      } else {
        var p := n.legal[|n.legal| - 1];
        assert Local(g, n) && p in n.legal;
        assert b[|a|].move.at == p;
      }
    }
  }

  /** After expansion, node i's child moves are its old ones plus the move
      taken off its list, still duplicate-free, and together with what is
      left of the list they still cover every legal move. */
  lemma GrownMoves<B(!new)>(g: Game<B>, a: seq<Node<B>>, b: seq<Node<B>>, i: nat)
    requires Shaped(g, a) && i < |a| && a[i].legal != [] && Grown(g, a, b, i)
    requires forall k :: 0 <= k < |b[i].child| ==> i < b[i].child[k] < |b|
    ensures Distinct(Moves(b, b[i].child))
    ensures forall q :: 0 <= q < Cells && g.legal(b[i].state, q) ==> q in b[i].legal || q in Moves(b, b[i].child)
  {
    var n, m := a[i], b[i];
    var p := n.legal[|n.legal| - 1];
    assert m == b[..|a|][i];
    assert NodeOk(g, a, i);
    assert m.child == n.child + [|a|];
    forall k | 0 <= k < |n.child| ensures b[n.child[k]].move == a[n.child[k]].move {
      assert b[n.child[k]] == b[..|a|][n.child[k]];
    }
    assert Moves(b, m.child) == Moves(a, n.child) + [p];
    forall k | 0 <= k < |n.child| ensures Moves(a, n.child)[k] != p {
      assert Parent(g, n, a[n.child[k]]);
    }
    DistinctSnoc(Moves(a, n.child), p);
    assert n.legal == m.legal + [p];
  }

  /** Any other node after expansion: its children's boards and moves are
      untouched, so its links still hold. */
  lemma LinksKeep<B(!new)>(g: Game<B>, a: seq<Node<B>>, b: seq<Node<B>>, j: nat)
    requires Shaped(g, a) && j < |a| && |a| < |b|
    requires b[j] == a[j]
    requires forall k :: 0 <= k < |a| ==> b[k].move == a[k].move && b[k].state == a[k].state
    ensures NodeOk(g, b, j)
  {
    var n := a[j];
    assert NodeOk(g, a, j);
    assert Moves(b, n.child) == Moves(a, n.child);
    forall k | 0 <= k < |n.child| ensures Parent(g, n, b[n.child[k]]) {
      assert Parent(g, n, a[n.child[k]]);
    }
  }

  /** b agrees with a on everything the links between nodes depend on. */
  ghost predicate SameLinks<B>(a: seq<Node<B>>, b: seq<Node<B>>) {
    && |a| == |b|
    && forall j :: 0 <= j < |a| ==>
         && b[j].state == a[j].state && b[j].move == a[j].move
         && b[j].child == a[j].child && b[j].legal == a[j].legal && b[j].win == a[j].win
  }

  /** Changing only counters and the order of candidate cells keeps the
      arena invariant, as long as value stays within visit. */
  lemma SameLinksShaped<B(!new)>(g: Game<B>, a: seq<Node<B>>, b: seq<Node<B>>)
    requires Shaped(g, a) && SameLinks(a, b)
    requires forall j :: 0 <= j < |b| ==> b[j].value <= b[j].visit && multiset(b[j].empty) == multiset(a[j].empty)
    ensures Shaped(g, b)
  {
    forall j | 0 <= j < |b| ensures NodeOk(g, b, j) {
      var n, m := a[j], b[j];
      assert NodeOk(g, a, j);
      forall p ensures p in m.empty <==> p in n.empty {
        assert p in m.empty <==> p in multiset(m.empty);
        assert p in n.empty <==> p in multiset(n.empty);
      }
      assert Moves(b, m.child) == Moves(a, n.child);
      forall k | 0 <= k < |m.child| ensures Parent(g, m, b[m.child[k]]) {
        assert Parent(g, n, a[n.child[k]]);
      }
    }
  }

  /** The constructor's own list of vacant cells: 0..80 in order, keeping
      those the board leaves empty. */
  method VacantCells<B>(g: Game<B>, s: B) returns (ps: seq<Point>)
    ensures forall p :: p in ps <==> 0 <= p < Cells && g.vacant(s, p)
    ensures forall k, m :: 0 <= k < m < |ps| ==> ps[k] < ps[m]
    ensures Distinct(ps)
  {
    ps := [];
    for i := 0 to Cells
      invariant forall p :: p in ps <==> 0 <= p < i && g.vacant(s, p)
      invariant forall k :: 0 <= k < |ps| ==> ps[k] < i
      invariant forall k, m :: 0 <= k < m < |ps| ==> ps[k] < ps[m]
      invariant Distinct(ps)
    {
      if g.vacant(s, i) {
        DistinctSnoc(ps, i);
        ps := ps + [i];
      }
    }
  }

  /** The constructor's filter: the vacant cells of pempty in order and,
      among them, the legal ones. */
  method Frontiers<B>(g: Game<B>, s: B, pempty: seq<Point>) returns (empty: seq<Point>, legal: seq<Point>)
    ensures empty == Keep(g.vacant, s, pempty)
    ensures legal == Keep(g.legal, s, empty)
  {
    empty, legal := [], [];
    for k := 0 to |pempty|
      invariant empty == Keep(g.vacant, s, pempty[..k])
      invariant legal == Keep(g.legal, s, empty)
    {
      assert pempty[..k + 1][..k] == pempty[..k];
      var p := pempty[k];
      if g.vacant(s, p) {
        assert (empty + [p])[..|empty|] == empty;
        empty := empty + [p];
        if g.legal(s, p) {
          legal := legal + [p];
        }
      }
    }
    assert pempty[..|pempty|] == pempty;
  }

  /** node(s, pempty, engine, p), with the legal moves shuffled. */
  method NewNode<B>(g: Game<B>, s: B, pempty: seq<Point>, engine: Engine, at: Point) returns (n: Node<B>)
    modifies engine
    ensures Born(g, n, s, pempty, at)
  {
    var empty, legal := Frontiers(g, s, pempty);
    legal := Shuffle(legal, engine);
    var color := Opponent(g.turn(s));
    n := Node(s, Move(at, color), [], legal, empty, if legal == [] then Some(color) else None, 0, 0);
  }

  /** The loop of rollout(): from b, keep trying the last of the first n
      cells; a legal try is played and shrinks n, an illegal one is swapped
      to the front (position i), and once all n have failed in a row the
      playout is over. The cells are permuted, never lost, and the final
      board refuses every one of them. */
  method Playout<B(!new)>(g: Game<B>, s: B, e0: seq<Point>) returns (e: seq<Point>, b: B, ghost placed: seq<Point>)
    requires Sound(g)
    ensures multiset(e) == multiset(e0)
    ensures forall k :: 0 <= k < |e| ==> !g.legal(b, e[k])
    ensures Replay(g, s, placed) == Some(b)
  {
    e, b, placed := e0, s, [];
    var i, n := 0, |e|;
    while n != 0
      invariant |e| == |e0| && multiset(e) == multiset(e0) && 0 <= n <= |e|
      invariant n > 0 ==> i <= n && forall k :: 0 <= k < i ==> !g.legal(b, e[k])
      invariant n > 0 ==> forall k :: n <= k < |e| ==> !g.vacant(b, e[k])
      invariant n == 0 ==> forall k :: 0 <= k < |e| ==> !g.legal(b, e[k])
      invariant Replay(g, s, placed) == Some(b)
      decreases n, n - i
    {
      var p := e[n - 1];
      if g.legal(b, p) {
        assert (placed + [p])[..|placed|] == placed;
        placed := placed + [p];
        var b' := g.place(b, p);
        forall k | n - 1 <= k < |e| ensures !g.vacant(b', e[k]) {
          if k >= n {
            StaysOccupied(g, b, p, e[k]);
          }
        }
        b := b';
        n, i := n - 1, 0;
        if n == 0 {
          forall k | 0 <= k < |e| ensures !g.legal(b, e[k]) {
            OccupiedIllegal(g, b, e[k]);
          }
        }
      } else if i < n {
        e := Swap(e, i, n - 1);
        i := i + 1;
      } else {
        forall k | n <= k < |e| ensures !g.legal(b, e[k]) {
          OccupiedIllegal(g, b, e[k]);
        }
        n := 0;
      }
    }
  }

  class Tree<B(!new)> {
    const game: Game<B>
    var nodes: seq<Node<B>>

    /** The arena invariant, on a game that obeys the rules' basic facts. */
    ghost predicate Wf()
      reads this
    {
      Sound(game) && Shaped(game, nodes) && Unshared(nodes)
    }

    /** Wf between playouts, when the counters are also up to date. */
    ghost predicate Valid()
      reads this
    {
      Wf() && Visited(nodes) && Tallied(nodes)
    }

    /** node(s, engine): the root, built from the cells of s that are empty. */
    constructor (g: Game<B>, s: B, engine: Engine)
      requires Sound(g)
      modifies engine
      ensures game == g && Valid() && |nodes| == 1
      ensures nodes[0].state == s && nodes[0].child == [] && nodes[0].value == 0 && nodes[0].visit == 0
      ensures forall p :: p in nodes[0].legal <==> 0 <= p < Cells && g.legal(s, p)
    {
      var pempty := VacantCells(g, s);
      var root := NewNode(g, s, pempty, engine, NoPoint);
      BornLocal(g, root, s, pempty, NoPoint);
      game := g;
      nodes := [root];
      new;
      assert Moves(nodes, root.child) == [];
      assert NodeOk(g, nodes, 0);
    }

    /** expand(): with no unexpanded move, nothing happens (nullptr);
        otherwise the last unexpanded move is played on a copy of the board,
        becomes a new child and leaves the list. */
    method Expand(i: nat, engine: Engine) returns (r: Option<nat>)
      requires Wf() && i < |nodes|
      modifies this, engine
      ensures Wf()
      ensures old(nodes[i].legal) == [] ==> r == None && nodes == old(nodes)
      ensures old(nodes[i].legal) != [] ==> r == Some(|old(nodes)|) && Grown(game, old(nodes), nodes, i)
    {
      var n := nodes[i];
      if n.legal == [] {
        return None;
      }
      var p := n.legal[|n.legal| - 1];
      assert NodeOk(game, nodes, i) && p in n.legal;
      assert game.legal(n.state, p);
      var c := NewNode(game, game.place(n.state, p), n.empty, engine, p);
      ghost var a := nodes;
      nodes := nodes[i := n.(child := n.child + [|nodes|], legal := n.legal[..|n.legal| - 1])] + [c];
      assert nodes[..|a|] == a[i := n.(child := n.child + [|a|], legal := n.legal[..|n.legal| - 1])];
      ExpandShaped(game, a, nodes, i);
      GrownUnshared(game, a, nodes, i);
      r := Some(|nodes| - 1);
    }

    /** rollout(): shuffle the node's vacant cells and play them out from its
        board until no cell is legal; the winner is the side that moved last.
        Only the order of the node's candidate cells changes. */
    method Rollout(i: nat, engine: Engine) returns (winner: Color, ghost last: B, ghost placed: seq<Point>)
      requires Wf() && i < |nodes|
      modifies this, engine
      ensures Wf() && |nodes| == |old(nodes)|
      ensures forall j :: 0 <= j < |nodes| && j != i ==> nodes[j] == old(nodes[j])
      ensures nodes[i] == old(nodes[i]).(empty := nodes[i].empty)
      ensures multiset(nodes[i].empty) == multiset(old(nodes[i].empty))
      ensures Replay(game, nodes[i].state, placed) == Some(last)
      ensures forall p :: 0 <= p < Cells ==> !game.legal(last, p)
      ensures winner == Opponent(game.turn(last))
    {
      var n := nodes[i];
      var shuffled := Shuffle(n.empty, engine);
      var e, b, ps := Playout(game, n.state, shuffled);
      ghost var a := nodes;
      nodes := nodes[i := n.(empty := e)];
      forall j | 0 <= j < |nodes| ensures nodes[j].value <= nodes[j].visit {
        assert NodeOk(game, a, j);
      }
      SameLinksShaped(game, a, nodes);
      SameLinksUnshared(a, nodes);
      assert NodeOk(game, a, i);
      forall p | 0 <= p < Cells ensures !game.legal(b, p) {
        if game.vacant(b, p) {
          ReplayVacant(game, n.state, ps, b, p);
          assert p in n.empty;
          assert p in multiset(e);
          assert p in e;
        }
      }
      winner, last, placed := Opponent(game.turn(b)), b, ps;
    }

    /** update(z): count one more playout, z of them won. */
    method Update(i: nat, z: nat)
      requires Wf() && i < |nodes| && z <= 1
      modifies this
      ensures Wf()
      ensures nodes == old(nodes)[i := old(nodes[i]).(value := old(nodes[i].value) + z, visit := old(nodes[i].visit) + 1)]
    {
      ghost var a := nodes;
      var n := nodes[i];
      nodes := nodes[i := n.(value := n.value + z, visit := n.visit + 1)];
      forall j | 0 <= j < |nodes| ensures nodes[j].value <= nodes[j].visit {
        assert NodeOk(game, a, j);
      }
      SameLinksShaped(game, a, nodes);
      SameLinksUnshared(a, nodes);
    }

    /** The scores of node i's children. */
    function Scores(i: nat, depth: nat, score: Scorer): (r: seq<int>)
      reads this
      requires Wf() && i < |nodes|
      ensures |r| == |nodes[i].child|
      ensures forall k :: 0 <= k < |r| ==>
                && nodes[i].child[k] < |nodes|
                && r[k] == score(depth, nodes[i].visit, nodes[nodes[i].child[k]].value, nodes[nodes[i].child[k]].visit)
    {
      var ns := nodes;
      var ch := ns[i].child;
      assert NodeOk(game, ns, i);
      seq(|ch|, k requires 0 <= k < |ch| && ch[k] < |ns| =>
        score(depth, ns[i].visit, ns[ch[k]].value, ns[ch[k]].visit))
    }

    /** The visit counts of node i's children. */
    function Visits(i: nat): (r: seq<int>)
      reads this
      requires Wf() && i < |nodes|
      ensures |r| == |nodes[i].child|
      ensures forall k :: 0 <= k < |r| ==> nodes[i].child[k] < |nodes| && r[k] == nodes[nodes[i].child[k]].visit
    {
      var ns := nodes;
      var ch := ns[i].child;
      assert NodeOk(game, ns, i);
      seq(|ch|, k requires 0 <= k < |ch| && ch[k] < |ns| => ns[ch[k]].visit)
    }

    /** select(c, ps): the first child of highest score, or none when there
        are no children. */
    method Select(i: nat, depth: nat, score: Scorer) returns (r: Option<nat>)
      requires Wf() && i < |nodes|
      ensures r.None? <==> nodes[i].child == []
      ensures r.Some? ==> exists k :: IsFirstMax(Scores(i, depth, score), k) && r.value == nodes[i].child[k]
    {
      if nodes[i].child == [] {
        return None;
      }
      var k := FirstMax(Scores(i, depth, score));
      r := Some(nodes[i].child[k]);
    }

    /** best(): the move of the first most visited child, for the side to
        move at node i; no action when there are no children. */
    method Best(i: nat) returns (a: Action)
      requires Wf() && i < |nodes|
      ensures a == NoAction <==> nodes[i].child == []
      ensures a.Play? ==> exists k :: IsFirstMax(Visits(i), k) && nodes[i].child[k] < |nodes| &&
                                      a == Play(nodes[nodes[i].child[k]].move)
      ensures a.Play? ==> a.move.color == game.turn(nodes[i].state) && 0 <= a.move.at < Cells &&
                          game.legal(nodes[i].state, a.move.at)
    {
      if nodes[i].child == [] {
        return NoAction;
      }
      var k := FirstMax(Visits(i));
      var c := nodes[i].child[k];
      assert NodeOk(game, nodes, i) && Parent(game, nodes[i], nodes[c]);
      assert NodeOk(game, nodes, c);
      a := Play(nodes[c].move);
    }

    /** Node i is fully expanded and Select, at the given depth, picks its
        child j. */
    ghost predicate Chosen(i: nat, j: nat, depth: nat, score: Scorer)
      reads this
      requires Wf()
    {
      && i < |nodes| && nodes[i].IsFullyExpanded()
      && exists m :: IsFirstMax(Scores(i, depth, score), m) && j == nodes[i].child[m]
    }

    /** A descent: a search path along which every node but the last is
        fully expanded and chose the next by Select, and whose last node is
        not fully expanded. */
    ghost predicate Descent(path: seq<nat>, score: Scorer)
      reads this
      requires Wf()
    {
      && IsPath(nodes, path)
      && !nodes[path[|path| - 1]].IsFullyExpanded()
      && (|path| > 1 ==> nodes[0].IsFullyExpanded())
      && forall k :: 0 <= k < |path| - 1 ==> Chosen(path[k], path[k + 1], k, score)
    }

    /** Appending a choice keeps every earlier choice. */
    lemma ChosenSnoc(path: seq<nat>, x: nat, score: Scorer)
      requires Wf() && |path| > 0
      requires forall k :: 0 <= k < |path| - 1 ==> Chosen(path[k], path[k + 1], k, score)
      requires Chosen(path[|path| - 1], x, |path| - 1, score)
      ensures forall k :: 0 <= k < |path| ==> Chosen((path + [x])[k], (path + [x])[k + 1], k, score)
    {
      forall k | 0 <= k < |path| ensures Chosen((path + [x])[k], (path + [x])[k + 1], k, score) {
        if k < |path| - 1 {
          assert (path + [x])[k] == path[k] && (path + [x])[k + 1] == path[k + 1];
        }
      }
    }

    /** The descent of run_mcts(): from the root, Select the next node
        while the current one is fully expanded; the depth of a node on the
        path is its index there. */
    method Descend(score: Scorer) returns (path: seq<nat>)
      requires Wf()
      ensures Descent(path, score)
    {
      path := [0];
      var depth: nat := 0;
      while nodes[path[|path| - 1]].IsFullyExpanded()
        invariant IsPath(nodes, path) && |path| == depth + 1
        invariant |path| > 1 ==> nodes[0].IsFullyExpanded()
        invariant forall k :: 0 <= k < |path| - 1 ==> Chosen(path[k], path[k + 1], k, score)
        decreases |nodes| - path[|path| - 1]
      {
        var top := path[|path| - 1];
        var next := Select(top, depth, score);
        assert NodeOk(game, nodes, top);
        ghost var m :| IsFirstMax(Scores(top, depth, score), m) && next.value == nodes[top].child[m];
        assert Chosen(top, next.value, depth, score);
        assert top < next.value < |nodes| && next.value in nodes[top].child;
        PathSnoc(nodes, path, next.value);
        ChosenSnoc(path, next.value, score);
        path := path + [next.value];
        depth := depth + 1;
      }
    }

    /** The back-propagation of run_mcts(): update(z) on every node of the
        path, from the last to the first. */
    method Backup(path: seq<nat>, z: nat)
      requires Wf() && z <= 1
      requires forall k :: 0 <= k < |path| ==> path[k] < |nodes|
      requires forall k, m :: 0 <= k < m < |path| ==> path[k] < path[m]
      modifies this
      ensures Wf() && SameLinks(old(nodes), nodes)
      ensures forall j :: 0 <= j < |nodes| ==> nodes[j].empty == old(nodes[j].empty)
      ensures Counted(old(nodes), nodes, path, z)
    {
      var k := |path|;
      while k > 0
        invariant 0 <= k <= |path|
        invariant Wf() && SameLinks(old(nodes), nodes)
        invariant forall j :: 0 <= j < |nodes| ==> nodes[j].empty == old(nodes[j].empty)
        invariant forall j :: 0 <= j < |nodes| ==>
                    nodes[j].visit == old(nodes[j].visit) + (if j in path[k..] then 1 else 0) &&
                    nodes[j].value == old(nodes[j].value) + (if j in path[k..] then z else 0)
      {
        k := k - 1;
        assert path[k..] == [path[k]] + path[k + 1..];
        Update(path[k], z);
      }
      assert path[0..] == path;
    }

    /** The middle of run_mcts(): expand the node where the descent
        stopped; a new child is scored by its rollout and joins the path, a
        node that cannot be expanded is scored by its recorded winner. */
    method Grow(path: seq<nat>, engine: Engine) returns (trail: seq<nat>, who: Color, ghost last: B, ghost placed: seq<Point>)
      requires Wf() && Tallied(nodes) && IsPath(nodes, path) && !nodes[path[|path| - 1]].IsFullyExpanded()
      modifies this, engine
      ensures Wf() && Tallied(nodes) && IsPath(nodes, trail)
      ensures |nodes| == |old(nodes)| ==> trail == path
      ensures |nodes| != |old(nodes)| ==> |nodes| == |old(nodes)| + 1 && trail == path + [|old(nodes)|]
      ensures nodes[0].state == old(nodes[0].state)
      ensures Counted(old(nodes), nodes, [], 0)
      ensures forall j :: 0 <= j < |old(nodes)| ==> old(nodes[j].child) <= nodes[j].child
      ensures Replay(game, nodes[trail[|trail| - 1]].state, placed) == Some(last)
      ensures |nodes| == |old(nodes)| ==> placed == [] && last == nodes[trail[|trail| - 1]].state
      ensures forall p :: 0 <= p < Cells ==> !game.legal(last, p)
      ensures who == Opponent(game.turn(last))
    {
      var back := path[|path| - 1];
      ghost var start := nodes;
      var leaf := Expand(back, engine);
      if leaf.Some? {
        ghost var grown := nodes;
        GrownPath(game, start, grown, path);
        GrownCounters(game, start, grown, back);
        GrownTallied(game, start, grown, back);
        who, last, placed := Rollout(leaf.value, engine);
        SameCountsTallied(grown, nodes);
        trail := path + [leaf.value];
      } else {
        assert NodeOk(game, nodes, back);
        who, last, placed := nodes[back].win.value, nodes[back].state, [];
        TerminalIffStuck(game, nodes, back);
        trail := path;
      }
    }

    /** run_mcts(c, psi, engine): descend by Select through fully expanded
        nodes, expand where the descent stops, score the new leaf by a
        rollout (or a terminal node by its recorded winner), and credit the
        result to every node on the path, from the side to move at the root. */
    method RunMcts(score: Scorer, engine: Engine)
      returns (ghost path: seq<nat>, ghost descent: seq<nat>, ghost winner: Color, ghost last: B, ghost placed: seq<Point>)
      requires Valid()
      modifies this, engine
      ensures Valid() && IsPath(nodes, path) && old(Descent(descent, score))
      ensures |nodes| == |old(nodes)| ==> path == descent
      ensures |nodes| != |old(nodes)| ==> |nodes| == |old(nodes)| + 1 && path == descent + [|old(nodes)|]
      ensures nodes[0].state == old(nodes[0].state)
      ensures forall j :: 0 <= j < |old(nodes)| ==> old(nodes[j].child) <= nodes[j].child
      ensures Replay(game, nodes[path[|path| - 1]].state, placed) == Some(last)
      ensures |nodes| == |old(nodes)| ==> placed == [] && last == nodes[path[|path| - 1]].state
      ensures forall p :: 0 <= p < Cells ==> !game.legal(last, p)
      ensures winner == Opponent(game.turn(last))
      ensures Counted(old(nodes), nodes, path, if winner == game.turn(nodes[0].state) then 1 else 0)
    {
      var down := Descend(score);
      descent := down;
      var trail, who;
      trail, who, last, placed := Grow(down, engine);
      winner := who;
      var z := if who == game.turn(nodes[0].state) then 1 else 0;
      Credit(trail, z, old(nodes));
      path := trail;
    }

    /** Back-propagation after a growth step from start: the counters of
        start plus the credit for trail, and every node still visited. */
    method Credit(trail: seq<nat>, z: nat, ghost start: seq<Node<B>>)
      requires Wf() && Tallied(nodes) && IsPath(nodes, trail) && z <= 1
      requires Visited(start) && Counted(start, nodes, [], 0)
      requires forall j :: |start| <= j < |nodes| ==> j in trail
      modifies this
      ensures Valid() && SameLinks(old(nodes), nodes) && IsPath(nodes, trail)
      ensures Counted(start, nodes, trail, z)
    {
      ghost var mid := nodes;
      Backup(trail, z);
      CountedCompose(start, mid, nodes, trail, z);
      VisitedAfter(start, nodes, trail, z);
      TalliedCredit(game, mid, nodes, trail, z);
    }
    /** count calls of run_mcts(): the root gains count visits, and once
        there has been one, the root has children iff its board has a legal
        move, so best() finds a move whenever one exists. */
    method Search(score: Scorer, engine: Engine, count: nat)
      requires Valid()
      modifies this, engine
      ensures Valid() && nodes[0].state == old(nodes[0].state)
      ensures nodes[0].visit == old(nodes[0].visit) + count
      ensures count > 0 ==> (nodes[0].child == [] <==> forall p :: 0 <= p < Cells ==> !game.legal(nodes[0].state, p))
    {
      for t := 0 to count
        invariant Valid() && nodes[0].state == old(nodes[0].state)
        invariant nodes[0].visit == old(nodes[0].visit) + t
        invariant t > 0 ==> (nodes[0].child == [] ==> forall p :: 0 <= p < Cells ==> !game.legal(nodes[0].state, p))
      {
        ghost var before := nodes;
        var path, descent, winner, last, placed := RunMcts(score, engine);
        assert 0 in path;
        if before[0].child == [] {
          assert descent == [0];
        }
      }
      if count > 0 && nodes[0].child != [] {
        assert NodeOk(game, nodes, 0) && Parent(game, nodes[0], nodes[nodes[0].child[0]]);
      }
    }
  }

  /** The counters of b are those of a (zero for nodes a does not have),
      plus one visit and z wins for each node on path. */
  ghost predicate Counted<B>(a: seq<Node<B>>, b: seq<Node<B>>, path: seq<nat>, z: nat) {
    && |a| <= |b|
    && forall j :: 0 <= j < |b| ==>
         && b[j].visit == (if j < |a| then a[j].visit else 0) + (if j in path then 1 else 0)
         && b[j].value == (if j < |a| then a[j].value else 0) + (if j in path then z else 0)
  }

  /** Creating nodes, then crediting a path, credits the path. */
  lemma CountedCompose<B>(a: seq<Node<B>>, m: seq<Node<B>>, b: seq<Node<B>>, path: seq<nat>, z: nat)
    requires Counted(a, m, [], 0) && Counted(m, b, path, z) && |m| == |b|
    ensures Counted(a, b, path, z)
  {
  }

  /** Crediting a path through the root and through every new node keeps
      every node visited. */
  lemma VisitedAfter<B>(a: seq<Node<B>>, b: seq<Node<B>>, path: seq<nat>, z: nat)
    requires Visited(a) && Counted(a, b, path, z) && 0 in path
    requires forall j :: |a| <= j < |b| ==> j in path
    ensures Visited(b)
  {
  }

  /** A search path: from the root, each node a child of the one before, at
      strictly increasing arena indices. */
  ghost predicate IsPath<B>(nodes: seq<Node<B>>, path: seq<nat>) {
    && |path| > 0 && path[0] == 0
    && (forall k :: 0 <= k < |path| ==> path[k] < |nodes|)
    && (forall k, m :: 0 <= k < m < |path| ==> path[k] < path[m])
    && (forall k :: 0 <= k < |path| - 1 ==> path[k + 1] in nodes[path[k]].child)
  }

  /** A path extended by a child of its last node, at a larger index. */
  lemma PathSnoc<B>(nodes: seq<Node<B>>, path: seq<nat>, x: nat)
    requires IsPath(nodes, path) && x < |nodes| && path[|path| - 1] < x && x in nodes[path[|path| - 1]].child
    ensures IsPath(nodes, path + [x])
  {
    var q := path + [x];
    assert forall k :: 0 <= k < |path| ==> q[k] == path[k];
  }

  /** Expansion leaves every old node's board and counters alone, and the
      new node starts with zero counters. */
  lemma GrownCounters<B>(g: Game<B>, a: seq<Node<B>>, b: seq<Node<B>>, i: nat)
    requires i < |a| && a[i].legal != [] && Grown(g, a, b, i)
    ensures forall j :: 0 <= j < |a| ==> b[j].visit == a[j].visit && b[j].value == a[j].value && b[j].state == a[j].state
    ensures forall j :: 0 <= j < |a| ==> a[j].child <= b[j].child
    ensures b[|a|].visit == 0 && b[|a|].value == 0
  {
    forall j | 0 <= j < |a| ensures b[j].visit == a[j].visit && b[j].value == a[j].value && b[j].state == a[j].state
                                    && a[j].child <= b[j].child {
      assert b[j] == b[..|a|][j];
    }
  }

  /** Expanding the last node of a path extends the path by the new child. */
  lemma GrownPath<B>(g: Game<B>, a: seq<Node<B>>, b: seq<Node<B>>, path: seq<nat>)
    requires IsPath(a, path) && a[path[|path| - 1]].legal != [] && Grown(g, a, b, path[|path| - 1])
    ensures IsPath(b, path + [|a|])
  {
    var i := path[|path| - 1];
    forall k | 0 <= k < |path| ensures a[path[k]].child <= b[path[k]].child {
      assert b[path[k]] == b[..|a|][path[k]];
    }
  }

  /** Changing only what Unshared does not read keeps it. */
  lemma SameLinksUnshared<B>(a: seq<Node<B>>, b: seq<Node<B>>)
    requires Unshared(a) && SameLinks(a, b)
    ensures Unshared(b)
  {
    forall i, j, k, m | 0 <= i < |b| && 0 <= j < |b| && 0 <= k < |b[i].child| && 0 <= m < |b[j].child| &&
                        b[i].child[k] == b[j].child[m]
      ensures i == j
    {
      assert a[i].child[k] == a[j].child[m];
    }
  }

  /** Expansion gives the new index to node i alone. */
  lemma GrownUnshared<B(!new)>(g: Game<B>, a: seq<Node<B>>, b: seq<Node<B>>, i: nat)
    requires Shaped(g, a) && Unshared(a) && i < |a| && a[i].legal != [] && Grown(g, a, b, i)
    ensures Unshared(b)
  {
    forall j | 0 <= j < |a|
      ensures b[j].child == if j == i then a[i].child + [|a|] else a[j].child
      ensures forall k :: 0 <= k < |a[j].child| ==> a[j].child[k] < |a|
    {
      assert b[j] == b[..|a|][j];
      assert NodeOk(g, a, j);
    }
    forall j, k, l, m | 0 <= j < |b| && 0 <= l < |b| && 0 <= k < |b[j].child| && 0 <= m < |b[l].child| &&
                        b[j].child[k] == b[l].child[m]
      ensures j == l
    {
      GrownPair(a, b, i, j, k, l, m);
    }
  }

  /** GrownUnshared for one pair of child positions. */
  lemma GrownPair<B>(a: seq<Node<B>>, b: seq<Node<B>>, i: nat, j: nat, k: nat, l: nat, m: nat)
    requires Unshared(a) && i < |a| && |b| == |a| + 1 && b[|a|].child == []
    requires forall j :: 0 <= j < |a| ==> b[j].child == if j == i then a[i].child + [|a|] else a[j].child
    requires forall j, k :: 0 <= j < |a| && 0 <= k < |a[j].child| ==> a[j].child[k] < |a|
    requires j < |b| && l < |b| && k < |b[j].child| && m < |b[l].child|
    ensures b[j].child[k] == b[l].child[m] ==> j == l
  {
    assert j < |a| && l < |a|;
    if b[j].child[k] < |a| && b[l].child[m] < |a| {
      assert k < |a[j].child| && m < |a[l].child|;
      assert b[j].child[k] == a[j].child[k] && b[l].child[m] == a[l].child[m];
    }
  }

  /** Expansion adds a child with no visits yet, so each node's visits
      stay at least its children's together. */
  lemma GrownTallied<B(!new)>(g: Game<B>, a: seq<Node<B>>, b: seq<Node<B>>, i: nat)
    requires Shaped(g, a) && Tallied(a) && i < |a| && a[i].legal != [] && Grown(g, a, b, i)
    ensures Tallied(b)
  {
    GrownCounters(g, a, b, i);
    forall j | 0 <= j < |b| ensures Sum(ChildVisits(b, b[j].child)) <= b[j].visit {
      if j < |a| {
        assert b[j] == b[..|a|][j];
        assert NodeOk(g, a, j) && Sum(ChildVisits(a, a[j].child)) <= a[j].visit;
        assert ChildVisits(b, a[j].child) == ChildVisits(a, a[j].child);
        if j == i {
          assert ChildVisits(b, b[i].child) == ChildVisits(a, a[i].child) + [0];
        }
      } else {
        assert ChildVisits(b, b[j].child) == [];
      }
    }
  }

  /** Changing neither children nor visit counts keeps the tallies. */
  lemma SameCountsTallied<B>(a: seq<Node<B>>, b: seq<Node<B>>)
    requires Tallied(a) && |a| == |b|
    requires forall j :: 0 <= j < |a| ==> b[j].child == a[j].child && b[j].visit == a[j].visit
    ensures Tallied(b)
  {
    forall j | 0 <= j < |b| ensures Sum(ChildVisits(b, b[j].child)) <= b[j].visit {
      assert ChildVisits(b, b[j].child) == ChildVisits(a, a[j].child);
    }
  }

  /** Crediting a search path keeps each node's visits at least its
      children's together: a node on the path gains one visit and only the
      next node of the path among its children gains one, and a node off
      the path has no child on it. */
  lemma TalliedCredit<B(!new)>(g: Game<B>, a: seq<Node<B>>, b: seq<Node<B>>, path: seq<nat>, z: nat)
    requires Shaped(g, a) && Unshared(a) && Tallied(a) && IsPath(a, path) && Counted(a, b, path, z) && SameLinks(a, b)
    ensures Tallied(b)
  {
    forall j | 0 <= j < |b| ensures Sum(ChildVisits(b, b[j].child)) <= b[j].visit {
      TalliedAt(g, a, b, path, z, j);
    }
  }

  /** TalliedCredit at node j. */
  lemma TalliedAt<B(!new)>(g: Game<B>, a: seq<Node<B>>, b: seq<Node<B>>, path: seq<nat>, z: nat, j: nat)
    requires Shaped(g, a) && Unshared(a) && Tallied(a) && IsPath(a, path) && Counted(a, b, path, z) && SameLinks(a, b)
    requires j < |a|
    ensures Sum(ChildVisits(b, b[j].child)) <= b[j].visit
  {
    var ch := a[j].child;
    assert NodeOk(g, a, j);
    assert Sum(ChildVisits(a, ch)) <= a[j].visit;
    if m :| 0 <= m < |path| - 1 && path[m] == j {
      assert path[m + 1] in a[path[m]].child;
      var q :| 0 <= q < |ch| && ch[q] == path[m + 1];
      forall k | 0 <= k < |ch| && k != q ensures ch[k] !in path {
        DistinctAt(Moves(a, ch), k, q);
        forall n | 0 <= n < |path| ensures path[n] != ch[k] {
          PathChild(g, a, path, j, k, n);
        }
      }
      BumpedChildren(a, b, ch, q, path, z);
    } else {
      forall k | 0 <= k < |ch| ensures ch[k] !in path {
        forall n | 0 <= n < |path| ensures path[n] != ch[k] {
          PathChild(g, a, path, j, k, n);
        }
      }
      assert ChildVisits(b, ch) == ChildVisits(a, ch);
    }
  }

  /** When a path credits exactly one of the nodes listed in ch, their
      visits together gain one. */
  lemma BumpedChildren<B>(a: seq<Node<B>>, b: seq<Node<B>>, ch: seq<nat>, q: nat, path: seq<nat>, z: nat)
    requires Counted(a, b, path, z) && |a| == |b| && q < |ch| && ch[q] in path
    requires forall k :: 0 <= k < |ch| ==> ch[k] < |a|
    requires forall k :: 0 <= k < |ch| && k != q ==> ch[k] !in path
    ensures Sum(ChildVisits(b, ch)) == Sum(ChildVisits(a, ch)) + 1
  {
    SumBump(ChildVisits(a, ch), ChildVisits(b, ch), q);
  }

  /** A child of node j met on a search path comes right after j there. */
  lemma PathChild<B(!new)>(g: Game<B>, a: seq<Node<B>>, path: seq<nat>, j: nat, k: nat, n: nat)
    requires Shaped(g, a) && Unshared(a) && IsPath(a, path) && j < |a| && k < |a[j].child| && n < |path|
    ensures path[n] == a[j].child[k] ==> 0 < n && path[n - 1] == j
  {
    assert NodeOk(g, a, j);
    if n > 0 {
      var p := path[n - 1];
      assert path[n] in a[p].child;
      var m :| 0 <= m < |a[p].child| && a[p].child[m] == path[n];
    }
  }
}
