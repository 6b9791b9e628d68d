/** The game as the search engine sees it. The rules of NoGo live in the
    board and action classes, which are not part of this model; they enter
    as an oracle of total functions over an abstract board type B. */
module Board {
  import opened Wrappers

  /** board::size_x * board::size_y on the 9x9 board. */
  const Cells: nat := 81

  /** A cell, numbered 0..Cells-1. NoPoint stands for the default-constructed
      point a root node records as its move. */
  type Point = int
  const NoPoint: Point := -1

  datatype Color = Black | White

  /** `3 - who`: the other side (black and white are 1 and 2 in the board's
      piece encoding). */
  function Opponent(c: Color): (r: Color)
    ensures r != c
  {
    if c == Black then White else Black
  }

  /** action::place: a point and the colour that plays it. */
  datatype Move = Move(at: Point, color: Color)

  /** action(): no move at all, or a placement. */
  datatype Action = NoAction | Play(move: Move)

  /** The queries the engine makes of a board. */
  datatype Game<!B> = Game(
    vacant: (B, Point) -> bool,   // state(p) == board::empty
    legal: (B, Point) -> bool,    // a copy's place(p) == board::legal, for the side to move
    place: (B, Point) -> B,       // the board after a legal place(p)
    turn: B -> Color,             // info().who_take_turns
    accepts: (B, Move) -> bool)   // move.apply(copy) == board::legal

  /** What the search relies on from the rules of NoGo: only a vacant cell
      can be played, playing a cell occupies it, stones are never removed,
      and a placement passes the turn to the other side.
      An illegal attempt leaves the board unchanged, so the model never
      applies place to an illegal point. */
  ghost predicate Sound<B(!new)>(g: Game<B>) {
    && (forall b, p :: g.legal(b, p) ==> g.vacant(b, p))
    && (forall b, p :: g.legal(b, p) ==> !g.vacant(g.place(b, p), p))
    && (forall b, p, q :: g.legal(b, p) && g.vacant(g.place(b, p), q) ==> g.vacant(b, q))
    && (forall b, p :: g.legal(b, p) ==> g.turn(g.place(b, p)) == Opponent(g.turn(b)))
  }

  /** An occupied cell cannot be played. */
  lemma OccupiedIllegal<B(!new)>(g: Game<B>, b: B, q: Point)
    requires Sound(g) && !g.vacant(b, q)
    ensures !g.legal(b, q)
  {
  }

  /** A placement only fills: a cell occupied before stays occupied. */
  lemma StaysOccupied<B(!new)>(g: Game<B>, b: B, p: Point, q: Point)
    requires Sound(g) && g.legal(b, p) && !g.vacant(b, q)
    ensures !g.vacant(g.place(b, p), q)
  {
  }

  /** The vacant cells of a board. */
  ghost function Free<B>(g: Game<B>, b: B): set<Point> {
    set p | 0 <= p < Cells && g.vacant(b, p)
  }

  /** A legal placement on a cell of the board strictly shrinks the set of
      vacant cells: the measure under which a playout terminates. */
  lemma PlaceShrinksFree<B(!new)>(g: Game<B>, b: B, p: Point)
    requires Sound(g) && g.legal(b, p) && 0 <= p < Cells
    ensures Free(g, g.place(b, p)) < Free(g, b)
  {
    assert p in Free(g, b) && p !in Free(g, g.place(b, p));
  }

  /** The in-order subsequence of ps whose points satisfy f on board b. */
  function Keep<B>(f: (B, Point) -> bool, b: B, ps: seq<Point>): (r: seq<Point>)
    ensures |r| <= |ps|
  {
    if ps == [] then []
    else Keep(f, b, ps[..|ps| - 1]) + (if f(b, ps[|ps| - 1]) then [ps[|ps| - 1]] else [])
  }

  /** Keep retains exactly the points of ps that satisfy f. */
  lemma {:induction false} KeepMembers<B>(f: (B, Point) -> bool, b: B, ps: seq<Point>, p: Point)
    ensures p in Keep(f, b, ps) <==> p in ps && f(b, p)
  {
    if ps != [] {
      KeepMembers(f, b, ps[..|ps| - 1], p);
      assert ps == ps[..|ps| - 1] + [ps[|ps| - 1]];
    }
  }

  /** Keep takes each point of ps at most as often as ps holds it, so it
      keeps a duplicate-free sequence duplicate-free. */
  lemma {:induction false} KeepSubMultiset<B>(f: (B, Point) -> bool, b: B, ps: seq<Point>)
    ensures multiset(Keep(f, b, ps)) <= multiset(ps)
  {
    if ps != [] {
      KeepSubMultiset(f, b, ps[..|ps| - 1]);
      assert ps == ps[..|ps| - 1] + [ps[|ps| - 1]];
    }
  }

  /** The board reached by playing ps in order from s, or None if some point
      is illegal when its turn comes. */
  function Replay<B>(g: Game<B>, s: B, ps: seq<Point>): Option<B> {
    if ps == [] then Some(s)
    else match Replay(g, s, ps[..|ps| - 1])
      case None => None
      case Some(b) =>
        if g.legal(b, ps[|ps| - 1]) then Some(g.place(b, ps[|ps| - 1])) else None
  }

  /** A cell vacant after a replay was vacant before it. */
  lemma {:induction false} ReplayVacant<B(!new)>(g: Game<B>, s: B, ps: seq<Point>, b: B, q: Point)
    requires Sound(g) && Replay(g, s, ps) == Some(b) && g.vacant(b, q)
    ensures g.vacant(s, q)
  {
    if ps != [] {
      var mid := Replay(g, s, ps[..|ps| - 1]).value;
      var p := ps[|ps| - 1];
      assert g.legal(mid, p);
      assert g.vacant(g.place(mid, p), q);
      assert g.vacant(mid, q);
      ReplayVacant(g, s, ps[..|ps| - 1], mid, q);
    }
  }
}
