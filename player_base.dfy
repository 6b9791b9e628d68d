/** What the two revisions' player constructors and fallbacks share: the
    name and role checks, the table of placements for the player's colour,
    and the random legal move used when no search runs. */
module PlayerBase {
  import opened Wrappers
  import opened Board
  import opened Agent
  import opened Random

  /** The characters a player's name may not contain. */
  const Forbidden: string := "[]():; "

  /** The std::invalid_argument exceptions the constructor throws, and the
      std::out_of_range that meta.at() would throw for a missing key. */
  datatype SetupError = InvalidName(name: string) | InvalidRole(role: string) | MissingProperty(key: string)

  /** name().find_first_of("[]():; ") == npos. */
  predicate ValidName(name: string) {
    forall c :: c in name ==> c !in Forbidden
  }

  /** The constructor's checks: the name first, then the role, which must be
      "black" or "white" and gives the player's colour. */
  function Validate(meta: map<string, string>): (r: Result<Color, SetupError>)
    ensures r.Success? <==>
      && "name" in meta && ValidName(meta["name"])
      && "role" in meta && (meta["role"] == "black" || meta["role"] == "white")
    ensures r.Success? ==> (r.value == Black <==> meta["role"] == "black")
    ensures "name" in meta && !ValidName(meta["name"]) ==> r == Failure(InvalidName(meta["name"]))
    ensures ("name" in meta && ValidName(meta["name"]) && "role" in meta &&
             meta["role"] != "black" && meta["role"] != "white") ==> r == Failure(InvalidRole(meta["role"]))
  {
    if "name" !in meta then Failure(MissingProperty("name"))
    else if exists c :: c in meta["name"] && c in Forbidden then Failure(InvalidName(meta["name"]))
    else if "role" !in meta then Failure(MissingProperty("role"))
    else if meta["role"] == "black" then Success(Black)
    else if meta["role"] == "white" then Success(White)
    else Failure(InvalidRole(meta["role"]))
  }

  /** Every default is a single token. */
  lemma AgentDefaultsAreWords()
    ensures forall i :: 0 <= i < |AgentDefaults| ==> Word(AgentDefaults[i])
    ensures Key(AgentDefaults[0]) == "name" && Key(AgentDefaults[1]) == "role"
  {
    PairWord("name", "unknown");
    PairWord("role", "unknown");
    SplitPair("name", "unknown");
    SplitPair("role", "unknown");
  }

  /** A constructor that puts `extra` in front of the user's arguments and
      hands the result to a constructor with defaults `base` reads the same
      table as one default prefix made of `base` and `extra`. */
  lemma {:induction false} NestedDefaults(base: seq<string>, extra: seq<string>, args: string)
    requires forall i :: 0 <= i < |base| ==> Word(base[i])
    requires forall i :: 0 <= i < |extra| ==> Word(extra[i])
    ensures Configure(base, Line(extra) + args) == Configure(base + extra, args)
  {
    var d := base + extra;
    var ta := Tokens(args);
    TokensOfLine(base, Line(extra) + args);
    TokensOfLine(extra, args);
    assert forall i :: 0 <= i < |d| ==> Word(d[i]);
    TokensOfLine(d, args);
    assert base + (extra + ta) == d + ta;
  }

  /** Every key a default names ends up in the table. */
  lemma DefaultPresent(d: seq<string>, args: string, j: nat)
    requires forall i :: 0 <= i < |d| ==> Word(d[i])
    requires j < |d|
    ensures Key(d[j]) in Configure(d, args)
  {
    TokensOfLine(d, args);
    assert (d + Tokens(args))[j] == d[j];
    StoreKeys(map[], d + Tokens(args), Key(d[j]));
  }

  /** The agent defaults always supply a name and a role, so a constructed
      player never meets the missing-property case. */
  lemma NameAndRolePresent(extra: seq<string>, args: string)
    requires forall i :: 0 <= i < |extra| ==> Word(extra[i])
    ensures "name" in Configure(AgentDefaults + extra, args)
    ensures "role" in Configure(AgentDefaults + extra, args)
  {
    AgentDefaultsAreWords();
    var d := AgentDefaults + extra;
    assert forall i :: 0 <= i < |d| ==> Word(d[i]);
    assert d[0] == AgentDefaults[0] && d[1] == AgentDefaults[1];
    DefaultPresent(d, args, 0);
    DefaultPresent(d, args, 1);
  }

  /** The value random_agent seeds the engine with: the "seed" property,
      or 1, the engine's default seed, when there is none. */
  function Seed(meta: map<string, string>, num: string -> nat): (x: nat)
    ensures 0 < x < Modulus
    ensures "seed" !in meta ==> x == 1
  {
    var seed := if "seed" in meta then num(meta["seed"]) else 1;
    if seed % Modulus == 0 then 1 else seed % Modulus
  }

  /** All placements of one colour, each cell once. */
  ghost predicate FullSpace(space: seq<Move>, who: Color) {
    |space| == Cells && forall m :: m in space <==> 0 <= m.at < Cells && m.color == who
  }

  /** space[i] = action::place(i, who) for every cell. */
  method BuildSpace(who: Color) returns (space: seq<Move>)
    ensures |space| == Cells
    ensures forall i :: 0 <= i < Cells ==> space[i] == Move(i, who)
    ensures FullSpace(space, who)
  {
    space := [];
    for i := 0 to Cells
      invariant |space| == i
      invariant forall j :: 0 <= j < i ==> space[j] == Move(j, who)
    {
      space := space + [Move(i, who)];
    }
    forall m | m in space ensures 0 <= m.at < Cells && m.color == who {
      var i :| 0 <= i < |space| && space[i] == m;
    }
    forall m: Move | 0 <= m.at < Cells && m.color == who ensures m in space {
      assert space[m.at] == m;
    }
  }

  /** The first move of space the board accepts, or no move at all. */
  method FirstAccepted<B>(g: Game<B>, state: B, space: seq<Move>) returns (a: Action)
    ensures a == NoAction <==> forall k :: 0 <= k < |space| ==> !g.accepts(state, space[k])
    ensures a.Play? ==> exists k :: 0 <= k < |space| && space[k] == a.move && g.accepts(state, a.move) &&
                                    forall j :: 0 <= j < k ==> !g.accepts(state, space[j])
  {
    for k := 0 to |space|
      invariant forall j :: 0 <= j < k ==> !g.accepts(state, space[j])
    {
      if g.accepts(state, space[k]) {
        return Play(space[k]);
      }
    }
    return NoAction;
  }

  /** The fallback of take_action: shuffle space in place, then play its
      first legal move. */
  method RandomMove<B>(g: Game<B>, state: B, space: seq<Move>, engine: Engine) returns (a: Action, shuffled: seq<Move>)
    modifies engine
    ensures multiset(shuffled) == multiset(space)
    ensures |shuffled| == |space| && forall m :: m in shuffled <==> m in space
    ensures a == NoAction <==> forall k :: 0 <= k < |shuffled| ==> !g.accepts(state, shuffled[k])
    ensures a.Play? ==> exists k :: 0 <= k < |shuffled| && shuffled[k] == a.move && g.accepts(state, a.move) &&
                                    forall j :: 0 <= j < k ==> !g.accepts(state, shuffled[j])
  {
    shuffled := Shuffle(space, engine);
    forall m ensures m in shuffled <==> m in space {
      assert m in multiset(shuffled) <==> m in multiset(space);
    }
    a := FirstAccepted(g, state, shuffled);
  }
}
