/** The player of the later revision: "name=random role=unknown N=0 " in
    front of the arguments, the name and role checks, and take_action,
    which runs N cycles of MCTS when N is not 0 and otherwise plays the
    first legal move of the shuffled space. */
module MctsPlayer {
  import opened Wrappers
  import opened Board
  import opened Agent
  import opened Random
  import opened PlayerBase
  import opened Seqs
  import opened Mcts

  /** "name=random role=unknown N=0 ", put in front of the player's
      arguments. */
  const PlayerDefaults: seq<string> := [Pair("name", "random"), Pair("role", "unknown"), Pair("N", "0")]

  /** Every default of the player is a single token. */
  lemma PlayerDefaultsAreWords()
    ensures forall i :: 0 <= i < |PlayerDefaults| ==> Word(PlayerDefaults[i])
    ensures Key(PlayerDefaults[0]) == "name" && Value(PlayerDefaults[0]) == "random"
    ensures Key(PlayerDefaults[1]) == "role" && Key(PlayerDefaults[2]) == "N"
  {
    PairWord("name", "random");
    PairWord("role", "unknown");
    PairWord("N", "0");
    SplitPair("name", "random");
    SplitPair("role", "unknown");
    SplitPair("N", "0");
  }

  /** The table always holds N, and agent(prefix + args) reads the two
      prefixes in turn. */
  lemma DefaultsPresent(args: string)
    ensures "N" in Configure(AgentDefaults + PlayerDefaults, args)
    ensures Configure(AgentDefaults, Line(PlayerDefaults) + args) == Configure(AgentDefaults + PlayerDefaults, args)
  {
    AgentDefaultsAreWords();
    PlayerDefaultsAreWords();
    var d := AgentDefaults + PlayerDefaults;
    assert d[4] == PlayerDefaults[2];
    DefaultPresent(d, args, 4);
    NestedDefaults(AgentDefaults, PlayerDefaults, args);
  }

  /** Without a name among the arguments the player is called "random": the
      player's default comes after the agent's "name=unknown" and overrides
      it. */
  lemma NameDefaultsToRandom(args: string)
    requires forall j :: 0 <= j < |Tokens(args)| ==> Key(Tokens(args)[j]) != "name"
    ensures "name" in Configure(AgentDefaults + PlayerDefaults, args)
    ensures Configure(AgentDefaults + PlayerDefaults, args)["name"] == "random"
  {
    AgentDefaultsAreWords();
    PlayerDefaultsAreWords();
    var d := AgentDefaults + PlayerDefaults;
    assert forall i :: 0 <= i < |d| ==> Word(d[i]);
    assert d[2] == PlayerDefaults[0] && d[3] == PlayerDefaults[1] && d[4] == PlayerDefaults[2];
    assert LastFor(d, "name", 2);
    StoreLast(map[], d, "name", 2);
    ArgsOverrideDefaults(d, args, "name");
  }

  class Player {
    const base: Agent
    const engine: Engine
    const who: Color
    var space: seq<Move>
    const num: string -> nat   // the numeric reading of a property (std::stod)

    ghost predicate Valid()
      reads this, base
    {
      "N" in base.meta && FullSpace(space, who)
    }

    constructor (base: Agent, engine: Engine, who: Color, space: seq<Move>, num: string -> nat)
      ensures this.base == base && this.engine == engine && this.who == who
      ensures this.space == space && this.num == num
    {
      this.base, this.engine, this.who, this.space, this.num := base, engine, who, space, num;
    }

    /** The constructors up to the checks: agent(args) reads the defaults
        and args, and random_agent seeds the engine from "seed". */
    static method Prepare(args: string, num: string -> nat) returns (a: Agent, e: Engine)
      ensures fresh(a) && fresh(e)
      ensures a.meta == Configure(AgentDefaults + PlayerDefaults, args)
      ensures e.x == Seed(Configure(AgentDefaults + PlayerDefaults, args), num)
    {
      DefaultsPresent(args);
      a := new Agent(Line(PlayerDefaults) + args);
      e := new Engine(if "seed" in a.meta then num(a.meta["seed"]) else 1);
    }

    /** player(args): Prepare, then the name and the role are checked, and
        the role fixes the colour of every entry of space. */
    static method Create(args: string, num: string -> nat) returns (r: Result<Player, SetupError>)
      ensures var meta := Configure(AgentDefaults + PlayerDefaults, args);
              && (r.Success? <==> Validate(meta).Success?)
              && (r.Failure? ==> r.error == Validate(meta).error && !r.error.MissingProperty?)
              && (r.Success? ==> && fresh(r.value) && fresh(r.value.base) && fresh(r.value.engine) && r.value.Valid()
                                 && r.value.base.meta == meta && r.value.who == Validate(meta).value
                                 && |r.value.space| == Cells
                                 && (forall i :: 0 <= i < Cells ==> r.value.space[i] == Move(i, r.value.who))
                                 && r.value.engine.x == Seed(meta, num))
    {
      var a, e := Prepare(args, num);
      DefaultsPresent(args);
      PlayerDefaultsAreWords();
      NameAndRolePresent(PlayerDefaults, args);
      var v := Validate(a.meta);
      if v.Failure? {
        return Failure(v.error);
      }
      var space := BuildSpace(v.value);
      var p := new Player(a, e, v.value, space, num);
      r := Success(p);
    }

    /** take_action(state): with N not 0, run N cycles of MCTS from a root
        for state and play the root's most visited move; otherwise play the
        first legal move of the shuffled space. The ghost root is the
        searched tree, whose visit count is N. */
    method TakeAction<B(!new)>(game: Game<B>, state: B, ucb: Ucb) returns (a: Action, ghost root: Tree?<B>)
      requires Valid() && Sound(game)
      modifies this, engine
      ensures Valid() && base.meta == old(base.meta)
      ensures num(base.meta["N"]) != 0 ==>
                && root != null && fresh(root) && root.Valid() && Visited(root.nodes) && root.game == game
                && root.nodes[0].state == state && root.nodes[0].visit == num(base.meta["N"])
                && (a == NoAction <==> root.nodes[0].child == [])
                && (a.Play? ==> exists k :: IsFirstMax(root.Visits(0), k) && root.nodes[0].child[k] < |root.nodes| &&
                                            a == Play(Move(root.nodes[root.nodes[0].child[k]].move, game.turn(state))))
      ensures num(base.meta["N"]) != 0 && a.Play? ==>
                a.move.color == game.turn(state) && 0 <= a.move.at < Cells && game.legal(state, a.move.at)
      ensures num(base.meta["N"]) != 0 ==> (a == NoAction <==> forall p :: 0 <= p < Cells ==> !game.legal(state, p))
      ensures num(base.meta["N"]) != 0 ==> space == old(space)
      ensures num(base.meta["N"]) == 0 ==> multiset(space) == multiset(old(space))
      ensures num(base.meta["N"]) == 0 && a.Play? ==>
                exists k :: 0 <= k < |space| && space[k] == a.move && game.accepts(state, a.move) &&
                            forall j :: 0 <= j < k ==> !game.accepts(state, space[j])
      ensures num(base.meta["N"]) == 0 ==> (a == NoAction <==> forall m :: m in space ==> !game.accepts(state, m))
    {
      root := null;
      var n := num(base.meta["N"]);
      if n != 0 {
        var tree := new Tree(game, state);
        a := tree.RunMcts(n, ucb, engine);
        root := tree;
      } else {
        var shuffled;
        a, shuffled := RandomMove(game, state, space, engine);
        space := shuffled;
      }
    }
  }
}
