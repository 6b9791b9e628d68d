/** The player of the judge revision: "N=0 T=0 c=0.1 psi=-1 " in front of
    the arguments, the four sample-player presets, the judge build's
    "unlock!" rule, and take_action with its search budgets and its random
    fallback. */
module JudgePlayer {
  import opened Wrappers
  import opened Board
  import opened Agent
  import opened Random
  import opened PlayerBase
  import opened Seqs
  import opened JudgeMcts

  /** "N=0 T=0 c=0.1 psi=-1 ", put in front of the player's arguments. */
  const JudgeDefaults: seq<string> := ["N=0", "T=0", "c=0.1", "psi=-1"]

  /** A sample-player preset: the flag that selects it, whether it searches,
      and the meta[key] = value assignments it makes, in order. */
  datatype Preset = Preset(flag: string, search: bool, props: seq<(string, string)>)

  /** The presets in the order the constructor tests them. */
  const Presets: seq<Preset> := [
    Preset("weak", true, [("name", "weak"), ("N", "200"), ("c", "0.1"), ("psi", "1")]),
    Preset("medium", true, [("name", "medium"), ("N", "10000"), ("c", "0.1"), ("psi", "1")]),
    Preset("strong", true, [("name", "strong"), ("N", "10000"), ("c", "0.2"), ("psi", "-1")]),
    Preset("random", false, [("name", "random")])]

  /** The assignments meta[k] = v of props, one after the other. */
  function Assign(meta: map<string, string>, props: seq<(string, string)>): (r: map<string, string>)
    ensures forall k :: k in meta ==> k in r
    ensures forall k :: k in r ==> k in meta || exists j :: 0 <= j < |props| && props[j].0 == k
    decreases |props|
  {
    if props == [] then meta
    else
      assert forall j :: 0 <= j < |props| - 1 ==> props[1..][j] == props[j + 1];
      Assign(meta[props[0].0 := props[0].1], props[1..])
  }

  /** Assignments to pairwise different keys set each of those keys to its
      value and leave every other key as it was. */
  lemma {:induction false} AssignDistinct(meta: map<string, string>, props: seq<(string, string)>)
    requires forall j, j' :: 0 <= j < j' < |props| ==> props[j].0 != props[j'].0
    ensures forall j :: 0 <= j < |props| ==> props[j].0 in Assign(meta, props) && Assign(meta, props)[props[j].0] == props[j].1
    ensures forall k :: (forall j :: 0 <= j < |props| ==> props[j].0 != k) ==>
              (k in Assign(meta, props) <==> k in meta) && (k in meta ==> Assign(meta, props)[k] == meta[k])
    decreases |props|
  {
    if props != [] {
      var m := meta[props[0].0 := props[0].1];
      var rest := props[1..];
      AssignDistinct(m, rest);
      assert forall j :: 0 <= j < |rest| ==> rest[j] == props[j + 1];
      assert forall j :: 0 <= j < |rest| ==> rest[j].0 != props[0].0;
    }
  }

  /** Each preset assigns pairwise different keys, starting with its own
      name, and only the random preset turns the search off. */
  lemma PresetsWellFormed()
    ensures forall k :: 0 <= k < |Presets| ==>
              forall j, j' :: 0 <= j < j' < |Presets[k].props| ==> Presets[k].props[j].0 != Presets[k].props[j'].0
    ensures forall k :: 0 <= k < |Presets| ==> (Presets[k].search <==> Presets[k].flag != "random")
    ensures forall k :: 0 <= k < |Presets| ==> Presets[k].props[0] == ("name", Presets[k].flag)
  {
  }

  /** The first preset whose flag is a key of meta: an else-if chain. */
  function Selected(meta: map<string, string>, ps: seq<Preset>): (r: Option<nat>)
    ensures r.Some? ==> r.value < |ps| && ps[r.value].flag in meta && forall j :: 0 <= j < r.value ==> ps[j].flag !in meta
    ensures r.None? ==> forall j :: 0 <= j < |ps| ==> ps[j].flag !in meta
  {
    if ps == [] then None
    else if ps[0].flag in meta then Some(0)
    else match Selected(meta, ps[1..])
      case None => None
      case Some(k) => Some(k + 1)
  }

  /** The constructor's preset step, from the table the agent constructor
      built and the initial mcts flag: the selected preset fixes whether the
      player searches and overrides the properties it names, whatever the
      arguments said; with no preset the table stays, and a judge build runs
      MCTS only when the arguments also say "unlock!". */
  function Setup(meta: map<string, string>, mcts: bool, judge: bool): (r: (bool, map<string, string>))
    ensures Selected(meta, Presets).None? ==> r.1 == meta && (r.0 <==> mcts && (!judge || "unlock!" in meta))
    ensures Selected(meta, Presets).Some? ==>
              var ps := Presets[Selected(meta, Presets).value];
              && (r.0 <==> ps.flag != "random")
              && (forall j :: 0 <= j < |ps.props| ==> ps.props[j].0 in r.1 && r.1[ps.props[j].0] == ps.props[j].1)
              && (forall k :: (forall j :: 0 <= j < |ps.props| ==> ps.props[j].0 != k) ==>
                    (k in r.1 <==> k in meta) && (k in meta ==> r.1[k] == meta[k]))
  {
    match Selected(meta, Presets)
    case Some(k) =>
      PresetsWellFormed();
      AssignDistinct(meta, Presets[k].props);
      (Presets[k].search, Assign(meta, Presets[k].props))
    case None =>
      (if judge then mcts && "unlock!" in meta else mcts, meta)
  }

  /** The preset step removes no key; in particular the name, the role, N
      and T stay readable. */
  lemma SetupKeepsKeys(meta: map<string, string>, mcts: bool, judge: bool, key: string)
    requires key in meta
    ensures key in Setup(meta, mcts, judge).1
  {
    var r := Setup(meta, mcts, judge);
    if Selected(meta, Presets).Some? {
      var ps := Presets[Selected(meta, Presets).value];
      if exists j :: 0 <= j < |ps.props| && ps.props[j].0 == key {
        var j :| 0 <= j < |ps.props| && ps.props[j].0 == key;
        assert ps.props[j].0 in r.1;
      }
    }
  }

  /** Every default of the judge player is a single token. */
  lemma JudgeDefaultsAreWords()
    ensures forall i :: 0 <= i < |JudgeDefaults| ==> Word(JudgeDefaults[i])
    ensures Key(JudgeDefaults[0]) == "N" && Key(JudgeDefaults[1]) == "T"
  {
    assert Pair("N", "0") == JudgeDefaults[0] && Pair("T", "0") == JudgeDefaults[1];
    SplitPair("N", "0");
    SplitPair("T", "0");
  }

  /** The table always holds N and T, and agent(prefix + args) reads the
      two prefixes in turn. */
  lemma DefaultsPresent(args: string)
    ensures "N" in Configure(AgentDefaults + JudgeDefaults, args)
    ensures "T" in Configure(AgentDefaults + JudgeDefaults, args)
    ensures Configure(AgentDefaults, Line(JudgeDefaults) + args) == Configure(AgentDefaults + JudgeDefaults, args)
  {
    AgentDefaultsAreWords();
    JudgeDefaultsAreWords();
    var d := AgentDefaults + JudgeDefaults;
    assert d[2] == JudgeDefaults[0] && d[3] == JudgeDefaults[1];
    DefaultPresent(d, args, 2);
    DefaultPresent(d, args, 3);
    NestedDefaults(AgentDefaults, JudgeDefaults, args);
  }

  /** The table and the mcts flag the judge player's constructor ends with,
      before it validates the name and the role: the name, the role, N and
      T are always in the table, and with no preset the flag is N | T,
      cleared in a judge build without "unlock!". */
  function Configured(args: string, judge: bool, num: string -> nat): (r: (bool, map<string, string>))
    ensures "name" in r.1 && "role" in r.1 && "N" in r.1 && "T" in r.1
    ensures var meta := Configure(AgentDefaults + JudgeDefaults, args);
            && "N" in meta && "T" in meta
            && (Selected(meta, Presets).None? ==>
                  r.1 == meta && (r.0 <==> (num(meta["N"]) != 0 || num(meta["T"]) != 0) && (!judge || "unlock!" in meta)))
  {
    DefaultsPresent(args);
    JudgeDefaultsAreWords();
    NameAndRolePresent(JudgeDefaults, args);
    var meta := Configure(AgentDefaults + JudgeDefaults, args);
    var mcts := num(meta["N"]) != 0 || num(meta["T"]) != 0;
    SetupKeepsKeys(meta, mcts, judge, "name");
    SetupKeepsKeys(meta, mcts, judge, "role");
    SetupKeepsKeys(meta, mcts, judge, "N");
    SetupKeepsKeys(meta, mcts, judge, "T");
    Setup(meta, mcts, judge)
  }

  class Player {
    const base: Agent
    const engine: Engine
    const mcts: bool
    const who: Color
    var space: seq<Move>
    const num: string -> nat   // the numeric reading of a property (std::stod)

    ghost predicate Valid()
      reads this, base
    {
      "N" in base.meta && "T" in base.meta && FullSpace(space, who)
    }

    constructor (base: Agent, engine: Engine, mcts: bool, who: Color, space: seq<Move>, num: string -> nat)
      ensures this.base == base && this.engine == engine && this.mcts == mcts
      ensures this.who == who && this.space == space && this.num == num
    {
      this.base, this.engine, this.mcts, this.who, this.space, this.num := base, engine, mcts, who, space, num;
    }

    /** The constructors up to the checks: agent(args) reads the defaults
        and args, random_agent seeds the engine from "seed", mcts starts as
        N | T, and the presets and the judge rule apply. */
    static method Prepare(args: string, judge: bool, num: string -> nat) returns (a: Agent, e: Engine, mcts: bool)
      ensures fresh(a) && fresh(e)
      ensures (mcts, a.meta) == Configured(args, judge, num)
      ensures e.x == Seed(Configure(AgentDefaults + JudgeDefaults, args), num)
    {
      DefaultsPresent(args);
      a := new Agent(Line(JudgeDefaults) + args);
      ghost var meta := Configure(AgentDefaults + JudgeDefaults, args);
      assert a.meta == meta;
      e := new Engine(if "seed" in a.meta then num(a.meta["seed"]) else 1);
      mcts := ApplyPresets(a, judge, num);
      assert (mcts, a.meta) == Setup(meta, num(meta["N"]) != 0 || num(meta["T"]) != 0, judge);
    }

    /** The body of player(args) before the checks: mcts starts as N | T,
        then the presets and the judge rule apply to the table. */
    static method ApplyPresets(a: Agent, judge: bool, num: string -> nat) returns (mcts: bool)
      requires "N" in a.meta && "T" in a.meta
      modifies a
      ensures (mcts, a.meta) == Setup(old(a.meta), num(old(a.meta)["N"]) != 0 || num(old(a.meta)["T"]) != 0, judge)
    {
      var setup := Setup(a.meta, num(a.meta["N"]) != 0 || num(a.meta["T"]) != 0, judge);
      a.meta := setup.1;
      mcts := setup.0;
    }

    /** player(args): Prepare, then the name and the role are checked, and
        the role fixes the colour of every entry of space. */
    static method Create(args: string, judge: bool, num: string -> nat) returns (r: Result<Player, SetupError>)
      ensures var setup := Configured(args, judge, num);
              && (r.Success? <==> Validate(setup.1).Success?)
              && (r.Failure? ==> r.error == Validate(setup.1).error && !r.error.MissingProperty?)
              && (r.Success? ==> && fresh(r.value) && fresh(r.value.base) && fresh(r.value.engine) && r.value.Valid()
                                 && r.value.base.meta == setup.1 && r.value.mcts == setup.0
                                 && r.value.who == Validate(setup.1).value
                                 && |r.value.space| == Cells
                                 && (forall i :: 0 <= i < Cells ==> r.value.space[i] == Move(i, r.value.who))
                                 && r.value.engine.x == Seed(Configure(AgentDefaults + JudgeDefaults, args), num))
    {
      var a, e, mcts := Prepare(args, judge, num);
      var setup := (mcts, a.meta);
      var v := Validate(setup.1);
      if v.Failure? {
        return Failure(v.error);
      }
      var space := BuildSpace(v.value);
      var p := new Player(a, e, setup.0, v.value, space, num);
      r := Success(p);
    }

    /** take_action(state): with mcts on, build a root for state and search
        it, 10 runs per passing clock check (T), or N runs (1000 when N is
        0), then play the root's best move; with mcts off, play the first
        legal move of the shuffled space. The ghost root is the searched
        tree, whose visit count is the number of runs. */
    method TakeAction<B(!new)>(game: Game<B>, state: B, score: Scorer, batches: nat)
      returns (a: Action, ghost runs: nat, ghost root: Tree?<B>)
      requires Valid() && Sound(game)
      modifies this, engine
      ensures Valid() && base.meta == old(base.meta)
      ensures mcts ==> runs == (if num(base.meta["T"]) != 0 then 10 * batches
                                 else if num(base.meta["N"]) == 0 then 1000 else num(base.meta["N"]))
      ensures mcts ==> && root != null && fresh(root) && root.Valid() && root.game == game
                       && root.nodes[0].state == state && root.nodes[0].visit == runs
                       && (a == NoAction <==> root.nodes[0].child == [])
                       && (a.Play? ==> exists k :: IsFirstMax(root.Visits(0), k) && root.nodes[0].child[k] < |root.nodes| &&
                                                   a == Play(root.nodes[root.nodes[0].child[k]].move))
      ensures mcts && a.Play? ==> a.move.color == game.turn(state) && 0 <= a.move.at < Cells && game.legal(state, a.move.at)
      ensures mcts && runs > 0 ==> (a == NoAction <==> forall p :: 0 <= p < Cells ==> !game.legal(state, p))
      ensures mcts ==> space == old(space)
      ensures !mcts ==> multiset(space) == multiset(old(space))
      ensures !mcts && a.Play? ==> exists k :: 0 <= k < |space| && space[k] == a.move && game.accepts(state, a.move) &&
                                              forall j :: 0 <= j < k ==> !game.accepts(state, space[j])
      ensures !mcts ==> (a == NoAction <==> forall m :: m in space ==> !game.accepts(state, m))
    {
      runs, root := 0, null;
      if mcts {
        var tree := new Tree(game, state, engine);
        if num(base.meta["T"]) != 0 {
          for k := 0 to batches
            invariant tree.Valid() && tree.game == game && tree.nodes[0].state == state
            invariant tree.nodes[0].visit == 10 * k
            invariant space == old(space)
            invariant k > 0 ==> (tree.nodes[0].child == [] <==> forall p :: 0 <= p < Cells ==> !game.legal(state, p))
          {
            tree.Search(score, engine, 10);
          }
          runs := 10 * batches;
        } else {
          var n := if num(base.meta["N"]) == 0 then 1000 else num(base.meta["N"]);
          tree.Search(score, engine, n);
          runs := n;
        }
        a := tree.Best(0);
        root := tree;
      } else {
        var shuffled;
        a, shuffled := RandomMove(game, state, space, engine);
        space := shuffled;
      }
    }
  }
}
