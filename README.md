# A verified model of the NoGo MCTS players

This project models the decision-making core of a NoGo framework written for
the Theory of Computer Games course (C++11). It covers two revisions of
`agent.h`:

- the judge revision, `pj-4-judge-v2-source/agent.h`;
- the later revision, `agent.h`.

In both, a `player` chooses a move by Monte Carlo tree search or, when
searching is switched off, plays the first legal move of a shuffled action
table. The model covers four parts:

- **The `agent` base class** (module `Agent`, `agent.dfy`). It prepends
  default `key=value` words to the arguments and splits the line into
  whitespace-separated tokens. Each token is cut at its first `=` and stored
  in `meta`, so a later token overrides an earlier one. `notify` changes one
  entry, and `property` reads one.
- **Player construction** (modules `PlayerBase`, `JudgePlayer`, `MctsPlayer`).
  This step covers:
  - each revision's default prefix;
  - the judge revision's presets (`weak`, `medium`, `strong`, `random`), its
    `JUDGE`-build `unlock!` rule and its initial `mcts` flag, `N | T`;
  - the seeding of `random_agent`;
  - the name check (none of `[]():; `) and the role check (`black` or `white`);
  - the action table `space[i] = place(i, who)`.
- **The judge revision's tree** (module `JudgeMcts`). Each node caches:
  - `empty`, the vacant cells in the order of its parent's list;
  - `legal`, a shuffled list of the legal moves not yet expanded;
  - `win`, the known winner of a node that has no legal move.

  `expand` pops the last untried legal move. `rollout` is a swap loop over
  `empty`. `run_mcts` descends while nodes are fully expanded, expands once,
  rolls out and updates the whole path. `best` picks the first child with the
  most visits. `take_action` runs N cycles (1000 when N is 0), or batches of 10
  within a time budget T.
- **The later revision's tree** (module `Mcts`). Nodes hold only the board,
  the last move, a parent pointer, the children and two counters.
  `is_selectable` counts the legal moves over all 81 cells. `expand` scans a
  shuffled list of all 81 moves and stops at the first legal move not yet
  expanded. `simulate` plays random shuffled moves until no move is
  legal. `take_action` runs N cycles when N is not 0 and otherwise plays
  randomly.

Supporting modules:

- `Board` is the game: an abstract oracle `Game<B>`. Its functions test
  whether a cell is vacant, whether a placement is legal, the board after a
  placement, the side to move, and whether an `action::place` applies. The
  predicate `Sound` holds the few rules of NoGo the search depends on.
- `Random` is `std::default_random_engine` (minstd_rand0) and a
  Fisher–Yates shuffle.
- `Seqs` holds sequence helpers, including the first-maximum scan that both
  revisions use to pick a child.
- `Wrappers` holds `Option` and `Result`.

A tree is an arena `nodes: seq<Node<B>>` held by a class `Tree<B>`:

- the root is index 0;
- children are indices, always larger than their parent's;
- the later revision's parent pointer is an index as well;
- every method that changes the tree states the whole new arena.

The judge revision's invariant `Wf` says that every node's children were
reached by a legal move that has left its `legal` list. It also says that
the children's moves are distinct and that every legal move is either still
in `legal` or is a child's move. The later revision's invariant `Valid` adds
`Settled`: a node has children only once every legal move of its parent
has been expanded. So a node gains grandchildren only after every legal
move of its own has been expanded. The source keeps children by value in a
`std::vector<node>`. Each child stores its parent's address (`this` in
`expand`, `agent.h:136`), and the leaf `&child.back()` is put on the path.
`Settled` shows that a child vector grows only while none of its elements
has children of its own, so no stored parent pointer is left dangling.

Both revisions also keep two facts about the counters. `Tallied` says that
a node has at least as many visits as its children together, since every
playout through a child also passed through it. `Visited` says that, between
cycles, every node but a childless root has been visited. So the score of a
child never divides by a zero visit count, and that is a fact about the
structure of the tree, with no guard in the code. In the judge revision,
which has no parent pointers, `Unshared` adds that no node appears in two
child lists.

Both revisions score a playout against the side to move at the ROOT and
credit that same 0/1 value to every node on the path
(`pj-4-judge-v2-source/agent.h:157`, `agent.h:156`). The node's own mover
plays no part in the credit. The model follows the code:
`JudgeMcts.Tree.RunMcts` and `Mcts.Tree.Update` state the root-side credit.
In the judge revision the default `psi=-1` makes `ps` alternate in sign with
depth, which turns the root-side win rate around at the opponent's levels.

## Model

Source paths are relative to the repository root.

| member | source | states |
|---|---|---|
| Agent.TokenEnd | agent.h:26 | the first whitespace character after the leading run of non-whitespace, or the end of the text |
| Agent.Tokens | agent.h:25-26 | what `ss >> pair` yields: every token is non-empty and contains no whitespace |
| Agent.FindEq | agent.h:27-28 | `find('=')`: the index of the first `=`, before which there is none; absent iff the token has no `=` |
| Agent.Key | agent.h:27 | `substr(0, find('='))`: contains no `=`, and is the whole token when it has no `=` |
| Agent.Value | agent.h:28 | `substr(find('=') + 1)`: the whole token when it has no `=` (`npos + 1` wraps to 0) |
| Agent.PairWord | agent.h:25 | a default `k=v` of two words is read back as a single token |
| Agent.SplitPair | agent.h:27-28 | the key and value of `k=v` are k and v when k contains no `=` |
| Agent.JoinPair | agent.h:27-28 | a token containing `=` is exactly its key, `=`, and its value |
| Agent.Store | agent.h:26-30 | `meta[key] = value` per token: no key is ever removed, and the last token's key holds its value |
| Agent.StoreAppend | agent.h:26-30 | storing the tokens a + b stores a, then b |
| Agent.StoreKeys | agent.h:26-30 | a key is in the table iff it was there before or some token names it |
| Agent.StoreLast | agent.h:29 | the value of a key is that of the last token naming it |
| Agent.StoreUntouched | agent.h:26-30 | a key no token names keeps its earlier value, or stays absent |
| Agent.TokensOfWord | agent.h:25-26 | a word reads as the single token it is |
| Agent.TokensSplit | agent.h:25-26 | any whitespace character separates: the tokens of `a + [c] + b` are those of a, then those of b |
| Agent.TokensOfLine | agent.h:25 | a prefix of default words, each followed by a space, reads as those words followed by the arguments' tokens |
| Agent.ArgsOverrideDefaults | agent.h:25-30 | a key that an argument names gets the last such value; any other key keeps its default, or stays absent |
| Agent.StoreAll | agent.h:26-30 | the loop over the tokens builds exactly the table of the stored tokens |
| Agent.Agent.constructor | agent.h:24-31 | `meta` is the table of `"name=unknown role=unknown " + args` |
| Agent.Agent.Notify | agent.h:40 | only the message's key changes, and it takes the message's value |
| Agent.Agent.Property | agent.h:39 | `meta.at(key)`: a value iff the key is present (otherwise `at` throws), and then the stored one |
| Board.Opponent | pj-4-judge-v2-source/agent.h:214 | `3 - who`: the other colour |
| Board.Keep | pj-4-judge-v2-source/agent.h:122-127 | a filtered list is no longer than its source |
| Board.KeepMembers | pj-4-judge-v2-source/agent.h:122-127 | a point is kept iff it is in the list and passes the test |
| Board.KeepSubMultiset | pj-4-judge-v2-source/agent.h:122-127 | filtering adds no point and duplicates none |
| Board.PlaceShrinksFree | agent.h:146-147 | a legal placement strictly shrinks the set of vacant cells, so a playout ends |
| Board.ReplayVacant | pj-4-judge-v2-source/agent.h:200-210 | a cell vacant after a sequence of legal placements was vacant before it |
| Random.Engine.constructor | agent.h:60-63 | minstd_rand0 seeding: the seed modulo 2^31-1, with 0 replaced by 1 |
| Random.Engine.Below | pj-4-judge-v2-source/agent.h:128 | a draw below the bound, advancing the state by x * 16807 mod 2^31-1 |
| Random.Shuffle | pj-4-judge-v2-source/agent.h:128 | `std::shuffle`: the result is a permutation of its input |
| Seqs.Swap | pj-4-judge-v2-source/agent.h:206 | `std::swap` of two entries: they are exchanged, the rest stays, and the contents do not change |
| Seqs.DropLast | pj-4-judge-v2-source/agent.h:192 | `pop_back` of a duplicate-free list leaves a duplicate-free list without the popped entry |
| Seqs.DistinctSnoc | pj-4-judge-v2-source/agent.h:191 | appending a new entry to a duplicate-free list keeps it duplicate-free |
| Seqs.FirstMax | pj-4-judge-v2-source/agent.h:216-223 | the index of the first maximum: nothing is larger and everything before it is smaller |
| PlayerBase.Validate | agent.h:79-84 | success iff the name has none of `[]():; ` and the role is `black` or `white`; the name is checked first; the colour follows the role |
| PlayerBase.AgentDefaultsAreWords | agent.h:25 | `name=unknown` and `role=unknown` are single tokens with keys name and role |
| PlayerBase.NestedDefaults | agent.h:77 | a player's prefix passed into `agent(args)` acts as extra defaults after the agent's own |
| PlayerBase.DefaultPresent | agent.h:25-30 | every defaulted key is always in the table |
| PlayerBase.NameAndRolePresent | agent.h:25-31 | `name` and `role` are always present, so `name()` and `role()` never throw |
| PlayerBase.Seed | agent.h:60-63 | the engine's state is in range, and is 1 when no `seed` is given |
| PlayerBase.BuildSpace | agent.h:85-86 | `space[i] == place(i, who)` for each of the 81 cells |
| PlayerBase.FirstAccepted | agent.h:214-219 | the first move of the table that applies, or no action iff none applies |
| PlayerBase.RandomMove | agent.h:213-219 | the table is reshuffled into a permutation of itself, and the first applicable move of the new order is played, or no action iff none applies |
| JudgeMcts.FullyExpandedIff | pj-4-judge-v2-source/agent.h:163-165 | `is_fully_expanded()`: a child exists and no legal move is left, iff a child exists and every legal move of the board is a child's move |
| JudgeMcts.TerminalIffStuck | pj-4-judge-v2-source/agent.h:130 | a node has a recorded winner iff no move is legal on its board |
| JudgeMcts.BornLocal | pj-4-judge-v2-source/agent.h:118-131 | a new node's `legal` holds every legal move, and its lists satisfy the node invariant |
| JudgeMcts.ExpandShaped | pj-4-judge-v2-source/agent.h:186-197 | expansion keeps the arena invariant |
| JudgeMcts.GrownMoves | pj-4-judge-v2-source/agent.h:186-197 | after expansion the children's moves are still distinct, and every legal move is still untried or expanded |
| JudgeMcts.SameLinksShaped | pj-4-judge-v2-source/agent.h:166-169 | changing only counters (within value <= visit) and the order of `empty` keeps the invariant |
| JudgeMcts.VisitedAfter | pj-4-judge-v2-source/agent.h:157-161 | after an update every node but a childless root has been visited, so no UCB divides by zero |
| JudgeMcts.ScoredVisited | pj-4-judge-v2-source/agent.h:171-177 | between playouts a node with children, and each of its children, has been visited, so `log(visit)` and `value / visit` in `select` are defined |
| JudgeMcts.GrownUnshared | pj-4-judge-v2-source/agent.h:186-197 | expansion gives the new node to its parent alone, so no node hangs under two |
| JudgeMcts.GrownTallied | pj-4-judge-v2-source/agent.h:186-197 | a new child has no visits, so every node still has at least as many visits as its children together |
| JudgeMcts.SameCountsTallied | pj-4-judge-v2-source/agent.h:198-215 | a rollout changes neither children nor visits, so the visit sums still hold |
| JudgeMcts.TalliedCredit | pj-4-judge-v2-source/agent.h:157-161 | crediting a search path keeps every node's visits at least its children's together |
| JudgeMcts.VacantCells | pj-4-judge-v2-source/agent.h:132-137 | exactly the vacant cells, in increasing order |
| JudgeMcts.Frontiers | pj-4-judge-v2-source/agent.h:120-127 | `empty` keeps the vacant points of `pempty` in order, and `legal` the legal points of `empty` |
| JudgeMcts.NewNode | pj-4-judge-v2-source/agent.h:118-131 | the node's board and move, its two lists, zero counters, and the mover as winner iff `legal` is empty |
| JudgeMcts.Playout | pj-4-judge-v2-source/agent.h:199-213 | the swap loop terminates, leaves `empty` a permutation of itself with no entry legal on the final board, and reaches that board by legal placements |
| JudgeMcts.Tree.constructor | pj-4-judge-v2-source/agent.h:132-137 | a root for the state whose `legal` is exactly its legal moves, with no children and zero counters |
| JudgeMcts.Tree.Expand | pj-4-judge-v2-source/agent.h:186-197 | empty `legal`: none, nothing changes; otherwise one new node for the last legal move, appended to `child`, which leaves `legal` |
| JudgeMcts.Tree.Rollout | pj-4-judge-v2-source/agent.h:198-215 | only the node's `empty` changes, and as a permutation; the final board has no legal move; the winner is the opponent of its side to move |
| JudgeMcts.Tree.Update | pj-4-judge-v2-source/agent.h:166-169 | `value += z`, `visit += 1` on that node alone |
| JudgeMcts.Tree.Scores | pj-4-judge-v2-source/agent.h:170-182 | one score per child, from the depth, the node's visits and that child's counters |
| JudgeMcts.Tree.Visits | pj-4-judge-v2-source/agent.h:216-221 | one visit count per child, in child order |
| JudgeMcts.Tree.Select | pj-4-judge-v2-source/agent.h:170-185 | null iff no children; otherwise the first child of highest score (strict `>`) |
| JudgeMcts.Tree.Best | pj-4-judge-v2-source/agent.h:216-223 | no action iff no children; otherwise the move of the first child with most visits, a legal move of the side to move |
| JudgeMcts.Tree.Descend | pj-4-judge-v2-source/agent.h:144-150 | a path from the root through fully expanded nodes, each choosing the next at its depth, ending at one that is not fully expanded |
| JudgeMcts.Tree.Backup | pj-4-judge-v2-source/agent.h:157-161 | each path node, and no other, gains one visit and z wins; the links stay |
| JudgeMcts.Tree.Grow | pj-4-judge-v2-source/agent.h:151-156 | the path gains the new leaf iff one was expanded; the winner is rolled out from it, or is the known winner of a terminal node |
| JudgeMcts.Tree.RunMcts | pj-4-judge-v2-source/agent.h:143-162 | one cycle: descent, at most one new node, and every path node gains one visit and a win iff the winner is the root's side to move |
| JudgeMcts.Tree.Credit | pj-4-judge-v2-source/agent.h:157-161 | crediting the path keeps every node visited, every node's visits at least its children's together, and the counters exact |
| JudgeMcts.Tree.Search | pj-4-judge-v2-source/agent.h:244-248 | `count` cycles add exactly `count` root visits; after at least one the root has children iff it has a legal move |
| JudgePlayer.AssignDistinct | pj-4-judge-v2-source/agent.h:81-99 | assignments to distinct keys set those keys and leave the others |
| JudgePlayer.PresetsWellFormed | pj-4-judge-v2-source/agent.h:79-100 | presets name themselves, assign distinct keys, and only `random` turns the search off |
| JudgePlayer.Assign | pj-4-judge-v2-source/agent.h:81-99 | a preset's `meta[k] = v` assignments: no key is removed, and every new key is one the preset assigns |
| JudgePlayer.Selected | pj-4-judge-v2-source/agent.h:79-100 | the else-if chain: the first preset whose flag is present, none iff no flag is |
| JudgePlayer.Setup | pj-4-judge-v2-source/agent.h:77-105 | a preset fixes `mcts` and overrides its keys; without one the table stays and a JUDGE build searches only with `unlock!` |
| JudgePlayer.SetupKeepsKeys | pj-4-judge-v2-source/agent.h:79-105 | presets never remove a key |
| JudgePlayer.JudgeDefaultsAreWords | pj-4-judge-v2-source/agent.h:76 | the judge defaults are single tokens, beginning with `N` and `T` |
| JudgePlayer.DefaultsPresent | pj-4-judge-v2-source/agent.h:76 | `N` and `T` are always present, and the prefix acts as extra defaults |
| JudgePlayer.Configured | pj-4-judge-v2-source/agent.h:76-105 | name, role, N and T are always in the table; without a preset the table is the parsed one and `mcts` is "N or T not 0", cleared in a JUDGE build without `unlock!` |
| JudgePlayer.Player.ApplyPresets | pj-4-judge-v2-source/agent.h:77-104 | `mcts` starts as "N or T not 0", then the presets and the JUDGE rule set `mcts` and the table as `Setup` does |
| JudgePlayer.Player.Prepare | pj-4-judge-v2-source/agent.h:76-105 | the table and `mcts` after defaults and presets, and the seeded engine |
| JudgePlayer.Player.Create | pj-4-judge-v2-source/agent.h:76-114 | fails iff name or role is invalid, with that error; on success the table, `mcts`, colour and engine, and `space[i] == place(i, who)` for every cell |
| JudgePlayer.Player.TakeAction | pj-4-judge-v2-source/agent.h:235-259 | with search: a fresh root for the state whose visit count is the number of cycles (`10 * batches` with T, otherwise N, 1000 when 0), and the move of its first most visited child, none iff it has no child; without search: space is reshuffled into a permutation and its first applicable move is played, none iff none applies |
| Mcts.ChildrenWithinLegal | agent.h:176-182 | never more children than legal moves, and as many iff every legal move is expanded |
| Mcts.UnselectableCases | agent.h:126-138 | a node that is not selectable has no legal move or an unexpanded legal move |
| Mcts.CountLegal | agent.h:177-180 | the number of legal cells among 0..80 |
| Mcts.AllMoves | agent.h:196-201 | a permutation of the 81 cells |
| Mcts.FirstLegal | agent.h:146-147 | the first move of the list that is legal, or the end of the list if none is |
| Mcts.AddedShaped | agent.h:126-138 | adding a child keeps the arena invariant and the counters, and only grows child lists |
| Mcts.GrowingHasBareChildren | agent.h:136-137 | a node that can still gain a child has no grandchildren, so moving its children breaks no pointer |
| Mcts.AddedSettled | agent.h:113-138 | expanding the end of a selection keeps parent pointers valid |
| Mcts.PathParent | agent.h:136 | along a path each node's parent pointer is the node before it |
| Mcts.ExtendSettled | agent.h:97-101 | expanding the last node of a selected path keeps parent pointers valid |
| Mcts.ScoredVisited | agent.h:187-191 | between cycles a node with children, and each of its children, has been visited, so `ucb_score` divides by a nonzero count and takes the log of a nonzero count |
| Mcts.VisitedAfter | agent.h:154-159 | an update through the root and through every new node leaves every node but a childless root visited |
| Mcts.GrownVisited | agent.h:98-103 | a cycle's path ends at its new node, if any, so every node stays visited |
| Mcts.AddedTallied | agent.h:136-137 | a new child has no visits, so every node still has at least as many visits as its children together |
| Mcts.TalliedCredit | agent.h:154-159 | crediting a search path keeps every node's visits at least its children's together: only the next path node among a path node's children gains a visit |
| Mcts.Tree.constructor | agent.h:91-92 | a root for the state with no parent, no children and zero counters |
| Mcts.Tree.IsSelectable | agent.h:176-182 | as many children as legal moves, and at least one legal move |
| Mcts.Tree.IsExpanded | agent.h:131-132 | the move is one of the children's moves |
| Mcts.Tree.FirstUnexpanded | agent.h:129-134 | the first move of the list that is legal and not expanded, all earlier ones expanded or illegal |
| Mcts.Tree.Expand | agent.h:126-138 | itself and no change iff every legal move is expanded; otherwise one new child for the first legal unexpanded move of a permutation of the 81 cells, a move no sibling has |
| Mcts.Tree.Simulate | agent.h:143-149 | the final board is reached by legal placements and has no legal move; the winner is the opponent of its side to move |
| Mcts.Tree.Update | agent.h:154-159 | each path node, and no other, gains one visit and a win iff the winner is the root's side to move; the invariant, including the visit sums, is kept |
| Mcts.Tree.Scores | agent.h:187-191 | one score per child, from that child's counters and its parent's visits |
| Mcts.Tree.Visits | agent.h:165-166 | one visit count per child, in child order |
| Mcts.Tree.SelectionAtRoot | agent.h:113-120 | a selection from an unselectable root is the root alone |
| Mcts.Tree.Select | agent.h:113-120 | a path from the root, each node selectable and moving to its first child of highest score, ending at a node that is not selectable |
| Mcts.Tree.Best | agent.h:164-169 | no action iff no children; otherwise the first child with most visits, played by the side to move, a legal move |
| Mcts.Tree.Extend | agent.h:100-101 | the path gains the new child iff the last node had an unexpanded legal move |
| Mcts.Tree.Grow | agent.h:100-102 | expansion, then a playout from the new path's last node by legal placements to a board with no legal move; the winner is the opponent of that board's side to move and is credited to the path, which grows iff a child was added |
| Mcts.Tree.Score | agent.h:102 | `update(path, leaf->simulate(engine))`: the winner is that of a playout from the path's last node to a board with no legal move, and is credited to the path; only the counters change |
| Mcts.Tree.Cycle | agent.h:98-103 | one cycle: selection, at most one new node, a playout from the path's end to a board with no legal move, and root-side credit for its winner; every node stays visited; a childless root with a legal move gains a child |
| Mcts.Tree.RunMcts | agent.h:97-105 | N cycles add exactly N root visits and keep every node visited; a legal move of the first most visited child, none iff no legal move (for N > 0) |
| MctsPlayer.PlayerDefaultsAreWords | agent.h:77 | `name=random role=unknown N=0` are single tokens with keys name, role, N |
| MctsPlayer.DefaultsPresent | agent.h:77 | `N` is always present, and the prefix acts as extra defaults |
| MctsPlayer.NameDefaultsToRandom | agent.h:25-31 | without a `name` argument the player is called `random`, overriding `name=unknown` |
| MctsPlayer.Player.Prepare | agent.h:77 | the table of both default prefixes and the arguments, and the seeded engine |
| MctsPlayer.Player.Create | agent.h:77-87 | fails iff name or role is invalid, with that error; on success the table, colour and engine, and `space[i] == place(i, who)` for every cell |
| MctsPlayer.Player.TakeAction | agent.h:209-220 | N not 0: a fresh root for the state with N visits, and the move of its first most visited child for the side to move, none iff no move is legal; N = 0: space is reshuffled into a permutation and its first applicable move is played, none iff none applies |

## Left out

- UCB arithmetic (`std::log`, `std::sqrt`, float division, `ps *= psi`, the
  `-FLT_MAX` start of the judge's scan and the default `c = sqrt(2)`) is
  floating point. Scores are abstract integer-valued functions of the
  counters (and, in the judge revision, of the depth that fixes `ps`). Only
  the first-maximum rule is kept.
- JudgeMcts.Tree.Select: scores are compared as integers, so one case is not
  modelled: a node with children for which `select` returns null because no
  child's float score exceeds `-FLT_MAX`. That happens when every score is
  `-inf`, at most `-FLT_MAX` or NaN, which a user-set `c` or `psi` can cause.
- The wall-clock budget (`millisec()`, `T - 5`) is the number `batches` of
  clock checks that pass. Each passing check runs 10 cycles.
- `std::shuffle`'s exact distribution is libstdc++'s. `Random.Engine.Below`
  draws with `x % n`, and every shuffle promises only a permutation.
- board.h and action.h are not part of this model. Placement,
  legality, vacancy and side to move are the oracle `Board.Game`. An
  illegal `place` on a copy is taken to leave the board unchanged, so the
  model never applies one: `agent.h` `expand` places every expansion
  candidate on one shared copy, but only legal ones change it.
- `std::stod` and the integer casts of a property are a parameter
  `num: string -> nat`. Negative, fractional and non-numeric values are not
  modelled, and neither is the `size_t` wrap-around of `N`, `T` or the
  counters.
- The destructor and `delete` of children are not modelled; the arena
  has no deallocation.
- The `JUDGE` macro is a boolean parameter `judge`.
- `open_episode`, `close_episode` and `check_for_win` do nothing and are
  not modelled.
- Exceptions from the constructor are `Failure(SetupError)` results; the
  error text is the offending name or role.
- Root parallelisation over threads does not occur in either revision shown
  and is not modelled.
- The later revision's root copies the state's own `last_move`
  (`agent.h:91`). The board oracle does not carry one, so `Mcts` gives the
  root `NoPoint` (-1). Nothing reads the root's move: only children's moves
  are read (`agent.h:132`, `agent.h:168`). In `JudgeMcts` the root's move is
  the default point `{}`, as in the source, here `Board.Move(NoPoint, ...)`.
- JudgePlayer.Player.TakeAction: with a time budget that admits no batch, no
  cycle runs and the result is no action even when legal moves exist,
  which is what the code does; the contract states it only for at least one
  cycle.
