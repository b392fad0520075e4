# Epistemic logic kernel — a Dafny model

This project models the kernel of an epistemic-planning library. The kernel has two layers.

**Layer A: the string-named model.** This is a mutable Kripke model over worlds named by
strings, with string-named agents.
- Each agent has a map from a world to the set of worlds it can reach.
- Each world has a valuation of propositions.
- The model has a current world.

The model comes with an eight-operator formula tree: atoms, ¬, ∧, ∨, →, K_a, C_G and E_G. The
formula's methods are `evaluate`, `to_string`, `clone` and `get_type`. The model's operations
are:
- adding and removing worlds;
- adding edges, with checks that the names exist;
- setting and reading valuations;
- breadth-first group reachability;
- public announcement, which deletes the worlds where a formula is false;
- private observation, which cuts one agent's edges between worlds that disagree on a formula;
- clone;
- listing the worlds where a proposition is true.

**Layer B: the struct-based layer.** A world here carries:
- a numeric id;
- an occupancy grid map;
- agent poses and goals.

The layer is built from four plain value types:
- a Kripke model: a vector of worlds and, per agent, a list of `(from, to)` id pairs;
- a belief state: a model and a list of designated world ids;
- an event: an id and a precondition formula;
- an event model: events and per-agent edge lists.

Four operations work on these values:
- `holds` decides a formula at a world id. `Knows` ranges over the designated worlds only.
- `interpret_atom` reads atoms of the form `cell_free(x,y)` off the world's map.
- `product_update` keeps the worlds where some event's precondition holds.
- `build_lidar_event` turns a range scan into an event model. It has one event per bin. The
  sensing agent cannot tell two bins apart when both readings are invalid or when they lie
  within `sigma` of each other. Under dropout above one half it cannot tell any two bins apart.

How the source maps into Dafny:
- Layer A's `KripkeModel` is a Dafny `class`. Its mutators are methods with `modifies this`,
  and the invariant they preserve is `Valid()`.
- Evaluation is a function that reads the object.
- Group reachability is specified by `Closure`, the least set closed under the group's edges.
  The queue search is proved to compute exactly that set.
- Layer B is all datatypes and functions.
- The C++ exceptions that `std::stoi` throws (`invalid_argument`, `out_of_range`) propagate
  through `holds` and `product_update`. They are modelled as the `Err` side of a `Result`.

Points where the model reads the code in a particular way:
- **Malformed coordinates throw.** `interpret_atom` passes both coordinate texts to `std::stoi`
  (atom_interpretation.cpp:25-26), which throws when a text is not a number or is out of the
  `int` range. The model returns that as an error rather than false: `NonNumericXThrows` and
  `EmptyYThrows` show it.
- **Two different `Knows`.** The two layers give `Knows` different meanings.
  - Layer A quantifies over every world the agent reaches.
  - Layer B quantifies over the designated worlds the agent reaches. Accessible worlds that are
    not designated play no part.
- **Stale current world.** Layer A's invariant "the current world is a world of the model
  whenever there is one" holds after every operation except one case. When the last world is
  removed, the current world keeps its old name. A later `add_world` then leaves it naming a
  world that is no longer in the model. `EmptiedModelKeepsStaleCurrentWorld` builds that state.
- **Set order.** `std::set` iterates strings in lexicographic character order, as `LexOrder.Le`
  defines. `remove_world` picks `*worlds_.begin()`, which is `Least`.
- **`world.map` is renamed `grid`,** because `map` is a Dafny keyword.
- **Formula kinds in Layer B.** The header that defines Layer B's formula variant is not part of
  this model. `BeliefFormula` holds the four kinds `holds` interprets (`Atom`, `Not`, `And`,
  `Knows`). It adds `Or`, `Implies`, `CommonKnowledge` and `EverybodyKnows` to stand in for the
  variant's other alternatives, which `holds` maps to false.
- **How `product_update` is read.** As written, it loops over `belief.worlds`, calls
  `holds(w, precondition)` with a world, and pushes onto `updated.worlds`. `BeliefState` has
  none of these members: its worlds live in `model.worlds`, and `holds` takes a belief state
  and a world id. The model reads the code as `belief.model.worlds` and
  `holds(belief, w.id, precondition)`, and appends to `updated.model.worlds`. Under that
  reading `find_world` picks the first world with that id.
- **The header of the string-named model.** The header that declares Layer A's `KripkeModel`
  class is not part of this model. The class's fields are read off `kripke_model.cpp`.
- **Helper methods.** Several loops of the source are split into helper methods, each proved
  against its own specification:
  - `VisitNeighbours`: one round of the group search;
  - `RemoveWorlds`: the deletion loop of `public_announcement`;
  - `AgreeingTargets` and `SplitRelation`: the edge rewrite of `private_observation`;
  - `FirstEnabled`: the inner event loop of `product_update`;
  - `LinkingPass` and `DropoutPass`: the two passes of `build_lidar_event`.

## Model

| member | source | states |
|---|---|---|
| LexOrder.LeReflexive | core/src/kripke_model.cpp:35 | The order that `std::set<std::string>` iterates in is reflexive |
| LexOrder.LeAntisymmetric | core/src/kripke_model.cpp:35 | The string order is antisymmetric: two strings below each other are equal |
| LexOrder.LeTransitive | core/src/kripke_model.cpp:35 | The string order is transitive |
| LexOrder.LeTotal | core/src/kripke_model.cpp:35 | Any two strings are comparable |
| LexOrder.LeastExists | core/src/kripke_model.cpp:35 | A non-empty set of strings has a least element, which is what `*worlds_.begin()` returns |
| LexOrder.LeastUnique | core/src/kripke_model.cpp:35 | The least element of a set is unique |
| LexOrder.Least | core/src/kripke_model.cpp:35 | `*begin()` of a non-empty set is a member that is below every member |
| LexOrder.LeastOfSubset | core/src/kripke_model.cpp:35 | The least element of a set is still least in any subset that contains it |
| LexOrder.Sorted | core/src/formula.cpp:108-115 | Iterating a set lists each member exactly once, in strictly increasing order |
| ModalFormula.GetType | core/include/epistemic/formula.hpp:12-21 | `get_type` reports each node kind's own tag and no other tag |
| ModalFormula.GetProposition | core/include/epistemic/formula.hpp:55 | Definition: the proposition of an atom. `MakeAtom` states that it returns what `make_atom` stored |
| ModalFormula.GetAgent | core/include/epistemic/formula.hpp:140 | Definition: the agent of a knowledge node. `MakeKnows` states that it returns what `make_knows` stored |
| ModalFormula.ToString | core/src/formula.cpp:25-149 | Definition of every node's `to_string`. `GroupStringLists` states the group rendering and `CloneRendersAlike` the agreement of clones. The other renderings have no contract, as "Left out" says |
| ModalFormula.Clone | core/src/formula.cpp:13-153 | Definition of every node's `clone`. `CloneIsIdentical` states that it returns the same tree |
| ModalFormula.EveryTagIsReported | core/include/epistemic/formula.hpp:12-21 | Each of the eight tags is reported by some node kind |
| ModalFormula.MakeAtom | core/src/formula.cpp:156-158 | `make_atom` builds an atom node that carries the given proposition |
| ModalFormula.MakeNot | core/src/formula.cpp:160-162 | `make_not` builds a negation of its argument |
| ModalFormula.MakeAnd | core/src/formula.cpp:164-166 | `make_and` builds a conjunction with the given left and right sides |
| ModalFormula.MakeOr | core/src/formula.cpp:168-170 | `make_or` builds a disjunction with the given sides |
| ModalFormula.MakeImplies | core/src/formula.cpp:172-174 | `make_implies` builds an implication with the given sides |
| ModalFormula.MakeKnows | core/src/formula.cpp:176-178 | `make_knows` builds a knowledge node for the given agent and subformula |
| ModalFormula.MakeCommonKnowledge | core/src/formula.cpp:180-182 | `make_common_knowledge` builds a C_G node for the given group and subformula |
| ModalFormula.MakeEverybodyKnows | core/src/formula.cpp:184-186 | `make_everybody_knows` builds an E_G node for the given group and subformula |
| ModalFormula.CloneIsIdentical | core/src/formula.cpp:13-15 | A deep clone is the same tree as the original |
| ModalFormula.CloneRendersAlike | core/src/formula.cpp:151-153 | A clone renders to the same text as the original and has the same tag |
| ModalFormula.SplitAppend | core/src/formula.cpp:108-115 | Splitting at commas a comma-free prefix followed by more text keeps the prefix in the first piece |
| ModalFormula.JoinSplitRoundTrip | core/src/formula.cpp:108-115 | Names joined with commas split back into the same names when no name contains a comma |
| ModalFormula.GroupStringLists | core/src/formula.cpp:107-117 | A non-empty group renders as its sorted members, comma-separated, in braces |
| ModalFormula.EmptyGroupString | core/src/formula.cpp:139-149 | The empty group renders as `{}` |
| MutableKripke.ProperSubsetSmaller | core/src/kripke_model.cpp:161-188 | A proper subset is strictly smaller, which makes the search terminate |
| MutableKripke.Step | core/src/kripke_model.cpp:175-184 | The one-step successors of a set of worlds are all edge targets |
| MutableKripke.StepMonotonic | core/src/kripke_model.cpp:175-184 | Successors of a larger set include successors of a smaller one |
| MutableKripke.StepUnion | core/src/kripke_model.cpp:175-184 | Successors of a union are the union of the successors |
| MutableKripke.StepAddAgent | core/src/kripke_model.cpp:175-184 | Adding one agent to the group adds exactly that agent's edges from the world |
| MutableKripke.StepWithinClosed | core/src/kripke_model.cpp:161-188 | A set is closed under the group's edges exactly when its successors lie inside it |
| MutableKripke.ClosureExtends | core/src/kripke_model.cpp:161-188 | The reachable set contains the start set |
| MutableKripke.ClosureIsClosed | core/src/kripke_model.cpp:161-188 | The reachable set is closed under the edges of every group member |
| MutableKripke.ClosureIsLeast | core/src/kripke_model.cpp:161-188 | The reachable set lies inside every closed superset of the start set |
| MutableKripke.GroupReachableCharacterised | core/src/kripke_model.cpp:161-188 | The group-reachable worlds are the least set that contains the start world and is closed under group edges |
| MutableKripke.EmptyGroupReachesOnlyStart | core/src/kripke_model.cpp:161-188 | With an empty group only the start world is reachable |
| MutableKripke.Closure | core/src/kripke_model.cpp:161-188 | Definition: the start set extended by group successors until nothing new appears. `ClosureExtends`, `ClosureIsClosed` and `ClosureIsLeast` state that it is the least closed superset |
| MutableKripke.Evaluate | core/src/formula.cpp:9-137 | Definition of every node's `evaluate`. `ConnectiveSemantics`, `KnowsSemantics`, `EverybodyKnowsSemantics` and `CommonKnowledgeSemantics` state its meaning |
| MutableKripke.ConnectiveSemantics | core/src/formula.cpp:9-71 | Atoms read the valuation and the connectives are Boolean. Implication is ¬l ∨ r, and De Morgan's laws hold |
| MutableKripke.KnowsSemantics | core/src/kripke_model.cpp:95-123 | K_a φ holds iff φ holds at every world `a` reaches; with no edges it is vacuously true |
| MutableKripke.EverybodyKnowsSemantics | core/src/formula.cpp:129-137 | E_G φ is K_a φ for every member. It is true for the empty group and equals K_a φ for a singleton |
| MutableKripke.CommonKnowledgeSemantics | core/src/kripke_model.cpp:142-159 | C_G φ holds iff φ holds at every group-reachable world, start included; it implies φ, and for the empty group it equals φ |
| MutableKripke.CommonImpliesEverybody | core/src/kripke_model.cpp:142-159 | C_G φ implies E_G φ |
| MutableKripke.EvaluateSameState | core/src/kripke_model.cpp:243-250 | Evaluation depends only on the edges and the valuation |
| MutableKripke.AgreeingTargets | core/src/kripke_model.cpp:224-236 | Keeps exactly the targets whose φ-value equals that of the source world |
| MutableKripke.SplitRelation | core/src/kripke_model.cpp:221-240 | Rewrites every source world's target set that way and touches no other key |
| MutableKripke.QueuedAppend | core/src/kripke_model.cpp:166-181 | The worlds in a concatenated queue are those of both parts |
| MutableKripke.QueueAfterVisit | core/src/kripke_model.cpp:168-185 | After one round, the queue holds the old tail plus exactly the newly reached worlds; a round that reaches nothing shortens the queue |
| MutableKripke.StepBound | core/src/kripke_model.cpp:168-185 | Successors of a set covered by processed worlds and the head stay inside the reached set |
| MutableKripke.SearchRoundBounds | core/src/kripke_model.cpp:168-185 | One search round only adds worlds of the group closure |
| MutableKripke.SearchRoundQueue | core/src/kripke_model.cpp:168-185 | One search round keeps "processed worlds have their successors reached" and makes progress |
| MutableKripke.PruneStep | core/src/kripke_model.cpp:26-32 | Pruning one more world after a set equals pruning the union, for one agent |
| MutableKripke.DropWorldsStep | core/src/kripke_model.cpp:200-202 | Removing worlds one after another equals removing them all at once |
| MutableKripke.DropNothing | core/src/kripke_model.cpp:26-32 | Removing no world leaves the edges unchanged |
| MutableKripke.DropWorldsWithin | core/src/kripke_model.cpp:22-37 | After worlds are removed, every edge stays inside the remaining worlds |
| MutableKripke.CurrentTrackedStep | core/src/kripke_model.cpp:34-36 | Removing the least pending world keeps track of where the current world is |
| MutableKripke.KripkeModel.constructor | core/src/kripke_model.cpp:9-16 | The new model has one world `w0`, which is current, a reflexive `w0` edge for each agent and no valuation |
| MutableKripke.KripkeModel.AddWorld | core/src/kripke_model.cpp:18-20 | Adds the world and nothing else; the invariant is kept |
| MutableKripke.KripkeModel.RemoveWorld | core/src/kripke_model.cpp:22-37 | Deletes the world, its valuation and every edge from or to it. A removed current world gives way to the least remaining world |
| MutableKripke.KripkeModel.AddAccessibilityRelation | core/src/kripke_model.cpp:39-57 | Errors on an unknown agent, source or target, checked in that order, and changes nothing then; otherwise adds exactly one edge |
| MutableKripke.KripkeModel.SetValuation | core/src/kripke_model.cpp:59-69 | Errors on an unknown world; otherwise that one proposition at that one world reads back the new value and every other reading is unchanged |
| MutableKripke.KripkeModel.GetValuation | core/src/kripke_model.cpp:71-86 | Definition: the value last set, false for an unknown world or proposition. `SetValuation` states that a set value reads back and nothing else changes |
| MutableKripke.KripkeModel.EvaluateAtom | core/src/kripke_model.cpp:88-93 | Definition: an atom is its valuation. `ConnectiveSemantics` states this |
| MutableKripke.KripkeModel.EvaluateKnows | core/src/kripke_model.cpp:95-123 | Definition of K_a. `KnowsSemantics` states that it is φ at every target, vacuously true without targets |
| MutableKripke.KripkeModel.EvaluateCommonKnowledge | core/src/kripke_model.cpp:142-159 | Definition of C_G. `CommonKnowledgeSemantics` and `CommonImpliesEverybody` state its meaning |
| MutableKripke.KripkeModel.Valid | core/src/kripke_model.cpp:39-69 | The invariant the name checks keep: every edge endpoint and every valuation key is a world of the model. The mutators state that they preserve it |
| MutableKripke.KripkeModel.GetAccessibleWorlds | core/src/kripke_model.cpp:125-140 | In a valid model every target is a world of the model, and a world outside the model has no targets. How `Knows` and the group search use the result is stated by `KnowsSemantics` and `VisitNeighbours` |
| MutableKripke.KripkeModel.VisitNeighbours | core/src/kripke_model.cpp:175-184 | One round reaches every group successor of the world and queues exactly the new ones behind the old queue |
| MutableKripke.KripkeModel.GetGroupReachableWorlds | core/src/kripke_model.cpp:161-188 | The breadth-first search returns exactly the least group-closed set containing the start world |
| MutableKripke.KripkeModel.WorldsWhere | core/src/kripke_model.cpp:192-198 | Collects exactly the worlds where φ holds before anything is removed |
| MutableKripke.KripkeModel.PublicAnnouncement | core/src/kripke_model.cpp:190-203 | Exactly the worlds where φ held survive, with their valuations and the edges among them. The current world is kept or replaced as in `remove_world`. The invariant is kept |
| MutableKripke.KripkeModel.RemoveWorlds | core/src/kripke_model.cpp:200-202 | Removing a set of worlds one by one, least first, equals removing them at once, and tracks the current world |
| MutableKripke.KripkeModel.PrivateObservation | core/src/kripke_model.cpp:205-241 | Only agent `a`'s edges change. An edge survives iff both ends agree on φ as evaluated before the change |
| MutableKripke.KripkeModel.Clone | core/src/kripke_model.cpp:243-250 | A fresh model with the same state, where every formula evaluates the same way |
| MutableKripke.KripkeModel.GetWorldsWhere | core/src/kripke_model.cpp:252-264 | Lists exactly the worlds where the proposition is set true, in strictly increasing set order |
| MutableKripke.EmptiedModelKeepsStaleCurrentWorld | core/src/kripke_model.cpp:18-37 | Emptying the model and adding a world leaves the current world outside the model |
| Numerals.DecimalString | core/src/slam_events/lidar_event.cpp:23 | `std::to_string` of a size gives digits only, with no leading zero |
| Numerals.IntString | core/src/atom_interpretation.cpp:25-26 | Decimal text of an int: digits with an optional leading minus |
| Numerals.DigitPrefix | core/src/atom_interpretation.cpp:25-26 | The longest run of leading digits, which `std::stoi` reads |
| Numerals.SkipSpace | core/src/atom_interpretation.cpp:25-26 | `std::stoi` skips leading whitespace; the rest starts with a non-space |
| Numerals.Stoi | core/src/atom_interpretation.cpp:25-26 | A successful `std::stoi` lies in the `int` range |
| Numerals.DigitsValueOfDecimal | core/src/slam_events/lidar_event.cpp:23 | Decimal text reads back as its number |
| Numerals.DigitPrefixOfDigits | core/src/atom_interpretation.cpp:25-26 | A text made of digits is its own digit run |
| Numerals.DecimalStringInjective | core/src/slam_events/lidar_event.cpp:23 | Distinct numbers have distinct decimal texts |
| Numerals.StoiIntString | core/src/atom_interpretation.cpp:25-26 | `std::stoi` reads back the decimal text of every `int` |
| Numerals.StoiRejectsNonNumeric | core/src/atom_interpretation.cpp:25-26 | Text that is empty or starts with no space, sign or digit throws `invalid_argument` |
| Numerals.StoiRejectsOverflow | core/src/atom_interpretation.cpp:25-26 | A number above `INT_MAX` throws `out_of_range` |
| Worlds.CellIndexInjective | core/include/epistemic/world.hpp:44-46 | Inside the grid the row-major index does not wrap and is unique to each coordinate pair |
| Worlds.CellIndexInBounds | core/include/epistemic/world.hpp:44-46 | A well-formed map has a cell for every in-range coordinate pair |
| Worlds.SameWorldIsEquivalence | core/include/epistemic/world.hpp:71-73 | World equality compares ids only and is an equivalence |
| Worlds.CellIndex | core/include/epistemic/world.hpp:45 | Definition: `y * width + x` in `uint32`, wrapping modulo 2^32. `CellIndexInjective` states that it does not wrap inside a grid that fits `uint32` |
| Worlds.At | core/include/epistemic/world.hpp:44-46 | Definition of `GridMap::at`. `CellIndexInBounds` states that a well-formed map has a cell for every in-range pair |
| Worlds.SameWorld | core/include/epistemic/world.hpp:71-73 | Definition of `World::operator==`. `SameWorldIsEquivalence` states its properties |
| EdgeLists.ContainsFrom | core/include/epistemic/kripke_model.hpp:32-35 | The edge scan from position `i` finds the pair iff it occurs at or after `i` |
| EdgeLists.Contains | core/include/epistemic/kripke_model.hpp:32-35 | The edge scan finds a pair iff it is in the list |
| EdgeLists.ContainsIgnoresOrderAndRepeats | core/include/epistemic/kripke_model.hpp:32-35 | Order and repetition in an edge list do not matter |
| RelationalKripke.Accessible | core/include/epistemic/kripke_model.hpp:28-36 | `accessible` holds iff the agent has an entry that lists the pair |
| RelationalKripke.AccessibleDependsOnOwnList | core/include/epistemic/kripke_model.hpp:28-36 | An agent without an entry reaches nothing; only the agent's own list matters |
| Events.EventAccessible | core/include/epistemic/event_model.hpp:31-43 | `EventModel::accessible` holds iff the agent's list has the pair |
| Events.EventAccessibleIgnoresRepeats | core/include/epistemic/event_model.hpp:31-43 | Appending edges that are already present keeps them accessible |
| Beliefs.Empty | core/include/epistemic/belief_state.hpp:19-21 | `empty` holds iff no world id is designated at all |
| Beliefs.EmptyIffSizeZero | core/include/epistemic/belief_state.hpp:19-25 | `empty` iff `size` is 0. `size` counts entries, not distinct ids: it is the size of the multiset of designated ids, and designating an id twice more adds two |
| AtomInterpretation.FindFrom | core/src/atom_interpretation.cpp:15-17 | Finds the first occurrence at or after a position; none iff there is none |
| AtomInterpretation.Find | core/src/atom_interpretation.cpp:15-17 | `find` returns the first occurrence, or `npos` iff there is none |
| AtomInterpretation.Substr | core/src/atom_interpretation.cpp:25-26 | `substr` takes at most `count` characters and is cut short only at the end of the text |
| AtomInterpretation.SizeDiff | core/src/atom_interpretation.cpp:25-26 | `size_t` subtraction wraps modulo 2^64 |
| AtomInterpretation.AsInt32 | core/src/atom_interpretation.cpp:28-32 | A `uint32` reinterpreted as `int` keeps its value below 2^31 and goes negative above |
| AtomInterpretation.CoordinateTexts | core/src/atom_interpretation.cpp:13-26 | The coordinate texts exist only for a name with the `cell_free` prefix and all three delimiters |
| AtomInterpretation.CellOutcome | core/src/atom_interpretation.cpp:28-34 | Never throws, and is true only for coordinates inside the map |
| AtomInterpretation.InterpretAtom | core/src/atom_interpretation.cpp:7-39 | Only a `cell_free` name can be true or throw. `CellFreeGrammar`, `CellFreeQuery` and `UninterpretedNamesAreFalse` state the rest |
| AtomInterpretation.DelimitersOfQuery | core/src/atom_interpretation.cpp:13-23 | In `cell_free(x,y)` the parser finds the prefix and each delimiter where it was written |
| AtomInterpretation.OpeningParenthesis | core/src/atom_interpretation.cpp:15 | The first `(` comes right after the prefix |
| AtomInterpretation.Comma | core/src/atom_interpretation.cpp:16 | The first `,` comes right after the x text |
| AtomInterpretation.ClosingParenthesis | core/src/atom_interpretation.cpp:17 | The first `)` comes right after the y text |
| AtomInterpretation.QueryTexts | core/src/atom_interpretation.cpp:25-26 | The two `substr` calls cut out exactly the x and y texts |
| AtomInterpretation.CellFreeGrammar | core/src/atom_interpretation.cpp:7-39 | A parse error in x wins, then one in y. With both parsed, the answer is the cell outcome |
| AtomInterpretation.IntStringIsPlain | core/src/atom_interpretation.cpp:15-17 | Decimal text contains no delimiter |
| AtomInterpretation.CellFreeQuery | core/src/atom_interpretation.cpp:7-39 | `cell_free(x,y)` written from two ints is answered by the cell at (x, y): whether it is free inside the map, false outside it |
| AtomInterpretation.NonNumericXThrows | core/src/atom_interpretation.cpp:25 | A non-numeric x coordinate throws `invalid_argument` rather than answering false |
| AtomInterpretation.EmptyYThrows | core/src/atom_interpretation.cpp:26 | An empty y coordinate throws `invalid_argument` |
| AtomInterpretation.UninterpretedNamesAreFalse | core/src/atom_interpretation.cpp:13-38 | A name without the prefix, or missing a delimiter, is false, as are `agent_at` and `goal_reached` atoms |
| AtomInterpretation.DependsOnlyOnMap | core/src/atom_interpretation.cpp:7-39 | Atom answers depend only on the world's map |
| Queries.FindWorldFrom | core/src/query.cpp:8-16 | The scan from position `i` finds the first world with the id, or none iff no later world has it |
| Queries.FindWorld | core/src/query.cpp:8-16 | `find_world` returns the first world with the id, or null iff none has it |
| Queries.Holds | core/src/query.cpp:18-65 | Definition of `holds`. `AbsentWorldIsFalse`, `AtomAtPresentWorld`, `NotAtPresentWorld`, `AndAtPresentWorld`, `KnowsSemantics` and `OtherKindsAreFalse` state its meaning kind by kind |
| Queries.KnowsFrom | core/src/query.cpp:47-58 | Definition of the designated-world loop of `Knows`. `KnowsFromAll` states its meaning |
| Queries.AllFrom | core/src/query.cpp:71-76 | Definition of the early-exit loop of `holds_in_all`. `AllFromSemantics` states its meaning |
| Queries.HoldsInAll | core/src/query.cpp:67-77 | Definition of `holds_in_all`. `HoldsInAllSemantics` states its meaning |
| Queries.AbsentWorldIsFalse | core/src/query.cpp:23-24 | Every formula is false at a missing id, and so are its negation and its double negation |
| Queries.AtomAtPresentWorld | core/src/query.cpp:31-33 | An atom is `interpret_atom` on the first world with the id |
| Queries.NotAtPresentWorld | core/src/query.cpp:36-38 | `Not` negates at a present world and passes an exception through |
| Queries.AndAtPresentWorld | core/src/query.cpp:41-44 | `And` is true iff both sides are. It is false iff the left is false, or the left is true and the right false. A left exception wins |
| Queries.DoubleNegation | core/src/query.cpp:23-38 | ¬¬φ answers as φ at every id |
| Queries.KnowsFromAll | core/src/query.cpp:47-58 | The designated-world loop is true iff φ is true at every accessible designated world from `i` on. False or an exception comes from one such world |
| Queries.KnowsSemantics | core/src/query.cpp:47-58 | K_a φ is true iff φ is true at every accessible designated world, and vacuously true without one |
| Queries.OtherKindsAreFalse | core/src/query.cpp:60-62 | Formula kinds that `holds` does not interpret are false |
| Queries.AllFromSemantics | core/src/query.cpp:67-77 | The early-exit loop is true iff every remaining answer is true |
| Queries.HoldsInAllSemantics | core/src/query.cpp:67-77 | `holds_in_all` is true iff φ holds at every designated id. It is true with nothing designated, and a false answer names a designated id where φ is false |
| DelUpdate.FirstEnabled | core/src/del_update.cpp:19-24 | The inner loop stops at the first event that holds or throws |
| DelUpdate.EnabledFrom | core/src/del_update.cpp:19-24 | Definition of the inner event loop from event `j`. `EnabledFromSemantics` states its meaning |
| DelUpdate.Enabled | core/src/del_update.cpp:19-24 | Definition of the inner event loop. `EnabledDecides` states that, without an exception, it is true iff some precondition holds |
| DelUpdate.Filter | core/src/del_update.cpp:18-25 | Definition of the outer loop given each world's answer. `FilterIsSubsequence`, `FilterExtremes` and `FilterErrorPersists` state its meaning |
| DelUpdate.Kept | core/src/del_update.cpp:16-27 | Definition of the worlds `product_update` keeps. `KeptWorlds` states its meaning |
| DelUpdate.ProductUpdate | core/src/del_update.cpp:12-28 | The result has exactly the kept worlds, no edges and nothing designated; an exception aborts the update |
| DelUpdate.FilterStep | core/src/del_update.cpp:18-25 | One outer round appends a true world, skips a false one and lets an exception decide the outcome |
| DelUpdate.DecisionAt | core/src/del_update.cpp:18-25 | The inner loop's answer for world `i` is that world's decision |
| DelUpdate.FilterErrorPersists | core/src/del_update.cpp:18-25 | After an exception no later world changes the outcome |
| DelUpdate.FilterIsSubsequence | core/src/del_update.cpp:16-27 | The kept worlds are an order-preserving subsequence of the input. A position is kept iff its answer is true, and a finished filter met no exception |
| DelUpdate.FilterExtremes | core/src/del_update.cpp:16-27 | All-false answers keep nothing and all-true answers keep everything |
| DelUpdate.EnabledFromSemantics | core/src/del_update.cpp:19-24 | The inner loop is true only if some precondition holds, and false only if every precondition is false. Without exceptions it is true iff some precondition holds |
| DelUpdate.EnabledDecides | core/src/del_update.cpp:19-24 | An inner loop that ends without an exception is true iff some event's precondition holds. A later precondition that would throw is never tried after the `break` |
| DelUpdate.KeptWorlds | core/src/del_update.cpp:12-28 | A finished update keeps, in order and unchanged, exactly the input worlds at whose id some event's precondition holds, each once; with no events it keeps none |
| LidarEvents.Abs | core/src/slam_events/lidar_event.cpp:54 | `fabs` is non-negative and is the value or its negation |
| LidarEvents.Invalid | core/src/slam_events/lidar_event.cpp:46-47 | Definition: a reading is invalid when it is not positive or reaches the maximum range |
| LidarEvents.Linked | core/src/slam_events/lidar_event.cpp:38-56 | Definition of the pairs the linking pass appends. `LinkedReflexiveSymmetric` states its properties |
| LidarEvents.SensorEdges | core/src/slam_events/lidar_event.cpp:34-68 | Definition of the sensing agent's whole list. `SensorAccessibility`, `DropoutAppendsAllPairs` and `NoDropoutSymmetricAndDistinct` state its meaning |
| LidarEvents.BinEvents | core/src/slam_events/lidar_event.cpp:20-29 | Event `i` of the model is bin `i` with the atom `lidar_bin_i` |
| LidarEvents.Push | core/src/slam_events/lidar_event.cpp:39 | `operator[]` followed by `push_back` appends to one agent's list and leaves the others alone |
| LidarEvents.BuildLidarEvent | core/src/slam_events/lidar_event.cpp:8-71 | An empty scan gives an empty model. Otherwise there is one event per bin, and the sensing agent's edges come from the linking pass plus, under dropout above 0.5, the all-pairs pass |
| LidarEvents.LinkingPass | core/src/slam_events/lidar_event.cpp:34-58 | The nested loops append exactly the linked pairs, row by row |
| LidarEvents.DropoutPass | core/src/slam_events/lidar_event.cpp:62-68 | The dropout loops append every pair, row by row, to the sensing agent's list |
| LidarEvents.AppendOne | core/src/slam_events/lidar_event.cpp:39-55 | Appending one edge to the sensing agent's list extends its edge list by that edge |
| LidarEvents.RowStart | core/src/slam_events/lidar_event.cpp:34-58 | A row starts with nothing appended and, once finished, completes the pass up to the next row |
| LidarEvents.RowStep | core/src/slam_events/lidar_event.cpp:37-57 | One inner iteration appends the pair iff it is included |
| LidarEvents.LinkedPassNonEmpty | core/src/slam_events/lidar_event.cpp:38-41 | A non-empty scan always gives the sensing agent an entry, because bin 0 links to itself |
| LidarEvents.RowEdgesMembership | core/src/slam_events/lidar_event.cpp:37-57 | Row `i` holds exactly the included pairs `(i, k)` with `k < j` |
| LidarEvents.PassEdgesMembership | core/src/slam_events/lidar_event.cpp:34-58 | A pass holds exactly the included pairs whose first bin is below `i` |
| LidarEvents.SensorAccessibility | core/src/slam_events/lidar_event.cpp:34-68 | The sensing agent reaches `q` from `p` iff both are bins and they are linked, or dropout is above 0.5; no other agent has an edge |
| LidarEvents.LinkedReflexiveSymmetric | core/src/slam_events/lidar_event.cpp:38-56 | Bin indistinguishability is reflexive and symmetric |
| LidarEvents.ConcatOrdered | core/src/slam_events/lidar_event.cpp:34-58 | Row-major ordered rows concatenate to an ordered list |
| LidarEvents.RowEdgesOrdered | core/src/slam_events/lidar_event.cpp:37-57 | Each row's pairs come out in strictly increasing order |
| LidarEvents.PassEdgesOrdered | core/src/slam_events/lidar_event.cpp:34-58 | A pass lists its pairs in strictly increasing row-major order, so no pair twice |
| LidarEvents.NoDropoutSymmetricAndDistinct | core/src/slam_events/lidar_event.cpp:34-58 | Without dropout the edge list is symmetric and repeats no pair |
| LidarEvents.AllRowLength | core/src/slam_events/lidar_event.cpp:63-67 | A dropout row has one pair per bin |
| LidarEvents.AllPassLength | core/src/slam_events/lidar_event.cpp:62-68 | The dropout pass has N·N pairs |
| LidarEvents.DropoutAppendsAllPairs | core/src/slam_events/lidar_event.cpp:62-68 | Under dropout every pair of bins is present, and the list has N·N more pairs than the linking pass |
| LidarEvents.BinAtomsDistinct | core/src/slam_events/lidar_event.cpp:22-24 | Distinct bins have distinct precondition atoms |
| LidarEvents.LinkingPassOfThreeReadings | core/src/slam_events/lidar_event.cpp:34-58 | Readings 1.0, 1.02 and 5.0 with sigma 0.05 link bins 0 and 1 only, besides the reflexive pairs |
| LidarEvents.DropoutPassOfThreeReadings | core/src/slam_events/lidar_event.cpp:62-68 | The dropout pass over three bins lists all nine pairs in row-major order |
| LidarEvents.ThreeReadings | core/src/slam_events/lidar_event.cpp:8-71 | The full edge list for the three readings, with dropout 0.1 and with dropout 0.6 |

## Left out

- Memory management (`unique_ptr`), virtual dispatch and `const_cast` are not modelled. The formula class hierarchy is one immutable datatype, and `clone` is the identity on it.
- ModalFormula.ToString: no contract of its own states the ¬, ∧, ∨, → and K_a renderings. Only the group rendering and the agreement of clones are proved.
- Floating point is modelled as exact reals: `fabs`, comparisons of ranges and `sigma`, and the `0.5` dropout threshold. Rounding, NaN and infinities are not modelled.
- Strings are sequences of characters, not UTF-8 bytes. The formula renderings use the characters ¬, ∧, ∨ and →.
- The `unordered_map` of per-agent edges is a map, so iteration order over agents does not appear. In Layer A the order in which source worlds and agents are visited does not affect any result.
- Layer A's `private_observation` computes a set of worlds where the formula is false and never reads it. The model leaves that unused set out.
- Poses, goals and the map's resolution are carried as payload. No modelled operation reads them.
- AtomInterpretation.InterpretAtom, Queries.Holds, Queries.HoldsInAll and DelUpdate.ProductUpdate: only maps with a cell for every coordinate pair are modelled, as the row-major layout of `GridMap` assumes. The source does not enforce this (world.hpp:37-47). It indexes `cells` only for an in-range `cell_free(x,y)` atom, and indexing a short map there is undefined behaviour in C++. On other atoms and formulas the source answers on any map, but the model still requires a well-formed one.
- AtomInterpretation.SizeDiff: texts longer than 2^64 characters are not modelled.
- `agent.hpp` and the header of Layer B's formula variant are not part of this model. Agents are natural numbers, and the formula variant is the `BeliefFormula` datatype.
- The headers that only declare functions (`query.hpp`, `del_update.hpp`, `atom_interpretation.hpp`, `lidar_event.hpp`) add nothing beyond the modelled definitions.
- Logging and I/O are not modelled.
