/**
  The first-generation Kripke model: a mutable object over string-named worlds
  with, per agent, a map from a world to the set of worlds it can reach, a
  per-world valuation of propositions and a current world. Formulas of
  `ModalFormula` are evaluated against it; public announcement and private
  observation change it in place.
*/
module MutableKripke {
  import opened LexOrder
  import opened ModalFormula

  type WorldName = string

  /** One agent's edges: source world to the set of target worlds. */
  type Relation = map<WorldName, set<WorldName>>

  /** Every agent's edges. */
  type Access = map<Agent, Relation>

  /** The outcome of a checked mutator: success, or the `runtime_error` it throws. */
  datatype Status = Done | UnknownAgent(agent: Agent) | UnknownWorld(world: WorldName)

  /** `accessibility_[a]`, reading an absent agent as no edges. */
  function RelationOf(acc: Access, a: Agent): Relation
  {
    if a in acc then acc[a] else map[]
  }

  /** `rel[u]`, reading an absent source as no targets. */
  function TargetsOf(rel: Relation, u: WorldName): set<WorldName>
  {
    if u in rel then rel[u] else {}
  }

  /** The worlds agent `a` reaches from `u` in one step. */
  function Successors(acc: Access, a: Agent, u: WorldName): set<WorldName>
  {
    TargetsOf(RelationOf(acc, a), u)
  }

  /** Every edge of `acc` starts and ends in `ws`. */
  ghost predicate EdgesWithin(acc: Access, ws: set<WorldName>)
  {
    forall a, u | a in acc && u in acc[a] :: u in ws && acc[a][u] <= ws
  }

  // ---------------------------------------------------------------------
  // Group reachability
  // ---------------------------------------------------------------------

  lemma ProperSubsetSmaller(a: set<WorldName>, b: set<WorldName>)
    requires a < b
    ensures |a| < |b|
  {
    assert b == a + (b - a);
    assert |b| == |a| + |b - a|;
  }

  /** Every target of every edge in `acc`. */
  function AllTargets(acc: Access): set<WorldName>
  {
    set a, u, v | a in acc && u in acc[a] && v in acc[a][u] :: v
  }

  /** The worlds one edge of a group member away from some world of `s`. */
  function Step(acc: Access, group: set<Agent>, s: set<WorldName>): (r: set<WorldName>)
    ensures r <= AllTargets(acc)
  {
    set a, u, v | a in group && u in s && v in Successors(acc, a, u) :: v
  }

  /** `s` is closed under the edges of every member of `group`. */
  ghost predicate ClosedUnder(acc: Access, group: set<Agent>, s: set<WorldName>)
  {
    forall a, u, v | a in group && u in s && v in Successors(acc, a, u) :: v in s
  }

  lemma StepMonotonic(acc: Access, group: set<Agent>, s: set<WorldName>, t: set<WorldName>)
    requires s <= t
    ensures Step(acc, group, s) <= Step(acc, group, t)
  {
  }

  lemma StepUnion(acc: Access, group: set<Agent>, s: set<WorldName>, t: set<WorldName>)
    ensures Step(acc, group, s + t) == Step(acc, group, s) + Step(acc, group, t)
  {
  }

  lemma StepAddAgent(acc: Access, group: set<Agent>, a: Agent, u: WorldName)
    ensures Step(acc, group + {a}, {u}) == Step(acc, group, {u}) + Successors(acc, a, u)
  {
    forall v | v in Successors(acc, a, u) ensures v in Step(acc, group + {a}, {u}) {
      assert a in group + {a} && u in {u};
    }
  }

  lemma StepWithinClosed(acc: Access, group: set<Agent>, s: set<WorldName>, t: set<WorldName>)
    requires s <= t
    ensures ClosedUnder(acc, group, t) <==> Step(acc, group, t) <= t
    ensures ClosedUnder(acc, group, t) ==> Step(acc, group, s) <= t
  {
    if Step(acc, group, t) <= t {
      forall a, u, v | a in group && u in t && v in Successors(acc, a, u) ensures v in t {
        assert v in Step(acc, group, t);
      }
    }
  }

  /** Adds group successors to `s` until nothing new appears. */
  function Closure(acc: Access, group: set<Agent>, s: set<WorldName>): set<WorldName>
    decreases |AllTargets(acc) - s|
  {
    var next := s + Step(acc, group, s);
    if next <= s then s
    else
      var v :| v in next && v !in s;
      assert v in AllTargets(acc) - s && v !in AllTargets(acc) - next;
      ProperSubsetSmaller(AllTargets(acc) - next, AllTargets(acc) - s);
      Closure(acc, group, next)
  }

  lemma {:induction false} ClosureExtends(acc: Access, group: set<Agent>, s: set<WorldName>)
    ensures s <= Closure(acc, group, s)
    decreases |AllTargets(acc) - s|
  {
    var next := s + Step(acc, group, s);
    if !(next <= s) {
      var v :| v in next && v !in s;
      ProperSubsetSmaller(AllTargets(acc) - next, AllTargets(acc) - s);
      ClosureExtends(acc, group, next);
    }
  }

  lemma {:induction false} ClosureIsClosed(acc: Access, group: set<Agent>, s: set<WorldName>)
    ensures ClosedUnder(acc, group, Closure(acc, group, s))
    decreases |AllTargets(acc) - s|
  {
    var next := s + Step(acc, group, s);
    if next <= s {
      forall a, u, v | a in group && u in s && v in Successors(acc, a, u) ensures v in s {
        assert v in Step(acc, group, s);
      }
    } else {
      var v :| v in next && v !in s;
      ProperSubsetSmaller(AllTargets(acc) - next, AllTargets(acc) - s);
      ClosureIsClosed(acc, group, next);
    }
  }

  /** The closure is the least closed superset of `s`. */
  lemma {:induction false} ClosureIsLeast(acc: Access, group: set<Agent>, s: set<WorldName>, t: set<WorldName>)
    requires s <= t && ClosedUnder(acc, group, t)
    ensures Closure(acc, group, s) <= t
    decreases |AllTargets(acc) - s|
  {
    var next := s + Step(acc, group, s);
    if !(next <= s) {
      var v :| v in next && v !in s;
      ProperSubsetSmaller(AllTargets(acc) - next, AllTargets(acc) - s);
      assert Step(acc, group, s) <= t;
      ClosureIsLeast(acc, group, next, t);
    }
  }

  /**
    The worlds reachable from `start` through edges of group members are the
    least set that holds `start` and is closed under those edges.
  */
  lemma GroupReachableCharacterised(acc: Access, group: set<Agent>, start: WorldName, t: set<WorldName>)
    ensures start in Closure(acc, group, {start})
    ensures ClosedUnder(acc, group, Closure(acc, group, {start}))
    ensures start in t && ClosedUnder(acc, group, t) ==> Closure(acc, group, {start}) <= t
  {
    ClosureExtends(acc, group, {start});
    ClosureIsClosed(acc, group, {start});
    if start in t && ClosedUnder(acc, group, t) {
      ClosureIsLeast(acc, group, {start}, t);
    }
  }

  /** With no agents in the group only the start world is reachable. */
  lemma EmptyGroupReachesOnlyStart(acc: Access, start: WorldName)
    ensures Closure(acc, {}, {start}) == {start}
  {
    ClosureExtends(acc, {}, {start});
    ClosureIsLeast(acc, {}, {start}, {start});
  }

  // ---------------------------------------------------------------------
  // Evaluation
  // ---------------------------------------------------------------------

  /** `Formula::evaluate` at world `w` of model `m`. */
  function Evaluate(m: KripkeModel, w: WorldName, phi: Formula): bool
    reads m
    decreases phi, 0
  {
    match phi
    case Atom(p) => m.EvaluateAtom(w, p)
    case Not(f) => !Evaluate(m, w, f)
    case And(l, r) => Evaluate(m, w, l) && Evaluate(m, w, r)
    case Or(l, r) => Evaluate(m, w, l) || Evaluate(m, w, r)
    case Implies(l, r) => !Evaluate(m, w, l) || Evaluate(m, w, r)
    case Knows(a, f) => m.EvaluateKnows(w, a, f)
    case CommonKnowledge(g, f) => m.EvaluateCommonKnowledge(w, g, f)
    case EverybodyKnows(g, f) => forall a | a in g :: m.EvaluateKnows(w, a, f)
  }

  /** Atoms read the valuation; the Boolean connectives combine their sides at the same world. */
  lemma ConnectiveSemantics(m: KripkeModel, w: WorldName, p: string, l: Formula, r: Formula)
    ensures Evaluate(m, w, Atom(p)) == m.GetValuation(w, p)
    ensures Evaluate(m, w, Not(l)) == !Evaluate(m, w, l)
    ensures Evaluate(m, w, And(l, r)) == (Evaluate(m, w, l) && Evaluate(m, w, r))
    ensures Evaluate(m, w, Or(l, r)) == (Evaluate(m, w, l) || Evaluate(m, w, r))
    ensures Evaluate(m, w, Implies(l, r)) == Evaluate(m, w, Or(Not(l), r))
    ensures Evaluate(m, w, Not(And(l, r))) == Evaluate(m, w, Or(Not(l), Not(r)))
    ensures Evaluate(m, w, Not(Or(l, r))) == Evaluate(m, w, And(Not(l), Not(r)))
  {
    assert Evaluate(m, w, Not(l)) == !Evaluate(m, w, l);
    assert Evaluate(m, w, Not(r)) == !Evaluate(m, w, r);
  }

  /**
    K_a φ holds at `w` iff φ holds at every world agent `a` reaches from `w`
    anywhere in the model; no edges make it vacuously true.
  */
  lemma KnowsSemantics(m: KripkeModel, w: WorldName, a: Agent, f: Formula)
    ensures Evaluate(m, w, Knows(a, f)) <==>
      forall v | v in m.GetAccessibleWorlds(a, w) :: Evaluate(m, v, f)
    ensures m.GetAccessibleWorlds(a, w) == {} ==> Evaluate(m, w, Knows(a, f))
  {
    if a in m.accessibility && w in m.accessibility[a] {
      assert m.GetAccessibleWorlds(a, w) == m.accessibility[a][w];
    } else {
      assert m.GetAccessibleWorlds(a, w) == {};
    }
  }

  /**
    E_G φ is K_a φ for every member: vacuously true for the empty group and
    the same as K_a φ for a singleton.
  */
  lemma EverybodyKnowsSemantics(m: KripkeModel, w: WorldName, g: set<Agent>, a: Agent, f: Formula)
    ensures Evaluate(m, w, EverybodyKnows(g, f)) <==> forall b | b in g :: Evaluate(m, w, Knows(b, f))
    ensures Evaluate(m, w, EverybodyKnows({}, f))
    ensures Evaluate(m, w, EverybodyKnows({a}, f)) == Evaluate(m, w, Knows(a, f))
  {
  }

  /**
    C_G φ holds at `w` iff φ holds at every world reachable from `w`; it
    implies φ at `w`, and over the empty group it is φ at `w`.
  */
  lemma CommonKnowledgeSemantics(m: KripkeModel, w: WorldName, g: set<Agent>, f: Formula)
    ensures Evaluate(m, w, CommonKnowledge(g, f)) <==>
      forall v | v in Closure(m.accessibility, g, {w}) :: Evaluate(m, v, f)
    ensures Evaluate(m, w, CommonKnowledge(g, f)) ==> Evaluate(m, w, f)
    ensures Evaluate(m, w, CommonKnowledge({}, f)) == Evaluate(m, w, f)
  {
    ClosureExtends(m.accessibility, g, {w});
    EmptyGroupReachesOnlyStart(m.accessibility, w);
  }

  /** C_G φ implies E_G φ: every one-step successor is reachable. */
  lemma CommonImpliesEverybody(m: KripkeModel, w: WorldName, g: set<Agent>, f: Formula)
    ensures Evaluate(m, w, CommonKnowledge(g, f)) ==> Evaluate(m, w, EverybodyKnows(g, f))
  {
    var reach := Closure(m.accessibility, g, {w});
    if Evaluate(m, w, CommonKnowledge(g, f)) {
      GroupReachableCharacterised(m.accessibility, g, w, {});
      assert m.EvaluateCommonKnowledge(w, g, f);
      forall a | a in g ensures m.EvaluateKnows(w, a, f) {
        forall v | v in Successors(m.accessibility, a, w) ensures Evaluate(m, v, f) {
          assert a in g && w in {w} && v in Successors(m.accessibility, a, w);
          assert v in reach;
        }
      }
    }
  }

  /** Evaluation depends on the edges and the valuation only, not on the object. */
  lemma {:induction false} EvaluateSameState(m1: KripkeModel, m2: KripkeModel, w: WorldName, phi: Formula)
    requires m1.accessibility == m2.accessibility && m1.valuation == m2.valuation
    ensures Evaluate(m1, w, phi) == Evaluate(m2, w, phi)
    decreases phi
  {
    match phi
    case Atom(p) =>
      assert m1.GetValuation(w, p) == m2.GetValuation(w, p);
    case Not(f) => EvaluateSameState(m1, m2, w, f);
    case And(l, r) => EvaluateSameState(m1, m2, w, l); EvaluateSameState(m1, m2, w, r);
    case Or(l, r) => EvaluateSameState(m1, m2, w, l); EvaluateSameState(m1, m2, w, r);
    case Implies(l, r) => EvaluateSameState(m1, m2, w, l); EvaluateSameState(m1, m2, w, r);
    case Knows(a, f) =>
      forall v ensures Evaluate(m1, v, f) == Evaluate(m2, v, f) {
        EvaluateSameState(m1, m2, v, f);
      }
      assert m1.EvaluateKnows(w, a, f) == m2.EvaluateKnows(w, a, f);
    case CommonKnowledge(g, f) =>
      forall v ensures Evaluate(m1, v, f) == Evaluate(m2, v, f) {
        EvaluateSameState(m1, m2, v, f);
      }
      assert m1.EvaluateCommonKnowledge(w, g, f) == m2.EvaluateCommonKnowledge(w, g, f);
    case EverybodyKnows(g, f) =>
      forall v ensures Evaluate(m1, v, f) == Evaluate(m2, v, f) {
        EvaluateSameState(m1, m2, v, f);
      }
      forall a ensures m1.EvaluateKnows(w, a, f) == m2.EvaluateKnows(w, a, f) {
      }
  }

  // ---------------------------------------------------------------------
  // Removing worlds
  // ---------------------------------------------------------------------

  /** The targets in `tos` that agree with `fromSatisfies` on membership in `t`. */
  method AgreeingTargets(tos: set<WorldName>, fromSatisfies: bool, t: set<WorldName>) returns (kept: set<WorldName>)
    ensures kept == set v | v in tos && (fromSatisfies <==> v in t)
  {
    kept := {};
    var left := tos;
    while left != {}
      invariant left <= tos
      invariant kept == set v | v in tos - left && (fromSatisfies <==> v in t)
    {
      var v :| v in left;
      if fromSatisfies == (v in t) {
        kept := kept + {v};
      }
      left := left - {v};
    }
  }

  /** Rewrites every source world's targets of `rel` with `AgreeingTargets`. */
  method SplitRelation(rel: Relation, t: set<WorldName>) returns (updated: Relation)
    ensures updated == Split(rel, t)
  {
    updated := rel;
    var froms := rel.Keys;
    while froms != {}
      invariant froms <= rel.Keys && updated.Keys == rel.Keys
      invariant forall u | u in updated && u !in froms :: updated[u] == Split(rel, t)[u]
      invariant forall u | u in froms :: updated[u] == rel[u]
    {
      var u :| u in froms;
      var newAccessible := AgreeingTargets(rel[u], u in t, t);
      updated := updated[u := newAccessible];
      froms := froms - {u};
    }
  }

  /** The worlds waiting in a search queue. */
  function Queued(q: seq<WorldName>): set<WorldName>
  {
    set v | v in q
  }

  lemma QueuedAppend(a: seq<WorldName>, b: seq<WorldName>)
    ensures Queued(a + b) == Queued(a) + Queued(b)
  {
  }

  /**
    After popping the head of `queue` and queueing the newly reached worlds,
    a world reached but no longer queued was processed before or is the head.
  */
  lemma QueueAfterVisit(reached0: set<WorldName>, reachable: set<WorldName>, queue: seq<WorldName>, toVisit: seq<WorldName>)
    requires |queue| > 0 && reached0 <= reachable
    requires |queue| - 1 <= |toVisit| && toVisit[..|queue| - 1] == queue[1..]
    requires Queued(toVisit[|queue| - 1..]) == reachable - reached0
    ensures Queued(toVisit) == Queued(queue[1..]) + (reachable - reached0)
    ensures reachable - Queued(toVisit) <= (reached0 - Queued(queue)) + {queue[0]}
    ensures reachable == reached0 ==> |toVisit| < |queue|
  {
    var tail := toVisit[|queue| - 1..];
    assert toVisit == queue[1..] + tail;
    QueuedAppend(queue[1..], tail);
    assert queue == [queue[0]] + queue[1..];
    QueuedAppend([queue[0]], queue[1..]);
    if |tail| > 0 {
      assert tail[0] in Queued(tail);
    }
  }

  lemma StepBound(acc: Access, group: set<Agent>, x: set<WorldName>, p: set<WorldName>, c: WorldName, r: set<WorldName>)
    requires x <= p + {c}
    requires Step(acc, group, p) <= r && Step(acc, group, {c}) <= r
    ensures Step(acc, group, x) <= r
  {
    StepMonotonic(acc, group, x, p + {c});
    StepUnion(acc, group, p, {c});
  }

  /** One round of the search stays inside the closure and the known targets. */
  lemma SearchRoundBounds(acc: Access, group: set<Agent>, closure: set<WorldName>, universe: set<WorldName>,
                          reached0: set<WorldName>, current: WorldName, reachable: set<WorldName>)
    requires AllTargets(acc) <= universe && ClosedUnder(acc, group, closure) && current in closure
    requires reached0 <= universe && reached0 <= closure
    requires reachable == reached0 + Step(acc, group, {current})
    ensures reached0 <= reachable <= universe && reachable <= closure
  {
    StepWithinClosed(acc, group, {current}, closure);
  }

  /** One round of the search keeps the queue invariant and makes progress. */
  lemma SearchRoundQueue(acc: Access, group: set<Agent>, universe: set<WorldName>,
                         reached0: set<WorldName>, queue: seq<WorldName>, reachable: set<WorldName>, toVisit: seq<WorldName>)
    requires |queue| > 0 && reached0 <= reachable <= universe
    requires Queued(queue) <= reached0
    requires Step(acc, group, reached0 - Queued(queue)) <= reached0
    requires reachable == reached0 + Step(acc, group, {queue[0]})
    requires |queue| - 1 <= |toVisit| && toVisit[..|queue| - 1] == queue[1..]
    requires Queued(toVisit[|queue| - 1..]) == reachable - reached0
    ensures Queued(toVisit) <= reachable
    ensures Step(acc, group, reachable - Queued(toVisit)) <= reachable
    ensures |universe - reachable| < |universe - reached0| ||
      (reachable == reached0 && |toVisit| < |queue|)
  {
    QueueAfterVisit(reached0, reachable, queue, toVisit);
    StepBound(acc, group, reachable - Queued(toVisit), reached0 - Queued(queue), queue[0], reachable);
    if reachable != reached0 {
      ProperSubsetSmaller(universe - reachable, universe - reached0);
    }
  }

  /** One agent's edges without any edge from or to a world of `r`. */
  function Prune(rel: Relation, r: set<WorldName>): Relation
  {
    map u | u in rel && u !in r :: rel[u] - r
  }

  /** Every agent's edges without any edge from or to a world of `r`. */
  function DropWorlds(acc: Access, r: set<WorldName>): Access
  {
    map a | a in acc :: Prune(acc[a], r)
  }

  lemma PruneStep(rel: Relation, done: set<WorldName>, x: WorldName)
    ensures Prune(Prune(rel, done), {x}) == Prune(rel, done + {x})
  {
    var lhs := Prune(Prune(rel, done), {x});
    var rhs := Prune(rel, done + {x});
    assert lhs.Keys == rhs.Keys;
    forall u | u in lhs ensures lhs[u] == rhs[u] {
      assert lhs[u] == rel[u] - done - {x};
    }
  }

  /** Removing worlds one after another removes them all. */
  lemma DropWorldsStep(acc: Access, done: set<WorldName>, x: WorldName)
    ensures DropWorlds(DropWorlds(acc, done), {x}) == DropWorlds(acc, done + {x})
  {
    var lhs := DropWorlds(DropWorlds(acc, done), {x});
    var rhs := DropWorlds(acc, done + {x});
    forall a | a in acc ensures lhs[a] == rhs[a] {
      PruneStep(acc[a], done, x);
    }
  }

  lemma DropNothing(acc: Access)
    ensures DropWorlds(acc, {}) == acc
  {
    forall a | a in acc ensures Prune(acc[a], {}) == acc[a] {
      var p := Prune(acc[a], {});
      assert p.Keys == acc[a].Keys;
      forall u | u in p ensures p[u] == acc[a][u] {
        assert p[u] == acc[a][u] - {};
      }
    }
  }

  /** Dropping worlds keeps edges inside the remaining worlds. */
  lemma DropWorldsWithin(acc: Access, ws: set<WorldName>, r: set<WorldName>)
    requires EdgesWithin(acc, ws)
    ensures EdgesWithin(DropWorlds(acc, r), ws - r)
  {
    var d := DropWorlds(acc, r);
    forall a, u | a in d && u in d[a] ensures u in ws - r && d[a][u] <= ws - r {
      assert u in acc[a] && d[a][u] == acc[a][u] - r;
    }
  }

  /** One agent's edges after a private observation of a formula true exactly at `t`. */
  function Split(rel: Relation, t: set<WorldName>): Relation
  {
    map u | u in rel :: set v | v in rel[u] && (u in t <==> v in t)
  }

  /**
    While worlds are removed one by one, the current world is the original one
    until that is removed, then the least remaining world, or the last world
    removed once none remain.
  */
  ghost predicate CurrentTracked(original: WorldName, done: set<WorldName>, worlds: set<WorldName>, current: WorldName)
  {
    && (original !in done ==> current == original)
    && (original in done && worlds != {} ==> current == Least(worlds))
    && (original in done && worlds == {} ==> current in done && forall d | d in done :: Le(d, current))
  }

  /** Removing the least pending world `x` keeps `CurrentTracked`. */
  lemma CurrentTrackedStep(original: WorldName, done: set<WorldName>, toRemove: set<WorldName>, x: WorldName,
                           before: set<WorldName>, after: set<WorldName>, c0: WorldName, c1: WorldName)
    requires CurrentTracked(original, done, before, c0)
    requires x in toRemove && x in before && after == before - {x}
    requires forall d | d in done :: Le(d, x)
    requires c0 == x && after != {} ==> c1 == Least(after)
    requires !(c0 == x && after != {}) ==> c1 == c0
    ensures CurrentTracked(original, done + {x}, after, c1)
  {
    LeReflexive(x);
    if original in done && c0 != x && after != {} {
      LeastOfSubset(c0, before, after);
    }
  }

  class KripkeModel {
    const agents: set<Agent>
    var worlds: set<WorldName>
    var accessibility: Access
    var valuation: map<WorldName, map<string, bool>>
    var currentWorld: WorldName

    /** Every edge endpoint and every valuation key is a world of the model. */
    ghost predicate Valid()
      reads this
    {
      valuation.Keys <= worlds && EdgesWithin(accessibility, worlds)
    }

    /** The current world is a world of the model whenever there are worlds. */
    ghost predicate CurrentInWorlds()
      reads this
    {
      worlds != {} ==> currentWorld in worlds
    }

    /** One world `w0`, current, with a reflexive edge for every agent. */
    constructor (agents: set<Agent>)
      ensures this.agents == agents
      ensures worlds == {"w0"} && currentWorld == "w0" && valuation == map[]
      ensures accessibility == map a | a in agents :: map["w0" := {"w0"}]
      ensures Valid() && CurrentInWorlds()
    {
      var acc: Access := map[];
      var left := agents;
      while left != {}
        invariant left <= agents && acc.Keys == agents - left
        invariant forall a | a in acc :: acc[a] == map["w0" := {"w0"}]
      {
        var a :| a in left;
        assert a !in acc;
        var rel := RelationOf(acc, a);
        assert rel == map[] && TargetsOf(rel, "w0") == {};
        assert TargetsOf(rel, "w0") + {"w0"} == {"w0"};
        acc := acc[a := rel["w0" := TargetsOf(rel, "w0") + {"w0"}]];
        left := left - {a};
      }
      ghost var expected := map a | a in agents :: map["w0" := {"w0"}];
      assert acc.Keys == expected.Keys;
      assert forall a | a in acc :: acc[a] == expected[a];
      assert acc == expected;
      this.agents := agents;
      worlds := {"w0"};
      accessibility := acc;
      valuation := map[];
      currentWorld := "w0";
    }

    method AddWorld(w: WorldName)
      modifies this
      ensures worlds == old(worlds) + {w}
      ensures accessibility == old(accessibility) && valuation == old(valuation)
      ensures currentWorld == old(currentWorld)
      ensures old(Valid()) ==> Valid()
      ensures old(worlds) != {} && old(CurrentInWorlds()) ==> CurrentInWorlds()
    {
      worlds := worlds + {w};
    }

    /**
      Deletes `w`, its valuation and every edge from or to it; a removed
      current world gives way to the first remaining world.
    */
    method RemoveWorld(w: WorldName)
      modifies this
      ensures worlds == old(worlds) - {w}
      ensures valuation == old(valuation) - {w}
      ensures accessibility == DropWorlds(old(accessibility), {w})
      ensures old(currentWorld) == w && worlds != {} ==> currentWorld == Least(worlds)
      ensures !(old(currentWorld) == w && worlds != {}) ==> currentWorld == old(currentWorld)
      ensures old(Valid()) ==> Valid()
      ensures old(CurrentInWorlds()) ==> CurrentInWorlds()
    {
      var acc := accessibility;
      var pending := acc.Keys;
      while pending != {}
        invariant pending <= acc.Keys && acc.Keys == accessibility.Keys
        invariant forall a | a in acc ::
          acc[a] == if a in pending then accessibility[a] else Prune(accessibility[a], {w})
      {
        var a :| a in pending;
        var rel := acc[a] - {w};
        var froms := rel.Keys;
        while froms != {}
          invariant froms <= rel.Keys && rel.Keys == accessibility[a].Keys - {w}
          invariant forall u | u in rel ::
            rel[u] == if u in froms then accessibility[a][u] else accessibility[a][u] - {w}
        {
          var u :| u in froms;
          rel := rel[u := rel[u] - {w}];
          froms := froms - {u};
        }
        assert rel == Prune(accessibility[a], {w});
        acc := acc[a := rel];
        pending := pending - {a};
      }
      assert acc == DropWorlds(accessibility, {w});
      if Valid() {
        DropWorldsWithin(accessibility, worlds, {w});
      }
      worlds := worlds - {w};
      valuation := valuation - {w};
      accessibility := acc;
      if currentWorld == w && worlds != {} {
        currentWorld := Least(worlds);
      }
    }

    /** Adds the edge `from -> to` for `agent`, after checking all three names. */
    method AddAccessibilityRelation(agent: Agent, from: WorldName, to: WorldName) returns (s: Status)
      modifies this
      ensures s == if agent !in agents then UnknownAgent(agent)
                   else if from !in worlds then UnknownWorld(from)
                   else if to !in worlds then UnknownWorld(to)
                   else Done
      ensures worlds == old(worlds) && valuation == old(valuation) && currentWorld == old(currentWorld)
      ensures !s.Done? ==> accessibility == old(accessibility)
      ensures s.Done? ==> (accessibility ==
        old(accessibility)[agent := RelationOf(old(accessibility), agent)[from := Successors(old(accessibility), agent, from) + {to}]])
      ensures s.Done? ==> forall b, u, v ::
        (v in Successors(accessibility, b, u) <==>
         v in Successors(old(accessibility), b, u) || (b == agent && u == from && v == to))
      ensures old(Valid()) ==> Valid()
    {
      if agent !in agents {
        return UnknownAgent(agent);
      }
      if from !in worlds {
        return UnknownWorld(from);
      }
      if to !in worlds {
        return UnknownWorld(to);
      }
      var rel := RelationOf(accessibility, agent);
      accessibility := accessibility[agent := rel[from := TargetsOf(rel, from) + {to}]];
      s := Done;
    }

    /** Sets proposition `p` at world `w`, after checking that `w` exists. */
    method SetValuation(w: WorldName, p: string, value: bool) returns (s: Status)
      modifies this
      ensures s == if w in old(worlds) then Done else UnknownWorld(w)
      ensures worlds == old(worlds) && accessibility == old(accessibility) && currentWorld == old(currentWorld)
      ensures !s.Done? ==> valuation == old(valuation)
      ensures s.Done? ==> GetValuation(w, p) == value
      ensures s.Done? ==> forall w', p' | w' != w || p' != p :: GetValuation(w', p') == old(GetValuation(w', p'))
      ensures old(Valid()) ==> Valid()
    {
      if w !in worlds {
        return UnknownWorld(w);
      }
      var props := if w in valuation then valuation[w] else map[];
      valuation := valuation[w := props[p := value]];
      s := Done;
    }

    /** The value last set for `p` at `w`; false when either was never set. */
    function GetValuation(w: WorldName, p: string): bool
      reads this
    {
      if w !in valuation then false
      else if p !in valuation[w] then false
      else valuation[w][p]
    }

    function EvaluateAtom(w: WorldName, atom: string): bool
      reads this
    {
      GetValuation(w, atom)
    }

    /**
      K_a φ at `w`: true when `a` has no edges, `w` has no entry or an empty
      one; otherwise φ must hold at every target.
    */
    function EvaluateKnows(w: WorldName, a: Agent, phi: Formula): bool
      reads this
      decreases phi, 1
    {
      if a !in accessibility then true
      else if w !in accessibility[a] then true
      else if accessibility[a][w] == {} then true
      else forall v | v in accessibility[a][w] :: Evaluate(this, v, phi)
    }

    /**
      The targets of `agent` from `from`, or none when either has no entry;
      in a valid model they are worlds of the model, and only a world of the
      model has any.
    */
    function GetAccessibleWorlds(agent: Agent, from: WorldName): (r: set<WorldName>)
      reads this
      ensures r == Successors(accessibility, agent, from)
      ensures Valid() ==> r <= worlds
      ensures Valid() && from !in worlds ==> r == {}
    {
      if agent !in accessibility then {}
      else if from !in accessibility[agent] then {}
      else
        assert Valid() ==> from in worlds && accessibility[agent][from] <= worlds;
        accessibility[agent][from]
    }

    /** C_G φ at `w`: φ at every world reachable through edges of group members. */
    function EvaluateCommonKnowledge(w: WorldName, group: set<Agent>, phi: Formula): bool
      reads this
      decreases phi, 1
    {
      forall v | v in Closure(accessibility, group, {w}) :: Evaluate(this, v, phi)
    }

    /**
      One round of the search: every group successor of `current` that is not
      yet reached is reached and queued, in agent order then target order.
    */
    method VisitNeighbours(current: WorldName, group: set<Agent>, reached: set<WorldName>, queue: seq<WorldName>)
      returns (reachable: set<WorldName>, toVisit: seq<WorldName>)
      ensures reachable == reached + Step(accessibility, group, {current})
      ensures |queue| <= |toVisit| && toVisit[..|queue|] == queue
      ensures Queued(toVisit[|queue|..]) == reachable - reached
    {
      reachable, toVisit := reached, queue;
      ghost var added: seq<WorldName> := [];
      var agentsLeft := group;
      while agentsLeft != {}
        invariant agentsLeft <= group
        invariant reachable == reached + Step(accessibility, group - agentsLeft, {current})
        invariant toVisit == queue + added
        invariant Queued(added) == reachable - reached
      {
        var a :| a in agentsLeft;
        var accessible := GetAccessibleWorlds(a, current);
        var targets := accessible;
        ghost var before := reachable;
        while targets != {}
          invariant targets <= accessible
          invariant reachable == before + (accessible - targets)
          invariant toVisit == queue + added
          invariant Queued(added) == reachable - reached
        {
          var w :| w in targets;
          if w !in reachable {
            reachable := reachable + {w};
            toVisit := toVisit + [w];
            QueuedAppend(added, [w]);
            added := added + [w];
          }
          targets := targets - {w};
        }
        StepAddAgent(accessibility, group - agentsLeft, a, current);
        assert group - (agentsLeft - {a}) == (group - agentsLeft) + {a};
        agentsLeft := agentsLeft - {a};
      }
      assert toVisit[|queue|..] == added;
    }

    /** Breadth-first search from `start` along the edges of group members. */
    method GetGroupReachableWorlds(start: WorldName, group: set<Agent>) returns (reachable: set<WorldName>)
      ensures reachable == Closure(accessibility, group, {start})
    {
      ghost var universe := AllTargets(accessibility) + {start};
      ghost var closure := Closure(accessibility, group, {start});
      GroupReachableCharacterised(accessibility, group, start, {});
      ClosureIsClosed(accessibility, group, {start});
      reachable := {start};
      var toVisit: seq<WorldName> := [start];
      while |toVisit| > 0
        invariant start in reachable && reachable <= universe && reachable <= closure
        invariant Queued(toVisit) <= reachable
        invariant Step(accessibility, group, reachable - Queued(toVisit)) <= reachable
        decreases |universe - reachable|, |toVisit|
      {
        ghost var reached0 := reachable;
        ghost var queue0 := toVisit;
        var current := toVisit[0];
        toVisit := toVisit[1..];
        reachable, toVisit := VisitNeighbours(current, group, reachable, toVisit);
        assert current in Queued(queue0);
        SearchRoundBounds(accessibility, group, closure, universe, reached0, current, reachable);
        SearchRoundQueue(accessibility, group, universe, reached0, queue0, reachable, toVisit);
      }
      StepWithinClosed(accessibility, group, reachable, reachable);
      ClosureIsLeast(accessibility, group, {start}, reachable);
    }

    /** The worlds of the model where `phi` holds now. */
    function Satisfying(phi: Formula): set<WorldName>
      reads this
    {
      set w | w in worlds && Evaluate(this, w, phi)
    }

    /** Evaluates `phi` at every world, in set order, and keeps those where it holds. */
    method WorldsWhere(phi: Formula) returns (holdsAt: set<WorldName>)
      ensures holdsAt == Satisfying(phi)
    {
      holdsAt := {};
      var scan := worlds;
      while scan != {}
        invariant scan <= worlds
        invariant holdsAt == set w | w in worlds - scan && Evaluate(this, w, phi)
      {
        var w := Least(scan);
        if Evaluate(this, w, phi) {
          holdsAt := holdsAt + {w};
        }
        scan := scan - {w};
      }
    }

    /**
      Deletes, one by one in set order, every world where `phi` was false
      before any deletion.
    */
    method PublicAnnouncement(phi: Formula)
      modifies this
      ensures worlds == old(Satisfying(phi))
      ensures valuation == old(valuation) - (old(worlds) - old(Satisfying(phi)))
      ensures accessibility == DropWorlds(old(accessibility), old(worlds) - old(Satisfying(phi)))
      ensures old(currentWorld) !in old(worlds) - old(Satisfying(phi)) ==> currentWorld == old(currentWorld)
      ensures old(currentWorld) in old(worlds) - old(Satisfying(phi)) && worlds != {} ==> currentWorld == Least(worlds)
      ensures old(currentWorld) in old(worlds) - old(Satisfying(phi)) && worlds == {} ==>
        currentWorld in old(worlds) && forall v | v in old(worlds) :: Le(v, currentWorld)
      ensures old(Valid()) ==> Valid()
      ensures old(CurrentInWorlds()) ==> CurrentInWorlds()
    {
      var holdsAt := WorldsWhere(phi);
      RemoveWorlds(worlds - holdsAt);
    }

    /**
      The removal loop of `public_announcement`: removes the worlds of
      `toRemove` one at a time, least first, through `RemoveWorld`.
    */
    method RemoveWorlds(toRemove: set<WorldName>)
      modifies this
      requires toRemove <= worlds
      ensures worlds == old(worlds) - toRemove
      ensures valuation == old(valuation) - toRemove
      ensures accessibility == DropWorlds(old(accessibility), toRemove)
      ensures old(currentWorld) !in toRemove ==> currentWorld == old(currentWorld)
      ensures old(currentWorld) in toRemove && worlds != {} ==> currentWorld == Least(worlds)
      ensures old(currentWorld) in toRemove && worlds == {} ==>
        currentWorld in toRemove && forall v | v in toRemove :: Le(v, currentWorld)
      ensures old(Valid()) ==> Valid()
      ensures old(CurrentInWorlds()) ==> CurrentInWorlds()
    {
      var pending := toRemove;
      ghost var done: set<WorldName> := {};
      DropNothing(accessibility);
      while pending != {}
        invariant pending + done == toRemove && pending !! done
        invariant worlds == old(worlds) - done
        invariant valuation == old(valuation) - done
        invariant accessibility == DropWorlds(old(accessibility), done)
        invariant forall d, p | d in done && p in pending :: Le(d, p)
        invariant CurrentTracked(old(currentWorld), done, worlds, currentWorld)
        invariant old(Valid()) ==> Valid()
        invariant old(CurrentInWorlds()) ==> CurrentInWorlds()
      {
        var x := Least(pending);
        ghost var before := worlds;
        ghost var current0 := currentWorld;
        RemoveWorld(x);
        DropWorldsStep(old(accessibility), done, x);
        CurrentTrackedStep(old(currentWorld), done, pending, x, before, worlds, current0, currentWorld);
        done := done + {x};
        pending := pending - {x};
      }
    }

    /**
      Agent `a` learns whether `phi` holds: it keeps an edge only between two
      worlds that agree on `phi`; nothing else changes.
    */
    method PrivateObservation(a: Agent, phi: Formula)
      modifies this
      ensures worlds == old(worlds) && valuation == old(valuation) && currentWorld == old(currentWorld)
      ensures accessibility == old(accessibility)[a := Split(RelationOf(old(accessibility), a), old(Satisfying(phi)))]
      ensures forall b | b != a :: RelationOf(accessibility, b) == RelationOf(old(accessibility), b)
      ensures forall u, v :: v in Successors(accessibility, a, u) <==>
        v in Successors(old(accessibility), a, u) && (u in old(Satisfying(phi)) <==> v in old(Satisfying(phi)))
      ensures old(Valid()) ==> Valid()
    {
      var holdsAt := WorldsWhere(phi);
      assert holdsAt == old(Satisfying(phi));
      var updated := SplitRelation(RelationOf(accessibility, a), holdsAt);
      assert updated == Split(RelationOf(old(accessibility), a), old(Satisfying(phi)));
      accessibility := accessibility[a := updated];
      forall u, v ensures v in Successors(accessibility, a, u) <==>
        v in Successors(old(accessibility), a, u) && (u in old(Satisfying(phi)) <==> v in old(Satisfying(phi)))
      {
        var rel := RelationOf(old(accessibility), a);
        assert RelationOf(accessibility, a) == updated;
        if u in rel {
          assert TargetsOf(updated, u) == set x | x in rel[u] && (u in holdsAt <==> x in holdsAt);
        } else {
          assert TargetsOf(updated, u) == {};
        }
      }
      forall b | b != a ensures RelationOf(accessibility, b) == RelationOf(old(accessibility), b) {
        if b in old(accessibility) {
          assert accessibility[b] == old(accessibility)[b];
        } else {
          assert b !in accessibility;
        }
      }
      if old(Valid()) {
        forall b, u | b in accessibility && u in accessibility[b] ensures u in worlds && accessibility[b][u] <= worlds {
          if b == a {
            assert u in RelationOf(old(accessibility), a) && accessibility[b][u] <= RelationOf(old(accessibility), a)[u];
          } else {
            assert accessibility[b] == old(accessibility)[b];
          }
        }
      }
    }

    /** A new model with the same agents, worlds, edges, valuation and current world. */
    method Clone() returns (c: KripkeModel)
      ensures fresh(c)
      ensures c.agents == agents && c.worlds == worlds && c.accessibility == accessibility
      ensures c.valuation == valuation && c.currentWorld == currentWorld
      ensures forall w, phi :: Evaluate(c, w, phi) == Evaluate(this, w, phi)
    {
      c := new KripkeModel(agents);
      c.worlds := worlds;
      c.accessibility := accessibility;
      c.valuation := valuation;
      c.currentWorld := currentWorld;
      forall w, phi ensures Evaluate(c, w, phi) == Evaluate(this, w, phi) {
        EvaluateSameState(c, this, w, phi);
      }
    }

    /** The worlds where proposition `p` is set true, in set order. */
    method GetWorldsWhere(p: string) returns (result: seq<WorldName>)
      ensures forall w :: w in result <==> w in worlds && GetValuation(w, p)
      ensures forall i, j | 0 <= i < j < |result| :: Lt(result[i], result[j])
    {
      result := [];
      var left := worlds;
      while left != {}
        invariant left <= worlds
        invariant forall w :: w in result <==> w in worlds - left && GetValuation(w, p)
        invariant forall i, j | 0 <= i < j < |result| :: Lt(result[i], result[j])
        invariant forall i, y | 0 <= i < |result| && y in left :: Lt(result[i], y)
      {
        var w := Least(left);
        if EvaluateAtom(w, p) {
          result := result + [w];
        }
        left := left - {w};
      }
    }
  }

  /**
    Removing the only world and then adding another leaves the current world
    naming a world that is no longer in the model.
  */
  method EmptiedModelKeepsStaleCurrentWorld() returns (m: KripkeModel)
    ensures m.worlds == {"w1"} && m.currentWorld == "w0" && !m.CurrentInWorlds()
  {
    m := new KripkeModel({});
    m.RemoveWorld("w0");
    m.AddWorld("w1");
  }
}
