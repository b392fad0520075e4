/**
  The event model built from one lidar scan: one event per range bin, and
  for the sensing agent an edge between every two bins the sensor cannot
  tell apart. Readings, the maximum range and the sensor parameters are
  reals; floating-point rounding is not modelled.
*/
module LidarEvents {
  import opened Numerals
  import opened Worlds
  import opened EdgeLists
  import opened BeliefFormula
  import opened Events

  datatype LidarObservation = LidarObservation(ranges: seq<real>, maxRange: real)

  datatype LidarSensorModel = LidarSensorModel(sigma: real, dropoutProb: real)

  /** The agent whose observations the event model describes. */
  const SENSING_AGENT: Agent := 0

  function Abs(x: real): (r: real)
    ensures r >= 0.0 && (r == x || r == -x)
  {
    if x < 0.0 then -x else x
  }

  /** A reading is invalid when it is not positive or reaches the maximum range. */
  predicate Invalid(obs: LidarObservation, i: nat)
    requires i < |obs.ranges|
  {
    obs.ranges[i] <= 0.0 || obs.ranges[i] >= obs.maxRange
  }

  /**
    The sensor cannot tell bin `i` from bin `j`: the same bin, two invalid
    readings, or readings within `sigma` of each other.
  */
  predicate Linked(obs: LidarObservation, model: LidarSensorModel, i: nat, j: nat)
    requires i < |obs.ranges| && j < |obs.ranges|
  {
    i == j || (Invalid(obs, i) && Invalid(obs, j)) || Abs(obs.ranges[i] - obs.ranges[j]) <= model.sigma
  }

  /** A pair the pass appends: every pair in the dropout pass, linked pairs otherwise. */
  predicate Included(obs: LidarObservation, model: LidarSensorModel, all: bool, i: nat, j: nat)
    requires i < |obs.ranges| && j < |obs.ranges|
  {
    all || Linked(obs, model, i, j)
  }

  /** The pairs `(i, k)`, `k < j`, that a pass appends in row `i`, in order. */
  function RowEdges(obs: LidarObservation, model: LidarSensorModel, all: bool, i: nat, j: nat): seq<Edge>
    requires i < |obs.ranges| && j <= |obs.ranges|
  {
    if j == 0 then []
    else RowEdges(obs, model, all, i, j - 1) + (if Included(obs, model, all, i, j - 1) then [(i, j - 1)] else [])
  }

  /** The pairs a pass appends in rows below `i`, row by row. */
  function PassEdges(obs: LidarObservation, model: LidarSensorModel, all: bool, i: nat): seq<Edge>
    requires i <= |obs.ranges|
  {
    if i == 0 then [] else PassEdges(obs, model, all, i - 1) + RowEdges(obs, model, all, i - 1, |obs.ranges|)
  }

  /** The sensing agent's whole list: the linked pairs, then every pair again under dropout. */
  function SensorEdges(obs: LidarObservation, model: LidarSensorModel): seq<Edge>
  {
    PassEdges(obs, model, false, |obs.ranges|)
      + (if model.dropoutProb > 0.5 then PassEdges(obs, model, true, |obs.ranges|) else [])
  }

  /** Event `i`: id `i`, precondition the atom `lidar_bin_<i>`. */
  function BinEvent(i: nat): Event
  {
    Event(i, Atom("lidar_bin_" + DecimalString(i)))
  }

  function BinEvents(n: nat): (evs: seq<Event>)
    ensures |evs| == n && forall i | 0 <= i < n :: evs[i] == BinEvent(i)
  {
    if n == 0 then [] else BinEvents(n - 1) + [BinEvent(n - 1)]
  }

  /** The accessibility map after appending `edges` through `operator[]`: no entry until the first edge. */
  function AgentMap(edges: seq<Edge>): map<Agent, seq<Edge>>
  {
    if |edges| == 0 then map[] else map[SENSING_AGENT := edges]
  }

  /** `accessibility[a].push_back(e)`: creates the agent's entry when missing. */
  function Push(acc: map<Agent, seq<Edge>>, a: Agent, e: Edge): (r: map<Agent, seq<Edge>>)
    ensures r.Keys == acc.Keys + {a}
    ensures r[a] == (if a in acc then acc[a] else []) + [e]
    ensures forall b | b in acc && b != a :: r[b] == acc[b]
  {
    acc[a := (if a in acc then acc[a] else []) + [e]]
  }

  /**
    `build_lidar_event`: nothing for an empty scan; otherwise one event per
    bin and the sensing agent's edges from the linking pass and, when
    `dropout_prob > 0.5`, the all-pairs pass.
  */
  method BuildLidarEvent(obs: LidarObservation, model: LidarSensorModel) returns (em: EventModel)
    ensures |obs.ranges| == 0 ==> em == EventModel([], map[])
    ensures |obs.ranges| > 0 ==>
      em == EventModel(BinEvents(|obs.ranges|), map[SENSING_AGENT := SensorEdges(obs, model)])
  {
    em := EventModel([], map[]);
    var n := |obs.ranges|;
    if n == 0 {
      return;
    }
    for i := 0 to n
      invariant em == EventModel(BinEvents(i), map[])
    {
      em := em.(events := em.events + [BinEvent(i)]);
    }
    var linked := LinkingPass(obs, model);
    LinkedPassNonEmpty(obs, model);
    assert linked == map[SENSING_AGENT := PassEdges(obs, model, false, n)];
    em := em.(accessibility := linked);
    if model.dropoutProb > 0.5 {
      var all := DropoutPass(obs, model, em.accessibility);
      em := em.(accessibility := all);
    } else {
      assert PassEdges(obs, model, false, n) + [] == PassEdges(obs, model, false, n);
    }
  }

  /**
    The reflexive, invalid-pair and within-`sigma` loops: appends `(i, j)`
    for every linked pair, row by row, to a map that starts empty.
  */
  method LinkingPass(obs: LidarObservation, model: LidarSensorModel) returns (acc: map<Agent, seq<Edge>>)
    ensures acc == AgentMap(PassEdges(obs, model, false, |obs.ranges|))
  {
    var n := |obs.ranges|;
    var sensing := SENSING_AGENT;
    acc := map[];
    for i := 0 to n
      invariant acc == AgentMap(PassEdges(obs, model, false, i))
    {
      RowStart(obs, model, false, i);
      for j := 0 to n
        invariant acc == AgentMap(PassEdges(obs, model, false, i) + RowEdges(obs, model, false, i, j))
      {
        RowStep(obs, model, false, i, j);
        if i == j {
          acc := Push(acc, sensing, (i, j));
          continue;
        }
        var ri := obs.ranges[i];
        var rj := obs.ranges[j];
        var riInvalid := ri <= 0.0 || ri >= obs.maxRange;
        var rjInvalid := rj <= 0.0 || rj >= obs.maxRange;
        if riInvalid && rjInvalid {
          acc := Push(acc, sensing, (i, j));
          continue;
        }
        if Abs(ri - rj) <= model.sigma {
          acc := Push(acc, sensing, (i, j));
        }
      }
    }
  }

  /** The dropout loops: appends every pair `(i, j)`, row by row, to the sensing agent's list. */
  method DropoutPass(obs: LidarObservation, model: LidarSensorModel, acc0: map<Agent, seq<Edge>>)
    returns (acc: map<Agent, seq<Edge>>)
    requires SENSING_AGENT in acc0
    ensures acc == acc0[SENSING_AGENT := acc0[SENSING_AGENT] + PassEdges(obs, model, true, |obs.ranges|)]
  {
    var n := |obs.ranges|;
    var sensing := SENSING_AGENT;
    var prefix := acc0[SENSING_AGENT];
    acc := acc0;
    assert prefix + PassEdges(obs, model, true, 0) == prefix;
    for i := 0 to n
      invariant acc == acc0[SENSING_AGENT := prefix + PassEdges(obs, model, true, i)]
    {
      RowStart(obs, model, true, i);
      for j := 0 to n
        invariant acc == acc0[SENSING_AGENT := prefix + (PassEdges(obs, model, true, i) + RowEdges(obs, model, true, i, j))]
      {
        RowStep(obs, model, true, i, j);
        acc := Push(acc, sensing, (i, j));
      }
    }
  }

  /** Pushing onto the map built so far appends to the sensing agent's list. */
  lemma AppendOne(edges: seq<Edge>, e: Edge)
    ensures Push(AgentMap(edges), SENSING_AGENT, e) == AgentMap(edges + [e])
  {
  }

  /** A row starts where the rows before it end. */
  lemma RowStart(obs: LidarObservation, model: LidarSensorModel, all: bool, i: nat)
    requires i < |obs.ranges|
    ensures PassEdges(obs, model, all, i) + RowEdges(obs, model, all, i, 0) == PassEdges(obs, model, all, i)
    ensures PassEdges(obs, model, all, i) + RowEdges(obs, model, all, i, |obs.ranges|) == PassEdges(obs, model, all, i + 1)
  {
  }

  /** One column of a row: the pair is appended exactly when it is included. */
  lemma RowStep(obs: LidarObservation, model: LidarSensorModel, all: bool, i: nat, j: nat)
    requires i < |obs.ranges| && j < |obs.ranges|
    ensures var before := PassEdges(obs, model, all, i) + RowEdges(obs, model, all, i, j);
      var after := PassEdges(obs, model, all, i) + RowEdges(obs, model, all, i, j + 1);
      && (Included(obs, model, all, i, j) ==> after == before + [(i, j)])
      && (!Included(obs, model, all, i, j) ==> after == before)
      && (forall prefix: seq<Edge> :: prefix + after == prefix + before + (if Included(obs, model, all, i, j) then [(i, j)] else []))
      && (Included(obs, model, all, i, j) ==> Push(AgentMap(before), SENSING_AGENT, (i, j)) == AgentMap(after))
  {
    var before := PassEdges(obs, model, all, i) + RowEdges(obs, model, all, i, j);
    AppendOne(before, (i, j));
  }

  /** The linking pass of a non-empty scan appends at least the pair `(0, 0)`. */
  lemma LinkedPassNonEmpty(obs: LidarObservation, model: LidarSensorModel)
    requires |obs.ranges| > 0
    ensures |PassEdges(obs, model, false, |obs.ranges|)| > 0
  {
    PassEdgesMembership(obs, model, false, |obs.ranges|, 0, 0);
  }

  /** Row `i` of a pass holds exactly the included pairs `(i, k)` with `k < j`. */
  lemma {:induction false} RowEdgesMembership(obs: LidarObservation, model: LidarSensorModel, all: bool, i: nat, j: nat, p: nat, q: nat)
    requires i < |obs.ranges| && j <= |obs.ranges|
    ensures (p, q) in RowEdges(obs, model, all, i, j) <==>
      p == i && q < j && Included(obs, model, all, i, q)
  {
    if j > 0 {
      RowEdgesMembership(obs, model, all, i, j - 1, p, q);
    }
  }

  /** Rows below `i` of a pass hold exactly the included pairs with first bin below `i`. */
  lemma {:induction false} PassEdgesMembership(obs: LidarObservation, model: LidarSensorModel, all: bool, i: nat, p: nat, q: nat)
    requires i <= |obs.ranges|
    ensures (p, q) in PassEdges(obs, model, all, i) <==>
      p < i && q < |obs.ranges| && Included(obs, model, all, p, q)
  {
    if i > 0 {
      PassEdgesMembership(obs, model, all, i - 1, p, q);
      RowEdgesMembership(obs, model, all, i - 1, |obs.ranges|, p, q);
    }
  }

  /**
    The sensing agent reaches bin `q` from bin `p` exactly when both are
    bins and, without dropout, they are linked; under dropout every pair of
    bins. No other agent has an edge. Every bin reaches itself, two invalid
    readings reach each other, and otherwise readings within `sigma` do,
    which may pair an invalid reading with a valid one.
  */
  lemma SensorAccessibility(obs: LidarObservation, model: LidarSensorModel, em: EventModel, a: Agent, p: nat, q: nat)
    requires |obs.ranges| > 0
    requires em == EventModel(BinEvents(|obs.ranges|), map[SENSING_AGENT := SensorEdges(obs, model)])
    ensures EventAccessible(em, a, p, q) <==>
      a == SENSING_AGENT && p < |obs.ranges| && q < |obs.ranges| &&
      (model.dropoutProb > 0.5 || Linked(obs, model, p, q))
  {
    PassEdgesMembership(obs, model, false, |obs.ranges|, p, q);
    PassEdgesMembership(obs, model, true, |obs.ranges|, p, q);
  }

  /** Indistinguishability of bins is reflexive and symmetric. */
  lemma LinkedReflexiveSymmetric(obs: LidarObservation, model: LidarSensorModel, i: nat, j: nat)
    requires i < |obs.ranges| && j < |obs.ranges|
    ensures Linked(obs, model, i, i)
    ensures Linked(obs, model, i, j) <==> Linked(obs, model, j, i)
  {
    assert Abs(obs.ranges[i] - obs.ranges[j]) == Abs(obs.ranges[j] - obs.ranges[i]);
  }

  /** `e1` comes strictly before `e2` in row-major order. */
  predicate Before(e1: Edge, e2: Edge)
  {
    e1.0 < e2.0 || (e1.0 == e2.0 && e1.1 < e2.1)
  }

  predicate StrictlyOrdered(es: seq<Edge>)
  {
    forall s, t | 0 <= s < t < |es| :: Before(es[s], es[t])
  }

  lemma ConcatOrdered(a: seq<Edge>, b: seq<Edge>)
    requires StrictlyOrdered(a) && StrictlyOrdered(b)
    requires forall x, y | x in a && y in b :: Before(x, y)
    ensures StrictlyOrdered(a + b)
  {
    forall s, t | 0 <= s < t < |a + b| ensures Before((a + b)[s], (a + b)[t]) {
      if t < |a| {
        assert (a + b)[s] == a[s] && (a + b)[t] == a[t];
      } else if s >= |a| {
        assert (a + b)[s] == b[s - |a|] && (a + b)[t] == b[t - |a|];
      } else {
        assert (a + b)[s] in a && (a + b)[t] in b;
      }
    }
  }

  lemma {:induction false} RowEdgesOrdered(obs: LidarObservation, model: LidarSensorModel, all: bool, i: nat, j: nat)
    requires i < |obs.ranges| && j <= |obs.ranges|
    ensures StrictlyOrdered(RowEdges(obs, model, all, i, j))
  {
    if j > 0 {
      RowEdgesOrdered(obs, model, all, i, j - 1);
      var row := RowEdges(obs, model, all, i, j - 1);
      forall k | 0 <= k < |row| ensures Before(row[k], (i, j - 1)) {
        assert row[k] in row;
        RowEdgesMembership(obs, model, all, i, j - 1, row[k].0, row[k].1);
      }
      ConcatOrdered(RowEdges(obs, model, all, i, j - 1),
        if Included(obs, model, all, i, j - 1) then [(i, j - 1)] else []);
    }
  }

  lemma {:induction false} PassEdgesOrdered(obs: LidarObservation, model: LidarSensorModel, all: bool, i: nat)
    requires i <= |obs.ranges|
    ensures StrictlyOrdered(PassEdges(obs, model, all, i))
  {
    if i > 0 {
      var n := |obs.ranges|;
      PassEdgesOrdered(obs, model, all, i - 1);
      RowEdgesOrdered(obs, model, all, i - 1, n);
      forall x, y | x in PassEdges(obs, model, all, i - 1) && y in RowEdges(obs, model, all, i - 1, n)
        ensures Before(x, y)
      {
        PassEdgesMembership(obs, model, all, i - 1, x.0, x.1);
        RowEdgesMembership(obs, model, all, i - 1, n, y.0, y.1);
      }
      ConcatOrdered(PassEdges(obs, model, all, i - 1), RowEdges(obs, model, all, i - 1, n));
    }
  }

  /**
    Without dropout the sensing agent's relation is symmetric and lists each
    ordered pair at most once.
  */
  lemma NoDropoutSymmetricAndDistinct(obs: LidarObservation, model: LidarSensorModel, p: nat, q: nat)
    requires model.dropoutProb <= 0.5
    ensures (p, q) in SensorEdges(obs, model) <==> (q, p) in SensorEdges(obs, model)
    ensures forall s, t | 0 <= s < t < |SensorEdges(obs, model)| :: SensorEdges(obs, model)[s] != SensorEdges(obs, model)[t]
  {
    var n := |obs.ranges|;
    PassEdgesMembership(obs, model, false, n, p, q);
    PassEdgesMembership(obs, model, false, n, q, p);
    if p < n && q < n {
      LinkedReflexiveSymmetric(obs, model, p, q);
    }
    PassEdgesOrdered(obs, model, false, n);
  }

  lemma {:induction false} AllRowLength(obs: LidarObservation, model: LidarSensorModel, i: nat, j: nat)
    requires i < |obs.ranges| && j <= |obs.ranges|
    ensures |RowEdges(obs, model, true, i, j)| == j
  {
    if j > 0 {
      AllRowLength(obs, model, i, j - 1);
    }
  }

  lemma {:induction false} AllPassLength(obs: LidarObservation, model: LidarSensorModel, i: nat)
    requires i <= |obs.ranges|
    ensures |PassEdges(obs, model, true, i)| == i * |obs.ranges|
  {
    if i > 0 {
      AllPassLength(obs, model, i - 1);
      AllRowLength(obs, model, i - 1, |obs.ranges|);
    }
  }

  /**
    Under dropout every ordered pair of bins is present, and the `N * N`
    pairs come on top of the linking pass's, duplicating those.
  */
  lemma DropoutAppendsAllPairs(obs: LidarObservation, model: LidarSensorModel, p: nat, q: nat)
    requires model.dropoutProb > 0.5
    ensures p < |obs.ranges| && q < |obs.ranges| ==> (p, q) in SensorEdges(obs, model)
    ensures |SensorEdges(obs, model)| == |PassEdges(obs, model, false, |obs.ranges|)| + |obs.ranges| * |obs.ranges|
  {
    PassEdgesMembership(obs, model, true, |obs.ranges|, p, q);
    AllPassLength(obs, model, |obs.ranges|);
  }

  /** Distinct bins get distinct precondition atoms. */
  lemma BinAtomsDistinct(i: nat, j: nat)
    ensures BinEvent(i).precondition == BinEvent(j).precondition <==> i == j
  {
    var p := "lidar_bin_";
    if p + DecimalString(i) == p + DecimalString(j) {
      assert DecimalString(i) == (p + DecimalString(i))[|p|..];
      DecimalStringInjective(i, j);
    }
  }

  /**
    Three readings, the first two 0.02 apart and the third far off, with
    `sigma` 0.05: the linking pass confuses only the first two bins.
  */
  lemma LinkingPassOfThreeReadings(m: LidarSensorModel)
    requires m.sigma == 0.05
    ensures PassEdges(LidarObservation([1.0, 1.02, 5.0], 10.0), m, false, 3) == [(0, 0), (0, 1), (1, 0), (1, 1), (2, 2)]
  {
    var obs := LidarObservation([1.0, 1.02, 5.0], 10.0);
    assert Linked(obs, m, 0, 1) && Linked(obs, m, 1, 0);
    assert !Linked(obs, m, 0, 2) && !Linked(obs, m, 1, 2) && !Linked(obs, m, 2, 0) && !Linked(obs, m, 2, 1);
    assert RowEdges(obs, m, false, 0, 1) == [(0, 0)];
    assert RowEdges(obs, m, false, 0, 2) == [(0, 0), (0, 1)];
    assert RowEdges(obs, m, false, 0, 3) == [(0, 0), (0, 1)];
    assert RowEdges(obs, m, false, 1, 1) == [(1, 0)];
    assert RowEdges(obs, m, false, 1, 2) == [(1, 0), (1, 1)];
    assert RowEdges(obs, m, false, 1, 3) == [(1, 0), (1, 1)];
    assert RowEdges(obs, m, false, 2, 1) == [];
    assert RowEdges(obs, m, false, 2, 2) == [];
    assert RowEdges(obs, m, false, 2, 3) == [(2, 2)];
    assert PassEdges(obs, m, false, 1) == [(0, 0), (0, 1)];
    assert PassEdges(obs, m, false, 2) == [(0, 0), (0, 1), (1, 0), (1, 1)];
  }

  /** The dropout pass over three readings lists the nine pairs row by row. */
  lemma DropoutPassOfThreeReadings(obs: LidarObservation, m: LidarSensorModel)
    requires |obs.ranges| == 3
    ensures PassEdges(obs, m, true, 3) == [(0, 0), (0, 1), (0, 2), (1, 0), (1, 1), (1, 2), (2, 0), (2, 1), (2, 2)]
  {
    forall i | 0 <= i < 3 ensures RowEdges(obs, m, true, i, 3) == [(i, 0), (i, 1), (i, 2)] {
      assert RowEdges(obs, m, true, i, 1) == [(i, 0)];
      assert RowEdges(obs, m, true, i, 2) == [(i, 0), (i, 1)];
    }
    assert PassEdges(obs, m, true, 1) == [(0, 0), (0, 1), (0, 2)];
    assert PassEdges(obs, m, true, 2) == [(0, 0), (0, 1), (0, 2), (1, 0), (1, 1), (1, 2)];
  }

  /**
    With dropout 0.1 the sensing agent has the three reflexive pairs and the
    pairs between the first two bins; with dropout 0.6 all nine pairs follow.
  */
  lemma ThreeReadings()
    ensures SensorEdges(LidarObservation([1.0, 1.02, 5.0], 10.0), LidarSensorModel(0.05, 0.1))
      == [(0, 0), (0, 1), (1, 0), (1, 1), (2, 2)]
    ensures SensorEdges(LidarObservation([1.0, 1.02, 5.0], 10.0), LidarSensorModel(0.05, 0.6))
      == [(0, 0), (0, 1), (1, 0), (1, 1), (2, 2)]
        + [(0, 0), (0, 1), (0, 2), (1, 0), (1, 1), (1, 2), (2, 0), (2, 1), (2, 2)]
  {
    var obs := LidarObservation([1.0, 1.02, 5.0], 10.0);
    LinkingPassOfThreeReadings(LidarSensorModel(0.05, 0.1));
    LinkingPassOfThreeReadings(LidarSensorModel(0.05, 0.6));
    DropoutPassOfThreeReadings(obs, LidarSensorModel(0.05, 0.6));
    assert [(0, 0), (0, 1), (1, 0), (1, 1), (2, 2)] + [] == [(0, 0), (0, 1), (1, 0), (1, 1), (2, 2)];
  }
}
