/**
  The satisfaction relation of the struct-based layer: whether a formula
  holds at a world id of a belief state. `Knows` ranges over the designated
  worlds only, and an exception from an atom's coordinate parse propagates
  out of every enclosing operator.
*/
module Queries {
  import opened Outcomes
  import opened Numerals
  import opened Worlds
  import opened BeliefFormula
  import opened RelationalKripke
  import opened Beliefs
  import opened AtomInterpretation

  /** Every world's map has a cell for each coordinate pair, as `GridMap::at` needs. */
  predicate MapsWellFormed(m: KripkeModel)
  {
    forall k | 0 <= k < |m.worlds| :: WellFormed(m.worlds[k].grid)
  }

  /** The first `k >= i` whose world has id `id`. */
  function FindWorldFrom(ws: seq<World>, id: nat, i: nat): (r: Option<nat>)
    requires i <= |ws|
    ensures r.Some? ==> i <= r.value < |ws| && ws[r.value].id == id
    ensures r.Some? ==> forall k | i <= k < r.value :: ws[k].id != id
    ensures r.None? <==> forall k | i <= k < |ws| :: ws[k].id != id
    decreases |ws| - i
  {
    if i == |ws| then None
    else if ws[i].id == id then Some(i)
    else FindWorldFrom(ws, id, i + 1)
  }

  /** `find_world`: the position of the first world with id `id`, or none (a null pointer). */
  function FindWorld(ws: seq<World>, id: nat): (r: Option<nat>)
    ensures r.Some? ==> r.value < |ws| && ws[r.value].id == id
    ensures r.Some? ==> forall k | 0 <= k < r.value :: ws[k].id != id
    ensures r.None? <==> forall k | 0 <= k < |ws| :: ws[k].id != id
  {
    FindWorldFrom(ws, id, 0)
  }

  /**
    `holds`: false at an id with no world; otherwise by the formula's kind.
    `And` does not look at its right side once the left is false; kinds
    other than `Atom`, `Not`, `And` and `Knows` are false.
  */
  function Holds(b: BeliefState, w: nat, phi: Formula): Result<bool, NumberError>
    requires MapsWellFormed(b.model)
    decreases phi, 0
  {
    match FindWorld(b.model.worlds, w)
    case None => Ok(false)
    case Some(i) =>
      match phi
      case Atom(name) => InterpretAtom(b.model.worlds[i], name)
      case Not(f) =>
        var v := Holds(b, w, f);
        if v.Err? then v else Ok(!v.value)
      case And(l, r) =>
        var v := Holds(b, w, l);
        if v.Err? || !v.value then v else Holds(b, w, r)
      case Knows(a, f) => KnowsFrom(b, w, a, f, 0)
      case _ => Ok(false)
  }

  /**
    The `Knows` loop from designated position `i` on: the first accessible
    designated world where `f` fails (or throws) decides, else true.
  */
  function KnowsFrom(b: BeliefState, w: nat, a: Agent, f: Formula, i: nat): Result<bool, NumberError>
    requires MapsWellFormed(b.model) && i <= |b.designated|
    decreases f, 1, |b.designated| - i
  {
    if i == |b.designated| then Ok(true)
    else if !Accessible(b.model, a, w, b.designated[i]) then KnowsFrom(b, w, a, f, i + 1)
    else
      var v := Holds(b, b.designated[i], f);
      if v.Err? || !v.value then v else KnowsFrom(b, w, a, f, i + 1)
  }

  /** `holds` at every designated id, in designated order (a proof helper). */
  function Answers(b: BeliefState, phi: Formula): (r: seq<Result<bool, NumberError>>)
    requires MapsWellFormed(b.model)
    ensures |r| == |b.designated|
    ensures forall k | 0 <= k < |r| :: r[k] == Holds(b, b.designated[k], phi)
  {
    seq(|b.designated|, k requires 0 <= k < |b.designated| => Holds(b, b.designated[k], phi))
  }

  /** An early-exit loop over answers from position `i` on: the first false or exception decides. */
  function AllFrom(vals: seq<Result<bool, NumberError>>, i: nat): Result<bool, NumberError>
    requires i <= |vals|
    decreases |vals| - i
  {
    if i == |vals| then Ok(true)
    else if vals[i].Err? || !vals[i].value then vals[i]
    else AllFrom(vals, i + 1)
  }

  /** `holds_in_all`: `phi` holds at every designated id. */
  function HoldsInAll(b: BeliefState, phi: Formula): Result<bool, NumberError>
    requires MapsWellFormed(b.model)
  {
    AllFrom(Answers(b, phi), 0)
  }

  /** The world with id `w` is present. */
  predicate Present(b: BeliefState, w: nat)
  {
    exists k | 0 <= k < |b.model.worlds| :: b.model.worlds[k].id == w
  }

  /**
    Every formula is false at an id with no world, its negation and its
    double negation included, so excluded middle fails there.
  */
  lemma AbsentWorldIsFalse(b: BeliefState, w: nat, phi: Formula)
    requires MapsWellFormed(b.model) && !Present(b, w)
    ensures Holds(b, w, phi) == Ok(false)
    ensures Holds(b, w, Not(phi)) == Ok(false)
    ensures Holds(b, w, Not(Not(phi))) == Ok(false)
  {
  }

  /** At a present world an atom is `interpret_atom` on the first world with that id. */
  lemma AtomAtPresentWorld(b: BeliefState, w: nat, k: nat, name: string)
    requires MapsWellFormed(b.model)
    requires k < |b.model.worlds| && b.model.worlds[k].id == w
    requires forall j | 0 <= j < k :: b.model.worlds[j].id != w
    ensures Holds(b, w, Atom(name)) == InterpretAtom(b.model.worlds[k], name)
  {
    assert FindWorld(b.model.worlds, w) == Some(k);
  }

  /** At a present world `Not` negates, and an exception passes through. */
  lemma NotAtPresentWorld(b: BeliefState, w: nat, phi: Formula)
    requires MapsWellFormed(b.model) && Present(b, w)
    ensures forall v :: Holds(b, w, phi) == Ok(v) ==> Holds(b, w, Not(phi)) == Ok(!v)
    ensures Holds(b, w, phi).Err? ==> Holds(b, w, Not(phi)) == Holds(b, w, phi)
  {
    assert FindWorld(b.model.worlds, w).Some?;
  }

  /**
    At a present world `And` is true exactly when both sides are, and false
    exactly when the left is false or the left is true and the right false;
    an exception on the left wins.
  */
  lemma AndAtPresentWorld(b: BeliefState, w: nat, phi: Formula, psi: Formula)
    requires MapsWellFormed(b.model) && Present(b, w)
    ensures Holds(b, w, And(phi, psi)) == Ok(true) <==> Holds(b, w, phi) == Ok(true) && Holds(b, w, psi) == Ok(true)
    ensures Holds(b, w, And(phi, psi)) == Ok(false) <==>
      Holds(b, w, phi) == Ok(false) || (Holds(b, w, phi) == Ok(true) && Holds(b, w, psi) == Ok(false))
    ensures Holds(b, w, phi).Err? ==> Holds(b, w, And(phi, psi)) == Holds(b, w, phi)
  {
    assert FindWorld(b.model.worlds, w).Some?;
  }

  /** Double negation holds at every id, present or not; a present world needs no exception. */
  lemma DoubleNegation(b: BeliefState, w: nat, phi: Formula)
    requires MapsWellFormed(b.model)
    ensures Holds(b, w, Not(Not(phi))) == Holds(b, w, phi)
  {
    var r := FindWorld(b.model.worlds, w);
    if r.None? {
      AbsentWorldIsFalse(b, w, phi);
    }
  }

  /**
    The `Knows` loop is true exactly when `f` is true at every accessible
    designated world from `i` on; false or an exception come from some such
    world where `f` is false or throws.
  */
  lemma {:induction false} KnowsFromAll(b: BeliefState, w: nat, a: Agent, f: Formula, i: nat)
    requires MapsWellFormed(b.model) && i <= |b.designated|
    ensures var d := b.designated;
      KnowsFrom(b, w, a, f, i) == Ok(true) <==>
      forall k | i <= k < |d| && Accessible(b.model, a, w, d[k]) :: Holds(b, d[k], f) == Ok(true)
    ensures var d := b.designated;
      KnowsFrom(b, w, a, f, i) == Ok(false) ==>
      exists k | i <= k < |d| && Accessible(b.model, a, w, d[k]) :: Holds(b, d[k], f) == Ok(false)
    ensures var d := b.designated;
      KnowsFrom(b, w, a, f, i).Err? ==>
      exists k | i <= k < |d| && Accessible(b.model, a, w, d[k]) :: Holds(b, d[k], f) == KnowsFrom(b, w, a, f, i)
    decreases |b.designated| - i
  {
    if i < |b.designated| {
      KnowsFromAll(b, w, a, f, i + 1);
    }
  }

  /**
    `Knows(a, f)` at a present world: true exactly when `f` is true at every
    designated world `a` can reach; accessible worlds that are not designated
    play no part, and with no accessible designated world it is vacuously
    true.
  */
  lemma KnowsSemantics(b: BeliefState, w: nat, a: Agent, f: Formula)
    requires MapsWellFormed(b.model) && Present(b, w)
    ensures var d := b.designated;
      Holds(b, w, Knows(a, f)) == Ok(true) <==>
      forall k | 0 <= k < |d| && Accessible(b.model, a, w, d[k]) :: Holds(b, d[k], f) == Ok(true)
    ensures var d := b.designated;
      Holds(b, w, Knows(a, f)) == Ok(false) ==>
      exists k | 0 <= k < |d| && Accessible(b.model, a, w, d[k]) :: Holds(b, d[k], f) == Ok(false)
    ensures (forall k | 0 <= k < |b.designated| :: !Accessible(b.model, a, w, b.designated[k])) ==>
      Holds(b, w, Knows(a, f)) == Ok(true)
  {
    KnowsFromAll(b, w, a, f, 0);
  }

  /** `Or`, `Implies`, common and everybody knowledge are false, even at a present world. */
  lemma OtherKindsAreFalse(b: BeliefState, w: nat, phi: Formula)
    requires MapsWellFormed(b.model) && !Interpreted(phi)
    ensures Holds(b, w, phi) == Ok(false)
  {
  }

  /**
    The early-exit loop is true exactly when every answer from `i` on is
    true; a false outcome comes from a false answer.
  */
  lemma {:induction false} AllFromSemantics(vals: seq<Result<bool, NumberError>>, i: nat)
    requires i <= |vals|
    ensures AllFrom(vals, i) == Ok(true) <==> forall k | i <= k < |vals| :: vals[k] == Ok(true)
    ensures AllFrom(vals, i) == Ok(false) ==> exists k | i <= k < |vals| :: vals[k] == Ok(false)
    decreases |vals| - i
  {
    if i < |vals| {
      AllFromSemantics(vals, i + 1);
    }
  }

  /**
    `holds_in_all` is true exactly when `phi` holds at every designated id;
    with nothing designated it is true, and a false answer names a
    designated id where `phi` is false.
  */
  lemma HoldsInAllSemantics(b: BeliefState, phi: Formula)
    requires MapsWellFormed(b.model)
    ensures HoldsInAll(b, phi) == Ok(true) <==>
      forall k | 0 <= k < |b.designated| :: Holds(b, b.designated[k], phi) == Ok(true)
    ensures HoldsInAll(b, phi) == Ok(false) ==>
      exists k | 0 <= k < |b.designated| :: Holds(b, b.designated[k], phi) == Ok(false)
    ensures |b.designated| == 0 ==> HoldsInAll(b, phi) == Ok(true)
  {
    var vals := Answers(b, phi);
    AllFromSemantics(vals, 0);
    if HoldsInAll(b, phi) == Ok(false) {
      var k :| 0 <= k < |vals| && vals[k] == Ok(false);
      assert Holds(b, b.designated[k], phi) == Ok(false);
    }
    assert (forall k | 0 <= k < |vals| :: vals[k] == Ok(true)) <==>
      (forall k | 0 <= k < |b.designated| :: Holds(b, b.designated[k], phi) == Ok(true));
  }
}
