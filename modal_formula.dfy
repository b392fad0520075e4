/**
  The first-generation formula tree: eight node kinds over string-named agents
  and propositions. The class hierarchy with virtual `get_type`, `to_string`
  and `clone` becomes one immutable datatype; evaluation against a Kripke
  model lives with the model in `MutableKripke`.
*/
module ModalFormula {
  import opened LexOrder

  type Agent = string

  /** The tag each node class reports from `get_type`. */
  datatype FormulaType =
    | ATOM | NOT | AND | OR | IMPLIES | KNOWS | COMMON_KNOWLEDGE | EVERYBODY_KNOWS

  datatype Formula =
    | Atom(proposition: string)
    | Not(sub: Formula)
    | And(left: Formula, right: Formula)
    | Or(left: Formula, right: Formula)
    | Implies(left: Formula, right: Formula)
    | Knows(agent: Agent, sub: Formula)
    | CommonKnowledge(group: set<Agent>, sub: Formula)
    | EverybodyKnows(group: set<Agent>, sub: Formula)

  /** `get_type`: each node kind answers with its own tag and no other. */
  function GetType(phi: Formula): (t: FormulaType)
    ensures t == ATOM <==> phi.Atom?
    ensures t == NOT <==> phi.Not?
    ensures t == AND <==> phi.And?
    ensures t == OR <==> phi.Or?
    ensures t == IMPLIES <==> phi.Implies?
    ensures t == KNOWS <==> phi.Knows?
    ensures t == COMMON_KNOWLEDGE <==> phi.CommonKnowledge?
    ensures t == EVERYBODY_KNOWS <==> phi.EverybodyKnows?
  {
    match phi
    case Atom(_) => ATOM
    case Not(_) => NOT
    case And(_, _) => AND
    case Or(_, _) => OR
    case Implies(_, _) => IMPLIES
    case Knows(_, _) => KNOWS
    case CommonKnowledge(_, _) => COMMON_KNOWLEDGE
    case EverybodyKnows(_, _) => EVERYBODY_KNOWS
  }

  /** Every one of the eight tags is reported by some node kind. */
  lemma EveryTagIsReported(t: FormulaType)
    ensures exists phi :: GetType(phi) == t
  {
    var a := Atom("p");
    match t
    case ATOM => assert GetType(a) == t;
    case NOT => assert GetType(Not(a)) == t;
    case AND => assert GetType(And(a, a)) == t;
    case OR => assert GetType(Or(a, a)) == t;
    case IMPLIES => assert GetType(Implies(a, a)) == t;
    case KNOWS => assert GetType(Knows("a", a)) == t;
    case COMMON_KNOWLEDGE => assert GetType(CommonKnowledge({}, a)) == t;
    case EVERYBODY_KNOWS => assert GetType(EverybodyKnows({}, a)) == t;
  }

  /** `Atom::get_proposition`. */
  function GetProposition(phi: Formula): string
    requires phi.Atom?
  {
    phi.proposition
  }

  /** `Knows::get_agent`. */
  function GetAgent(phi: Formula): Agent
    requires phi.Knows?
  {
    phi.agent
  }

  /** The `make_*` helpers build the node they are named after from their arguments. */
  function MakeAtom(p: string): (r: Formula)
    ensures GetType(r) == ATOM && GetProposition(r) == p
  {
    Atom(p)
  }

  function MakeNot(phi: Formula): (r: Formula)
    ensures GetType(r) == NOT && r.sub == phi
  {
    Not(phi)
  }

  function MakeAnd(l: Formula, r: Formula): (f: Formula)
    ensures GetType(f) == AND && f.left == l && f.right == r
  {
    And(l, r)
  }

  function MakeOr(l: Formula, r: Formula): (f: Formula)
    ensures GetType(f) == OR && f.left == l && f.right == r
  {
    Or(l, r)
  }

  function MakeImplies(l: Formula, r: Formula): (f: Formula)
    ensures GetType(f) == IMPLIES && f.left == l && f.right == r
  {
    Implies(l, r)
  }

  function MakeKnows(a: Agent, phi: Formula): (r: Formula)
    ensures GetType(r) == KNOWS && GetAgent(r) == a && r.sub == phi
  {
    Knows(a, phi)
  }

  function MakeCommonKnowledge(g: set<Agent>, phi: Formula): (r: Formula)
    ensures GetType(r) == COMMON_KNOWLEDGE && r.group == g && r.sub == phi
  {
    CommonKnowledge(g, phi)
  }

  function MakeEverybodyKnows(g: set<Agent>, phi: Formula): (r: Formula)
    ensures GetType(r) == EVERYBODY_KNOWS && r.group == g && r.sub == phi
  {
    EverybodyKnows(g, phi)
  }

  /** Members separated by commas, as the group rendering loop accumulates them. */
  function Join(xs: seq<string>): string
  {
    if |xs| == 0 then ""
    else if |xs| == 1 then xs[0]
    else xs[0] + "," + Join(xs[1..])
  }

  /** The group in braces, members in set order. */
  function GroupString(g: set<Agent>): string
  {
    "{" + Join(Sorted(g)) + "}"
  }

  /** `to_string`: ¬, ∧, ∨ and → are U+00AC, U+2227, U+2228 and U+2192. */
  function ToString(phi: Formula): string
  {
    match phi
    case Atom(p) => p
    case Not(f) => "\U{00AC}(" + ToString(f) + ")"
    case And(l, r) => "(" + ToString(l) + " \U{2227} " + ToString(r) + ")"
    case Or(l, r) => "(" + ToString(l) + " \U{2228} " + ToString(r) + ")"
    case Implies(l, r) => "(" + ToString(l) + " \U{2192} " + ToString(r) + ")"
    case Knows(a, f) => "K_" + a + "(" + ToString(f) + ")"
    case CommonKnowledge(g, f) => "C_" + GroupString(g) + "(" + ToString(f) + ")"
    case EverybodyKnows(g, f) => "E_" + GroupString(g) + "(" + ToString(f) + ")"
  }

  /** `clone`: rebuilds the tree node by node. */
  function Clone(phi: Formula): Formula
  {
    match phi
    case Atom(p) => Atom(p)
    case Not(f) => Not(Clone(f))
    case And(l, r) => And(Clone(l), Clone(r))
    case Or(l, r) => Or(Clone(l), Clone(r))
    case Implies(l, r) => Implies(Clone(l), Clone(r))
    case Knows(a, f) => Knows(a, Clone(f))
    case CommonKnowledge(g, f) => CommonKnowledge(g, Clone(f))
    case EverybodyKnows(g, f) => EverybodyKnows(g, Clone(f))
  }

  /** A clone is the same tree: same shape, same tags, same agents and groups. */
  lemma {:induction false} CloneIsIdentical(phi: Formula)
    ensures Clone(phi) == phi
  {
    match phi
    case Atom(_) =>
    case Not(f) => CloneIsIdentical(f);
    case And(l, r) => CloneIsIdentical(l); CloneIsIdentical(r);
    case Or(l, r) => CloneIsIdentical(l); CloneIsIdentical(r);
    case Implies(l, r) => CloneIsIdentical(l); CloneIsIdentical(r);
    case Knows(_, f) => CloneIsIdentical(f);
    case CommonKnowledge(_, f) => CloneIsIdentical(f);
    case EverybodyKnows(_, f) => CloneIsIdentical(f);
  }

  /** A clone renders exactly as the original. */
  lemma CloneRendersAlike(phi: Formula)
    ensures ToString(Clone(phi)) == ToString(phi) && GetType(Clone(phi)) == GetType(phi)
  {
    CloneIsIdentical(phi);
  }

  /** Splits text at every comma: the inverse of `Join` on comma-free members. */
  function SplitCommas(s: string): (r: seq<string>)
    ensures |r| >= 1
  {
    if |s| == 0 then [""]
    else
      var rest := SplitCommas(s[1..]);
      if s[0] == ',' then [""] + rest
      else [[s[0]] + rest[0]] + rest[1..]
  }

  lemma {:induction false} SplitAppend(a: string, b: string)
    requires ',' !in a
    ensures SplitCommas(a + b) == [a + SplitCommas(b)[0]] + SplitCommas(b)[1..]
    decreases |a|
  {
    if |a| > 0 {
      assert (a + b)[1..] == a[1..] + b;
      SplitAppend(a[1..], b);
      assert [a[0]] + (a[1..] + SplitCommas(b)[0]) == a + SplitCommas(b)[0];
    } else {
      var r := SplitCommas(b);
      assert a + b == b && a + r[0] == r[0];
      assert r == [r[0]] + r[1..];
    }
  }

  /**
    The rendered group lists its members in order, separated by commas: for
    agents without commas in their names, splitting it at commas gives the
    members back.
  */
  lemma {:induction false} JoinSplitRoundTrip(xs: seq<string>)
    requires |xs| >= 1
    requires forall i | 0 <= i < |xs| :: ',' !in xs[i]
    ensures SplitCommas(Join(xs)) == xs
  {
    if |xs| == 1 {
      SplitAppend(xs[0], "");
      assert xs[0] + "" == xs[0];
    } else {
      JoinSplitRoundTrip(xs[1..]);
      var tail := "," + Join(xs[1..]);
      assert Join(xs) == xs[0] + tail;
      SplitAppend(xs[0], tail);
      assert tail[1..] == Join(xs[1..]);
      assert SplitCommas(tail) == [""] + xs[1..];
      assert xs[0] + "" == xs[0];
      assert xs == [xs[0]] + xs[1..];
    }
  }

  /** The braces of a non-empty group enclose its sorted members, comma-separated. */
  lemma GroupStringLists(g: set<Agent>)
    requires g != {}
    requires forall a | a in g :: ',' !in a
    ensures var s := GroupString(g);
      |s| >= 2 && s[0] == '{' && s[|s| - 1] == '}' && SplitCommas(s[1..|s| - 1]) == Sorted(g)
  {
    var s := GroupString(g);
    var xs := Sorted(g);
    assert s[1..|s| - 1] == Join(xs);
    forall i | 0 <= i < |xs| ensures ',' !in xs[i] {
      assert xs[i] in g;
    }
    JoinSplitRoundTrip(xs);
  }

  /** The empty group renders as `{}`. */
  lemma EmptyGroupString()
    ensures GroupString({}) == "{}"
  {
  }
}
