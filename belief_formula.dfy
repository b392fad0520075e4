/**
  The formula type of the struct-based layer: a variant whose alternatives
  carry the fields `Atom.name`, `Not.phi`, `And.left`/`right` and
  `Knows.agent`/`phi`. Its declaring header is not part of this model; the
  remaining alternatives stand for the variant's other kinds, which the
  satisfaction relation does not interpret.
*/
module BeliefFormula {
  import opened Worlds

  datatype Formula =
    | Atom(name: string)
    | Not(phi: Formula)
    | And(left: Formula, right: Formula)
    | Knows(agent: Agent, phi: Formula)
    | Or(left: Formula, right: Formula)
    | Implies(left: Formula, right: Formula)
    | CommonKnowledge(group: set<Agent>, phi: Formula)
    | EverybodyKnows(group: set<Agent>, phi: Formula)

  /** The kinds the satisfaction relation interprets. */
  predicate Interpreted(f: Formula)
  {
    f.Atom? || f.Not? || f.And? || f.Knows?
  }
}
