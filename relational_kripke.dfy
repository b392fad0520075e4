/** The struct-based Kripke model: a vector of worlds and per-agent edge lists over world ids. */
module RelationalKripke {
  import opened Worlds
  import opened EdgeLists

  datatype KripkeModel = KripkeModel(worlds: seq<World>, accessibility: map<Agent, seq<Edge>>)

  /** `KripkeModel::accessible`: whether `w1 -> w2` is an edge of agent `a`. */
  function Accessible(m: KripkeModel, a: Agent, w1: nat, w2: nat): (r: bool)
    ensures r <==> a in m.accessibility && (w1, w2) in m.accessibility[a]
  {
    if a !in m.accessibility then false else Contains(m.accessibility[a], w1, w2)
  }

  /**
    An agent without an entry reaches nothing; the answer depends on the
    queried agent's list only, as a set of pairs.
  */
  lemma AccessibleDependsOnOwnList(m1: KripkeModel, m2: KripkeModel, a: Agent, w1: nat, w2: nat)
    requires a in m1.accessibility <==> a in m2.accessibility
    requires a in m1.accessibility ==> forall e :: e in m1.accessibility[a] <==> e in m2.accessibility[a]
    ensures a !in m1.accessibility ==> !Accessible(m1, a, w1, w2)
    ensures Accessible(m1, a, w1, w2) == Accessible(m2, a, w1, w2)
  {
    if a in m1.accessibility {
      ContainsIgnoresOrderAndRepeats(m1.accessibility[a], m2.accessibility[a], w1, w2);
    }
  }
}
