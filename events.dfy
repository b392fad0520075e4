/** Event models: events with preconditions and per-agent edge lists over event ids. */
module Events {
  import opened Worlds
  import opened EdgeLists
  import opened BeliefFormula

  /** A single event: an id and the formula that must hold for it to occur. */
  datatype Event = Event(id: nat, precondition: Formula)

  datatype EventModel = EventModel(events: seq<Event>, accessibility: map<Agent, seq<Edge>>)

  /** `EventModel::accessible`: whether `e1 -> e2` is an edge of agent `a`. */
  function EventAccessible(em: EventModel, a: Agent, e1: nat, e2: nat): (r: bool)
    ensures r <==> a in em.accessibility && (e1, e2) in em.accessibility[a]
  {
    if a !in em.accessibility then false else Contains(em.accessibility[a], e1, e2)
  }

  /**
    Re-appending pairs an agent already has, or reordering its list, leaves
    every answer unchanged.
  */
  lemma EventAccessibleIgnoresRepeats(em: EventModel, a: Agent, extra: seq<Edge>, e1: nat, e2: nat)
    requires a in em.accessibility && forall e | e in extra :: e in em.accessibility[a]
    ensures EventAccessible(em.(accessibility := em.accessibility[a := em.accessibility[a] + extra]), a, e1, e2)
      == EventAccessible(em, a, e1, e2)
  {
  }
}
