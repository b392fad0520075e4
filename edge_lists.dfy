/**
  The per-agent edge lists shared by the struct-based Kripke and event models:
  a vector of ordered id pairs searched front to back.
*/
module EdgeLists {
  type Edge = (nat, nat)

  /** The loop of `accessible`: scans `edges` from position `i` for `(p, q)`. */
  function ContainsFrom(edges: seq<Edge>, p: nat, q: nat, i: nat): (r: bool)
    requires i <= |edges|
    ensures r <==> exists k | i <= k < |edges| :: edges[k] == (p, q)
    decreases |edges| - i
  {
    if i == |edges| then false
    else if edges[i].0 == p && edges[i].1 == q then true
    else ContainsFrom(edges, p, q, i + 1)
  }

  /** `accessible` on one agent's list: whether the pair occurs anywhere in it. */
  function Contains(edges: seq<Edge>, p: nat, q: nat): (r: bool)
    ensures r <==> (p, q) in edges
  {
    ContainsFrom(edges, p, q, 0)
  }

  /**
    Only the set of pairs matters: reordering the list or repeating pairs
    does not change any answer.
  */
  lemma ContainsIgnoresOrderAndRepeats(e1: seq<Edge>, e2: seq<Edge>, p: nat, q: nat)
    requires forall e :: e in e1 <==> e in e2
    ensures Contains(e1, p, q) == Contains(e2, p, q)
    ensures Contains(e1 + e2, p, q) == Contains(e1, p, q)
  {
  }
}
