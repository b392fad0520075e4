/** Belief states: a Kripke model together with the designated (currently possible) world ids. */
module Beliefs {
  import opened RelationalKripke

  datatype BeliefState = BeliefState(model: KripkeModel, designated: seq<nat>)

  /** `BeliefState::empty`: no world id is designated. */
  function Empty(b: BeliefState): (r: bool)
    ensures r <==> forall id :: id !in b.designated
  {
    assert |b.designated| > 0 ==> b.designated[0] in b.designated;
    |b.designated| == 0
  }

  /** `BeliefState::size`: the number of designated entries. */
  function Size(b: BeliefState): nat
  {
    |b.designated|
  }

  /**
    Empty exactly when the size is zero. The size counts entries, not
    distinct ids: it is the size of the multiset of designated ids, and
    designating an id twice more adds two.
  */
  lemma EmptyIffSizeZero(b: BeliefState, id: nat)
    ensures Empty(b) <==> Size(b) == 0
    ensures Size(b) == |multiset(b.designated)|
    ensures Size(b.(designated := b.designated + [id, id])) == Size(b) + 2
  {
  }
}
