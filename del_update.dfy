/**
  The simplified product update: the worlds of a belief state at which some
  event's precondition holds, in their input order. Nothing else of the
  input is carried over.
*/
module DelUpdate {
  import opened Outcomes
  import opened Numerals
  import opened Worlds
  import opened RelationalKripke
  import opened Beliefs
  import opened Events
  import opened Queries

  /**
    The inner loop from event `j` on: the first precondition that holds (or
    throws) at world id `w` decides; false when none does.
  */
  function EnabledFrom(b: BeliefState, w: nat, evs: seq<Event>, j: nat): Result<bool, NumberError>
    requires MapsWellFormed(b.model) && j <= |evs|
    decreases |evs| - j
  {
    if j == |evs| then Ok(false)
    else
      var v := Holds(b, w, evs[j].precondition);
      if v.Err? || v.value then v else EnabledFrom(b, w, evs, j + 1)
  }

  /** Some event can occur at world id `w`. */
  function Enabled(b: BeliefState, w: nat, evs: seq<Event>): Result<bool, NumberError>
    requires MapsWellFormed(b.model)
  {
    EnabledFrom(b, w, evs, 0)
  }

  /** The inner loop's answer for every input world, in input order (a proof helper). */
  function Decisions(b: BeliefState, evs: seq<Event>): (d: seq<Result<bool, NumberError>>)
    requires MapsWellFormed(b.model)
    ensures |d| == |b.model.worlds|
    ensures forall k | 0 <= k < |d| :: d[k] == Enabled(b, b.model.worlds[k].id, evs)
  {
    seq(|b.model.worlds|, k requires 0 <= k < |b.model.worlds| => Enabled(b, b.model.worlds[k].id, evs))
  }

  /**
    The outer loop over the first `n` worlds, given each world's answer:
    worlds answered true are appended in order; the first exception stops it.
  */
  function Filter(ws: seq<World>, dec: seq<Result<bool, NumberError>>, n: nat): Result<seq<World>, NumberError>
    requires n <= |ws| == |dec|
  {
    if n == 0 then Ok([])
    else
      var prev := Filter(ws, dec, n - 1);
      if prev.Err? then prev
      else if dec[n - 1].Err? then Err(dec[n - 1].error)
      else if dec[n - 1].value then Ok(prev.value + [ws[n - 1]])
      else prev
  }

  /** The worlds kept among the first `n` input worlds, or the first exception raised. */
  function Kept(b: BeliefState, evs: seq<Event>, n: nat): Result<seq<World>, NumberError>
    requires MapsWellFormed(b.model) && n <= |b.model.worlds|
  {
    Filter(b.model.worlds, Decisions(b, evs), n)
  }

  /**
    The inner loop of `product_update`: tries the events in order and stops
    at the first whose precondition holds at world id `w`.
  */
  method FirstEnabled(b: BeliefState, w: nat, evs: seq<Event>) returns (r: Result<bool, NumberError>)
    requires MapsWellFormed(b.model)
    ensures r == Enabled(b, w, evs)
  {
    var j := 0;
    while j < |evs|
      invariant j <= |evs|
      invariant Enabled(b, w, evs) == EnabledFrom(b, w, evs, j)
    {
      var h := Holds(b, w, evs[j].precondition);
      if h.Err? {
        return h;
      }
      if h.value {
        return Ok(true);
      }
      j := j + 1;
    }
    r := Ok(false);
  }

  /**
    `product_update`: copies each input world whose id satisfies some
    event's precondition, stopping at the first such event; the result has
    no accessibility and nothing designated. An exception from `holds`
    leaves the update unfinished.
  */
  method ProductUpdate(belief: BeliefState, em: EventModel) returns (r: Result<BeliefState, NumberError>)
    requires MapsWellFormed(belief.model)
    ensures var k := Kept(belief, em.events, |belief.model.worlds|);
      && (k.Ok? ==> r == Ok(BeliefState(KripkeModel(k.value, map[]), [])))
      && (k.Err? ==> r == Err(k.error))
  {
    var ws := belief.model.worlds;
    ghost var dec := Decisions(belief, em.events);
    var updated: seq<World> := [];
    var i := 0;
    while i < |ws|
      invariant i <= |ws|
      invariant Filter(ws, dec, i) == Ok(updated)
    {
      var w := ws[i];
      var enabled := FirstEnabled(belief, w.id, em.events);
      DecisionAt(belief, em.events, i, enabled);
      FilterStep(ws, dec, i);
      if enabled.Err? {
        return Err(enabled.error);
      }
      if enabled.value {
        updated := updated + [w];
      }
      i := i + 1;
    }
    r := Ok(BeliefState(KripkeModel(updated, map[]), []));
  }

  /**
    One round of the outer loop: the next world is appended when its answer
    is true, and an exception from it is the outcome of the whole filter.
  */
  lemma FilterStep(ws: seq<World>, dec: seq<Result<bool, NumberError>>, i: nat)
    requires i < |ws| == |dec| && Filter(ws, dec, i).Ok?
    ensures dec[i] == Ok(true) ==> Filter(ws, dec, i + 1) == Ok(Filter(ws, dec, i).value + [ws[i]])
    ensures dec[i] == Ok(false) ==> Filter(ws, dec, i + 1) == Filter(ws, dec, i)
    ensures dec[i].Err? ==> Filter(ws, dec, |ws|) == Err(dec[i].error)
  {
    if dec[i].Err? {
      FilterErrorPersists(ws, dec, i + 1, |ws|);
    }
  }

  /** The answer the inner loop gives for world `i` is that world's decision. */
  lemma DecisionAt(b: BeliefState, evs: seq<Event>, i: nat, enabled: Result<bool, NumberError>)
    requires MapsWellFormed(b.model) && i < |b.model.worlds|
    requires enabled == Enabled(b, b.model.worlds[i].id, evs)
    ensures Decisions(b, evs)[i] == enabled
  {
  }

  /** Once an exception is raised, no later world changes the outcome. */
  lemma {:induction false} FilterErrorPersists(ws: seq<World>, dec: seq<Result<bool, NumberError>>, n: nat, m: nat)
    requires n <= m <= |ws| == |dec|
    requires Filter(ws, dec, n).Err?
    ensures Filter(ws, dec, m) == Filter(ws, dec, n)
    decreases m - n
  {
    if n < m {
      FilterErrorPersists(ws, dec, n, m - 1);
    }
  }

  /**
    A finished filter is a subsequence of its input: positions `idx`,
    strictly increasing, pick out the kept worlds unchanged, and a position
    is picked exactly when its answer is true.
  */
  lemma {:induction false} FilterIsSubsequence(ws: seq<World>, dec: seq<Result<bool, NumberError>>, n: nat)
    returns (idx: seq<nat>)
    requires n <= |ws| == |dec| && Filter(ws, dec, n).Ok?
    ensures var out := Filter(ws, dec, n).value;
      && |idx| == |out| <= n
      && (forall t | 0 <= t < |idx| :: idx[t] < n && out[t] == ws[idx[t]])
      && (forall s, t | 0 <= s < t < |idx| :: idx[s] < idx[t])
      && (forall k | 0 <= k < n :: k in idx <==> dec[k] == Ok(true))
      && (forall k | 0 <= k < n :: dec[k].Ok?)
  {
    if n == 0 {
      idx := [];
    } else {
      var before := FilterIsSubsequence(ws, dec, n - 1);
      if dec[n - 1] == Ok(true) {
        idx := before + [n - 1];
      } else {
        idx := before;
      }
    }
  }

  /** When every answer is false nothing is kept; when every answer is true, everything is. */
  lemma {:induction false} FilterExtremes(ws: seq<World>, dec: seq<Result<bool, NumberError>>, n: nat)
    requires n <= |ws| == |dec|
    ensures (forall k | 0 <= k < n :: dec[k] == Ok(false)) ==> Filter(ws, dec, n) == Ok([])
    ensures (forall k | 0 <= k < n :: dec[k] == Ok(true)) ==> Filter(ws, dec, n) == Ok(ws[..n])
  {
    if n > 0 {
      FilterExtremes(ws, dec, n - 1);
      assert ws[..n] == ws[..n - 1] + [ws[n - 1]];
    }
  }

  /**
    The inner loop answers true only for an event whose precondition holds,
    and false only when every precondition is false; when no precondition
    throws, it answers true exactly when one holds.
  */
  lemma {:induction false} EnabledFromSemantics(b: BeliefState, w: nat, evs: seq<Event>, j: nat)
    requires MapsWellFormed(b.model) && j <= |evs|
    ensures EnabledFrom(b, w, evs, j) == Ok(true) ==>
      exists e | j <= e < |evs| :: Holds(b, w, evs[e].precondition) == Ok(true)
    ensures (forall e | j <= e < |evs| :: Holds(b, w, evs[e].precondition).Ok?) ==>
      (EnabledFrom(b, w, evs, j) == Ok(true) <==> exists e | j <= e < |evs| :: Holds(b, w, evs[e].precondition) == Ok(true))
    ensures EnabledFrom(b, w, evs, j) == Ok(false) ==>
      forall e | j <= e < |evs| :: Holds(b, w, evs[e].precondition) == Ok(false)
    ensures j == |evs| ==> EnabledFrom(b, w, evs, j) == Ok(false)
    decreases |evs| - j
  {
    if j < |evs| {
      EnabledFromSemantics(b, w, evs, j + 1);
    }
  }

  /**
    Once the inner loop has answered without an exception, it answers true
    exactly when some event's precondition holds: the `break` stops before
    any later precondition is tried, so a later one that would throw does
    not matter.
  */
  lemma EnabledDecides(b: BeliefState, w: nat, evs: seq<Event>)
    requires MapsWellFormed(b.model) && Enabled(b, w, evs).Ok?
    ensures Enabled(b, w, evs) == Ok(true) <==>
      exists e | 0 <= e < |evs| :: Holds(b, w, evs[e].precondition) == Ok(true)
  {
    EnabledFromSemantics(b, w, evs, 0);
    var r := EnabledFrom(b, w, evs, 0);
    assert Enabled(b, w, evs) == r;
    if !r.value {
      assert r == Ok(false);
      forall e | 0 <= e < |evs| ensures Holds(b, w, evs[e].precondition) != Ok(true) {
        assert Holds(b, w, evs[e].precondition) == Ok(false);
      }
      assert !exists e | 0 <= e < |evs| :: Holds(b, w, evs[e].precondition) == Ok(true);
    } else {
      assert r == Ok(true);
      assert exists e | 0 <= e < |evs| :: Holds(b, w, evs[e].precondition) == Ok(true);
    }
  }

  /**
    A finished update keeps, in input order and unchanged, exactly the
    worlds at whose id some event's precondition holds, each at most once;
    with no events it keeps nothing.
  */
  lemma KeptWorlds(b: BeliefState, evs: seq<Event>) returns (idx: seq<nat>)
    requires MapsWellFormed(b.model) && Kept(b, evs, |b.model.worlds|).Ok?
    ensures var ws, out := b.model.worlds, Kept(b, evs, |b.model.worlds|).value;
      && |idx| == |out| <= |ws|
      && (forall t | 0 <= t < |idx| :: idx[t] < |ws| && out[t] == ws[idx[t]])
      && (forall s, t | 0 <= s < t < |idx| :: idx[s] < idx[t])
      && (forall k | 0 <= k < |ws| :: k in idx <==> Enabled(b, ws[k].id, evs) == Ok(true))
      && (forall k | 0 <= k < |ws| :: k in idx <==>
            exists e | 0 <= e < |evs| :: Holds(b, ws[k].id, evs[e].precondition) == Ok(true))
      && (|evs| == 0 ==> out == [])
  {
    var dec := Decisions(b, evs);
    idx := FilterIsSubsequence(b.model.worlds, dec, |b.model.worlds|);
    forall k | 0 <= k < |dec| ensures k in idx <==>
      exists e | 0 <= e < |evs| :: Holds(b, b.model.worlds[k].id, evs[e].precondition) == Ok(true)
    {
      EnabledDecides(b, b.model.worlds[k].id, evs);
    }
    if |evs| == 0 {
      forall k | 0 <= k < |dec| ensures dec[k] == Ok(false) {
        EnabledFromSemantics(b, b.model.worlds[k].id, evs, 0);
      }
      FilterExtremes(b.model.worlds, dec, |dec|);
    }
  }
}
