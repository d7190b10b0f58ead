/** Learning the raw reading at which the charger has terminated
    (scripts/x1202-monitor.py, lines 128 to 158). */
module FullLearning {
  import opened Options
  import opened UpsTypes

  const FULL_STABLE_SEC := 1200.0
  const FULL_SOC_FLOOR := 85.0

  /** The reading a plateau is measured from, and when it was taken. */
  datatype Anchor = Anchor(soc: real, since: real)

  datatype State = State(full: Option<real>, anchor: Option<Anchor>)

  /** Mains present, both readings there, at or above the recharge threshold. */
  predicate Charged(x: Sample) {
    x.voltage.Some? && x.soc.Some? && x.ac.Present? && x.voltage.value >= FULL_MIN_VOLTAGE
  }

  predicate Near(x: Sample, a: Anchor)
    requires x.soc.Some?
  {
    Abs(x.soc.value - a.soc) < FULL_JITTER
  }

  /** This sample becomes the full point. */
  predicate Learns(s: State, x: Sample) {
    && Charged(x) && s.anchor.Some? && Near(x, s.anchor.value)
    && x.t - s.anchor.value.since >= FULL_STABLE_SEC
    && x.soc.value >= FULL_SOC_FLOOR
    && (s.full.None? || Abs(x.soc.value - s.full.value) >= 0.5)
  }

  function Next(s: State, x: Sample): State {
    if !Charged(x) then s.(anchor := None)
    else if s.anchor.None? || !Near(x, s.anchor.value) then s.(anchor := Some(Anchor(x.soc.value, x.t)))
    else if Learns(s, x) then s.(full := Some(x.soc.value))
    else s
  }

  function After(full: Option<real>, xs: seq<Sample>): State {
    if xs == [] then State(full, None) else Next(After(full, xs[..|xs| - 1]), xs[|xs| - 1])
  }

  class FullLearner {
    var full: Option<real>
    var lastSoc: Option<real>
    var stableSince: Option<real>

    ghost predicate Valid()
      reads this
    {
      lastSoc.Some? <==> stableSince.Some?
    }

    ghost function View(): State
      requires Valid()
      reads this
    {
      State(full, if lastSoc.Some? then Some(Anchor(lastSoc.value, stableSince.value)) else None)
    }

    constructor (full: Option<real>)
      ensures Valid() && View() == After(full, [])
    {
      this.full := full;
      lastSoc, stableSince := None, None;
    }

    method Update(x: Sample) returns (r: Option<real>)
      requires Valid()
      modifies this
      ensures Valid() && View() == Next(old(View()), x) && r == full
    {
      if x.voltage.None? || x.soc.None? || !x.ac.Present? || x.voltage.value < FULL_MIN_VOLTAGE {
        lastSoc, stableSince := None, None;
        return full;
      }
      var soc := x.soc.value;
      if lastSoc.None? || Abs(soc - lastSoc.value) >= FULL_JITTER {
        lastSoc, stableSince := Some(soc), Some(x.t);
        return full;
      }
      if x.t - stableSince.value < FULL_STABLE_SEC {
        return full;
      }
      if soc < FULL_SOC_FLOOR {
        return full;
      }
      if full.None? || Abs(soc - full.value) >= 0.5 {
        full := Some(soc);
      }
      return full;
    }
  }

  // ----- plateaus, in the samples alone -----

  predicate OnCharge(x: Sample) {
    x.ac.Present? && x.voltage.Some? && x.voltage.value >= 4.10 && x.soc.Some?
  }

  predicate Close(x: Sample, y: Sample)
    requires x.soc.Some? && y.soc.Some?
  {
    -0.25 < x.soc.value - y.soc.value < 0.25
  }

  /** Samples j to k are level: on charge throughout, and close to sample j. */
  ghost predicate Level(xs: seq<Sample>, j: int, k: int) {
    0 <= j <= k < |xs| && OnCharge(xs[j]) && forall i :: j <= i <= k ==> OnCharge(xs[i]) && Close(xs[i], xs[j])
  }

  /** Where the plateau that the last sample is on began. */
  function PlateauStart(xs: seq<Sample>): (j: Option<nat>)
    ensures j.Some? ==> Level(xs, j.value, |xs| - 1)
  {
    if xs == [] || !OnCharge(xs[|xs| - 1]) then None
    else
      var n := |xs| - 1;
      var j := PlateauStart(xs[..n]);
      if j.Some? && Close(xs[n], xs[j.value]) then j else Some(n)
  }

  /** A plateau begins where the one before, if any, does not reach. */
  ghost predicate Begins(xs: seq<Sample>, j: nat)
    requires j < |xs|
  {
    OnCharge(xs[j]) &&
    (PlateauStart(xs[..j]).Some? ==> !Close(xs[j], xs[PlateauStart(xs[..j]).value]))
  }

  lemma {:induction false} PlateauStartIff(xs: seq<Sample>, j: nat)
    ensures PlateauStart(xs) == Some(j) <==> j < |xs| && Begins(xs, j) && Level(xs, j, |xs| - 1)
    decreases |xs|
  {
    if j < |xs| {
      var n := |xs| - 1;
      if j < n {
        PlateauStartIff(xs[..n], j);
        assert xs[..n][..j] == xs[..j];
        if Level(xs, j, n) { assert Level(xs[..n], j, n - 1) && Close(xs[n], xs[j]); }
        if PlateauStart(xs) == Some(j) { assert PlateauStart(xs[..n]) == Some(j); }
      }
    }
  }

  lemma {:induction false} AnchorIsStart(full: Option<real>, xs: seq<Sample>)
    ensures var j := PlateauStart(xs);
            After(full, xs).anchor == if j.Some? then Some(Anchor(xs[j.value].soc.value, xs[j.value].t)) else None
  {
    if xs != [] { AnchorIsStart(full, xs[..|xs| - 1]); }
  }

  /** Exactly what a sample teaches, for any samples and any full point before it: it
      becomes the full point if and only if the plateau it is on began at least
      1200 s ago, it is 85 or more, and it is 0.5 or more from the full point held. */
  lemma LearnsIff(full: Option<real>, xs: seq<Sample>, x: Sample)
    ensures var was, j := After(full, xs).full, PlateauStart(xs + [x]);
            After(full, xs + [x]).full ==
            if j.Some? && x.t - (xs + [x])[j.value].t >= 1200.0 && x.soc.value >= 85.0 &&
               (was.None? || x.soc.value - was.value >= 0.5 || was.value - x.soc.value >= 0.5)
            then x.soc else was
  {
    assert (xs + [x])[..|xs|] == xs;
    AnchorIsStart(full, xs);
  }

  /** So 1200 s of level samples on charge, right after one that was not on charge or
      from the very start, leave a full point within 0.5 of the last of them. */
  lemma PlateauTeaches(full: Option<real>, before: seq<Sample>, ys: seq<Sample>, x: Sample)
    requires before == [] || !OnCharge(before[|before| - 1])
    requires ys != [] && Level(ys + [x], 0, |ys|) && x.t - ys[0].t >= 1200.0 && x.soc.Some? && x.soc.value >= 85.0
    ensures var now := After(full, before + ys + [x]).full;
            now.Some? && -0.5 < now.value - x.soc.value < 0.5
  {
    var all, j := before + ys + [x], |before|;
    assert all[..j] == before;
    assert forall i :: 0 <= i <= |ys| ==> all[j + i] == (ys + [x])[i];
    assert Level(all, j, |all| - 1) by {
      forall i | j <= i <= |all| - 1 ensures OnCharge(all[i]) && Close(all[i], all[j]) {
        assert all[i] == (ys + [x])[i - j] && all[j] == (ys + [x])[0];
      }
    }
    PlateauStartIff(all, j);
    LearnsIff(full, before + ys, x);
  }

  /** Nothing older than T can teach: the plateau began since, or its value is
      already the full point to within a jitter. */
  ghost predicate Spent(s: State, T: real) {
    s.anchor.Some? ==>
      s.anchor.value.since >= T || (s.full.Some? && Abs(s.full.value - s.anchor.value.soc) < FULL_JITTER)
  }

  lemma SpentStays(s: State, x: Sample, T: real)
    requires Spent(s, T) && x.t >= T
    ensures Spent(Next(s, x), T)
    ensures Learns(s, x) ==> x.t >= T + FULL_STABLE_SEC
  {
  }

  lemma {:induction false} SpentRun(full: Option<real>, xs: seq<Sample>, k: nat)
    requires TimeOrdered(xs) && k < |xs| && Learns(After(full, xs[..k]), xs[k])
    ensures Spent(After(full, xs), xs[k].t)
    decreases |xs|
  {
    var n := |xs| - 1;
    if k < n {
      assert xs[..n][..k] == xs[..k];
      SpentRun(full, xs[..n], k);
      SpentStays(After(full, xs[..n]), xs[n], xs[k].t);
    }
  }

  lemma ChangeIsLearning(full: Option<real>, xs: seq<Sample>, k: nat)
    requires k < |xs| && After(full, xs[..k + 1]).full != After(full, xs[..k]).full
    ensures Learns(After(full, xs[..k]), xs[k])
  {
    assert xs[..k + 1][..k] == xs[..k];
  }

  /** Each plateau teaches at most one value: any two changes of the full point in a
      run are at least 1200 s apart. */
  lemma LearningsAreSpaced(full: Option<real>, xs: seq<Sample>, j: nat, k: nat)
    requires TimeOrdered(xs) && j < k < |xs|
    requires After(full, xs[..j + 1]).full != After(full, xs[..j]).full
    requires After(full, xs[..k + 1]).full != After(full, xs[..k]).full
    ensures xs[k].t - xs[j].t >= 1200.0
  {
    ChangeIsLearning(full, xs, j);
    ChangeIsLearning(full, xs, k);
    assert xs[..k][..j] == xs[..j];
    SpentRun(full, xs[..k], j);
    SpentStays(After(full, xs[..k]), xs[k], xs[j].t);
  }
}
