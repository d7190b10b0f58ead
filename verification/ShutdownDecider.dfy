/** When the kit halts: votes over the last valid readings, and a hard floor
    (scripts/x1202-monitor.py, lines 173 to 230). */
module Shutdown {
  import opened Options
  import opened UpsTypes
  import opened DischargeCurve

  const HARD_LOW_VOLTAGE := 3.30
  const HARD_FLOOR_MAX_SOC := 20.0
  const MIN_VALID_VOLTAGE := 2.50
  const LOW_VOLTAGE := 3.45
  const LOW_CAPACITY := 5.0
  const TRUST_GAUGE_BELOW_V := 3.60
  const CURVE_LOW_SOC := 15.0
  const HALT_WINDOW := 4
  const HALT_VOTES := 3

  /** A gauge read; voltage None is a failed one. */
  datatype Reading = Reading(voltage: Option<real>, soc: Option<real>)

  datatype Vote = Halt | Warn | Fine

  datatype Why = NoWhy | LowVolts(v: real) | EmptyGauge(soc: real, v: real) | Doubtful(soc: real, v: real, curve: real)

  datatype Action = DoNothing | DoWarn | DoHalt

  datatype Reason =
    | NoReading | Implausible(v: real) | HardFloor(v: real) | Voted(n: nat, of: nat, last: Why)
    | Warned(why: Why) | VoteNoted(n: nat, why: Why) | Nothing

  datatype Decision = Decision(action: Action, reason: Reason)

  /** One valid reading's vote. The third branch for a halt is the one the curve
      can never reach; see CurveBranchIsDead. */
  function Verdict(voltage: real, soc: Option<real>): (Vote, Why) {
    if voltage < LOW_VOLTAGE then (Halt, LowVolts(voltage))
    else if soc.Some? && soc.value < LOW_CAPACITY then
      var curve := SocFromVoltage(voltage);
      if voltage < TRUST_GAUGE_BELOW_V then (Halt, EmptyGauge(soc.value, voltage))
      else if curve < CURVE_LOW_SOC then (Halt, EmptyGauge(soc.value, voltage))
      else (Warn, Doubtful(soc.value, voltage, curve))
    else (Fine, NoWhy)
  }

  /** Above the trusted range the curve always says more than its threshold. */
  lemma CurveBranchIsDead(voltage: real, soc: Option<real>)
    ensures voltage >= TRUST_GAUGE_BELOW_V ==> SocFromVoltage(voltage) >= CURVE_LOW_SOC
    ensures Verdict(voltage, soc).0.Halt? <==>
            voltage < LOW_VOLTAGE || (soc.Some? && soc.value < LOW_CAPACITY && voltage < TRUST_GAUGE_BELOW_V)
  {
    hide SocFromVoltage;
    if voltage >= TRUST_GAUGE_BELOW_V { TwentyFrom355(voltage); }
  }

  predicate IsValid(r: Reading) {
    r.voltage.Some? && r.voltage.value >= MIN_VALID_VOLTAGE
  }

  predicate AtFloor(r: Reading)
    requires r.voltage.Some?
  {
    r.voltage.value < HARD_LOW_VOLTAGE && (r.soc.None? || r.soc.value < HARD_FLOOR_MAX_SOC)
  }

  function VoteOf(r: Reading): Vote {
    if r.voltage.Some? then Verdict(r.voltage.value, r.soc).0 else Fine
  }

  function WhyOf(r: Reading): Why {
    if r.voltage.Some? then Verdict(r.voltage.value, r.soc).1 else NoWhy
  }

  function Halts(votes: seq<Vote>): nat {
    if votes == [] then 0 else Halts(votes[..|votes| - 1]) + if votes[|votes| - 1].Halt? then 1 else 0
  }

  lemma HaltsAppend(votes: seq<Vote>, v: Vote)
    ensures Halts(votes + [v]) == Halts(votes) + if v.Halt? then 1 else 0
  {
    assert (votes + [v])[..|votes|] == votes;
  }

  /** A queue of at most four. */
  function LastFour<T>(s: seq<T>): seq<T> {
    if |s| <= HALT_WINDOW then s else s[|s| - HALT_WINDOW..]
  }

  datatype State = State(history: seq<Vote>, lastHaltWhy: Why)

  const FRESH := State([], NoWhy)

  function Next(s: State, r: Reading): State {
    if !IsValid(r) then s
    else State(LastFour(s.history + [VoteOf(r)]), if VoteOf(r).Halt? then WhyOf(r) else s.lastHaltWhy)
  }

  function Decide(s: State, r: Reading): Decision {
    if r.voltage.None? then Decision(DoNothing, NoReading)
    else if r.voltage.value < MIN_VALID_VOLTAGE then Decision(DoNothing, Implausible(r.voltage.value))
    else
      var s' := Next(s, r);
      var n := Halts(s'.history);
      if AtFloor(r) then Decision(DoHalt, HardFloor(r.voltage.value))
      else if n >= HALT_VOTES then Decision(DoHalt, Voted(n, |s'.history|, s'.lastHaltWhy))
      else if VoteOf(r).Warn? then Decision(DoWarn, Warned(WhyOf(r)))
      else if VoteOf(r).Halt? then Decision(DoNothing, VoteNoted(n, WhyOf(r)))
      else Decision(DoNothing, Nothing)
  }

  function After(rs: seq<Reading>): State {
    if rs == [] then FRESH else Next(After(rs[..|rs| - 1]), rs[|rs| - 1])
  }

  class ShutdownDecider {
    var history: seq<Vote>
    var lastHaltWhy: Why

    ghost function View(): State
      reads this
    {
      State(history, lastHaltWhy)
    }

    constructor ()
      ensures View() == After([])
    {
      history, lastHaltWhy := [], NoWhy;
    }

    static method CountHalts(votes: seq<Vote>) returns (n: nat)
      ensures n == Halts(votes)
    {
      n := 0;
      for k := 0 to |votes|
        invariant n == Halts(votes[..k])
      {
        HaltsAppend(votes[..k], votes[k]);
        assert votes[..k + 1] == votes[..k] + [votes[k]];
        if votes[k].Halt? {
          n := n + 1;
        }
      }
      assert votes[..|votes|] == votes;
    }

    method Update(r: Reading) returns (d: Decision)
      modifies this
      ensures View() == Next(old(View()), r) && d == Decide(old(View()), r)
    {
      hide Verdict, Halts;
      if r.voltage.None? {
        return Decision(DoNothing, NoReading);
      }
      var voltage := r.voltage.value;
      if voltage < MIN_VALID_VOLTAGE {
        return Decision(DoNothing, Implausible(voltage));
      }
      var (vote, why) := Verdict(voltage, r.soc);
      history := history + [vote];
      if |history| > HALT_WINDOW {
        history := history[|history| - HALT_WINDOW..];
      }
      if vote.Halt? {
        lastHaltWhy := why;
      }
      if voltage < HARD_LOW_VOLTAGE && (r.soc.None? || r.soc.value < HARD_FLOOR_MAX_SOC) {
        return Decision(DoHalt, HardFloor(voltage));
      }
      var n := CountHalts(history);
      if n >= HALT_VOTES {
        return Decision(DoHalt, Voted(n, |history|, lastHaltWhy));
      }
      if vote.Warn? {
        return Decision(DoWarn, Warned(why));
      }
      if vote.Halt? {
        return Decision(DoNothing, VoteNoted(n, why));
      }
      return Decision(DoNothing, Nothing);
    }
  }

  // ----- decisions depend on the last four valid readings only -----

  function ValidOnes(rs: seq<Reading>): seq<Reading> {
    if rs == [] then []
    else ValidOnes(rs[..|rs| - 1]) + if IsValid(rs[|rs| - 1]) then [rs[|rs| - 1]] else []
  }

  function Votes(rs: seq<Reading>): (vs: seq<Vote>)
    ensures |vs| == |rs|
  {
    seq(|rs|, i requires 0 <= i < |rs| => VoteOf(rs[i]))
  }

  /** The reason of the last reading that voted halt. */
  function LastHalt(rs: seq<Reading>): Why {
    if rs == [] then NoWhy
    else if VoteOf(rs[|rs| - 1]).Halt? then WhyOf(rs[|rs| - 1])
    else LastHalt(rs[..|rs| - 1])
  }

  lemma LastFourAppend<T>(s: seq<T>, x: T)
    ensures LastFour(LastFour(s) + [x]) == LastFour(s + [x])
  {
  }

  lemma VotesLastFour(rs: seq<Reading>)
    ensures Votes(LastFour(rs)) == LastFour(Votes(rs))
  {
  }

  lemma VotesAppend(rs: seq<Reading>, r: Reading)
    ensures Votes(rs + [r]) == Votes(rs) + [VoteOf(r)]
  {
  }

  lemma {:induction false} StateOfRun(rs: seq<Reading>)
    ensures After(rs) == State(LastFour(Votes(ValidOnes(rs))), LastHalt(ValidOnes(rs)))
  {
    hide VoteOf, WhyOf, IsValid, LastFour, Votes;
    if rs == [] {
      EmptyWindow();
    } else {
      var before, r := rs[..|rs| - 1], rs[|rs| - 1];
      StateOfRun(before);
      if IsValid(r) {
        var v := ValidOnes(before);
        VotesAppend(v, r);
        LastFourAppend(Votes(v), VoteOf(r));
        assert (v + [r])[..|v|] == v;
      } else {
        assert ValidOnes(before) + [] == ValidOnes(before);
      }
    }
  }

  lemma EmptyWindow()
    ensures LastFour(Votes([])) == []
  {
  }

  /** With three halts in the window the last halt of the run is in it, so its
      reason is the window's. */
  lemma {:induction false} HaltInSuffix(rs: seq<Reading>, k: nat)
    requires k <= |rs| && Halts(Votes(rs[k..])) > 0
    ensures LastHalt(rs[k..]) == LastHalt(rs)
    decreases |rs|
  {
    hide VoteOf, WhyOf;
    if rs[k..] != [] {
      var n := |rs| - 1;
      var front, tail := rs[..n], rs[k..];
      assert tail[|tail| - 1] == rs[n] && tail[..|tail| - 1] == front[k..];
      if !VoteOf(rs[n]).Halt? {
        assert Votes(tail)[..|tail| - 1] == Votes(front[k..]);
        HaltInSuffix(front, k);
      }
    }
  }

  /** The reference: a decision from a window of at most four valid readings,
      the last of them the present one. */
  function DecideWindow(w: seq<Reading>): Decision
    requires w != [] && IsValid(w[|w| - 1])
  {
    var r, n := w[|w| - 1], Halts(Votes(w));
    if AtFloor(r) then Decision(DoHalt, HardFloor(r.voltage.value))
    else if n >= HALT_VOTES then Decision(DoHalt, Voted(n, |w|, LastHalt(w)))
    else if VoteOf(r).Warn? then Decision(DoWarn, Warned(WhyOf(r)))
    else if VoteOf(r).Halt? then Decision(DoNothing, VoteNoted(n, WhyOf(r)))
    else Decision(DoNothing, Nothing)
  }

  lemma RunAppend(rs: seq<Reading>, r: Reading)
    ensures After(rs + [r]) == Next(After(rs), r)
    ensures ValidOnes(rs + [r]) == ValidOnes(rs) + if IsValid(r) then [r] else []
  {
    assert (rs + [r])[..|rs|] == rs;
  }

  lemma WindowDecides(s: State, r: Reading, w: seq<Reading>)
    requires IsValid(r) && w != [] && w[|w| - 1] == r && Next(s, r).history == Votes(w)
    requires Halts(Votes(w)) > 0 ==> Next(s, r).lastHaltWhy == LastHalt(w)
    ensures Decide(s, r) == DecideWindow(w)
  {
    hide VoteOf, WhyOf, Votes, Next, LastHalt, Halts;
  }

  /** In every run the decision, reason included, is that of the last four valid
      readings; failed and implausible reads leave no trace. */
  lemma DecisionOfLastFour(rs: seq<Reading>, r: Reading)
    requires IsValid(r)
    ensures var w := LastFour(ValidOnes(rs) + [r]); w != [] && w[|w| - 1] == r && Decide(After(rs), r) == DecideWindow(w)
  {
    hide VoteOf, WhyOf, Votes, Next, Decide, DecideWindow, After, Halts, LastHalt, ValidOnes, IsValid;
    var v := ValidOnes(rs) + [r];
    RunAppend(rs, r);
    StateOfRun(rs + [r]);
    VotesLastFour(v);
    var k := if |v| <= HALT_WINDOW then 0 else |v| - HALT_WINDOW;
    assert LastFour(v) == v[k..];
    if Halts(Votes(v[k..])) > 0 { HaltInSuffix(v, k); }
    WindowDecides(After(rs), r, v[k..]);
  }

  /** Deleting any reads that are not valid changes no decision. */
  lemma InvalidReadsDoNotMatter(rs: seq<Reading>, qs: seq<Reading>, r: Reading)
    requires ValidOnes(rs) == ValidOnes(qs)
    ensures Decide(After(rs), r) == Decide(After(qs), r)
  {
    StateOfRun(rs);
    StateOfRun(qs);
  }

  // ----- the rule, in volts and percent -----

  /** A reading that votes halt. */
  predicate Halting(r: Reading) {
    r.voltage.Some? &&
    (r.voltage.value < 3.45 || (r.soc.Some? && r.soc.value < 5.0 && r.voltage.value < 3.60))
  }

  /** A gauge near empty that the voltage does not bear out. */
  predicate Doubted(r: Reading) {
    r.voltage.Some? && r.voltage.value >= 3.60 && r.soc.Some? && r.soc.value < 5.0
  }

  function Cause(r: Reading): Why
    requires r.voltage.Some?
  {
    if r.voltage.value < 3.45 then LowVolts(r.voltage.value)
    else if r.soc.Some? && r.soc.value < 5.0 then
      if r.voltage.value < 3.60 then EmptyGauge(r.soc.value, r.voltage.value)
      else Doubtful(r.soc.value, r.voltage.value, SocFromVoltage(r.voltage.value))
    else NoWhy
  }

  lemma VerdictIff(r: Reading)
    requires r.voltage.Some?
    ensures VoteOf(r).Halt? <==> Halting(r)
    ensures VoteOf(r).Warn? <==> Doubted(r)
    ensures WhyOf(r) == Cause(r)
  {
    hide SocFromVoltage;
    CurveBranchIsDead(r.voltage.value, r.soc);
  }

  predicate Plausible(r: Reading) {
    r.voltage.Some? && r.voltage.value >= 2.50
  }

  function Plausibles(rs: seq<Reading>): seq<Reading> {
    if rs == [] then []
    else Plausibles(rs[..|rs| - 1]) + if Plausible(rs[|rs| - 1]) then [rs[|rs| - 1]] else []
  }

  function Suffix<T>(s: seq<T>, n: nat): seq<T> {
    if |s| <= n then s else s[|s| - n..]
  }

  function HaltCount(w: seq<Reading>): nat {
    if w == [] then 0 else HaltCount(w[..|w| - 1]) + if Halting(w[|w| - 1]) then 1 else 0
  }

  /** Why the last reading that voted halt did. */
  function LastCause(w: seq<Reading>): Why {
    if w == [] then NoWhy
    else if Halting(w[|w| - 1]) then Cause(w[|w| - 1])
    else LastCause(w[..|w| - 1])
  }

  /** One reading under 3.30 V that the gauge does not contradict. */
  predicate UnderFloor(r: Reading) {
    r.voltage.Some? && r.voltage.value < 3.30 && (r.soc.None? || r.soc.value < 20.0)
  }

  lemma {:induction false} PlausiblesAreValid(rs: seq<Reading>)
    ensures Plausibles(rs) == ValidOnes(rs) && forall i :: 0 <= i < |Plausibles(rs)| ==> Plausibles(rs)[i].voltage.Some?
  {
    if rs != [] { PlausiblesAreValid(rs[..|rs| - 1]); }
  }

  lemma {:induction false} CountsAgree(w: seq<Reading>)
    requires forall i :: 0 <= i < |w| ==> w[i].voltage.Some?
    ensures Halts(Votes(w)) == HaltCount(w) && LastHalt(w) == LastCause(w)
  {
    hide VoteOf, WhyOf, Halting, Cause;
    if w != [] {
      var n := |w| - 1;
      CountsAgree(w[..n]);
      VerdictIff(w[n]);
      assert Votes(w)[..n] == Votes(w[..n]);
    }
  }

  /** After every run: which decision, and why. Below 2.50 V or without a reading,
      none. Else a halt if and only if the reading is under the floor or three of the
      last four plausible readings vote halt, and a warning if and only if it is no
      halt and the gauge is doubted. */
  lemma DecisionIff(rs: seq<Reading>, r: Reading)
    ensures !Plausible(r) ==>
              Decide(After(rs), r) == Decision(DoNothing, if r.voltage.None? then NoReading else Implausible(r.voltage.value))
    ensures var d, w := Decide(After(rs), r), Suffix(Plausibles(rs) + [r], 4);
            Plausible(r) ==>
              && (d.action.DoHalt? <==> UnderFloor(r) || HaltCount(w) >= 3)
              && (d.action.DoWarn? <==> !UnderFloor(r) && HaltCount(w) < 3 && Doubted(r))
              && d.reason == if UnderFloor(r) then HardFloor(r.voltage.value)
                             else if HaltCount(w) >= 3 then Voted(HaltCount(w), |w|, LastCause(w))
                             else if Doubted(r) then Warned(Cause(r))
                             else if Halting(r) then VoteNoted(HaltCount(w), Cause(r))
                             else Nothing
  {
    hide Next, After, Verdict, SocFromVoltage, Halts, LastHalt, HaltCount, LastCause, Votes, ValidOnes, Plausibles;
    if Plausible(r) {
      var w := Suffix(Plausibles(rs) + [r], 4);
      PlausiblesAreValid(rs);
      assert w == LastFour(ValidOnes(rs) + [r]);
      hide Decide;
      DecisionOfLastFour(rs, r);
      VerdictIff(r);
      assert forall i :: 0 <= i < |w| ==> w[i] in Plausibles(rs) + [r];
      CountsAgree(w);
    }
  }

  // ----- a weaker pack halts no later -----

  /** lo reads no higher than hi, and is valid when hi is. */
  ghost predicate NoHigher(lo: Reading, hi: Reading) {
    && (IsValid(lo) <==> IsValid(hi))
    && (IsValid(lo) ==> Below(lo, hi))
  }

  ghost predicate Below(lo: Reading, hi: Reading) {
    && lo.voltage.Some? && hi.voltage.Some? && lo.voltage.value <= hi.voltage.value
    && (lo.soc.Some? <==> hi.soc.Some?)
    && (lo.soc.Some? ==> lo.soc.value <= hi.soc.value)
  }

  ghost predicate AllNoHigher(los: seq<Reading>, his: seq<Reading>) {
    |los| == |his| && forall i :: 0 <= i < |los| ==> NoHigher(los[i], his[i])
  }

  lemma VoteMonotone(lo: Reading, hi: Reading)
    requires Below(lo, hi)
    ensures VoteOf(hi).Halt? ==> VoteOf(lo).Halt?
    ensures AtFloor(hi) ==> AtFloor(lo)
  {
    hide Verdict;
    CurveBranchIsDead(lo.voltage.value, lo.soc);
    CurveBranchIsDead(hi.voltage.value, hi.soc);
  }

  /** One history of votes halts wherever the other does. */
  ghost predicate Dominates(lo: seq<Vote>, hi: seq<Vote>) {
    |lo| == |hi| && forall i :: 0 <= i < |lo| ==> hi[i].Halt? ==> lo[i].Halt?
  }

  lemma {:induction false} DominantHaltsMore(lo: seq<Vote>, hi: seq<Vote>)
    requires Dominates(lo, hi)
    ensures Halts(hi) <= Halts(lo)
  {
    if lo != [] { DominantHaltsMore(lo[..|lo| - 1], hi[..|hi| - 1]); }
  }

  lemma {:induction false} RunsDominate(los: seq<Reading>, his: seq<Reading>)
    requires AllNoHigher(los, his)
    ensures Dominates(After(los).history, After(his).history)
  {
    hide VoteOf, WhyOf, IsValid, Below;
    if los != [] {
      var n := |los| - 1;
      RunsDominate(los[..n], his[..n]);
      assert NoHigher(los[n], his[n]);
      if IsValid(los[n]) { VoteMonotone(los[n], his[n]); }
    }
  }

  lemma HaltsWhen(s: State, r: Reading)
    ensures Decide(s, r).action.DoHalt? <==> IsValid(r) && (AtFloor(r) || Halts(Next(s, r).history) >= HALT_VOTES)
  {
    hide VoteOf, WhyOf, Halts;
  }

  /** Where readings are valid together, a run pointwise no higher in voltage and
      raw charge halts at every reading where the other does, so no later. */
  lemma WeakerPackHaltsNoLater(los: seq<Reading>, his: seq<Reading>, lo: Reading, hi: Reading)
    requires AllNoHigher(los + [lo], his + [hi])
    requires Decide(After(his), hi).action.DoHalt?
    ensures Decide(After(los), lo).action.DoHalt?
  {
    hide VoteOf, WhyOf, Below, Decide, Next, Halts, AtFloor;
    HaltsWhen(After(los), lo);
    HaltsWhen(After(his), hi);
    var n := |los|;
    assert |his| == n;
    assert (los + [lo])[..n] == los && (his + [hi])[..n] == his;
    RunsDominate(los + [lo], his + [hi]);
    assert NoHigher((los + [lo])[n], (his + [hi])[n]);
    VoteMonotone(lo, hi);
    DominantHaltsMore(After(los + [lo]).history, After(his + [hi]).history);
  }

  /** That both are valid is needed exactly: lowering one valid reading keeps every
      halt, after every run, if and only if the lower one is still plausible. */
  lemma LoweringKeepsHaltsIffPlausible(lo: Reading, hi: Reading)
    requires Below(lo, hi) && IsValid(hi)
    ensures (forall rs: seq<Reading> :: Decide(After(rs), hi).action.DoHalt? ==> Decide(After(rs), lo).action.DoHalt?)
            <==> lo.voltage.value >= MIN_VALID_VOLTAGE
  {
    if lo.voltage.value >= MIN_VALID_VOLTAGE {
      forall rs: seq<Reading> | Decide(After(rs), hi).action.DoHalt? ensures Decide(After(rs), lo).action.DoHalt? {
        SelfNoHigher(rs, lo, hi);
        WeakerPackHaltsNoLater(rs, rs, lo, hi);
      }
    } else {
      var empty := Reading(Some(3.40), None);
      var rs := [empty, empty, empty];
      ThreeHalts(empty, hi);
      assert Decide(After(rs), hi).action.DoHalt?;
      assert !Decide(After(rs), lo).action.DoHalt?;
    }
  }

  lemma SelfNoHigher(rs: seq<Reading>, lo: Reading, hi: Reading)
    requires NoHigher(lo, hi)
    ensures AllNoHigher(rs + [lo], rs + [hi])
  {
    forall i | 0 <= i < |rs| + 1 ensures NoHigher((rs + [lo])[i], (rs + [hi])[i]) {
      if i < |rs| { assert (rs + [lo])[i] == rs[i] && (rs + [hi])[i] == rs[i]; }
    }
  }

  /** So many halts and nothing else. */
  ghost predicate AllHalts(rs: seq<Reading>, n: nat) {
    |After(rs).history| == n && Halts(After(rs).history) == n
  }

  lemma OneMoreHalt(rs: seq<Reading>, r: Reading, n: nat)
    requires AllHalts(rs, n) && n < HALT_WINDOW && IsValid(r) && VoteOf(r).Halt?
    ensures AllHalts(rs + [r], n + 1)
  {
    hide VoteOf, WhyOf;
    assert (rs + [r])[..|rs|] == rs;
    HaltsAppend(After(rs).history, VoteOf(r));
  }

  lemma ThreeHalts(empty: Reading, r: Reading)
    requires empty == Reading(Some(3.40), None) && IsValid(r)
    ensures Decide(After([empty, empty, empty]), r).action.DoHalt?
  {
    assert VoteOf(empty).Halt?;
    hide VoteOf, WhyOf;
    assert AllHalts([], 0);
    OneMoreHalt([], empty, 0);
    assert [] + [empty] == [empty];
    OneMoreHalt([empty], empty, 1);
    assert [empty] + [empty] == [empty, empty];
    OneMoreHalt([empty, empty], empty, 2);
    assert [empty, empty] + [empty] == [empty, empty, empty];
    HaltsAppend(After([empty, empty, empty]).history, VoteOf(r));
  }
}
