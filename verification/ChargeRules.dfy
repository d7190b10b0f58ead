/** When an episode of insufficient input starts and ends, and when the pack counts
    as charging, told from the polls alone (scripts/x1202-monitor.py, lines 253 to
    326). */
module ChargeRules {
  import opened Options
  import opened UpsTypes
  import opened Charging

  // ----- the peak -----

  /** No sample is above the peak, and one is at it. */
  lemma {:induction false} PeakIsHighest(samples: seq<Point>)
    requires samples != []
    ensures exists i :: 0 <= i < |samples| && samples[i].soc == Peak(samples)
    ensures forall i :: 0 <= i < |samples| ==> samples[i].soc <= Peak(samples)
  {
    if |samples| == 1 {
      assert samples[0].soc == Peak(samples);
    } else {
      var rest := samples[1..];
      PeakIsHighest(rest);
      var i :| 0 <= i < |rest| && rest[i].soc == Peak(rest);
      assert samples[i + 1] == rest[i];
      forall k | 0 <= k < |samples| ensures samples[k].soc <= Peak(samples) {
        if k > 0 { assert samples[k] == rest[k - 1]; }
      }
      if samples[0].soc >= Peak(rest) {
        assert samples[0].soc == Peak(samples);
      } else {
        assert samples[i + 1].soc == Peak(samples);
      }
    }
  }

  lemma PeakAtLeast(samples: seq<Point>, v: real)
    requires samples != []
    ensures Peak(samples) >= v <==> exists i :: 0 <= i < |samples| && samples[i].soc >= v
  {
    hide Peak;
    PeakIsHighest(samples);
    var i :| 0 <= i < |samples| && samples[i].soc == Peak(samples);
  }

  // ----- mains gone -----

  /** Mains was seen gone at poll j and has not been seen present since. */
  ghost predicate GoneSince(run: seq<Input>, j: int) {
    0 <= j < |run| && run[j].x.ac.Absent? && forall i :: j <= i < |run| ==> !run[i].x.ac.Present?
  }

  /** The first such poll. */
  function GoneFrom(run: seq<Input>): (g: Option<nat>)
    ensures g.Some? ==> g.value < |run|
  {
    if run == [] then None
    else
      var g := GoneFrom(run[..|run| - 1]);
      match run[|run| - 1].x.ac
      case Present => None
      case Absent => if g.Some? then g else Some(|run| - 1)
      case Unknown => g
  }

  lemma {:induction false} GoneFromIsFirst(run: seq<Input>)
    ensures GoneFrom(run).Some? ==> GoneSince(run, GoneFrom(run).value)
    ensures forall j :: GoneSince(run, j) ==> GoneFrom(run).Some? && GoneFrom(run).value <= j
  {
    if run != [] {
      var n := |run| - 1;
      var front := run[..n];
      GoneFromIsFirst(front);
      forall j | GoneSince(run, j) ensures GoneFrom(run).Some? && GoneFrom(run).value <= j {
        assert !run[n].x.ac.Present?;
        if j < n { assert GoneSince(front, j); }
      }
    }
  }

  lemma {:induction false} GoneTime(run: seq<Input>)
    ensures After(run).acGoneSince == if GoneFrom(run).Some? then Some(run[GoneFrom(run).value].x.t) else None
  {
    hide Drains, ChargingOf, Trim, Eligible;
    if run != [] { GoneTime(run[..|run| - 1]); }
  }

  /** Mains has been gone for a minute at the last poll. */
  ghost predicate LongGone(run: seq<Input>) {
    run != [] && run[|run| - 1].x.ac.Absent? && exists j :: GoneSince(run, j) && run[|run| - 1].x.t - run[j].x.t >= 60.0
  }

  lemma ResetsIff(run: seq<Input>, p: Input)
    requires InOrder(run + [p])
    ensures Resets(After(run), p.x) <==> LongGone(run + [p])
  {
    hide After;
    var all := run + [p];
    assert all[..|run|] == run && all[|all| - 1] == p;
    GoneTime(run);
    GoneFromIsFirst(all);
    GoneFromIsFirst(run);
    if p.x.ac.Absent? {
      var g := GoneFrom(all);
      assert g.Some? && GoneSince(all, g.value);
      assert forall j :: GoneSince(all, j) ==> all[g.value].x.t <= all[j].x.t;
      assert Resets(After(run), p.x) <==> p.x.t - all[g.value].x.t >= 60.0;
    }
  }

  // ----- the last recovery -----

  /** When the last episode that recovered did so, since the last reset. */
  function Recovered(run: seq<Input>): (t: Option<real>) {
    if run == [] then None
    else
      var n := |run| - 1;
      var front, x := run[..n], run[n].x;
      if Resets(After(front), x) then None
      else if x.ac.Present? && x.soc.Some? && After(front).insufficient && !After(run).insufficient then Some(x.t)
      else Recovered(front)
  }

  lemma {:induction false} SinceIsRecovery(run: seq<Input>)
    ensures After(run).since == Recovered(run)
  {
    hide Drains, ChargingOf, Trim, Eligible;
    if run != [] { SinceIsRecovery(run[..|run| - 1]); }
  }

  lemma {:induction false} RecoveryIsPast(run: seq<Input>)
    requires InOrder(run)
    ensures Recovered(run).Some? ==> run != [] && Recovered(run).value <= run[|run| - 1].x.t
  {
    hide After;
    if run != [] {
      var n := |run| - 1;
      RecoveryIsPast(run[..n]);
      if n > 0 { assert run[..n][n - 1].x.t <= run[n].x.t; }
    }
  }

  // ----- what counts towards a new episode -----

  predicate Counts(q: Point, since: Option<real>) {
    since.None? || q.t >= since.value
  }

  lemma {:induction false} EligibleMembers(samples: seq<Point>, since: Option<real>)
    ensures forall q :: q in Eligible(samples, since) <==> q in samples && Counts(q, since)
  {
    if samples != [] {
      EligibleMembers(samples[1..], since);
      assert samples == [samples[0]] + samples[1..];
    }
  }

  ghost predicate NotBefore(s: seq<Point>, t: real) {
    forall k :: 0 <= k < |s| ==> t <= s[k].t
  }

  lemma {:induction false} EligibleNotBefore(samples: seq<Point>, since: Option<real>, t: real)
    requires NotBefore(samples, t)
    ensures NotBefore(Eligible(samples, since), t)
  {
    if samples != [] {
      assert NotBefore(samples[1..], t) && t <= samples[0].t;
      EligibleNotBefore(samples[1..], since, t);
    }
  }

  lemma OrderedCons(first: Point, rest: seq<Point>)
    ensures Ordered([first] + rest) <==> Ordered(rest) && NotBefore(rest, first.t)
  {
    var all := [first] + rest;
    assert forall k :: 0 <= k < |rest| ==> all[k + 1] == rest[k];
    if Ordered(all) {
      forall k | 0 <= k < |rest| ensures first.t <= rest[k].t { assert all[0].t <= all[k + 1].t; }
      forall i, j | 0 <= i <= j < |rest| ensures rest[i].t <= rest[j].t { assert all[i + 1].t <= all[j + 1].t; }
    }
    if Ordered(rest) && NotBefore(rest, first.t) {
      forall i, j | 0 <= i <= j < |all| ensures all[i].t <= all[j].t {
        if i > 0 { assert all[i] == rest[i - 1] && all[j] == rest[j - 1]; } else if j > 0 { assert all[j] == rest[j - 1]; }
      }
    }
  }

  lemma {:induction false} EligibleOrdered(samples: seq<Point>, since: Option<real>)
    requires Ordered(samples)
    ensures Ordered(Eligible(samples, since))
  {
    hide Ordered, NotBefore;
    if samples == [] {
      NothingOrdered();
    } else {
      var first, rest := samples[0], samples[1..];
      assert samples == [first] + rest;
      OrderedCons(first, rest);
      EligibleOrdered(rest, since);
      EligibleNotBefore(rest, since, first.t);
      var e := Eligible(rest, since);
      OrderedCons(first, e);
      assert [] + e == e;
    }
  }

  lemma NothingOrdered()
    ensures Ordered([])
  {
  }

  lemma {:induction false} EligibleLast(samples: seq<Point>, since: Option<real>)
    requires samples != [] && Counts(samples[|samples| - 1], since)
    ensures var e := Eligible(samples, since); e != [] && e[|e| - 1] == samples[|samples| - 1]
  {
    if |samples| > 1 {
      assert samples[1..][|samples| - 2] == samples[|samples| - 1];
      EligibleLast(samples[1..], since);
    } else {
      assert Eligible(samples[1..], since) == [];
    }
  }

  /** An ordered list spans half an hour exactly when some point is that old. */
  lemma SpansIff(e: seq<Point>, now: real)
    requires Ordered(e) && e != [] && e[|e| - 1].t == now
    ensures FullWindow(e) <==> exists i :: 0 <= i < |e| && e[i].t <= now - 1800.0
  {
    if exists i :: 0 <= i < |e| && e[i].t <= now - 1800.0 {
      var i :| 0 <= i < |e| && e[i].t <= now - 1800.0;
      assert e[0].t <= e[i].t;
    }
  }

  /** A sample of half an hour ago or more, that counts. */
  ghost predicate OldEnough(h: seq<Point>, since: Option<real>, now: real) {
    exists i :: 0 <= i < |h| && Counts(h[i], since) && h[i].t <= now - 1800.0
  }

  /** A place in the last half hour, or the last one before it. */
  ghost predicate InWindow(h: seq<Point>, i: int, edge: real) {
    0 <= i < |h| && exists m :: m <= i && WindowStart(h, m, edge)
  }

  ghost predicate FellTwo(h: seq<Point>, since: Option<real>, now: real, soc: real) {
    exists i :: InWindow(h, i, now - 1800.0) && Counts(h[i], since) && h[i].soc >= soc + 2.0
  }

  lemma WindowUnique(h: seq<Point>, m: int, k: int, edge: real)
    requires WindowStart(h, m, edge) && WindowStart(h, k, edge)
    ensures m == k
  {
  }

  lemma WindowMembers(h: seq<Point>, m: int, edge: real)
    requires WindowStart(h, m, edge)
    ensures forall i :: InWindow(h, i, edge) <==> m <= i < |h|
  {
    forall i ensures InWindow(h, i, edge) <==> m <= i < |h| {
      if InWindow(h, i, edge) {
        var k :| k <= i && WindowStart(h, k, edge);
        WindowUnique(h, m, k, edge);
      }
    }
  }

  lemma FellInWindow(h: seq<Point>, m: int, since: Option<real>, now: real, soc: real)
    requires WindowStart(h, m, now - 1800.0)
    ensures FellTwo(h, since, now, soc) <==> exists i :: m <= i < |h| && Counts(h[i], since) && h[i].soc >= soc + 2.0
  {
    hide InWindow;
    WindowMembers(h, m, now - 1800.0);
  }

  lemma OldInWindow(h: seq<Point>, m: int, since: Option<real>, now: real)
    requires Ordered(h) && WindowStart(h, m, now - 1800.0)
    ensures OldEnough(h, since, now) <==> exists i :: m <= i < |h| && Counts(h[i], since) && h[i].t <= now - 1800.0
  {
    if OldEnough(h, since, now) {
      var i :| 0 <= i < |h| && Counts(h[i], since) && h[i].t <= now - 1800.0;
      if i < m { assert h[i].t <= h[m].t; assert Counts(h[m], since) && h[m].t <= now - 1800.0; }
    }
  }

  /** The test on the trimmed samples, told of the whole history. */
  lemma DrainsIff(h: seq<Point>, m: int, since: Option<real>, soc: real, voltage: Option<real>)
    requires Ordered(h) && h != [] && WindowStart(h, m, h[|h| - 1].t - 1800.0) && Counts(h[|h| - 1], since)
    ensures var now := h[|h| - 1].t;
            Drains(Eligible(h[m..], since), soc, voltage) <==>
            OldEnough(h, since, now) && FellTwo(h, since, now, soc) && !(voltage.Some? && voltage.value >= 4.10)
  {
    hide Eligible, Peak, FullWindow, OldEnough, FellTwo, Counts, WindowStart, Ordered;
    var now := h[|h| - 1].t;
    WindowBegins(h, m, now - 1800.0);
    var w := h[m..];
    var e := Eligible(w, since);
    assert w != [] && w[|w| - 1] == h[|h| - 1];
    EligibleMembers(w, since);
    SuffixOrdered(h, m);
    EligibleOrdered(w, since);
    EligibleLast(w, since);
    SpansIff(e, now);
    PeakAtLeast(e, soc + 2.0);
    OldInWindow(h, m, since, now);
    FellInWindow(h, m, since, now, soc);
    OldMembers(h, m, since, e, now - 1800.0);
    HighMembers(h, m, since, e, soc + 2.0);
  }

  lemma SuffixOrdered(h: seq<Point>, m: nat)
    requires Ordered(h) && m <= |h|
    ensures Ordered(h[m..])
  {
  }

  lemma WindowBegins(h: seq<Point>, m: int, edge: real)
    requires WindowStart(h, m, edge)
    ensures 0 <= m < |h|
  {
  }

  lemma OldMembers(h: seq<Point>, m: int, since: Option<real>, e: seq<Point>, edge: real)
    requires 0 <= m <= |h| && forall q :: q in e <==> q in h[m..] && Counts(q, since)
    ensures (exists i :: 0 <= i < |e| && e[i].t <= edge) <==> exists i :: m <= i < |h| && Counts(h[i], since) && h[i].t <= edge
  {
    var p := (q: Point) => q.t <= edge;
    MemberIff(h, m, since, e, p);
    assert (exists i :: 0 <= i < |e| && e[i].t <= edge) <==> exists i :: 0 <= i < |e| && p(e[i]);
  }

  lemma HighMembers(h: seq<Point>, m: int, since: Option<real>, e: seq<Point>, v: real)
    requires 0 <= m <= |h| && forall q :: q in e <==> q in h[m..] && Counts(q, since)
    ensures (exists i :: 0 <= i < |e| && e[i].soc >= v) <==> exists i :: m <= i < |h| && Counts(h[i], since) && h[i].soc >= v
  {
    var p := (q: Point) => q.soc >= v;
    MemberIff(h, m, since, e, p);
    assert (exists i :: 0 <= i < |e| && e[i].soc >= v) <==> exists i :: 0 <= i < |e| && p(e[i]);
  }

  lemma MemberIff(h: seq<Point>, m: int, since: Option<real>, e: seq<Point>, p: Point -> bool)
    requires 0 <= m <= |h| && forall q :: q in e <==> q in h[m..] && Counts(q, since)
    ensures (exists i :: 0 <= i < |e| && p(e[i])) <==> exists i :: m <= i < |h| && Counts(h[i], since) && p(h[i])
  {
    if exists i :: 0 <= i < |e| && p(e[i]) {
      var i :| 0 <= i < |e| && p(e[i]);
      assert e[i] in e && e[i] in h[m..];
      var k :| 0 <= k < |h[m..]| && h[m..][k] == e[i];
      assert h[m + k] == e[i];
    }
    if exists i :: m <= i < |h| && Counts(h[i], since) && p(h[i]) {
      var i :| m <= i < |h| && Counts(h[i], since) && p(h[i]);
      assert h[m..][i - m] == h[i] && h[i] in h[m..] && h[i] in e;
    }
  }

  // ----- the rules -----

  /** A poll that takes a sample: what the samples are then. */
  lemma TakenHistory(run: seq<Input>, p: Input) returns (m: int)
    requires InOrder(run + [p]) && p.x.ac.Present? && p.x.soc.Some?
    ensures var h := History(run + [p]);
            && Ordered(h) && h != [] && h[|h| - 1] == Point(p.x.t, p.x.soc.value)
            && WindowStart(h, m, p.x.t - 1800.0) && After(run + [p]).samples == h[m..]
  {
    hide After, Trim;
    var all := run + [p];
    assert all[..|run|] == run && all[|all| - 1] == p;
    HistoryOrdered(all);
    DequeIsWindow(all);
    var h := History(all);
    assert h == History(run) + [Point(p.x.t, p.x.soc.value)];
    m :| WindowStart(h, m, h[|h| - 1].t - 1800.0) && After(all).samples == h[m..];
  }

  lemma AfterAppend(run: seq<Input>, p: Input)
    ensures After(run + [p]) == Next(After(run), p.x, p.full)
  {
    assert (run + [p])[..|run|] == run;
  }

  lemma CountsNow(run: seq<Input>, p: Input)
    requires InOrder(run + [p])
    ensures Recovered(run).Some? ==> p.x.t >= Recovered(run).value
  {
    hide After;
    var all := run + [p];
    assert InOrder(run) by { assert forall i :: 0 <= i < |run| ==> run[i] == all[i]; }
    RecoveryIsPast(run);
    if run != [] { assert all[|run| - 1].x.t <= all[|run|].x.t; }
  }

  /** When an episode starts, after every run: mains is present with a reading, none
      is running, some sample that counts is half an hour old, some sample of the
      window that counts is 2.0 or more above the reading, and the voltage is not
      known to be 4.10 V or more. Samples from before the last recovery do not count. */
  lemma EpisodeStartsIff(run: seq<Input>, p: Input)
    requires InOrder(run + [p])
    ensures !After(run).insufficient && After(run + [p]).insufficient <==>
            var h, since := History(run + [p]), Recovered(run);
            && !After(run).insufficient && p.x.ac.Present? && p.x.soc.Some?
            && OldEnough(h, since, p.x.t) && FellTwo(h, since, p.x.t, p.x.soc.value)
            && !(p.x.voltage.Some? && p.x.voltage.value >= 4.10)
  {
    hide OldEnough, FellTwo, History, After, Drains, ChargingOf, Trim, Eligible;
    AfterAppend(run, p);
    SinceIsRecovery(run);
    CountsNow(run, p);
    if p.x.ac.Present? && p.x.soc.Some? {
      var m := TakenHistory(run, p);
      var h := History(run + [p]);
      DrainsIff(h, m, Recovered(run), p.x.soc.value, p.x.voltage);
      if !After(run).insufficient { SampleFlags(After(run), p.x, p.full); }
    }
  }

  lemma SampleFlags(s: State, x: Sample, full: Option<real>)
    requires Sound(s) && x.ac.Present? && x.soc.Some? && !s.insufficient
    ensures Next(s, x, full).insufficient <==> Drains(Eligible(Next(s, x, full).samples, s.since), x.soc.value, x.voltage)
  {
    hide Drains, ChargingOf, Trim, Eligible;
  }

  /** When it ends: a reading 0.5 or more above some reading taken in it, or mains
      gone for a minute. */
  lemma EpisodeEndsIff(run: seq<Input>, p: Input)
    requires InOrder(run + [p])
    ensures After(run).insufficient && !After(run + [p]).insufficient <==>
            After(run).insufficient &&
            ((p.x.ac.Present? && p.x.soc.Some? &&
              exists i :: 0 <= i < |Episode(run)| && p.x.soc.value >= Episode(run)[i] + 0.5) || LongGone(run + [p]))
  {
    hide After, Drains, ChargingOf, Trim, Eligible, LongGone, Episode;
    AfterAppend(run, p);
    ResetsIff(run, p);
    LongGoneAbsent(run + [p]);
    LowIsEpisodeMinimum(run);
    if After(run).insufficient && p.x.soc.Some? { LeastBelow(After(run).low.value, Episode(run), p.x.soc.value); }
  }

  lemma LongGoneAbsent(run: seq<Input>)
    ensures LongGone(run) ==> run != [] && run[|run| - 1].x.ac.Absent?
  {
  }

  lemma LeastBelow(low: real, s: seq<real>, v: real)
    requires IsLeast(low, s)
    ensures v >= low + 0.5 <==> exists i :: 0 <= i < |s| && v >= s[i] + 0.5
  {
    var i :| 0 <= i < |s| && s[i] == low;
  }

  /** What charging says after every poll. */
  lemma ChargingIff(run: seq<Input>, p: Input)
    requires InOrder(run + [p])
    ensures var s', h := After(run + [p]), History(run + [p]);
            s'.charging ==
            match p.x.ac
            case Absent => Some(false)
            case Unknown => None
            case Present =>
              if p.x.soc.None? then After(run).charging
              else if s'.insufficient then Some(false)
              else if p.full.Some? && p.full.value != 0.0 && p.x.soc.value >= p.full.value - 0.25 then Some(true)
              else if OldEnough(h, None, p.x.t) && forall i :: InWindow(h, i, p.x.t - 1800.0) ==> h[i].soc <= p.x.soc.value + 0.25
              then Some(true)
              else None
  {
    hide OldEnough, InWindow, History, After, Drains, Trim, Eligible, ChargingOf;
    AfterAppend(run, p);
    if p.x.ac.Present? && p.x.soc.Some? {
      var m := TakenHistory(run, p);
      var h, s' := History(run + [p]), After(run + [p]);
      SampleCharging(After(run), p.x, p.full);
      ChargingOfIff(h, m, s'.insufficient, p.x.soc.value, p.full);
    }
  }

  lemma SampleCharging(s: State, x: Sample, full: Option<real>)
    requires Sound(s) && x.ac.Present? && x.soc.Some?
    ensures var s' := Next(s, x, full);
            s'.samples != [] && s'.charging == ChargingOf(s'.samples, s'.insufficient, x.soc.value, full)
  {
    hide Drains, ChargingOf, Eligible;
    TrimKeepsLast(s.samples + [Point(x.t, x.soc.value)], x.t - CHARGE_WINDOW_SEC);
    hide Trim;
  }

  lemma ChargingOfIff(h: seq<Point>, m: int, insufficient: bool, soc: real, full: Option<real>)
    requires Ordered(h) && h != [] && WindowStart(h, m, h[|h| - 1].t - 1800.0) && h[m..] != []
    ensures var now := h[|h| - 1].t;
            ChargingOf(h[m..], insufficient, soc, full) ==
            if insufficient then Some(false)
            else if full.Some? && full.value != 0.0 && soc >= full.value - 0.25 then Some(true)
            else if OldEnough(h, None, now) && forall i :: InWindow(h, i, now - 1800.0) ==> h[i].soc <= soc + 0.25 then Some(true)
            else None
  {
    hide Peak, FullWindow;
    var w, now := h[m..], h[|h| - 1].t;
    assert w[|w| - 1] == h[|h| - 1];
    SpansIff(w, now);
    OldInWindow(h, m, None, now);
    WindowMembers(h, m, now - 1800.0);
    PeakIsHighest(w);
    hide InWindow, OldEnough;
    assert (exists i :: 0 <= i < |w| && w[i].t <= now - 1800.0) <==> OldEnough(h, None, now) by { SuffixOld(h, m, now); }
    assert soc >= Peak(w) - 0.25 <==> forall i :: InWindow(h, i, now - 1800.0) ==> h[i].soc <= soc + 0.25 by {
      SuffixBelow(h, m, soc + 0.25, now);
    }
  }

  lemma SuffixOld(h: seq<Point>, m: int, now: real)
    requires Ordered(h) && WindowStart(h, m, now - 1800.0)
    ensures (exists i :: 0 <= i < |h[m..]| && h[m..][i].t <= now - 1800.0) <==> OldEnough(h, None, now)
  {
    var w := h[m..];
    OldInWindow(h, m, None, now);
    if exists i :: 0 <= i < |w| && w[i].t <= now - 1800.0 {
      var i :| 0 <= i < |w| && w[i].t <= now - 1800.0;
      assert h[m + i] == w[i];
    }
    if OldEnough(h, None, now) {
      var i :| m <= i < |h| && Counts(h[i], None) && h[i].t <= now - 1800.0;
      assert w[i - m] == h[i];
    }
  }

  lemma SuffixBelow(h: seq<Point>, m: int, v: real, now: real)
    requires WindowStart(h, m, now - 1800.0)
    ensures h[m..] != [] && (Peak(h[m..]) <= v <==> forall i :: InWindow(h, i, now - 1800.0) ==> h[i].soc <= v)
  {
    hide Peak;
    var w := h[m..];
    assert w[0] == h[m];
    WindowMembers(h, m, now - 1800.0);
    PeakIsHighest(w);
    if Peak(w) <= v {
      forall i | InWindow(h, i, now - 1800.0) ensures h[i].soc <= v { assert w[i - m] == h[i]; }
    } else {
      var k :| 0 <= k < |w| && w[k].soc == Peak(w);
      assert InWindow(h, m + k, now - 1800.0) && h[m + k] == w[k];
    }
  }
}
