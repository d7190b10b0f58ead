/** Watching the raw charge over half an hour on mains
    (scripts/x1202-monitor.py, lines 233 to 326). */
module Charging {
  import opened Options
  import opened UpsTypes

  const CHARGE_WINDOW_SEC := 1800.0
  const CHARGE_DROP_POINTS := 2.0
  const CHARGE_RISE_POINTS := 0.5
  const CHARGE_AC_GONE_SEC := 60.0

  datatype Point = Point(t: real, soc: real)

  datatype State = State(
    samples: seq<Point>,
    charging: Option<bool>,
    insufficient: bool,
    low: Option<real>,
    since: Option<real>,
    acGoneSince: Option<real>)

  const FRESH := State([], None, false, None, None, None)

  /** The low mark is there exactly during an episode. */
  ghost predicate Sound(s: State) {
    s.insufficient <==> s.low.Some?
  }

  // ----- the pieces of one poll -----

  function Trim(samples: seq<Point>, edge: real): seq<Point> {
    if |samples| >= 2 && samples[1].t <= edge then Trim(samples[1..], edge) else samples
  }

  /** Samples that may start a new episode. */
  function Eligible(samples: seq<Point>, since: Option<real>): seq<Point> {
    if samples == [] then []
    else (if since.None? || samples[0].t >= since.value then [samples[0]] else []) + Eligible(samples[1..], since)
  }

  function Peak(samples: seq<Point>): real
    requires samples != []
  {
    if |samples| == 1 || samples[0].soc >= Peak(samples[1..]) then samples[0].soc else Peak(samples[1..])
  }

  predicate FullWindow(samples: seq<Point>) {
    |samples| >= 2 && samples[|samples| - 1].t - samples[0].t >= CHARGE_WINDOW_SEC
  }

  predicate Drains(elig: seq<Point>, soc: real, voltage: Option<real>) {
    && FullWindow(elig)
    && Peak(elig) - soc >= CHARGE_DROP_POINTS
    && !(voltage.Some? && voltage.value >= FULL_MIN_VOLTAGE)
  }

  function ChargingOf(samples: seq<Point>, insufficient: bool, soc: real, full: Option<real>): Option<bool>
    requires samples != []
  {
    if insufficient then Some(false)
    else if full.Some? && full.value != 0.0 && soc >= full.value - FULL_JITTER then Some(true)
    else if !FullWindow(samples) then None
    else if soc >= Peak(samples) - FULL_JITTER then Some(true)
    else None
  }

  function Reset(s: State): State {
    s.(samples := [], insufficient := false, low := None, since := None)
  }

  predicate Resets(s: State, x: Sample) {
    x.ac.Absent? && x.t - (if s.acGoneSince.Some? then s.acGoneSince.value else x.t) >= CHARGE_AC_GONE_SEC
  }

  function OnAbsent(s: State, x: Sample): State {
    var s1 := s.(charging := Some(false), acGoneSince := if s.acGoneSince.Some? then s.acGoneSince else Some(x.t));
    if Resets(s, x) then Reset(s1) else s1
  }

  predicate Takes(x: Sample) {
    x.ac.Present? && x.soc.Some?
  }

  function OnSample(s: State, x: Sample, full: Option<real>): State
    requires Sound(s) && x.soc.Some?
  {
    var soc := x.soc.value;
    var samples := Trim(s.samples + [Point(x.t, soc)], x.t - CHARGE_WINDOW_SEC);
    TrimKeepsLast(s.samples + [Point(x.t, soc)], x.t - CHARGE_WINDOW_SEC);
    var s1 := s.(samples := samples, acGoneSince := None);
    var s2 :=
      if s.insufficient then
        if soc >= s.low.value + CHARGE_RISE_POINTS then s1.(insufficient := false, low := None, since := Some(x.t))
        else s1.(low := Some(if soc < s.low.value then soc else s.low.value))
      else if Drains(Eligible(samples, s.since), soc, x.voltage) then s1.(insufficient := true, low := Some(soc))
      else s1;
    s2.(charging := ChargingOf(samples, s2.insufficient, soc, full))
  }

  lemma {:induction false} TrimKeepsLast(samples: seq<Point>, edge: real)
    requires samples != []
    ensures Trim(samples, edge) != [] && Trim(samples, edge)[|Trim(samples, edge)| - 1] == samples[|samples| - 1]
    decreases |samples|
  {
    if |samples| >= 2 && samples[1].t <= edge { TrimKeepsLast(samples[1..], edge); }
  }

  function Next(s: State, x: Sample, full: Option<real>): (s': State)
    requires Sound(s)
    ensures Sound(s')
  {
    match x.ac
    case Absent => OnAbsent(s, x)
    case Unknown => s.(charging := None)
    case Present => if x.soc.None? then s.(acGoneSince := None) else OnSample(s, x, full)
  }

  /** A poll with the full point the learner holds at that moment. */
  datatype Input = Input(x: Sample, full: Option<real>)

  function After(run: seq<Input>): (s: State)
    ensures Sound(s)
  {
    if run == [] then FRESH else Next(After(run[..|run| - 1]), run[|run| - 1].x, run[|run| - 1].full)
  }

  // ----- as the monitor writes it -----

  class ChargeWatch {
    var samples: seq<Point>
    var charging: Option<bool>
    var insufficient: bool
    var low: Option<real>
    var since: Option<real>
    var acGoneSince: Option<real>

    ghost function View(): State
      reads this
    {
      State(samples, charging, insufficient, low, since, acGoneSince)
    }

    constructor ()
      ensures View() == FRESH
    {
      samples, charging, insufficient, low, since, acGoneSince := [], None, false, None, None, None;
    }

    method Update(x: Sample, full: Option<real>) returns (events: nat)
      requires Sound(View())
      modifies this
      ensures Sound(View()) && View() == Next(old(View()), x, full)
      ensures events == if insufficient != old(insufficient) then 1 else 0
    {
      hide ChargingOf, Peak, Eligible, Trim;
      events := 0;
      if x.ac.Absent? {
        charging := Some(false);
        if acGoneSince.None? {
          acGoneSince := Some(x.t);
        }
        if x.t - acGoneSince.value >= CHARGE_AC_GONE_SEC {
          if insufficient {
            events := 1;
          }
          samples, insufficient, low, since := [], false, None, None;
        }
        return;
      }
      if !x.ac.Present? {
        charging := None;
        return;
      }
      acGoneSince := None;
      if x.soc.None? {
        return;
      }
      var soc := x.soc.value;
      TrimKeepsLast(samples + [Point(x.t, soc)], x.t - CHARGE_WINDOW_SEC);
      Append(Point(x.t, soc));
      if insufficient {
        if soc >= low.value + CHARGE_RISE_POINTS {
          events := 1;
          insufficient, low, since := false, None, Some(x.t);
        } else {
          low := Some(if soc < low.value then soc else low.value);
        }
      } else {
        var elig := Eligible(samples, since);
        if |elig| >= 2 && elig[|elig| - 1].t - elig[0].t >= CHARGE_WINDOW_SEC {
          var restingFull := x.voltage.Some? && x.voltage.value >= FULL_MIN_VOLTAGE;
          if Peak(elig) - soc >= CHARGE_DROP_POINTS && !restingFull {
            insufficient, low := true, Some(soc);
            events := 1;
          }
        }
      }
      charging := ChargingOf(samples, insufficient, soc, full);
    }

    method Append(p: Point)
      modifies `samples
      ensures samples == Trim(old(samples) + [p], p.t - CHARGE_WINDOW_SEC)
    {
      samples := samples + [p];
      while |samples| >= 2 && samples[1].t <= p.t - CHARGE_WINDOW_SEC
        invariant Trim(samples, p.t - CHARGE_WINDOW_SEC) == Trim(old(samples) + [p], p.t - CHARGE_WINDOW_SEC)
        decreases |samples|
      {
        samples := samples[1..];
      }
    }
  }

  // ----- the trimmed samples are a window on the whole history -----

  ghost predicate InOrder(run: seq<Input>) {
    forall i, j :: 0 <= i <= j < |run| ==> run[i].x.t <= run[j].x.t
  }

  /** Every sample taken since the last reset, untrimmed. */
  function History(run: seq<Input>): seq<Point> {
    if run == [] then []
    else
      var before, x := run[..|run| - 1], run[|run| - 1].x;
      if Resets(After(before), x) then []
      else if Takes(x) then History(before) + [Point(x.t, x.soc.value)]
      else History(before)
  }

  /** Place k is the last at or before the edge, or the first of all. */
  ghost predicate WindowStart(h: seq<Point>, k: int, edge: real) {
    0 <= k < |h| && (k > 0 ==> h[k].t <= edge) && forall j :: k < j < |h| ==> h[j].t > edge
  }

  lemma {:induction false} TrimFindsStart(h: seq<Point>, k: nat, edge: real)
    requires k < |h| && (k > 0 ==> h[k].t <= edge) && Ordered(h)
    ensures exists m :: WindowStart(h, m, edge) && Trim(h[k..], edge) == h[m..]
    decreases |h| - k
  {
    if |h[k..]| >= 2 && h[k..][1].t <= edge {
      assert h[k..][1] == h[k + 1] && h[k..][1..] == h[k + 1..];
      TrimFindsStart(h, k + 1, edge);
    } else {
      if k + 1 < |h| { assert h[k..][1] == h[k + 1]; }
      assert WindowStart(h, k, edge);
    }
  }

  ghost predicate Windowed(samples: seq<Point>, h: seq<Point>) {
    if h == [] then samples == []
    else exists m :: WindowStart(h, m, h[|h| - 1].t - CHARGE_WINDOW_SEC) && samples == h[m..]
  }

  ghost predicate Ordered(h: seq<Point>) {
    forall i, j :: 0 <= i <= j < |h| ==> h[i].t <= h[j].t
  }

  ghost predicate NotLater(h: seq<Point>, t: real) {
    forall i :: 0 <= i < |h| ==> h[i].t <= t
  }

  lemma OrderedAppend(h: seq<Point>, p: Point)
    requires Ordered(h) && NotLater(h, p.t)
    ensures Ordered(h + [p]) && NotLater(h + [p], p.t)
  {
  }

  lemma LaterStill(h: seq<Point>, t: real, u: real)
    requires NotLater(h, t) && t <= u
    ensures NotLater(h, u)
  {
  }

  lemma {:induction false} HistoryOrdered(run: seq<Input>)
    requires InOrder(run)
    ensures Ordered(History(run)) && (run == [] ==> History(run) == [])
    ensures run != [] ==> NotLater(History(run), run[|run| - 1].x.t)
  {
    if run != [] {
      var n := |run| - 1;
      var before, x := run[..n], run[n].x;
      HistoryOrdered(before);
      var h := History(before);
      assert NotLater(h, x.t) by {
        if n > 0 {
          assert before[n - 1] == run[n - 1] && run[n - 1].x.t <= x.t;
          LaterStill(h, run[n - 1].x.t, x.t);
        }
      }
      if Takes(x) { OrderedAppend(h, Point(x.t, x.soc.value)); }
    }
  }

  lemma AppendWindowed(samples: seq<Point>, h: seq<Point>, p: Point)
    requires Windowed(samples, h) && Ordered(h + [p])
    ensures Windowed(Trim(samples + [p], p.t - CHARGE_WINDOW_SEC), h + [p])
  {
    hide Trim;
    var h1, edge := h + [p], p.t - CHARGE_WINDOW_SEC;
    if h == [] {
      assert samples + [p] == h1[0..];
      TrimFindsStart(h1, 0, edge);
    } else {
      var m :| WindowStart(h, m, h[|h| - 1].t - CHARGE_WINDOW_SEC) && samples == h[m..];
      assert samples + [p] == h1[m..];
      assert h1[|h| - 1].t <= h1[|h|].t && h1[m] == h[m];
      TrimFindsStart(h1, m, edge);
    }
  }

  lemma NoWindow()
    ensures Windowed([], [])
  {
  }

  /** After every poll the deque is the suffix of the whole history since the last
      reset that starts at the last sample at or before the window's left edge. */
  lemma {:induction false} DequeIsWindow(run: seq<Input>)
    requires InOrder(run)
    ensures Windowed(After(run).samples, History(run))
  {
    hide ChargingOf, Drains, Windowed, Trim;
    if run == [] {
      NoWindow();
    } else {
      var before, x := run[..|run| - 1], run[|run| - 1].x;
      NoWindow();
      DequeIsWindow(before);
      if Takes(x) {
        HistoryOrdered(run);
        assert History(run) == History(before) + [Point(x.t, x.soc.value)];
        AppendWindowed(After(before).samples, History(before), Point(x.t, x.soc.value));
      }
    }
  }

  // ----- flags -----

  /** The monitor never reports charging while the input is insufficient. */
  lemma {:induction false} NeverChargingWhenInsufficient(run: seq<Input>)
    ensures After(run).insufficient ==> After(run).charging != Some(true)
  {
    hide Drains, Trim, Eligible;
    if run != [] { NeverChargingWhenInsufficient(run[..|run| - 1]); }
  }

  /** The readings taken in the running episode, its first included. */
  function Episode(run: seq<Input>): seq<real> {
    if run == [] || !After(run).insufficient then []
    else
      var before, x := run[..|run| - 1], run[|run| - 1].x;
      if Takes(x) then (if After(before).insufficient then Episode(before) else []) + [x.soc.value] else Episode(before)
  }

  ghost predicate IsLeast(m: real, s: seq<real>) {
    m in s && forall i :: 0 <= i < |s| ==> m <= s[i]
  }

  lemma LeastAppend(m: real, s: seq<real>, x: real)
    requires IsLeast(m, s)
    ensures IsLeast(if x < m then x else m, s + [x])
  {
    assert x < m ==> (s + [x])[|s|] == x;
  }

  lemma LeastOne(x: real)
    ensures IsLeast(x, [] + [x])
  {
    assert ([] + [x])[0] == x;
  }

  /** The mark an episode recovers from is the least reading since it began: it is
      over as soon as a reading is half a point above that. */
  lemma {:induction false} LowIsEpisodeMinimum(run: seq<Input>)
    ensures After(run).insufficient ==> After(run).low.Some? && IsLeast(After(run).low.value, Episode(run))
  {
    hide Drains, Trim, Eligible, ChargingOf, IsLeast;
    if run != [] {
      var before, x := run[..|run| - 1], run[|run| - 1].x;
      LowIsEpisodeMinimum(before);
      if After(run).insufficient && Takes(x) {
        if After(before).insufficient {
          LeastAppend(After(before).low.value, Episode(before), x.soc.value);
        } else {
          LeastOne(x.soc.value);
        }
      }
    }
  }

  // ----- episodes are spaced -----

  predicate Starts(run: seq<Input>, k: nat)
    requires k < |run|
  {
    !After(run[..k]).insufficient && After(run[..k + 1]).insufficient
  }

  predicate Ends(run: seq<Input>, k: nat)
    requires k < |run|
  {
    After(run[..k]).insufficient && !After(run[..k + 1]).insufficient
  }

  /** No sample from before T can be part of a new episode's window. */
  ghost predicate Cleared(s: State, T: real) {
    forall i :: 0 <= i < |s.samples| && (s.since.None? || s.samples[i].t >= s.since.value) ==> s.samples[i].t >= T
  }

  lemma {:induction false} EligibleFrom(samples: seq<Point>, since: Option<real>, T: real, now: real)
    requires forall i :: 0 <= i < |samples| ==>
               samples[i].t <= now && (since.None? || samples[i].t >= since.value ==> samples[i].t >= T)
    ensures forall i :: 0 <= i < |Eligible(samples, since)| ==> T <= Eligible(samples, since)[i].t <= now
  {
    if samples != [] { EligibleFrom(samples[1..], since, T, now); }
  }

  lemma {:induction false} TrimSubset(samples: seq<Point>, edge: real) returns (m: nat)
    ensures m <= |samples| && Trim(samples, edge) == samples[m..]
    decreases |samples|
  {
    m := 0;
    if |samples| >= 2 && samples[1].t <= edge {
      m := TrimSubset(samples[1..], edge);
      m := m + 1;
    }
  }

  ghost predicate NotAfter(s: State, now: real) {
    forall i :: 0 <= i < |s.samples| ==> s.samples[i].t <= now
  }

  /** A start shows in the samples that count, and those are since T. */
  lemma NoEarlyStart(s: State, x: Sample, full: Option<real>, T: real)
    requires Sound(s) && Takes(x) && !s.insufficient && OnSample(s, x, full).insufficient
    requires NotAfter(s, x.t) && Cleared(s, T) && T <= x.t
    ensures x.t >= T + CHARGE_WINDOW_SEC
  {
    hide ChargingOf, Peak, Eligible;
    var all := s.samples + [Point(x.t, x.soc.value)];
    var m := TrimSubset(all, x.t - CHARGE_WINDOW_SEC);
    hide Trim;
    AppendCleared(s, x, T);
    EligibleFrom(all[m..], s.since, T, x.t);
  }

  lemma AppendCleared(s: State, x: Sample, T: real)
    requires x.soc.Some? && Cleared(s, T) && NotAfter(s, x.t) && T <= x.t
    ensures forall p :: p in s.samples + [Point(x.t, x.soc.value)] ==>
              p.t <= x.t && (s.since.None? || p.t >= s.since.value ==> p.t >= T)
  {
  }

  lemma SampledState(s: State, x: Sample, full: Option<real>) returns (m: nat)
    requires Sound(s) && Takes(x)
    ensures var all := s.samples + [Point(x.t, x.soc.value)]; var s' := OnSample(s, x, full);
            m <= |all| && s'.samples == all[m..] && (s'.since == s.since || s'.since == Some(x.t))
  {
    hide ChargingOf, Drains, Eligible;
    m := TrimSubset(s.samples + [Point(x.t, x.soc.value)], x.t - CHARGE_WINDOW_SEC);
    hide Trim;
  }

  lemma ClearedStays(s: State, x: Sample, full: Option<real>, T: real)
    requires Sound(s) && Cleared(s, T) && NotAfter(s, x.t) && T <= x.t
    ensures Cleared(Next(s, x, full), T) && NotAfter(Next(s, x, full), x.t)
    ensures !s.insufficient && Next(s, x, full).insufficient ==> x.t >= T + CHARGE_WINDOW_SEC
  {
    hide OnSample;
    if Takes(x) {
      var m := SampledState(s, x, full);
      var s' := OnSample(s, x, full);
      AppendCleared(s, x, T);
      assert forall i :: 0 <= i < |s'.samples| ==> s'.samples[i] in s.samples + [Point(x.t, x.soc.value)];
      if !s.insufficient && s'.insufficient { NoEarlyStart(s, x, full, T); }
    }
  }

  lemma EndClears(s: State, x: Sample, full: Option<real>)
    requires Sound(s) && NotAfter(s, x.t) && s.insufficient && !Next(s, x, full).insufficient
    ensures Cleared(Next(s, x, full), x.t) && NotAfter(Next(s, x, full), x.t)
  {
    hide ChargingOf, Drains;
    if Takes(x) {
      var all := s.samples + [Point(x.t, x.soc.value)];
      var m := TrimSubset(all, x.t - CHARGE_WINDOW_SEC);
    }
  }

  lemma SamplesInPast(run: seq<Input>, k: nat)
    requires InOrder(run) && k < |run|
    ensures NotAfter(After(run[..k]), run[k].x.t)
  {
    hide After, History;
    DequeIsWindow(run[..k]);
    HistoryOrdered(run[..k]);
    if History(run[..k]) != [] { assert run[..k][k - 1].x.t <= run[k].x.t; }
  }

  lemma {:induction false} ClearedFrom(run: seq<Input>, j: nat)
    requires InOrder(run) && j < |run| && Ends(run, j)
    ensures Cleared(After(run), run[j].x.t)
    decreases |run|
  {
    hide Next;
    var n := |run| - 1;
    var before, i := run[..n], run[n];
    SamplesInPast(run, n);
    if j == n {
      assert run[..n + 1] == run;
      EndClears(After(before), i.x, i.full);
    } else {
      assert before[..j] == run[..j] && before[..j + 1] == run[..j + 1];
      ClearedFrom(before, j);
      ClearedStays(After(before), i.x, i.full, run[j].x.t);
    }
  }

  /** Between the end of an episode, by recovery or by lost mains, and the start of
      any later one there is at least the whole half hour. */
  lemma EpisodesAreSpaced(run: seq<Input>, j: nat, k: nat)
    requires InOrder(run) && j < k < |run| && Ends(run, j) && Starts(run, k)
    ensures run[k].x.t - run[j].x.t >= CHARGE_WINDOW_SEC
  {
    hide Next;
    var before, i := run[..k], run[k];
    assert before[..j] == run[..j] && before[..j + 1] == run[..j + 1];
    ClearedFrom(before, j);
    SamplesInPast(run, k);
    assert run[..k + 1][..k] == before;
    ClearedStays(After(before), i.x, i.full, run[j].x.t);
  }
}
