/** Cell voltage to state of charge along a piecewise linear curve
    (scripts/x1202-monitor.py, lines 72 to 82 and 161 to 170). */
module DischargeCurve {

  datatype Point = Point(v: real, s: real)

  const SOC_CURVE := [
    Point(3.20, 0.0), Point(3.45, 10.0), Point(3.55, 20.0), Point(3.65, 35.0),
    Point(3.75, 50.0), Point(3.90, 70.0), Point(4.05, 90.0), Point(4.20, 100.0)]

  function Clamp(x: real): real {
    if x > 100.0 then 100.0 else if x < 0.0 then 0.0 else x
  }

  function Between(a: Point, b: Point, v: real): real
    requires a.v < b.v
  {
    Clamp(a.s + Share(v - a.v, b.v - a.v, b.s - a.s))
  }

  function Share(x: real, d: real, rise: real): real
    requires d > 0.0
  {
    x / d * rise
  }

  ghost predicate Rising(curve: seq<Point>) {
    && curve != []
    && (forall i :: 0 <= i < |curve| ==> 0.0 <= curve[i].s <= 100.0)
    && (forall i :: 0 <= i < |curve| - 1 ==> curve[i].v < curve[i + 1].v && curve[i].s <= curve[i + 1].s)
  }

  /** The first segment that reaches v; flat before the curve and after it. */
  function Along(curve: seq<Point>, v: real): real
    requires Rising(curve)
  {
    if v <= curve[0].v || |curve| == 1 then curve[0].s
    else if v <= curve[1].v then Between(curve[0], curve[1], v)
    else Along(curve[1..], v)
  }

  lemma CurveRises()
    ensures Rising(SOC_CURVE)
  {
  }

  function SocFromVoltage(v: real): real {
    CurveRises();
    Along(SOC_CURVE, v)
  }

  lemma QuotientRises(x: real, y: real, d: real)
    requires d > 0.0 && 0.0 <= x <= y <= d
    ensures 0.0 <= x / d <= y / d <= 1.0
  {
  }

  lemma ProductRises(p: real, q: real, rise: real)
    requires p <= q && 0.0 <= rise
    ensures p * rise <= q * rise
  {
  }

  lemma ShareRises(x: real, y: real, d: real, rise: real)
    requires d > 0.0 && 0.0 <= x <= y <= d && 0.0 <= rise
    ensures 0.0 <= Share(x, d, rise) <= Share(y, d, rise) <= rise
  {
    QuotientRises(x, y, d);
    ProductRises(0.0, x / d, rise);
    ProductRises(x / d, y / d, rise);
    ProductRises(y / d, 1.0, rise);
  }

  lemma ShareOfSegment(a: Point, b: Point, v: real, w: real)
    requires a.v < b.v && 0.0 <= a.s <= b.s <= 100.0 && a.v <= v <= w <= b.v
    ensures a.s <= Between(a, b, v) <= Between(a, b, w) <= b.s
  {
    hide Share;
    ShareRises(v - a.v, w - a.v, b.v - a.v, b.s - a.s);
  }

  lemma {:induction false} AlongRises(curve: seq<Point>, v: real, w: real)
    requires Rising(curve) && v <= w
    ensures curve[0].s <= Along(curve, v) <= Along(curve, w) <= curve[|curve| - 1].s
    decreases |curve|
  {
    hide Between;
    if |curve| > 1 {
      AlongRises(curve[1..], v, w);
      assert curve[0].s <= curve[1].s <= curve[|curve| - 1].s;
      if curve[0].v < v <= curve[1].v {
        ShareOfSegment(curve[0], curve[1], v, v);
      }
      if curve[0].v < w <= curve[1].v {
        ShareOfSegment(curve[0], curve[1], w, w);
      }
      if curve[0].v < v && w <= curve[1].v {
        ShareOfSegment(curve[0], curve[1], v, w);
      }
    }
  }

  /** The map never falls and stays between 0 and 100. */
  lemma SocRises(v: real, w: real)
    requires v <= w
    ensures 0.0 <= SocFromVoltage(v) <= SocFromVoltage(w) <= 100.0
  {
    CurveRises();
    AlongRises(SOC_CURVE, v, w);
  }

  // ----- the curve itself -----

  lemma ShareTimes(x: real, d: real, rise: real)
    requires d > 0.0
    ensures Share(x, d, rise) * d == x * rise
  {
    assert x / d * d == x;
    assert x / d * rise * d == x / d * d * rise;
  }

  /** (v, y) lies on the line through a and b. */
  predicate OnChord(a: Point, b: Point, v: real, y: real) {
    (y - a.s) * (b.v - a.v) == (v - a.v) * (b.s - a.s)
  }

  lemma ChordEnds(a: Point, b: Point)
    ensures OnChord(a, b, a.v, a.s) && OnChord(a, b, b.v, b.s)
  {
  }

  lemma BetweenIsChord(a: Point, b: Point, v: real)
    requires a.v < b.v && 0.0 <= a.s <= b.s <= 100.0 && a.v <= v <= b.v
    ensures OnChord(a, b, v, Between(a, b, v)) && (v == b.v ==> Between(a, b, v) == b.s)
  {
    hide Share;
    var d, rise := b.v - a.v, b.s - a.s;
    ShareRises(v - a.v, v - a.v, d, rise);
    ShareTimes(v - a.v, d, rise);
    if v == b.v { WholeShare(d, rise); }
  }

  lemma WholeShare(d: real, rise: real)
    requires d > 0.0
    ensures Share(d, d, rise) == rise
  {
    assert d / d == 1.0;
  }

  /** Between two adjacent points of a rising curve the value lies on their chord. */
  lemma {:induction false} AlongChord(curve: seq<Point>, k: nat, v: real)
    requires Rising(curve) && k + 1 < |curve| && curve[k].v <= v <= curve[k + 1].v
    ensures OnChord(curve[k], curve[k + 1], v, Along(curve, v))
    decreases |curve|
  {
    hide Between, OnChord;
    ChordEnds(curve[k], curve[k + 1]);
    if k == 0 {
      if curve[0].v < v { BetweenIsChord(curve[0], curve[1], v); }
    } else {
      var rest := curve[1..];
      assert curve[k] == rest[k - 1] && curve[k + 1] == rest[k];
      FurtherAlong(curve, k);
      if v > curve[1].v {
        AlongChord(rest, k - 1, v);
      } else {
        assert k == 1 && v == curve[1].v;
        BetweenIsChord(curve[0], curve[1], v);
      }
    }
  }

  lemma {:induction false} FurtherAlong(curve: seq<Point>, k: nat)
    requires Rising(curve) && 1 <= k < |curve|
    ensures curve[0].v < curve[1].v <= curve[k].v && (k > 1 ==> curve[1].v < curve[k].v)
  {
    if k > 1 { FurtherAlong(curve, k - 1); }
  }

  /** The eight points it goes through, straight lines between them, and flat outside. */
  lemma CurveShape(k: nat, v: real)
    ensures v <= 3.20 ==> SocFromVoltage(v) == 0.0
    ensures v >= 4.20 ==> SocFromVoltage(v) == 100.0
    ensures var p := [Point(3.20, 0.0), Point(3.45, 10.0), Point(3.55, 20.0), Point(3.65, 35.0),
                      Point(3.75, 50.0), Point(3.90, 70.0), Point(4.05, 90.0), Point(4.20, 100.0)];
            k + 1 < 8 && p[k].v <= v <= p[k + 1].v ==>
              OnChord(p[k], p[k + 1], v, SocFromVoltage(v))
  {
    hide Along, Between, OnChord;
    CurveRises();
    AlongEnds(SOC_CURVE, v);
    if k + 1 < 8 && SOC_CURVE[k].v <= v <= SOC_CURVE[k + 1].v { AlongChord(SOC_CURVE, k, v); }
  }

  lemma {:induction false} AlongEnds(curve: seq<Point>, v: real)
    requires Rising(curve)
    ensures v <= curve[0].v ==> Along(curve, v) == curve[0].s
    ensures v >= curve[|curve| - 1].v ==> Along(curve, v) == curve[|curve| - 1].s
    decreases |curve|
  {
    hide Between;
    if |curve| > 1 && v >= curve[|curve| - 1].v {
      FurtherAlong(curve, |curve| - 1);
      AlongEnds(curve[1..], v);
      BetweenIsChord(curve[0], curve[1], curve[1].v);
    }
  }

  /** From 3.55 V up the curve is at 20 % or more. */
  lemma TwentyFrom355(v: real)
    requires v >= 3.55
    ensures SocFromVoltage(v) >= 20.0
  {
    hide Between;
    CurveRises();
    SocRises(3.55, v);
    var c := SOC_CURVE[1..];
    assert c[0] == Point(3.45, 10.0) && c[1] == Point(3.55, 20.0);
    assert Along(SOC_CURVE, 3.55) == Along(c, 3.55);
    assert Along(c, 3.55) == Between(c[0], c[1], 3.55);
    BetweenIsChord(c[0], c[1], 3.55);
  }
}
