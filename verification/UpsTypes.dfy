/** One poll of the X1202 battery monitor (scripts/x1202-monitor.py). */
module UpsTypes {
  import opened Options

  datatype Ac = Present | Absent | Unknown

  /** A failed gauge read has no voltage; soc is the raw register percent. */
  datatype Sample = Sample(t: real, voltage: Option<real>, soc: Option<real>, ac: Ac)

  function Abs(x: real): real {
    if x < 0.0 then -x else x
  }

  ghost predicate TimeOrdered(xs: seq<Sample>) {
    forall i, j :: 0 <= i <= j < |xs| ==> xs[i].t <= xs[j].t
  }

  const FULL_MIN_VOLTAGE := 4.10
  const FULL_JITTER := 0.25
}
