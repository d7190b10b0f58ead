/** The DMR858M module's frame: build, parse and the folded ones' complement
    checksum over the whole frame (scripts/dmr858m-config.py, lines 21 to 48). */
module Dmr858m {
  import opened Bytes

  const HEAD: byte := 0x68
  const TAIL: byte := 0x10

  datatype Built = Ok(frame: seq<byte>) | OutOfRange

  datatype Parsed = Some(cmd: byte, rw: byte, sr: byte, data: seq<byte>) | None

  // ----- the checksum -----

  function Weight(odd: bool): nat {
    if odd then 1 else 256
  }

  /** Every byte by its weight: 256 at an even place, 1 at an odd one. */
  function Sum(buf: seq<byte>, odd: bool): nat {
    if buf == [] then 0 else Number(buf[0]) * Weight(odd) + Sum(buf[1..], !odd)
  }

  /** The one residue modulo 65535 in 1 .. 65535, or zero for zero. */
  function Folded(total: nat): (r: nat)
    ensures r <= 65535 && (r == 0 <==> total == 0) && r % 65535 == total % 65535
  {
    if total == 0 then 0 else 1 + (total - 1) % 65535
  }

  function Checksum(buf: seq<byte>): (r: nat)
    ensures r <= 65535
  {
    65535 - Folded(Sum(buf, false))
  }

  lemma FoldStep(total: nat)
    requires total / 65536 != 0
    ensures var next := total % 65536 + total / 65536;
            next < total && Folded(next) == Folded(total)
  {
    var q, r := total / 65536, total % 65536;
    assert total - 1 == (q + r - 1) + 65535 * q;
    ModPlus(q + r - 1, q);
  }

  lemma {:induction false} ModPlus(x: nat, k: nat)
    ensures (x + 65535 * k) % 65535 == x % 65535
  {
    if k != 0 {
      ModPlus(x, k - 1);
      assert x + 65535 * k == (x + 65535 * (k - 1)) + 65535;
    }
  }

  lemma {:induction false} SumConcat(a: seq<byte>, b: seq<byte>, odd: bool)
    ensures Sum(a + b, odd) == Sum(a, odd) + Sum(b, odd != (|a| % 2 == 1))
    decreases |a|
  {
    if a == [] {
      assert a + b == b;
    } else {
      assert (a + b)[0] == a[0] && (a + b)[1..] == a[1..] + b;
      SumConcat(a[1..], b, !odd);
    }
  }

  lemma SumOne(b: byte, odd: bool)
    ensures Sum([b], odd) == Number(b) * Weight(odd)
  {
    assert [b][1..] == [] && Sum([], !odd) == 0;
  }

  /** Words at a time, the odd byte last, then folding until it fits. */
  method ChecksumOf(buf: seq<byte>) returns (r: nat)
    ensures r == Checksum(buf)
  {
    hide Sum, Folded;
    var total: nat, i: nat := 0, 0;
    SumNothing(buf);
    while i < |buf| - 1
      invariant 0 <= i <= |buf| && i % 2 == 0
      invariant total == Sum(buf[..i], false)
    {
      total := total + 256 * Number(buf[i]) + Number(buf[i + 1]);
      NextWord(buf, i);
      i := i + 2;
    }
    if |buf| % 2 == 1 {
      total := total + 256 * Number(buf[|buf| - 1]);
      LastByte(buf);
    } else {
      assert buf[..i] == buf;
    }
    while total / 65536 != 0
      invariant Folded(total) == Folded(Sum(buf, false))
      decreases total
    {
      FoldStep(total);
      total := total % 65536 + total / 65536;
    }
    SmallIsFolded(total);
    return 65535 - total;
  }

  lemma SumNothing(buf: seq<byte>)
    ensures Sum(buf[..0], false) == 0
  {
  }

  lemma NextWord(buf: seq<byte>, i: nat)
    requires i + 1 < |buf| && i % 2 == 0
    ensures Sum(buf[..i + 2], false) == Sum(buf[..i], false) + 256 * Number(buf[i]) + Number(buf[i + 1])
  {
    hide Sum;
    assert buf[..i + 2] == buf[..i] + ([buf[i]] + [buf[i + 1]]);
    SumConcat(buf[..i], [buf[i]] + [buf[i + 1]], false);
    SumConcat([buf[i]], [buf[i + 1]], false);
    SumOne(buf[i], false);
    SumOne(buf[i + 1], true);
  }

  lemma LastByte(buf: seq<byte>)
    requires |buf| % 2 == 1
    ensures Sum(buf, false) == Sum(buf[..|buf| - 1], false) + 256 * Number(buf[|buf| - 1])
  {
    hide Sum;
    var n := |buf| - 1;
    assert buf == buf[..n] + [buf[n]];
    SumConcat(buf[..n], [buf[n]], false);
    SumOne(buf[n], false);
  }

  lemma SmallIsFolded(total: nat)
    requires total / 65536 == 0
    ensures total <= 65535 && Folded(total) == total
  {
  }

  // ----- one byte changed -----

  lemma SumUpdate(buf: seq<byte>, p: nat, v: byte)
    requires p < |buf|
    ensures Sum(buf[p := v], false) == Sum(buf, false) + (Number(v) - Number(buf[p])) * Weight(p % 2 == 1)
  {
    hide Sum;
    var odd := p % 2 == 1;
    SumAround(buf, p);
    SumAround(buf[p := v], p);
    assert buf[p := v][..p] == buf[..p] && buf[p := v][p + 1..] == buf[p + 1..];
  }

  lemma SumAround(buf: seq<byte>, p: nat)
    requires p < |buf|
    ensures Sum(buf, false) ==
            Sum(buf[..p], false) + Number(buf[p]) * Weight(p % 2 == 1) + Sum(buf[p + 1..], p % 2 == 0)
  {
    hide Sum;
    assert buf == buf[..p] + ([buf[p]] + buf[p + 1..]);
    SumConcat(buf[..p], [buf[p]] + buf[p + 1..], false);
    SumConcat([buf[p]], buf[p + 1..], p % 2 == 1);
    SumOne(buf[p], p % 2 == 1);
  }

  /** Folding separates positive totals that are not congruent, and only those. */
  lemma FoldedSameIffCongruent(a: nat, b: nat)
    requires a > 0 && b > 0
    ensures Folded(a) == Folded(b) <==> a % 65535 == b % 65535
  {
    assert Folded(a) == 65535 || Folded(a) == Folded(a) % 65535;
    assert Folded(b) == 65535 || Folded(b) == Folded(b) % 65535;
  }

  lemma NearIsNotCongruent(a: nat, b: nat)
    requires a < b < a + 65535
    ensures a % 65535 != b % 65535
  {
    var d := b - a;
    if a % 65535 + d < 65535 {
      assert b == (a % 65535 + d) + 65535 * (a / 65535);
      ModPlus(a % 65535 + d, a / 65535);
    } else {
      assert b == (a % 65535 + d - 65535) + 65535 * (a / 65535 + 1);
      ModPlus(a % 65535 + d - 65535, a / 65535 + 1);
    }
  }

  // ----- frames -----

  predicate IsByte(x: int) {
    0 <= x < 256
  }

  /** The frame with its checksum bytes zero. */
  function Blank(cmd: byte, rw: byte, sr: byte, payload: seq<byte>): (r: seq<byte>)
    requires |payload| <= 65535
    ensures |r| == 9 + |payload|
  {
    [HEAD, cmd, rw, sr, 0, 0, |payload| / 256, |payload| % 256] + payload + [TAIL]
  }

  function Stamped(frame: seq<byte>): (r: seq<byte>)
    requires |frame| >= 9
    ensures |r| == |frame|
  {
    frame[4 := Checksum(frame) / 256][5 := Checksum(frame) % 256]
  }

  function Build(cmd: int, rw: int, payload: seq<byte>, sr: int): Built {
    if IsByte(cmd) && IsByte(rw) && IsByte(sr) && |payload| <= 65535 then Ok(Stamped(Blank(cmd, rw, sr, payload)))
    else OutOfRange
  }

  function Word(raw: seq<byte>, i: nat): (w: nat)
    requires i + 1 < |raw|
    ensures w <= 65535
  {
    256 * Number(raw[i]) + Number(raw[i + 1])
  }

  function Cleared(raw: seq<byte>): (r: seq<byte>)
    requires |raw| >= 9
    ensures |r| == |raw|
  {
    raw[4 := 0][5 := 0]
  }

  function Parse(raw: seq<byte>): Parsed {
    if |raw| < 9 || raw[0] != HEAD then None
    else
      var n := Word(raw, 6);
      if |raw| < 9 + n || raw[8 + n] != TAIL then None
      else
        var given := Word(raw, 4);
        if given != 0 && given != Checksum(Cleared(raw[..9 + n])) then None
        else Some(raw[1], raw[2], raw[3], raw[8..8 + n])
  }

  /** The loop-built checksum stamped in place. */
  method BuildFrame(cmd: int, rw: int, payload: seq<byte>, sr: int) returns (r: Built)
    ensures r == Build(cmd, rw, payload, sr)
  {
    hide Checksum;
    if !(IsByte(cmd) && IsByte(rw) && IsByte(sr) && |payload| / 256 <= 255) {
      return OutOfRange;
    }
    var frame := Blank(cmd, rw, sr, payload);
    var ck := ChecksumOf(frame);
    frame := frame[4 := ck / 256];
    frame := frame[5 := ck % 256];
    return Ok(frame);
  }

  method ParseFrame(raw: seq<byte>) returns (r: Parsed)
    ensures r == Parse(raw)
  {
    hide Checksum, Word;
    if |raw| < 9 || raw[0] != HEAD {
      return None;
    }
    var n := Word(raw, 6);
    if |raw| < 9 + n || raw[8 + n] != TAIL {
      return None;
    }
    var copy, given := raw[..9 + n], Word(raw, 4);
    copy := copy[4 := 0];
    copy := copy[5 := 0];
    var ck := ChecksumOf(copy);
    if given != 0 && given != ck {
      return None;
    }
    return Some(raw[1], raw[2], raw[3], raw[8..8 + n]);
  }

  // ----- what the frame promises -----

  /** Clearing the two checksum bytes takes exactly the given word out of the sum. */
  lemma SumOfCleared(raw: seq<byte>)
    requires |raw| >= 9
    ensures Sum(raw, false) == Sum(Cleared(raw), false) + Word(raw, 4)
  {
    hide Sum;
    var once := raw[4 := 0];
    ClearHigh(raw);
    ClearLow(once);
    assert once[5] == raw[5];
  }

  lemma ClearHigh(raw: seq<byte>)
    requires |raw| >= 9
    ensures Sum(raw[4 := 0], false) == Sum(raw, false) - 256 * Number(raw[4])
  {
    hide Sum;
    SumUpdate(raw, 4, 0);
    var x: int := Number(raw[4]);
    assert Weight(4 % 2 == 1) == 256 && Number(0) == 0;
    assert (0 - x) * 256 == -256 * x;
  }

  lemma ClearLow(once: seq<byte>)
    requires |once| >= 9
    ensures Sum(once[5 := 0], false) == Sum(once, false) - Number(once[5])
  {
    hide Sum;
    SumUpdate(once, 5, 0);
  }

  lemma SumPositive(raw: seq<byte>)
    requires |raw| >= 9 && raw[0] == HEAD
    ensures Sum(raw, false) > 0
  {
    hide Sum;
    SumAround(raw, 0);
  }

  lemma StampedShape(frame: seq<byte>)
    requires |frame| >= 9 && frame[4] == 0 && frame[5] == 0
    ensures Cleared(Stamped(frame)) == frame && Word(Stamped(frame), 4) == Checksum(frame)
    ensures forall i :: 0 <= i < |frame| && i != 4 && i != 5 ==> Stamped(frame)[i] == frame[i]
  {
    hide Checksum;
  }

  /** The whole stamped frame folds to all ones. */
  lemma BuiltFoldsToOnes(cmd: int, rw: int, payload: seq<byte>, sr: int)
    requires Build(cmd, rw, payload, sr).Ok?
    ensures Folded(Sum(Build(cmd, rw, payload, sr).frame, false)) == 65535
  {
    hide Sum, Folded, Cleared, Stamped, Word;
    var blank := Blank(cmd, rw, sr, payload);
    StampedShape(blank);
    SumOfCleared(Stamped(blank));
    SumPositive(blank);
    Complement(Sum(blank, false));
  }

  lemma Complement(total: nat)
    requires total > 0
    ensures Folded(total + (65535 - Folded(total))) == 65535
  {
    assert total - 1 == (total - 1) % 65535 + 65535 * ((total - 1) / 65535);
    ModPlus(65534, (total - 1) / 65535);
  }

  lemma BuiltFields(cmd: byte, rw: byte, sr: byte, payload: seq<byte>)
    requires |payload| <= 65535
    ensures var b := Blank(cmd, rw, sr, payload); var n := |payload|;
            b[..4] == [HEAD, cmd, rw, sr] && b[4] == 0 && b[5] == 0 && Word(b, 6) == n &&
            b[8..8 + n] == payload && b[8 + n] == TAIL
  {
  }

  /** Parse undoes build, whatever follows the frame in the buffer. */
  lemma ParseUndoesBuild(cmd: int, rw: int, payload: seq<byte>, sr: int, trailing: seq<byte>)
    requires Build(cmd, rw, payload, sr).Ok?
    ensures Parse(Build(cmd, rw, payload, sr).frame + trailing) == Some(cmd, rw, sr, payload)
  {
    hide Checksum, Cleared, Stamped, Blank;
    var blank := Blank(cmd, rw, sr, payload);
    var frame, n := Stamped(blank), |payload|;
    BuiltFields(cmd, rw, sr, payload);
    assert blank[..4][1] == blank[1] && blank[..4][2] == blank[2] && blank[..4][3] == blank[3] && blank[..4][0] == blank[0];
    StampedShape(blank);
    assert (frame + trailing)[..9 + n] == frame;
    assert (frame + trailing)[8..8 + n] == blank[8..8 + n];
  }

  /** Parse on a buffer that is one frame and nothing more. */
  lemma WholeFrameRejectedIff(raw: seq<byte>, n: nat)
    requires |raw| == 9 + n && Word(raw, 6) == n
    ensures Parse(raw) == None <==>
            raw[0] != HEAD || raw[8 + n] != TAIL || (Word(raw, 4) != 0 && Word(raw, 4) != Checksum(Cleared(raw)))
  {
    hide Checksum, Cleared, Word;
    assert raw[..9 + n] == raw;
  }

  lemma TrailingDoesNotMatter(raw: seq<byte>, n: nat, trailing: seq<byte>)
    requires |raw| == 9 + n && Word(raw, 6) == n
    ensures Parse(raw + trailing) == Parse(raw)
  {
    hide Checksum, Cleared;
    assert (raw + trailing)[..9 + n] == raw[..9 + n] && (raw + trailing)[8..8 + n] == raw[8..8 + n];
  }

  /** Exactly when one changed byte outside the length field goes unnoticed,
      whatever follows the frame in the buffer. */
  lemma DamageRejectedIff(cmd: int, rw: int, payload: seq<byte>, sr: int, p: nat, v: byte, trailing: seq<byte>)
    requires Build(cmd, rw, payload, sr).Ok?
    requires p < 9 + |payload| && p != 6 && p != 7
    requires v != Build(cmd, rw, payload, sr).frame[p]
    ensures var damaged := Build(cmd, rw, payload, sr).frame[p := v];
            Parse(damaged + trailing) == None <==> p == 0 || p == 8 + |payload| || Word(damaged, 4) != 0
  {
    hide Checksum, Cleared, Stamped, Blank, Folded, Parse;
    var blank := Blank(cmd, rw, sr, payload);
    var frame, n := Stamped(blank), |payload|;
    BuiltFields(cmd, rw, sr, payload);
    StampedShape(blank);
    assert blank[..4][0] == blank[0];
    var damaged := frame[p := v];
    assert Word(damaged, 6) == n;
    hide Word;
    WholeFrameRejectedIff(damaged, n);
    TrailingDoesNotMatter(damaged, n, trailing);
    if p == 4 || p == 5 {
      ClearedIgnoresField(frame, p, v);
    } else if p != 0 {
      ClearedKeepsChange(frame, p, v);
      ChangeShows(blank, p, v);
    }
  }

  lemma ClearedIgnoresField(frame: seq<byte>, p: nat, v: byte)
    requires |frame| >= 9 && (p == 4 || p == 5) && v != frame[p]
    ensures Cleared(frame[p := v]) == Cleared(frame) && Word(frame[p := v], 4) != Word(frame, 4)
  {
  }

  lemma ClearedKeepsChange(frame: seq<byte>, p: nat, v: byte)
    requires 9 <= |frame| && p < |frame| && p != 4 && p != 5
    ensures Cleared(frame[p := v]) == Cleared(frame)[p := v] && Word(frame[p := v], 4) == Word(frame, 4)
  {
  }

  lemma ChangeShows(blank: seq<byte>, p: nat, v: byte)
    requires |blank| >= 9 && blank[0] == HEAD && 0 < p < |blank| && v != blank[p]
    ensures Checksum(blank[p := v]) != Checksum(blank)
  {
    hide Sum, Folded;
    SumUpdate(blank, p, v);
    SumPositive(blank);
    SumPositive(blank[p := v]);
    var a, b := Sum(blank, false), Sum(blank[p := v], false);
    FoldedSameIffCongruent(a, b);
    if a < b { NearIsNotCongruent(a, b); } else { NearIsNotCongruent(b, a); }
  }

  /** Exactly which frames are sent with a zero field, that is, unprotected. */
  lemma FieldZeroIff(cmd: int, rw: int, payload: seq<byte>, sr: int)
    requires Build(cmd, rw, payload, sr).Ok?
    ensures Word(Build(cmd, rw, payload, sr).frame, 4) == 0 <==> Sum(Blank(cmd, rw, sr, payload), false) % 65535 == 0
  {
    hide Sum, Stamped, Word;
    var blank := Blank(cmd, rw, sr, payload);
    StampedShape(blank);
    SumPositive(blank);
  }

  /** There are such frames, and a changed command in one is not noticed. */
  lemma DamageCanPass()
    ensures Build(1, 1, [0x86, 0xFB], 1).Ok? && Word(Build(1, 1, [0x86, 0xFB], 1).frame, 4) == 0
    ensures Parse(Build(1, 1, [0x86, 0xFB], 1).frame[1 := 2]) != None
  {
    var payload: seq<byte> := [0x86, 0xFB];
    assert Sum(Blank(1, 1, 1, payload), false) == 65535 by {
      hide Sum, Blank;
      WitnessSum(Blank(1, 1, 1, payload), payload);
    }
    hide Sum, Checksum, Stamped, Parse;
    FieldZeroIff(1, 1, payload, 1);
    var frame := Build(1, 1, payload, 1).frame;
    BuiltFields(1, 1, 1, payload);
    StampedShape(Blank(1, 1, 1, payload));
    assert Blank(1, 1, 1, payload)[..4][1] == 1;
    assert frame[1] == 1 && Word(frame[1 := 2], 4) == Word(frame, 4);
    assert frame[1 := 2] + [] == frame[1 := 2];
    DamageRejectedIff(1, 1, payload, 1, 1, 2, []);
  }

  lemma WitnessSum(blank: seq<byte>, payload: seq<byte>)
    requires payload == [0x86, 0xFB] && blank == Blank(1, 1, 1, payload)
    ensures Sum(blank, false) == 65535
  {
    hide Sum;
    NextWord(blank, 0);
    NextWord(blank, 2);
    NextWord(blank, 4);
    NextWord(blank, 6);
    NextWord(blank, 8);
    SumNothing(blank);
    assert blank == [HEAD, 1, 1, 1, 0, 0, 0, 2, 0x86, 0xFB, TAIL];
    LastByte(blank);
  }

  /** By how much a changed length k moves the sum of what is parsed: the length
      itself, and everything cut off behind the new tail or taken in up to it. */
  function Moved(blank: seq<byte>, trailing: seq<byte>, n: nat, k: nat): nat
    requires k != n && |blank| == 9 + n && k <= n + |trailing|
  {
    if k < n then n - k + Sum(blank[9 + k..], k % 2 == 0)
    else k - n + Sum(trailing[..k - n], n % 2 == 0)
  }

  /** Exactly when a changed length field goes unnoticed, whatever follows the
      frame in the buffer. */
  lemma LengthDamageAcceptedIff(cmd: int, rw: int, payload: seq<byte>, sr: int, trailing: seq<byte>, k: nat)
    requires Build(cmd, rw, payload, sr).Ok? && k <= 65535 && k != |payload|
    ensures var n, frame := |payload|, Build(cmd, rw, payload, sr).frame;
            var damaged := frame[6 := k / 256][7 := k % 256];
            Parse(damaged + trailing) != None <==>
            k <= n + |trailing| && (if k < n then payload[k] else trailing[k - n - 1]) == TAIL &&
            (Word(frame, 4) == 0 || Moved(Blank(cmd, rw, sr, payload), trailing, n, k) % 65535 == 0)
  {
    hide Checksum, Cleared, Stamped, Blank, Folded, Sum, Moved, Parse;
    var blank := Blank(cmd, rw, sr, payload);
    var frame, n := Stamped(blank), |payload|;
    BuiltFields(cmd, rw, sr, payload);
    StampedShape(blank);
    var raw := frame[6 := k / 256][7 := k % 256] + trailing;
    assert blank[..4][0] == blank[0];
    assert Word(raw, 6) == k && Word(raw, 4) == Word(frame, 4);
    PrefixAcceptedIff(raw, k);
    if k <= n + |trailing| {
      assert k < n ==> raw[8 + k] == blank[8 + k] == blank[8..8 + n][k] == payload[k];
      assert k > n ==> raw[8 + k] == trailing[k - n - 1];
      var parsed := (blank[6 := k / 256][7 := k % 256] + trailing)[..9 + k];
      assert Cleared(raw[..9 + k]) == parsed by { ClearedPrefix(frame, blank, trailing, k); }
      SumPositive(blank);
      SumPositive(parsed);
      ChecksumsSame(blank, parsed);
      ParsedSum(blank, trailing, n, k);
      var d := Moved(blank, trailing, n, k);
      if k < n { CongruentIffLost(Sum(parsed, false), d); } else { CongruentIffLost(Sum(blank, false), d); }
    }
  }

  /** Parse on any buffer whose length field says k. */
  lemma PrefixAcceptedIff(raw: seq<byte>, k: nat)
    requires |raw| >= 9 && Word(raw, 6) == k && raw[0] == HEAD
    ensures Parse(raw) != None <==>
            |raw| >= 9 + k && raw[8 + k] == TAIL &&
            (Word(raw, 4) == 0 || Word(raw, 4) == Checksum(Cleared(raw[..9 + k])))
  {
    hide Checksum, Cleared, Word;
  }

  lemma ClearedPrefix(frame: seq<byte>, blank: seq<byte>, trailing: seq<byte>, k: nat)
    requires 9 <= |frame| == |blank| && 9 + k <= |frame| + |trailing| && k <= 65535 && Cleared(frame) == blank
    ensures Cleared((frame[6 := k / 256][7 := k % 256] + trailing)[..9 + k]) ==
            (blank[6 := k / 256][7 := k % 256] + trailing)[..9 + k]
  {
  }

  lemma ChecksumsSame(a: seq<byte>, b: seq<byte>)
    requires Sum(a, false) > 0 && Sum(b, false) > 0
    ensures Checksum(a) == Checksum(b) <==> Sum(a, false) % 65535 == Sum(b, false) % 65535
  {
    hide Sum, Folded;
    FoldedSameIffCongruent(Sum(a, false), Sum(b, false));
  }

  lemma CongruentIffLost(a: nat, d: nat)
    ensures (a + d) % 65535 == a % 65535 <==> d % 65535 == 0
  {
    var r := d % 65535;
    assert a + d == (a + r) + 65535 * (d / 65535);
    ModPlus(a + r, d / 65535);
    if r != 0 { NearIsNotCongruent(a, a + r); }
  }

  lemma RelabelledSum(blank: seq<byte>, n: nat, k: nat)
    requires |blank| == 9 + n && n <= 65535 && k <= 65535 && Word(blank, 6) == n
    ensures Sum(blank[6 := k / 256][7 := k % 256], false) == Sum(blank, false) + k - n
  {
    hide Sum;
    SumUpdate(blank, 6, k / 256);
    SumUpdate(blank[6 := k / 256], 7, k % 256);
  }

  lemma ParsedSum(blank: seq<byte>, trailing: seq<byte>, n: nat, k: nat)
    requires |blank| == 9 + n && n <= 65535 && k <= 65535 && k != n && k <= n + |trailing| && Word(blank, 6) == n
    ensures var parsed := (blank[6 := k / 256][7 := k % 256] + trailing)[..9 + k];
            var d := Moved(blank, trailing, n, k);
            if k < n then Sum(blank, false) == Sum(parsed, false) + d else Sum(parsed, false) == Sum(blank, false) + d
  {
    hide Sum, Word;
    var relabelled := blank[6 := k / 256][7 := k % 256];
    var parsed := (relabelled + trailing)[..9 + k];
    RelabelledSum(blank, n, k);
    if k < n {
      assert relabelled == parsed + blank[9 + k..];
      SumConcat(parsed, blank[9 + k..], false);
    } else {
      assert parsed == relabelled + trailing[..k - n];
      SumConcat(relabelled, trailing[..k - n], false);
    }
  }

  /** A length cut from three to zero that the checksum does not notice. */
  lemma LengthDamageCanPass()
    ensures Build(1, 1, [0x10, 0xEC, 0xFF], 1).Ok?
    ensures Parse(Build(1, 1, [0x10, 0xEC, 0xFF], 1).frame[6 := 0][7 := 0]) != None
  {
    hide Checksum, Stamped, Parse;
    var payload: seq<byte> := [0x10, 0xEC, 0xFF];
    var blank := Blank(1, 1, 1, payload);
    assert blank[9..] == [0xEC, 0xFF, 0x10];
    assert Sum(blank[9..], true) == 0xEC + 0xFF00 + 0x10 by {
      assert blank[9..][1..] == [0xFF, 0x10] && [0xFF as byte, 0x10][1..] == [0x10];
      SumOne(0x10, true);
    }
    var damaged := Build(1, 1, payload, 1).frame[6 := 0][7 := 0];
    assert damaged + [] == damaged;
    LengthDamageAcceptedIff(1, 1, payload, 1, [], 0);
  }

  // ----- the frame, by number -----

  /** What is built, and what is refused. */
  lemma BuiltByNumber(cmd: int, rw: int, payload: seq<byte>, sr: int)
    ensures Build(cmd, rw, payload, sr).Ok? <==>
            0 <= cmd <= 255 && 0 <= rw <= 255 && 0 <= sr <= 255 && |payload| <= 65535
    ensures Build(cmd, rw, payload, sr).Ok? ==>
              var f, n := Build(cmd, rw, payload, sr).frame, |payload|;
              && |f| == 9 + n && f[0] == 0x68 && f[1] == cmd && f[2] == rw && f[3] == sr
              && 256 * Number(f[6]) + Number(f[7]) == n && f[8..8 + n] == payload && f[8 + n] == 0x10
  {
    hide Checksum, Sum;
    if Build(cmd, rw, payload, sr).Ok? {
      var blank, n := Blank(cmd, rw, sr, payload), |payload|;
      BuiltFields(cmd, rw, sr, payload);
      StampedShape(blank);
      assert blank[..4][0] == blank[0] && blank[..4][1] == blank[1] && blank[..4][2] == blank[2] && blank[..4][3] == blank[3];
      assert Stamped(blank)[8..8 + n] == blank[8..8 + n];
    }
  }

  /** What is parsed, and out of which places. */
  lemma ParsedByNumber(raw: seq<byte>)
    ensures Parse(raw).Some? <==>
            && |raw| >= 9 && raw[0] == 0x68
            && var n := 256 * Number(raw[6]) + Number(raw[7]);
               && |raw| >= 9 + n && raw[8 + n] == 0x10
               && var given := 256 * Number(raw[4]) + Number(raw[5]);
                  given == 0 || given == Checksum(raw[..9 + n][4 := 0][5 := 0])
    ensures Parse(raw).Some? ==>
              |raw| >= 9 + 256 * Number(raw[6]) + Number(raw[7]) &&
              Parse(raw) == Some(raw[1], raw[2], raw[3], raw[8..8 + 256 * Number(raw[6]) + Number(raw[7])])
  {
    hide Checksum, Sum;
  }
}
