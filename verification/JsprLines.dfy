/** The helper's serial reader: bulk reads of any size are cut into lines at
    carriage returns and parsed (cmd/jspr-helper/jspr_helper.py, lines 85 to 117
    and 156 to 173). Text is kept as byte codes. */
module JsprLines {
  import opened Options
  import opened Bytes

  const CR: byte := 13
  const SPACE: byte := 32
  const BRACE: byte := 0x7B
  const CLOSE: byte := 0x7D

  datatype Parsed = Parsed(code: int, target: seq<byte>, json: seq<byte>)

  // ----- one line -----

  predicate IsDigit(b: byte) { 48 <= b <= 57 }
  predicate IsSpace(b: byte) { b == 32 || 9 <= b <= 13 }

  /** Decoding drops whatever is not ASCII. */
  function Ascii(s: seq<byte>): seq<byte> {
    if s == [] then [] else if s[0] < 128 then [s[0]] + Ascii(s[1..]) else Ascii(s[1..])
  }

  function StripLeft(s: seq<byte>): seq<byte> {
    if s != [] && IsSpace(s[0]) then StripLeft(s[1..]) else s
  }

  function StripRight(s: seq<byte>): seq<byte> {
    if s != [] && IsSpace(s[|s| - 1]) then StripRight(s[..|s| - 1]) else s
  }

  function Strip(s: seq<byte>): seq<byte> {
    StripRight(StripLeft(s))
  }

  function SkipToDigit(s: seq<byte>): seq<byte> {
    if s != [] && !IsDigit(s[0]) then SkipToDigit(s[1..]) else s
  }

  /** The first place of b in s, or the length of s. */
  function Find(s: seq<byte>, b: byte): (i: nat)
    ensures i <= |s|
    ensures forall k :: 0 <= k < i ==> s[k] != b
    ensures i < |s| ==> s[i] == b
  {
    if s == [] || s[0] == b then 0 else 1 + Find(s[1..], b)
  }

  function Number(hundreds: int, tens: int, units: int): int {
    100 * hundreds + 10 * tens + units
  }

  /** Three digits. Anything else either is no number to the parser or is one
      below 100, which the range test refuses just the same. */
  function CodeOf(text: seq<byte>): Option<int>
    requires |text| >= 3
  {
    if IsDigit(text[0]) && IsDigit(text[1]) && IsDigit(text[2])
    then Some(Number(text[0] - 48, text[1] - 48, text[2] - 48))
    else None
  }

  function ParseLine(raw: seq<byte>): Option<Parsed> {
    var text := SkipToDigit(Ascii(raw));
    if |text| < 3 || CodeOf(text).None? || CodeOf(text).value < 200 || CodeOf(text).value > 500 then None
    else
      var code := CodeOf(text).value;
      var rest := if |text| < 4 then [] else text[4..];
      var space := Find(rest, SPACE);
      if space == |rest| then Some(Parsed(code, rest, [BRACE, CLOSE]))
      else
        var remainder := rest[space + 1..];
        var brace := Find(remainder, BRACE);
        Some(Parsed(code, rest[..space], if brace < |remainder| then remainder[brace..] else [BRACE, CLOSE]))
  }

  /** A parsed line's body always opens as an object, so a body that is JSON at all
      is an object. */
  lemma BodyOpensAsObject(raw: seq<byte>)
    ensures ParseLine(raw).Some? ==> ParseLine(raw).value.json != [] && ParseLine(raw).value.json[0] == 0x7B
  {
  }

  /** The text begins at place p: no digit before it, three from it on, and they make a
      number from 200 to 500. */
  ghost predicate CodeAt(text: seq<byte>, p: int) {
    && 0 <= p && p + 2 < |text|
    && (forall i :: 0 <= i < p ==> !(48 <= text[i] <= 57))
    && 48 <= text[p] <= 57 && 48 <= text[p + 1] <= 57 && 48 <= text[p + 2] <= 57
    && 200 <= 100 * Digit(text[p]) + 10 * Digit(text[p + 1]) + Digit(text[p + 2]) <= 500
  }

  function Digit(b: byte): int { b - 48 }

  lemma {:induction false} SkipsTo(s: seq<byte>) returns (p: nat)
    ensures p <= |s| && SkipToDigit(s) == s[p..]
    ensures forall i :: 0 <= i < p ==> !IsDigit(s[i])
    ensures p < |s| ==> IsDigit(s[p])
  {
    if s == [] || IsDigit(s[0]) {
      p := 0;
      assert s[0..] == s;
    } else {
      var q := SkipsTo(s[1..]);
      p := q + 1;
      assert s[1..][q..] == s[p..];
      assert forall i :: 1 <= i < p ==> s[i] == s[1..][i - 1];
    }
  }

  /** Exactly which lines parse, and to which code. */
  lemma ParsesIff(raw: seq<byte>)
    ensures ParseLine(raw).Some? <==> exists p :: CodeAt(Ascii(raw), p)
    ensures forall p :: CodeAt(Ascii(raw), p) ==>
              ParseLine(raw).Some? && var t := Ascii(raw);
              ParseLine(raw).value.code == 100 * Digit(t[p]) + 10 * Digit(t[p + 1]) + Digit(t[p + 2])
  {
    hide Ascii, ParseLine;
    var t := Ascii(raw);
    var p := SkipsTo(t);
    ParsesAt(raw, p);
    forall q | CodeAt(t, q) ensures q == p {
      OnlyStart(t, p, q);
    }
  }

  lemma OnlyStart(t: seq<byte>, p: nat, q: int)
    requires CodeAt(t, q) && p <= |t|
    requires (forall i :: 0 <= i < p ==> !IsDigit(t[i])) && (p < |t| ==> IsDigit(t[p]))
    ensures p == q
  {
  }

  lemma ParsesAt(raw: seq<byte>, p: nat)
    requires var t := Ascii(raw);
             && p <= |t| && SkipToDigit(t) == t[p..] && (forall i :: 0 <= i < p ==> !IsDigit(t[i]))
             && (p < |t| ==> IsDigit(t[p]))
    ensures ParseLine(raw).Some? <==> CodeAt(Ascii(raw), p)
    ensures ParseLine(raw).Some? ==>
              var t := Ascii(raw);
              ParseLine(raw).value.code == 100 * Digit(t[p]) + 10 * Digit(t[p + 1]) + Digit(t[p + 2])
  {
    hide SkipToDigit, Ascii, Find;
    var t := Ascii(raw);
    var text := t[p..];
    if |text| >= 3 { assert text[0] == t[p] && text[1] == t[p + 1] && text[2] == t[p + 2]; }
  }

  /** A blank line or one that does not parse delivers nothing. */
  function Deliver(raw: seq<byte>): seq<Parsed> {
    var line := Strip(raw);
    if line == [] || ParseLine(line).None? then [] else [ParseLine(line).value]
  }

  function Collect<T>(f: seq<byte> -> seq<T>, raws: seq<seq<byte>>): seq<T> {
    if raws == [] then [] else f(raws[0]) + Collect(f, raws[1..])
  }

  function ParseAll(raws: seq<seq<byte>>): seq<Parsed> {
    Collect(Deliver, raws)
  }

  // ----- cutting a buffer -----

  /** The complete lines of a buffer and the partial one left over. */
  function Cut(buf: seq<byte>): (seq<seq<byte>>, seq<byte>) {
    var i := Find(buf, CR);
    if i == |buf| then ([], buf)
    else
      var (lines, rest) := Cut(buf[i + 1..]);
      ([buf[..i]] + lines, rest)
  }

  /** What the reader holds after a series of reads, and what it delivered. */
  function ReadAll(buf: seq<byte>, chunks: seq<seq<byte>>): (seq<Parsed>, seq<byte>)
    decreases |chunks|
  {
    if chunks == [] then ([], buf)
    else
      var (raws, left) := Cut(buf + chunks[0]);
      var (lines, rest) := ReadAll(left, chunks[1..]);
      (ParseAll(raws) + lines, rest)
  }

  class Reader {
    var rxBuf: seq<byte>

    constructor ()
      ensures rxBuf == []
    {
      rxBuf := [];
    }

    /** One bulk read; data is what the port held, possibly nothing. */
    method SerialReadLines(data: seq<byte>) returns (lines: seq<Parsed>)
      modifies this
      ensures lines == ParseAll(Cut(old(rxBuf) + data).0)
      ensures rxBuf == Cut(old(rxBuf) + data).1
    {
      hide Cut, ParseAll, Deliver;
      lines := [];
      rxBuf := rxBuf + data;
      ghost var all, total := rxBuf, ParseAll(Cut(rxBuf).0);
      while CR in rxBuf
        invariant lines + ParseAll(Cut(rxBuf).0) == total
        invariant Cut(rxBuf).1 == Cut(all).1
        decreases |rxBuf|
      {
        FirstLine(lines, rxBuf);
        var i := Find(rxBuf, CR);
        var got := DeliverOne(rxBuf[..i]);
        rxBuf := rxBuf[i + 1..];
        lines := lines + got;
      }
      NoLineLeft(lines, rxBuf);
    }

    method DeliverOne(raw: seq<byte>) returns (got: seq<Parsed>)
      ensures got == Deliver(raw)
    {
      got := [];
      var line := Strip(raw);
      if line != [] {
        var parsed := ParseLine(line);
        if parsed.Some? {
          got := [parsed.value];
        }
      }
    }
  }

  lemma FirstLine(lines: seq<Parsed>, buf: seq<byte>)
    requires CR in buf
    ensures var i := Find(buf, CR);
            && i < |buf| && Cut(buf).1 == Cut(buf[i + 1..]).1
            && lines + ParseAll(Cut(buf).0) == lines + Deliver(buf[..i]) + ParseAll(Cut(buf[i + 1..]).0)
  {
    hide Cut, Collect, Deliver;
    var i := Find(buf, CR);
    CollectCut(Deliver, buf);
    var got, later := Deliver(buf[..i]), ParseAll(Cut(buf[i + 1..]).0);
    assert lines + (got + later) == lines + got + later;
  }

  lemma NoLineLeft(lines: seq<Parsed>, buf: seq<byte>)
    requires CR !in buf
    ensures Cut(buf).1 == buf && lines + ParseAll(Cut(buf).0) == lines
  {
    hide Cut, Collect, Deliver;
    CutPartial(buf);
    CutNothing(Deliver);
  }

  lemma CollectCut<T>(f: seq<byte> -> seq<T>, buf: seq<byte>)
    requires CR in buf
    ensures Find(buf, CR) < |buf|
    ensures var i := Find(buf, CR); Collect(f, Cut(buf).0) == f(buf[..i]) + Collect(f, Cut(buf[i + 1..]).0)
    ensures Cut(buf).1 == Cut(buf[Find(buf, CR) + 1..]).1
  {
    var i := Find(buf, CR);
    var later := Cut(buf[i + 1..]).0;
    CutUnfold(buf);
    CollectCons(f, buf[..i], later);
  }

  lemma CutPartial(buf: seq<byte>)
    requires CR !in buf
    ensures Cut(buf) == ([], buf)
  {
  }

  lemma CutUnfold(buf: seq<byte>)
    requires CR in buf
    ensures var i := Find(buf, CR); i < |buf| && Cut(buf) == ([buf[..i]] + Cut(buf[i + 1..]).0, Cut(buf[i + 1..]).1)
  {
    hide Find;
    var i := Find(buf, CR);
    assert i < |buf|;
    var later := Cut(buf[i + 1..]);
    assert later == (later.0, later.1);
  }

  lemma CollectCons<T>(f: seq<byte> -> seq<T>, first: seq<byte>, later: seq<seq<byte>>)
    ensures Collect(f, [first] + later) == f(first) + Collect(f, later)
  {
    assert ([first] + later)[1..] == later;
  }

  // ----- reads of any size give the same lines -----

  lemma {:induction false} CollectConcat<T>(f: seq<byte> -> seq<T>, a: seq<seq<byte>>, b: seq<seq<byte>>)
    ensures Collect(f, a + b) == Collect(f, a) + Collect(f, b)
  {
    if a == [] {
      assert a + b == b;
    } else {
      CollectConcat(f, a[1..], b);
      assert (a + b)[1..] == a[1..] + b;
      var first := f(a[0]);
      assert first + (Collect(f, a[1..]) + Collect(f, b)) == first + Collect(f, a[1..]) + Collect(f, b);
    }
  }

  lemma FindIs(s: seq<byte>, b: byte, i: nat)
    requires i <= |s| && (forall k :: 0 <= k < i ==> s[k] != b) && (i < |s| ==> s[i] == b)
    ensures Find(s, b) == i
  {
  }

  /** Cutting a longer buffer is cutting its front, then what is left with the rest. */
  lemma {:induction false} CutConcat(a: seq<byte>, b: seq<byte>)
    ensures CR !in Cut(a).1
    ensures Cut(a + b) == (Cut(a).0 + Cut(Cut(a).1 + b).0, Cut(Cut(a).1 + b).1)
    decreases |a|
  {
    hide Cut;
    var i := Find(a, CR);
    if i == |a| {
      CutPartial(a);
      assert [] + Cut(a + b).0 == Cut(a + b).0;
    } else {
      CutConcat(a[i + 1..], b);
      CutUnfold(a);
      FindIs(a + b, CR, i);
      assert (a + b)[i] == CR;
      CutUnfold(a + b);
      assert (a + b)[i + 1..] == a[i + 1..] + b;
      assert (a + b)[..i] == a[..i];
      var first, more, last := [a[..i]], Cut(a[i + 1..]).0, Cut(Cut(a[i + 1..]).1 + b).0;
      assert first + (more + last) == first + more + last;
    }
  }

  /** Any partition of the same bytes into reads delivers the same lines and
      leaves the same partial line: those of one single read. */
  lemma {:induction false} ChunkingDoesNotMatter(buf: seq<byte>, chunks: seq<seq<byte>>)
    requires CR !in buf
    ensures var whole := Cut(buf + Flatten(chunks)); ReadAll(buf, chunks) == (ParseAll(whole.0), whole.1)
    decreases |chunks|
  {
    if chunks == [] {
      assert buf + Flatten(chunks) == buf;
      FindIs(buf, CR, |buf|);
    } else {
      var c, later := chunks[0], Flatten(chunks[1..]);
      CutConcat(buf + c, later);
      var (raws, left) := Cut(buf + c);
      ChunkingDoesNotMatter(left, chunks[1..]);
      assert buf + Flatten(chunks) == buf + c + later;
      CollectConcat(Deliver, raws, Cut(left + later).0);
    }
  }

  // ----- well-formed lines come back as they were sent -----

  ghost predicate WellFormed(m: Parsed) {
    && 200 <= m.code <= 500
    && (forall i :: 0 <= i < |m.target| ==> m.target[i] < 128 && m.target[i] != SPACE && m.target[i] != CR)
    && |m.json| >= 2 && m.json[0] == BRACE && m.json[|m.json| - 1] == CLOSE
    && (forall i :: 0 <= i < |m.json| ==> m.json[i] < 128 && m.json[i] != CR)
  }

  function Render(m: Parsed): seq<byte>
    requires 200 <= m.code <= 500
  {
    var digits: seq<byte> := [48 + m.code / 100, 48 + m.code / 10 % 10, 48 + m.code % 10];
    digits + [32] + m.target + [32] + m.json
  }

  lemma {:induction false} AsciiOnly(s: seq<byte>)
    requires forall i :: 0 <= i < |s| ==> s[i] < 128
    ensures Ascii(s) == s
  {
    if s != [] { AsciiOnly(s[1..]); }
  }

  lemma RenderBytes(m: Parsed)
    requires WellFormed(m)
    ensures forall i :: 0 <= i < |Render(m)| ==> Render(m)[i] < 128 && Render(m)[i] != CR
    ensures Strip(Render(m)) == Render(m)
  {
    DigitsBack(m.code);
    var text := Render(m);
    assert text[|text| - 1] == CLOSE;
    assert StripLeft(text) == text;
  }

  lemma RenderParses(m: Parsed)
    requires WellFormed(m)
    ensures ParseLine(Render(m)) == Some(m)
  {
    assert [] + Render(m) == Render(m);
    JunkSkipped(m, []);
  }

  /** Whatever stands before the first digit of a line, as after a restart of the
      modem, is skipped. */
  lemma JunkSkipped(m: Parsed, junk: seq<byte>)
    requires WellFormed(m) && forall i :: 0 <= i < |junk| ==> !(48 <= junk[i] <= 57)
    ensures ParseLine(junk + Render(m)) == Some(m)
  {
    hide Find, Strip, Ascii, SkipToDigit;
    RenderBytes(m);
    var text := Render(m);
    AsciiConcat(junk, text);
    AsciiOnly(text);
    AsciiOf(junk);
    DigitsBack(m.code);
    SkipJunk(Ascii(junk), text);
    assert CodeOf(text) == Some(m.code);
    assert text[4..] == m.target + [SPACE] + m.json;
    FieldsBack(m);
  }

  lemma {:induction false} AsciiConcat(a: seq<byte>, b: seq<byte>)
    ensures Ascii(a + b) == Ascii(a) + Ascii(b)
  {
    if a == [] {
      assert a + b == b;
    } else {
      assert (a + b)[1..] == a[1..] + b && (a + b)[0] == a[0];
      AsciiConcat(a[1..], b);
    }
  }

  lemma {:induction false} AsciiOf(s: seq<byte>)
    requires forall i :: 0 <= i < |s| ==> !IsDigit(s[i])
    ensures forall i :: 0 <= i < |Ascii(s)| ==> !IsDigit(Ascii(s)[i])
  {
    if s != [] { AsciiOf(s[1..]); }
  }

  lemma {:induction false} SkipJunk(junk: seq<byte>, text: seq<byte>)
    requires (forall i :: 0 <= i < |junk| ==> !IsDigit(junk[i])) && text != [] && IsDigit(text[0])
    ensures SkipToDigit(junk + text) == text
  {
    if junk == [] {
      assert junk + text == text;
    } else {
      assert (junk + text)[1..] == junk[1..] + text;
      SkipJunk(junk[1..], text);
    }
  }

  /** The reader delivers such a line too, without the white space around it. */
  lemma JunkDelivered(m: Parsed, junk: seq<byte>, tail: seq<byte>)
    requires WellFormed(m) && forall i :: 0 <= i < |junk| ==> !(48 <= junk[i] <= 57)
    requires forall i :: 0 <= i < |tail| ==> tail[i] == 32 || 9 <= tail[i] <= 13
    ensures Deliver(junk + (Render(m) + tail)) == [m]
  {
    hide ParseLine, Render;
    RenderEndsClosed(m);
    var k := StripJunk(junk, Render(m) + tail);
    var line := junk[k..] + Render(m);
    assert junk[k..] + (Render(m) + tail) == line + tail;
    StripRightKeeps(line);
    StripTail(line, tail);
    JunkSkipped(m, junk[k..]);
  }

  lemma {:induction false} StripTail(line: seq<byte>, tail: seq<byte>)
    requires forall i :: 0 <= i < |tail| ==> IsSpace(tail[i])
    ensures StripRight(line + tail) == StripRight(line)
    decreases |tail|
  {
    if tail == [] {
      assert line + tail == line;
    } else {
      var n := |tail| - 1;
      assert (line + tail)[..|line + tail| - 1] == line + tail[..n] && (line + tail)[|line + tail| - 1] == tail[n];
      StripTail(line, tail[..n]);
    }
  }

  ghost predicate RenderEnds(m: Parsed)
    requires 200 <= m.code <= 500
  {
    |Render(m)| > 0 && Render(m)[|Render(m)| - 1] == CLOSE && IsDigit(Render(m)[0])
  }

  lemma RenderEndsClosed(m: Parsed)
    requires WellFormed(m)
    ensures RenderEnds(m)
  {
    DigitsBack(m.code);
  }

  lemma StripRightKeeps(s: seq<byte>)
    requires s != [] && s[|s| - 1] == CLOSE
    ensures StripRight(s) == s
  {
  }

  lemma {:induction false} StripJunk(junk: seq<byte>, text: seq<byte>) returns (k: nat)
    requires text != [] && IsDigit(text[0])
    ensures k <= |junk| && StripLeft(junk + text) == junk[k..] + text
  {
    if junk == [] || !IsSpace(junk[0]) {
      k := 0;
      assert junk[0..] == junk;
    } else {
      assert (junk + text)[1..] == junk[1..] + text;
      k := StripJunk(junk[1..], text);
      k := k + 1;
    }
  }

  /** The three bytes of a code. */
  function CodeBytes(code: int): seq<byte>
    requires 200 <= code <= 500
  {
    [48 + code / 100, 48 + code / 10 % 10, 48 + code % 10]
  }

  /** What the text behind the code says. */
  function RestOf(code: int, rest: seq<byte>): Parsed {
    var space := Find(rest, SPACE);
    if space == |rest| then Parsed(code, rest, [BRACE, CLOSE])
    else
      var remainder := rest[space + 1..];
      var brace := Find(remainder, BRACE);
      Parsed(code, rest[..space], if brace < |remainder| then remainder[brace..] else [BRACE, CLOSE])
  }

  lemma HeadParses(code: int, rest: seq<byte>)
    requires 200 <= code <= 500 && forall i :: 0 <= i < |rest| ==> rest[i] < 128
    ensures ParseLine(CodeBytes(code) + [32] + rest) == Some(RestOf(code, rest))
  {
    hide Find, Ascii, SkipToDigit;
    var text := CodeBytes(code) + [32] + rest;
    DigitsBack(code);
    AsciiOnly(text);
    assert [] + text == text;
    SkipJunk([], text);
    assert CodeOf(text) == Some(code);
    assert text[4..] == rest;
  }

  lemma SpaceAfter(target: seq<byte>, rest: seq<byte>)
    requires forall i :: 0 <= i < |target| ==> target[i] != SPACE
    ensures var s := target + [32] + rest;
            Find(s, SPACE) == |target| && s[..|target|] == target && s[|target| + 1..] == rest
  {
    var s := target + [32] + rest;
    FindIs(s, SPACE, |target|);
  }

  /** A line without a body has an empty one. */
  lemma BareLineParses(code: int, target: seq<byte>)
    requires 200 <= code <= 500 && forall i :: 0 <= i < |target| ==> target[i] < 128 && target[i] != 32
    ensures ParseLine(CodeBytes(code) + [32] + target) == Some(Parsed(code, target, [0x7B, 0x7D]))
  {
    hide ParseLine, Find;
    HeadParses(code, target);
    FindIs(target, SPACE, |target|);
  }

  /** What stands between target and body is dropped, and without a body all of it. */
  lemma GapDropped(code: int, target: seq<byte>, gap: seq<byte>, json: seq<byte>)
    requires 200 <= code <= 500 && forall i :: 0 <= i < |target| ==> target[i] < 128 && target[i] != 32
    requires forall i :: 0 <= i < |gap| ==> gap[i] < 128 && gap[i] != 0x7B
    requires (forall i :: 0 <= i < |json| ==> json[i] < 128) && (json != [] ==> json[0] == 0x7B)
    ensures ParseLine(CodeBytes(code) + [32] + (target + [32] + (gap + json))) ==
            Some(Parsed(code, target, if json != [] then json else [0x7B, 0x7D]))
  {
    hide ParseLine, Find;
    var rest := gap + json;
    HeadParses(code, target + [32] + rest);
    SpaceAfter(target, rest);
    if json != [] { assert rest[|gap|] == BRACE; }
    FindIs(rest, BRACE, |gap|);
    assert rest[|gap|..] == json;
  }

  lemma FieldsBack(m: Parsed)
    requires WellFormed(m)
    ensures var rest := m.target + [SPACE] + m.json;
            Find(rest, SPACE) == |m.target| && rest[..|m.target|] == m.target && rest[|m.target| + 1..] == m.json
    ensures Find(m.json, BRACE) == 0
  {
    var rest := m.target + [SPACE] + m.json;
    FindIs(rest, SPACE, |m.target|);
    FindIs(m.json, BRACE, 0);
  }

  lemma DigitsBack(code: int)
    requires 200 <= code <= 500
    ensures Number(code / 100, code / 10 % 10, code % 10) == code
    ensures 0 <= code / 100 <= 5 && 0 <= code / 10 % 10 <= 9
  {
    assert code / 10 / 10 == code / 100;
  }

  ghost function Transmit(ms: seq<Parsed>): seq<byte>
    requires forall i :: 0 <= i < |ms| ==> WellFormed(ms[i])
  {
    if ms == [] then [] else assert WellFormed(ms[0]); Render(ms[0]) + [13] + Transmit(ms[1..])
  }

  lemma CutNothing<T>(f: seq<byte> -> seq<T>)
    ensures Cut([]) == ([], []) && Collect(f, []) == []
  {
  }

  lemma {:induction false} CutTransmit(ms: seq<Parsed>)
    requires forall i :: 0 <= i < |ms| ==> WellFormed(ms[i])
    ensures ParseAll(Cut(Transmit(ms)).0) == ms && Cut(Transmit(ms)).1 == []
  {
    hide Render, Cut, Deliver, Collect;
    CutNothing(Deliver);
    if ms != [] {
      assert WellFormed(ms[0]);
      RenderBytes(ms[0]);
      CutTransmit(ms[1..]);
      DeliverRendered(ms[0]);
      CutFirst(Deliver, Render(ms[0]), Transmit(ms[1..]));
    }
  }

  lemma DeliverRendered(m: Parsed)
    requires WellFormed(m)
    ensures Deliver(Render(m)) == [m]
  {
    RenderBytes(m);
    RenderParses(m);
  }

  lemma CutFirst<T>(f: seq<byte> -> seq<T>, line: seq<byte>, later: seq<byte>)
    requires forall i :: 0 <= i < |line| ==> line[i] != CR
    ensures Collect(f, Cut(line + [CR] + later).0) == f(line) + Collect(f, Cut(later).0)
    ensures Cut(line + [CR] + later).1 == Cut(later).1
  {
    var buf := line + [CR] + later;
    assert buf[|line|] == CR;
    FindIs(buf, CR, |line|);
    CollectCut(f, buf);
    assert buf[|line| + 1..] == later;
    assert buf[..|line|] == line;
  }

  /** However the modem's lines are broken into reads, the reader delivers
      exactly those lines, in order, and holds nothing back. */
  lemma ReaderDeliversTransmission(ms: seq<Parsed>, chunks: seq<seq<byte>>)
    requires forall i :: 0 <= i < |ms| ==> WellFormed(ms[i])
    requires Flatten(chunks) == Transmit(ms)
    ensures ReadAll([], chunks) == (ms, [])
  {
    ChunkingDoesNotMatter([], chunks);
    assert [] + Flatten(chunks) == Transmit(ms);
    CutTransmit(ms);
  }
}
