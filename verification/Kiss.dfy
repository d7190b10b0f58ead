/** KISS escaping and streaming de-framing (the KISS TNC protocol of Chepponis and
    Karn), as both radio simulators have it (scripts/fake_rnode.py, lines 17 to 40
    and 77 to 84; scripts/fake_kiss_tnc.py, lines 18 to 34 and 54 to 62). */
module Kiss {
  import opened Bytes

  const FEND: byte := 0xC0
  const FESC: byte := 0xDB
  const TFEND: byte := 0xDC
  const TFESC: byte := 0xDD

  // ----- escaping -----

  /** Replace every occurrence of one byte. */
  function Replace(s: seq<byte>, b: byte, sub: seq<byte>): seq<byte> {
    if s == [] then [] else (if s[0] == b then sub else [s[0]]) + Replace(s[1..], b, sub)
  }

  /** Two passes: first the escape byte, then the delimiter. */
  function Escape(s: seq<byte>): seq<byte> {
    Replace(Replace(s, FESC, [FESC, TFESC]), FEND, [FESC, TFEND])
  }

  function Code(b: byte): seq<byte> {
    if b == FESC then [FESC, TFESC] else if b == FEND then [FESC, TFEND] else [b]
  }

  function OnePass(s: seq<byte>): seq<byte> {
    if s == [] then [] else Code(s[0]) + OnePass(s[1..])
  }

  lemma {:induction false} ReplaceConcat(a: seq<byte>, c: seq<byte>, b: byte, sub: seq<byte>)
    ensures Replace(a + c, b, sub) == Replace(a, b, sub) + Replace(c, b, sub)
  {
    if a == [] {
      assert a + c == c;
    } else {
      assert (a + c)[1..] == a[1..] + c;
      ReplaceConcat(a[1..], c, b, sub);
    }
  }

  /** The second pass leaves the first pass's work alone. */
  lemma {:induction false} TwoPassesAreOne(s: seq<byte>)
    ensures Escape(s) == OnePass(s)
  {
    if s != [] {
      var first := if s[0] == FESC then [FESC, TFESC] else [s[0]];
      ReplaceConcat(first, Replace(s[1..], FESC, [FESC, TFESC]), FEND, [FESC, TFEND]);
      ReplaceShort(s[0]);
      TwoPassesAreOne(s[1..]);
    }
  }

  lemma ReplaceShort(b: byte)
    ensures Replace(if b == FESC then [FESC, TFESC] else [b], FEND, [FESC, TFEND]) == Code(b)
  {
    if b == FESC {
      assert [FESC, TFESC][1..] == [TFESC] && [TFESC][1..] == [];
      assert Replace([TFESC], FEND, [FESC, TFEND]) == [TFESC] + Replace([], FEND, [FESC, TFEND]);
    } else {
      assert [b][1..] == [];
    }
  }

  function Plain(c: byte): byte {
    if c == TFEND then FEND else if c == TFESC then FESC else c
  }

  function Unescape(s: seq<byte>, esc: bool): seq<byte> {
    if s == [] then []
    else if esc then [Plain(s[0])] + Unescape(s[1..], false)
    else if s[0] == FESC then Unescape(s[1..], true)
    else [s[0]] + Unescape(s[1..], false)
  }

  method UnescapeBytes(b: seq<byte>) returns (out: seq<byte>)
    ensures out == Unescape(b, false)
  {
    out := [];
    var esc := false;
    for k := 0 to |b|
      invariant out + Unescape(b[k..], esc) == Unescape(b, false)
    {
      var c := b[k];
      assert b[k..][1..] == b[k + 1..];
      if esc {
        out := out + [Plain(c)];
        esc := false;
      } else if c == FESC {
        esc := true;
      } else {
        out := out + [c];
      }
    }
  }

  lemma {:induction false} UnescapeOnePass(s: seq<byte>)
    ensures Unescape(OnePass(s), false) == s
  {
    if s != [] {
      UnescapeOnePass(s[1..]);
      UnescapeCode(s[0], OnePass(s[1..]));
    }
  }

  lemma UnescapeCode(b: byte, rest: seq<byte>)
    ensures Unescape(Code(b) + rest, false) == [b] + Unescape(rest, false)
  {
    var all := Code(b) + rest;
    if b == FESC || b == FEND {
      assert all[1..] == [Code(b)[1]] + rest && all[1..][1..] == rest;
    } else {
      assert all[1..] == rest;
    }
  }

  /** Escaped bytes hold no delimiter and unescape to what they were. */
  lemma EscapeComesBack(s: seq<byte>)
    ensures Unescape(Escape(s), false) == s && FEND !in Escape(s)
  {
    TwoPassesAreOne(s);
    UnescapeOnePass(s);
    NoDelimiter(s);
  }

  lemma {:induction false} NoDelimiter(s: seq<byte>)
    ensures FEND !in OnePass(s)
  {
    if s != [] { NoDelimiter(s[1..]); }
  }

  // ----- the streaming parser -----

  datatype Rx = Rx(buf: seq<byte>, inFrame: bool)

  const IDLE := Rx([], false)

  /** What a delimiter closes: the buffer, if a frame is open and not empty. */
  function Closed(s: Rx): seq<seq<byte>> {
    if s.inFrame && s.buf != [] then [s.buf] else []
  }

  function TakeByte(s: Rx, c: byte): Rx {
    if c == FEND then Rx([], true) else if s.inFrame then Rx(s.buf + [c], true) else s
  }

  function RxAfter(s: Rx, data: seq<byte>): Rx
    decreases |data|
  {
    if data == [] then s else RxAfter(TakeByte(s, data[0]), data[1..])
  }

  /** The raw frames delivered while data is fed. */
  function Raws(s: Rx, data: seq<byte>): seq<seq<byte>>
    decreases |data|
  {
    if data == [] then [] else (if data[0] == FEND then Closed(s) else []) + Raws(TakeByte(s, data[0]), data[1..])
  }

  function RawsOf(s: Rx, chunks: seq<seq<byte>>): seq<seq<byte>>
    decreases |chunks|
  {
    if chunks == [] then [] else Raws(s, chunks[0]) + RawsOf(RxAfter(s, chunks[0]), chunks[1..])
  }

  lemma {:induction false} FeedConcat(s: Rx, a: seq<byte>, b: seq<byte>)
    ensures RxAfter(s, a + b) == RxAfter(RxAfter(s, a), b)
    ensures Raws(s, a + b) == Raws(s, a) + Raws(RxAfter(s, a), b)
    decreases |a|
  {
    if a == [] {
      assert a + b == b;
    } else {
      assert (a + b)[1..] == a[1..] + b && (a + b)[0] == a[0];
      FeedConcat(TakeByte(s, a[0]), a[1..], b);
    }
  }

  lemma FeedOne(s: Rx, c: byte)
    ensures RxAfter(s, [c]) == TakeByte(s, c) && Raws(s, [c]) == if c == FEND then Closed(s) else []
  {
    var s1 := TakeByte(s, c);
    assert [c][1..] == [];
    assert RxAfter(s1, []) == s1 && Raws(s1, []) == [];
  }

  /** Chunking does not matter to what is delivered. */
  lemma {:induction false} ChunksDeliverTheSame(s: Rx, chunks: seq<seq<byte>>)
    ensures RawsOf(s, chunks) == Raws(s, Flatten(chunks))
    decreases |chunks|
  {
    if chunks != [] {
      ChunksDeliverTheSame(RxAfter(s, chunks[0]), chunks[1..]);
      FeedConcat(s, chunks[0], Flatten(chunks[1..]));
    }
  }

  lemma {:induction false} BodyGathers(buf: seq<byte>, body: seq<byte>)
    requires FEND !in body
    ensures RxAfter(Rx(buf, true), body) == Rx(buf + body, true) && Raws(Rx(buf, true), body) == []
    decreases |body|
  {
    if body == [] {
      assert buf + body == buf;
    } else {
      BodyGathers(buf + [body[0]], body[1..]);
      assert buf + [body[0]] + body[1..] == buf + body;
    }
  }

  // ----- frames -----

  datatype Message = Message(cmd: byte, payload: seq<byte>)

  function Frame(m: Message): seq<byte> {
    [FEND, m.cmd] + Escape(m.payload) + [FEND]
  }

  function Stream(ms: seq<Message>): seq<byte> {
    if ms == [] then [] else Frame(ms[0]) + Stream(ms[1..])
  }

  function Decode(raw: seq<byte>): Message
    requires raw != []
  {
    Message(raw[0], Unescape(raw[1..], false))
  }

  function RawOf(m: Message): seq<byte> {
    [m.cmd] + Escape(m.payload)
  }

  /** What a parser makes of one frame. A delimiter for a command only opens the
      frame once more, so the payload's first escaped byte becomes the command. */
  function OnWire(m: Message): seq<Message> {
    if m.cmd != FEND then [m]
    else if m.payload == [] then []
    else
      var code, rest := Code(m.payload[0]), m.payload[1..];
      [Message(code[0], code[1..] + rest)]
  }

  function Seen(ms: seq<Message>): seq<Message> {
    if ms == [] then [] else OnWire(ms[0]) + Seen(ms[1..])
  }

  /** The bodies between the delimiters of a frame. */
  function Bodies(m: Message): seq<seq<byte>> {
    if m.cmd != FEND then [RawOf(m)] else if m.payload == [] then [] else [Escape(m.payload)]
  }

  function BodiesOf(ms: seq<Message>): seq<seq<byte>> {
    if ms == [] then [] else Bodies(ms[0]) + BodiesOf(ms[1..])
  }

  lemma Delimiter(s: Rx)
    ensures RxAfter(s, [FEND]) == Rx([], true) && Raws(s, [FEND]) == Closed(s)
  {
    FeedOne(s, FEND);
  }

  lemma Wrapped(s: Rx, body: seq<byte>)
    requires FEND !in body
    ensures Raws(s, [FEND] + body + [FEND]) == Closed(s) + if body == [] then [] else [body]
    ensures RxAfter(s, [FEND] + body + [FEND]) == Rx([], true)
  {
    FeedConcat(s, [FEND] + body, [FEND]);
    FeedConcat(s, [FEND], body);
    BodyGathers([], body);
    assert [] + body == body;
    Delimiter(s);
    Delimiter(Rx(body, true));
  }

  /** A frame first closes what was open, then delivers its bodies. */
  lemma FrameDelivers(s: Rx, m: Message)
    ensures Raws(s, Frame(m)) == Closed(s) + Bodies(m) && RxAfter(s, Frame(m)) == Rx([], true)
  {
    hide Escape, Raws, RxAfter;
    EscapeComesBack(m.payload);
    NothingEscaped(m.payload);
    var esc := Escape(m.payload);
    if m.cmd != FEND {
      assert Frame(m) == [FEND] + RawOf(m) + [FEND];
      Wrapped(s, RawOf(m));
    } else {
      assert Frame(m) == [FEND] + ([FEND] + esc + [FEND]);
      FeedConcat(s, [FEND], [FEND] + esc + [FEND]);
      Delimiter(s);
      Wrapped(Rx([], true), esc);
    }
  }

  lemma NothingEscaped(s: seq<byte>)
    ensures Escape(s) == [] <==> s == []
  {
    TwoPassesAreOne(s);
  }

  lemma {:induction false} StreamDelivers(s: Rx, ms: seq<Message>)
    ensures Raws(s, Stream(ms)) == (if ms == [] then [] else Closed(s)) + BodiesOf(ms)
    decreases |ms|
  {
    hide Frame, Bodies, Closed, Raws, RxAfter;
    NothingToFeed(s);
    if ms != [] {
      FrameDelivers(s, ms[0]);
      FeedConcat(s, Frame(ms[0]), Stream(ms[1..]));
      StreamDelivers(Rx([], true), ms[1..]);
      NothingOpen();
      var first, rest := Bodies(ms[0]), BodiesOf(ms[1..]);
      assert Raws(Rx([], true), Stream(ms[1..])) == rest;
      assert Closed(s) + first + rest == Closed(s) + (first + rest);
    }
  }

  lemma NothingToFeed(s: Rx)
    ensures Raws(s, []) == []
  {
  }

  lemma NothingOpen()
    ensures Closed(Rx([], true)) == [] && Closed(IDLE) == []
  {
  }

  // ----- what the delivered frames decode to -----

  ghost predicate Decodes(raws: seq<seq<byte>>, ms: seq<Message>) {
    |raws| == |ms| && forall i :: 0 <= i < |raws| ==> raws[i] != [] && Decode(raws[i]) == ms[i]
  }

  lemma DecodesConcat(a: seq<seq<byte>>, b: seq<seq<byte>>, ms: seq<Message>, ns: seq<Message>)
    requires Decodes(a, ms) && Decodes(b, ns)
    ensures Decodes(a + b, ms + ns)
  {
    hide Decode;
  }

  lemma DecodeRaw(m: Message)
    ensures RawOf(m) != [] && Decode(RawOf(m)) == m
  {
    hide Escape;
    EscapeComesBack(m.payload);
    assert RawOf(m)[1..] == Escape(m.payload);
  }

  /** An escaped payload read as a frame: its first byte is the command. */
  lemma DecodeEscaped(p: seq<byte>)
    requires p != []
    ensures var code := Code(p[0]); Escape(p) != [] && Decode(Escape(p)) == Message(code[0], code[1..] + p[1..])
  {
    hide Unescape;
    var code, rest := Code(p[0]), OnePass(p[1..]);
    TwoPassesAreOne(p);
    assert Escape(p) == code + rest && (code + rest)[0] == code[0];
    assert (code + rest)[1..] == code[1..] + rest;
    UnescapeOnePass(p[1..]);
    if |code| == 1 {
      assert code[1..] + rest == rest && code[1..] + p[1..] == p[1..];
    } else {
      assert code[1..] == Code(code[1]);
      UnescapeCode(code[1], rest);
    }
  }

  lemma BodiesDecode(m: Message)
    ensures Decodes(Bodies(m), OnWire(m))
  {
    hide Decode, Escape, RawOf;
    DecodeRaw(m);
    if m.payload != [] { DecodeEscaped(m.payload); }
  }

  lemma {:induction false} BodiesOfDecode(ms: seq<Message>)
    ensures Decodes(BodiesOf(ms), Seen(ms))
  {
    if ms != [] {
      hide Bodies, OnWire, Decode;
      BodiesDecode(ms[0]);
      BodiesOfDecode(ms[1..]);
      DecodesConcat(Bodies(ms[0]), BodiesOf(ms[1..]), OnWire(ms[0]), Seen(ms[1..]));
    }
  }

  /** From any state, for every list of frames and every chunking, the parser
      delivers at most one leftover and then exactly what those frames are on the
      wire, in order. */
  lemma ParserResynchronises(s: Rx, ms: seq<Message>, chunks: seq<seq<byte>>)
    requires Flatten(chunks) == Stream(ms)
    ensures var raws, skip := RawsOf(s, chunks), if ms == [] then 0 else |Closed(s)|;
            skip <= 1 && skip <= |raws| && Decodes(raws[skip..], Seen(ms))
  {
    hide Decodes, RawsOf, Raws, BodiesOf, Seen, Stream, Flatten;
    ChunksDeliverTheSame(s, chunks);
    StreamDelivers(s, ms);
    var left, raws := if ms == [] then [] else Closed(s), BodiesOf(ms);
    assert (left + raws)[|left|..] == raws;
    BodiesOfDecode(ms);
  }

  lemma IdleParserDelivers(ms: seq<Message>, chunks: seq<seq<byte>>)
    requires Flatten(chunks) == Stream(ms)
    ensures Decodes(RawsOf(IDLE, chunks), Seen(ms))
  {
    hide Decodes, RawsOf, Seen, Stream, Flatten, Closed;
    NothingOpen();
    ParserResynchronises(IDLE, ms, chunks);
    assert RawsOf(IDLE, chunks)[0..] == RawsOf(IDLE, chunks);
  }

  // ----- the one command that a frame cannot carry -----

  ghost predicate Carried(ms: seq<Message>) {
    forall i :: 0 <= i < |ms| ==> ms[i].cmd != FEND
  }

  lemma OnWireCarried(m: Message)
    ensures Carried(OnWire(m))
  {
  }

  lemma {:induction false} SeenIffCarried(ms: seq<Message>)
    ensures Carried(Seen(ms)) && (Seen(ms) == ms <==> Carried(ms))
  {
    if ms != [] {
      SeenIffCarried(ms[1..]);
      OnWireCarried(ms[0]);
      var first, rest := OnWire(ms[0]), Seen(ms[1..]);
      assert Carried(first + rest);
      if Carried(ms) {
        assert ms[0].cmd != FEND && Carried(ms[1..]);
        assert [ms[0]] + ms[1..] == ms;
      }
    }
  }

  lemma DecodesOnce(raws: seq<seq<byte>>, ms: seq<Message>, ns: seq<Message>)
    requires Decodes(raws, ms)
    ensures Decodes(raws, ns) <==> ms == ns
  {
    hide Decode;
    if Decodes(raws, ns) { assert forall i :: 0 <= i < |raws| ==> ms[i] == Decode(raws[i]) == ns[i]; }
  }

  /** For every list of frames and every chunking: an idle parser delivers the list
      itself if and only if no command in it is the delimiter. */
  lemma CarriedIffNoDelimiter(ms: seq<Message>, chunks: seq<seq<byte>>)
    requires Flatten(chunks) == Stream(ms)
    ensures Decodes(RawsOf(IDLE, chunks), ms) <==> forall i :: 0 <= i < |ms| ==> ms[i].cmd != FEND
  {
    hide Decodes, RawsOf, Seen;
    IdleParserDelivers(ms, chunks);
    SeenIffCarried(ms);
    DecodesOnce(RawsOf(IDLE, chunks), Seen(ms), ms);
  }

  // ----- the codes, by number -----

  lemma {:induction false} OnePassConcat(a: seq<byte>, b: seq<byte>)
    ensures OnePass(a + b) == OnePass(a) + OnePass(b)
  {
    if a == [] {
      assert a + b == b;
    } else {
      assert (a + b)[1..] == a[1..] + b && (a + b)[0] == a[0];
      OnePassConcat(a[1..], b);
      assert Code(a[0]) + (OnePass(a[1..]) + OnePass(b)) == Code(a[0]) + OnePass(a[1..]) + OnePass(b);
    }
  }

  /** Escaping works byte by byte: C0 becomes DB DC, DB becomes DB DD, and every other
      byte stays. */
  lemma EscapeByNumber(a: seq<byte>, b: seq<byte>, c: byte)
    ensures Escape(a + b) == Escape(a) + Escape(b) && Escape([]) == []
    ensures Escape([c]) == if c == 0xC0 then [0xDB, 0xDC] else if c == 0xDB then [0xDB, 0xDD] else [c]
  {
    TwoPassesAreOne(a);
    TwoPassesAreOne(b);
    TwoPassesAreOne(a + b);
    TwoPassesAreOne([]);
    TwoPassesAreOne([c]);
    OnePassConcat(a, b);
    assert [c][1..] == [] && OnePass([c]) == Code(c) + OnePass([]);
  }

  /** Unescaping: DB is dropped and the byte behind it translated, or kept if it is no
      code; a DB at the end is lost. */
  lemma UnescapeByNumber(c: byte, rest: seq<byte>)
    ensures Unescape([0xDB, c] + rest, false) ==
            [if c == 0xDC then 0xC0 else if c == 0xDD then 0xDB else c] + Unescape(rest, false)
    ensures c != 0xDB ==> Unescape([c] + rest, false) == [c] + Unescape(rest, false)
    ensures Unescape([0xDB], false) == [] && Unescape([], false) == []
  {
    var two: seq<byte> := [0xDB, c];
    assert (two + rest)[1..] == [c] + rest && ([c] + rest)[1..] == rest;
    var one: seq<byte> := [0xDB];
    assert one[1..] == [];
  }

  /** A frame is a C0, the command, the escaped payload and a C0; what comes before
      the first C0 is not part of any. */
  lemma FrameByNumber(m: Message, junk: seq<byte>, ms: seq<Message>)
    requires 0xC0 !in junk
    ensures |Frame(m)| >= 3 && Frame(m)[0] == 0xC0 && Frame(m)[1] == m.cmd && Frame(m)[|Frame(m)| - 1] == 0xC0
    ensures Frame(m)[2..|Frame(m)| - 1] == Escape(m.payload)
    ensures Raws(IDLE, junk + Stream(ms)) == Raws(IDLE, Stream(ms))
  {
    hide Escape, Stream;
    FeedConcat(IDLE, junk, Stream(ms));
    IdleIgnores(junk);
  }

  lemma {:induction false} IdleIgnores(junk: seq<byte>)
    requires FEND !in junk
    ensures RxAfter(IDLE, junk) == IDLE && Raws(IDLE, junk) == []
  {
    if junk != [] {
      assert TakeByte(IDLE, junk[0]) == IDLE;
      IdleIgnores(junk[1..]);
    }
  }
}
