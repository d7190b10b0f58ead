/** The two simulated radios: what a side writes back to its own host and to its
    peer for each frame, and the relay from host to host (scripts/fake_rnode.py,
    lines 43 to 84; scripts/fake_kiss_tnc.py, lines 37 to 73). */
module FakeRadios {
  import opened Options
  import opened Bytes
  import opened Kiss

  const CMD_DATA: byte := 0x00
  const CMD_DETECT: byte := 0x08
  const CMD_READY: byte := 0x0F
  const CMD_PLATFORM: byte := 0x48
  const CMD_MCU: byte := 0x49
  const CMD_FW: byte := 0x50

  /** Frequency, bandwidth, power, spreading, coding, state and the two locks. */
  predicate Echoed(cmd: byte) {
    1 <= cmd <= 6 || cmd == 0x0B || cmd == 0x0C
  }

  /** The frame of a message, if there is one to send. */
  function Put(o: Option<Message>): seq<byte> {
    if o.Some? then Frame(o.value) else []
  }

  // ----- the RNode side: the answer to the host, and what goes to the peer -----

  function RNodeAnswer(m: Message, ready: bool): Option<Message> {
    if m.cmd == CMD_DETECT && |m.payload| > 0 && m.payload[0] == 0x73 then Some(Message(CMD_DETECT, [0x46]))
    else if m.cmd == CMD_FW then Some(Message(CMD_FW, [1, 75]))
    else if m.cmd == CMD_PLATFORM then Some(Message(CMD_PLATFORM, [0x80]))
    else if m.cmd == CMD_MCU then Some(Message(CMD_MCU, [0x81]))
    else if Echoed(m.cmd) then Some(m)
    else if m.cmd == CMD_DATA && ready then Some(Message(CMD_READY, [1]))
    else None
  }

  function RNodeAnswers(ready: bool): Message -> Option<Message> {
    m => RNodeAnswer(m, ready)
  }

  function RNodeRelay(m: Message): Option<Message> {
    if m.cmd == CMD_DATA then Some(m) else None
  }

  // ----- the TNC side: the low nibble is the command, the high one the port -----

  predicate TncData(m: Message) {
    m.cmd % 16 == 0
  }

  function TncAnswer(m: Message, ready: bool): Option<Message> {
    if TncData(m) && ready then Some(Message(CMD_READY, [1])) else None
  }

  function TncAnswers(ready: bool): Message -> Option<Message> {
    m => TncAnswer(m, ready)
  }

  function TncRelay(m: Message): Option<Message> {
    if TncData(m) then Some(Message(CMD_DATA, m.payload)) else None
  }

  // ----- a side's state -----

  /** What a side writes for raw frames, by one of the maps above. */
  function Each(f: Message -> Option<Message>, raws: seq<seq<byte>>): seq<byte> {
    if raws == [] then []
    else Each(f, raws[..|raws| - 1]) + (var raw := raws[|raws| - 1]; if raw == [] then [] else Put(f(Decode(raw))))
  }

  lemma EachAppend(f: Message -> Option<Message>, raws: seq<seq<byte>>, raw: seq<byte>)
    requires raw != []
    ensures Each(f, raws + [raw]) == Each(f, raws) + Put(f(Decode(raw)))
  {
    hide Decode, Put;
    assert (raws + [raw])[..|raws|] == raws;
  }

  class RNodeSide {
    const ready: bool
    var buf: seq<byte>
    var inFrame: bool
    var toHost: seq<byte>
    var toPeer: seq<byte>

    constructor (ready: bool)
      ensures this.ready == ready && Rx(buf, inFrame) == IDLE && toHost == [] && toPeer == []
    {
      this.ready := ready;
      buf, inFrame, toHost, toPeer := [], false, [], [];
    }

    method Handle(m: Message)
      modifies `toHost, `toPeer
      ensures toHost == old(toHost) + Put(RNodeAnswer(m, ready))
      ensures toPeer == old(toPeer) + Put(RNodeRelay(m))
    {
      hide Frame;
      if m.cmd == CMD_DETECT && m.payload[..if |m.payload| > 0 then 1 else 0] == [0x73] {
        assert m.payload[..1][0] == m.payload[0];
        toHost := toHost + Frame(Message(CMD_DETECT, [0x46]));
      } else if m.cmd == CMD_FW {
        toHost := toHost + Frame(Message(CMD_FW, [1, 75]));
      } else if m.cmd == CMD_PLATFORM {
        toHost := toHost + Frame(Message(CMD_PLATFORM, [0x80]));
      } else if m.cmd == CMD_MCU {
        toHost := toHost + Frame(Message(CMD_MCU, [0x81]));
      } else if Echoed(m.cmd) {
        toHost := toHost + Frame(m);
      } else if m.cmd == CMD_DATA {
        toPeer := toPeer + Frame(m);
        if ready {
          toHost := toHost + Frame(Message(CMD_READY, [1]));
        }
      } else {
        assert |m.payload| > 0 ==> m.payload[..1] == [m.payload[0]];
      }
    }

    method Feed(data: seq<byte>)
      modifies `buf, `inFrame, `toHost, `toPeer
      ensures Rx(buf, inFrame) == RxAfter(old(Rx(buf, inFrame)), data)
      ensures toPeer == old(toPeer) + Each(RNodeRelay, Raws(old(Rx(buf, inFrame)), data))
      ensures toHost == old(toHost) + Each(RNodeAnswers(ready), Raws(old(Rx(buf, inFrame)), data))
    {
      hide RNodeRelay, RNodeAnswer, Put, Decode, Each, Raws, RxAfter;
      ghost var start := Rx(buf, inFrame);
      ghost var answers := RNodeAnswers(ready);
      FeedNothing(RNodeRelay, start, toPeer);
      FeedNothing(answers, start, toHost);
      for k := 0 to |data|
        invariant Rx(buf, inFrame) == RxAfter(start, data[..k])
        invariant toPeer == old(toPeer) + Each(RNodeRelay, Raws(start, data[..k]))
        invariant toHost == old(toHost) + Each(answers, Raws(start, data[..k]))
      {
        var c := data[k];
        StepFeed(RNodeRelay, start, data, k, old(toPeer));
        StepFeed(answers, start, data, k, old(toHost));
        if c == FEND {
          if inFrame && |buf| > 0 {
            var payload := UnescapeBytes(buf[1..]);
            DecodeIs(buf);
            Handle(Message(buf[0], payload));
          }
          buf, inFrame := [], true;
        } else if inFrame {
          buf := buf + [c];
        }
      }
      assert data[..|data|] == data;
    }
  }

  class TncSide {
    const ready: bool
    var buf: seq<byte>
    var inFrame: bool
    var toHost: seq<byte>
    var toPeer: seq<byte>

    constructor (ready: bool)
      ensures this.ready == ready && Rx(buf, inFrame) == IDLE && toHost == [] && toPeer == []
    {
      this.ready := ready;
      buf, inFrame, toHost, toPeer := [], false, [], [];
    }

    /** One frame; a command frame is swallowed. */
    method HandleFrame(raw: seq<byte>)
      requires raw != []
      modifies `toHost, `toPeer
      ensures toHost == old(toHost) + Put(TncAnswer(Decode(raw), ready))
      ensures toPeer == old(toPeer) + Put(TncRelay(Decode(raw)))
    {
      ReadyFrame();
      hide Escape;
      var payload := UnescapeBytes(raw[1..]);
      if raw[0] % 16 == 0 {
        toPeer := toPeer + ([FEND, 0x00] + Escape(payload) + [FEND]);
        if ready {
          toHost := toHost + [FEND, 0x0F, 0x01, FEND];
        }
      }
    }

    method Feed(data: seq<byte>)
      modifies `buf, `inFrame, `toHost, `toPeer
      ensures Rx(buf, inFrame) == RxAfter(old(Rx(buf, inFrame)), data)
      ensures toPeer == old(toPeer) + Each(TncRelay, Raws(old(Rx(buf, inFrame)), data))
      ensures toHost == old(toHost) + Each(TncAnswers(ready), Raws(old(Rx(buf, inFrame)), data))
    {
      hide TncRelay, TncAnswer, Put, Decode, Each, Raws, RxAfter;
      ghost var start := Rx(buf, inFrame);
      ghost var answers := TncAnswers(ready);
      FeedNothing(TncRelay, start, toPeer);
      FeedNothing(answers, start, toHost);
      for k := 0 to |data|
        invariant Rx(buf, inFrame) == RxAfter(start, data[..k])
        invariant toPeer == old(toPeer) + Each(TncRelay, Raws(start, data[..k]))
        invariant toHost == old(toHost) + Each(answers, Raws(start, data[..k]))
      {
        var c := data[k];
        StepFeed(TncRelay, start, data, k, old(toPeer));
        StepFeed(answers, start, data, k, old(toHost));
        if c == FEND {
          if inFrame && buf != [] {
            HandleFrame(buf);
          }
          buf, inFrame := [], true;
        } else if inFrame {
          buf := buf + [c];
        }
      }
      assert data[..|data|] == data;
    }
  }

  lemma DecodeIs(raw: seq<byte>)
    requires raw != []
    ensures Decode(raw) == Message(raw[0], Unescape(raw[1..], false))
  {
  }

  lemma ReadyFrame()
    ensures Frame(Message(CMD_READY, [1])) == [FEND, CMD_READY, 0x01, FEND]
  {
    var one: seq<byte> := [1];
    TwoPassesAreOne(one);
    assert one[1..] == [] && OnePass(one) == Code(1) + OnePass([]);
  }

  lemma FeedNothing(f: Message -> Option<Message>, s: Rx, before: seq<byte>)
    ensures RxAfter(s, []) == s && before + Each(f, Raws(s, [])) == before
  {
  }

  lemma StepFeed(f: Message -> Option<Message>, s: Rx, data: seq<byte>, k: nat, before: seq<byte>)
    requires k < |data|
    ensures RxAfter(s, data[..k + 1]) == TakeByte(RxAfter(s, data[..k]), data[k])
    ensures var rx := RxAfter(s, data[..k]);
            before + Each(f, Raws(s, data[..k + 1])) ==
            before + Each(f, Raws(s, data[..k])) +
            if data[k] == FEND && rx.inFrame && rx.buf != [] then Put(f(Decode(rx.buf))) else []
  {
    hide Decode, Put, Each, Raws, RxAfter;
    FeedConcat(s, data[..k], [data[k]]);
    assert data[..k + 1] == data[..k] + [data[k]];
    var rx, raws := RxAfter(s, data[..k]), Raws(s, data[..k]);
    FeedOne(rx, data[k]);
    if data[k] == FEND && rx.inFrame && rx.buf != [] {
      EachAppend(f, raws, rx.buf);
      var last := Put(f(Decode(rx.buf)));
      assert before + (Each(f, raws) + last) == before + Each(f, raws) + last;
    } else {
      assert raws + [] == raws && before + Each(f, raws) + [] == before + Each(f, raws);
    }
  }

  // ----- what arrives at the other end of a stream -----

  /** The messages that f makes of a list. */
  function Made(f: Message -> Option<Message>, ms: seq<Message>): seq<Message> {
    if ms == [] then []
    else
      var o := f(ms[|ms| - 1]);
      Made(f, ms[..|ms| - 1]) + if o.Some? then [o.value] else []
  }

  lemma {:induction false} StreamAppend(ms: seq<Message>, m: Message)
    ensures Stream(ms + [m]) == Stream(ms) + Frame(m)
    decreases |ms|
  {
    hide Frame;
    if ms == [] {
      assert ms + [m] == [m] && [m][1..] == [];
      assert Frame(m) + [] == Frame(m) && [] + Frame(m) == Frame(m);
    } else {
      assert (ms + [m])[1..] == ms[1..] + [m] && (ms + [m])[0] == ms[0];
      StreamAppend(ms[1..], m);
      assert Frame(ms[0]) + (Stream(ms[1..]) + Frame(m)) == Frame(ms[0]) + Stream(ms[1..]) + Frame(m);
    }
  }

  lemma {:induction false} EachIsStream(f: Message -> Option<Message>, raws: seq<seq<byte>>, ms: seq<Message>)
    requires Decodes(raws, ms)
    ensures Each(f, raws) == Stream(Made(f, ms))
    decreases |ms|
  {
    hide Frame, Decode;
    if ms != [] {
      var n := |ms| - 1;
      var front, m := ms[..n], ms[n];
      EachIsStream(f, raws[..n], front);
      assert raws == raws[..n] + [raws[n]] && Decode(raws[n]) == m;
      EachAppend(f, raws[..n], raws[n]);
      var made, o := Made(f, front), f(m);
      assert Made(f, ms) == made + if o.Some? then [o.value] else [];
      if o.Some? {
        StreamAppend(made, o.value);
      } else {
        assert made + [] == made && Stream(made) + [] == Stream(made);
      }
    }
  }

  /** f never makes a message that a frame cannot carry. */
  ghost predicate Carriable(f: Message -> Option<Message>) {
    forall m :: f(m).Some? ==> f(m).value.cmd != FEND
  }

  lemma {:induction false} MadeIsCarriable(f: Message -> Option<Message>, ms: seq<Message>)
    requires Carriable(f)
    ensures forall i :: 0 <= i < |Made(f, ms)| ==> Made(f, ms)[i].cmd != FEND
  {
    if ms != [] { MadeIsCarriable(f, ms[..|ms| - 1]); }
  }

  /** For every list of frames, however chunked on its way in and out, the reader
      of the stream decodes exactly what f makes of them, in order. */
  lemma StreamArrives(f: Message -> Option<Message>, ms: seq<Message>, sent: seq<seq<byte>>, received: seq<seq<byte>>)
    requires Carriable(f)
    requires Flatten(sent) == Stream(ms) && Flatten(received) == Each(f, RawsOf(IDLE, sent))
    ensures Decodes(RawsOf(IDLE, received), Made(f, Seen(ms)))
  {
    hide Decodes, Carriable, Each, RawsOf, Made, Stream, Flatten, Seen;
    IdleParserDelivers(ms, sent);
    EachIsStream(f, RawsOf(IDLE, sent), Seen(ms));
    MadeIsCarriable(f, Seen(ms));
    SeenIffCarried(Made(f, Seen(ms)));
    IdleParserDelivers(Made(f, Seen(ms)), received);
  }

  /** The data payloads of a list, as one side's host wrote them. */
  function Payloads(isData: Message -> bool, ms: seq<Message>): seq<Message> {
    if ms == [] then []
    else Payloads(isData, ms[..|ms| - 1]) + if isData(ms[|ms| - 1]) then [Message(CMD_DATA, ms[|ms| - 1].payload)] else []
  }

  predicate RNodeData(m: Message) {
    m.cmd == CMD_DATA
  }

  lemma {:induction false} MadeIsPayloads(f: Message -> Option<Message>, isData: Message -> bool, ms: seq<Message>)
    requires forall m :: f(m) == if isData(m) then Some(Message(CMD_DATA, m.payload)) else None
    ensures Made(f, ms) == Payloads(isData, ms)
  {
    if ms != [] { MadeIsPayloads(f, isData, ms[..|ms| - 1]); }
  }

  // ----- which lists come through whole -----

  lemma {:induction false} PayloadsConcat(isData: Message -> bool, a: seq<Message>, b: seq<Message>)
    ensures Payloads(isData, a + b) == Payloads(isData, a) + Payloads(isData, b)
    decreases |b|
  {
    if b == [] {
      assert a + b == a;
    } else {
      var n := |b| - 1;
      assert (a + b)[..|a + b| - 1] == a + b[..n] && (a + b)[|a + b| - 1] == b[n];
      PayloadsConcat(isData, a, b[..n]);
      var last := if isData(b[n]) then [Message(CMD_DATA, b[n].payload)] else [];
      assert Payloads(isData, a) + (Payloads(isData, b[..n]) + last) == Payloads(isData, a) + Payloads(isData, b[..n]) + last;
    }
  }

  /** The bytes of a list of payloads, each with one for its frame. */
  function Volume(ms: seq<Message>): nat {
    if ms == [] then 0 else Volume(ms[..|ms| - 1]) + 1 + |ms[|ms| - 1].payload|
  }

  lemma {:induction false} VolumeConcat(a: seq<Message>, b: seq<Message>)
    ensures Volume(a + b) == Volume(a) + Volume(b)
    decreases |b|
  {
    if b == [] {
      assert a + b == a;
    } else {
      var n := |b| - 1;
      assert (a + b)[..|a + b| - 1] == a + b[..n] && (a + b)[|a + b| - 1] == b[n];
      VolumeConcat(a, b[..n]);
    }
  }

  /** The payloads of one frame, before it is sent and as a parser sees it. */
  function Wrote(isData: Message -> bool, m: Message): seq<Message> { Payloads(isData, [m]) }
  function Reads(isData: Message -> bool, m: Message): seq<Message> { Payloads(isData, OnWire(m)) }

  lemma SeenFirst(isData: Message -> bool, ms: seq<Message>)
    requires ms != []
    ensures Payloads(isData, ms) == Wrote(isData, ms[0]) + Payloads(isData, ms[1..])
    ensures Payloads(isData, Seen(ms)) == Reads(isData, ms[0]) + Payloads(isData, Seen(ms[1..]))
  {
    hide Payloads, OnWire;
    assert ms == [ms[0]] + ms[1..];
    PayloadsConcat(isData, [ms[0]], ms[1..]);
    PayloadsConcat(isData, OnWire(ms[0]), Seen(ms[1..]));
  }

  /** If frames differ on the wire only by more payload, or only by less, the lists
      are the same exactly when every frame is. */
  lemma {:induction false} SameIffEachSame(isData: Message -> bool, ms: seq<Message>, more: bool)
    requires forall m :: Reads(isData, m) == Wrote(isData, m) ||
               (if more then Volume(Wrote(isData, m)) < Volume(Reads(isData, m))
                else Volume(Reads(isData, m)) < Volume(Wrote(isData, m)))
    ensures Payloads(isData, Seen(ms)) == Payloads(isData, ms) <==>
            forall i :: 0 <= i < |ms| ==> Reads(isData, ms[i]) == Wrote(isData, ms[i])
    ensures var v, w := Volume(Payloads(isData, ms)), Volume(Payloads(isData, Seen(ms))); if more then v <= w else w <= v
    ensures Payloads(isData, Seen(ms)) != Payloads(isData, ms) ==>
              Volume(Payloads(isData, ms)) != Volume(Payloads(isData, Seen(ms)))
  {
    hide Payloads, Reads, Wrote, Volume, Seen;
    if ms == [] {
      SeenNothing();
    } else {
      var m, rest := ms[0], ms[1..];
      SameIffEachSame(isData, rest, more);
      SeenFirst(isData, ms);
      VolumeConcat(Wrote(isData, m), Payloads(isData, rest));
      VolumeConcat(Reads(isData, m), Payloads(isData, Seen(rest)));
      assert (forall i :: 0 <= i < |ms| ==> Reads(isData, ms[i]) == Wrote(isData, ms[i])) <==>
             Reads(isData, m) == Wrote(isData, m) &&
             forall i :: 0 <= i < |rest| ==> Reads(isData, rest[i]) == Wrote(isData, rest[i]) by {
        assert forall i :: 0 <= i < |rest| ==> rest[i] == ms[i + 1];
        assert forall i :: 0 < i < |ms| ==> ms[i] == rest[i - 1];
      }
    }
  }

  lemma SeenNothing()
    ensures Seen([]) == []
  {
  }

  lemma OnePayload(isData: Message -> bool, m: Message)
    ensures Payloads(isData, [m]) == if isData(m) then [Message(CMD_DATA, m.payload)] else []
    ensures Volume(Payloads(isData, [m])) == if isData(m) then 1 + |m.payload| else 0
    ensures Payloads(isData, []) == [] && Volume([]) == 0
  {
    assert [m][..0] == [] && Payloads(isData, []) == [] && Volume([]) == 0;
    var d := [Message(CMD_DATA, m.payload)];
    assert d[..0] == [];
    assert Volume(d) == Volume(d[..0]) + 1 + |d[0].payload|;
  }

  // ----- the RNode pair -----

  /** A frame that a parser takes for data though it is none: the delimiter as its
      command, and the data command as the first byte behind it. */
  predicate Spurious(m: Message) {
    m.cmd == FEND && m.payload != [] && m.payload[0] == CMD_DATA
  }

  lemma RNodeOnWire(m: Message)
    ensures var w, r := Wrote(RNodeData, m), Reads(RNodeData, m);
            (r == w <==> !Spurious(m)) && (Spurious(m) ==> Volume(w) < Volume(r))
  {
    hide Payloads, Volume;
    OnePayload(RNodeData, m);
    if m.cmd == FEND && m.payload != [] { OnePayload(RNodeData, OnWire(m)[0]); assert OnWire(m) == [OnWire(m)[0]]; }
  }

  /** The far host of an RNode pair decodes the data of what the parser sees; that
      is exactly the data its peer wrote if and only if no frame is spurious. */
  lemma RNodePairIsTransparent(ms: seq<Message>, sent: seq<seq<byte>>, received: seq<seq<byte>>)
    requires Flatten(sent) == Stream(ms) && Flatten(received) == Each(RNodeRelay, RawsOf(IDLE, sent))
    ensures Decodes(RawsOf(IDLE, received), Payloads(RNodeData, Seen(ms)))
    ensures Decodes(RawsOf(IDLE, received), Payloads(RNodeData, ms)) <==> forall i :: 0 <= i < |ms| ==> !Spurious(ms[i])
  {
    hide Each, Decodes, RawsOf, Stream, Flatten, Payloads, Reads, Wrote, Volume, Seen, OnWire;
    StreamArrives(RNodeRelay, ms, sent, received);
    forall m ensures RNodeRelay(m) == if RNodeData(m) then Some(Message(CMD_DATA, m.payload)) else None {
      assert RNodeData(m) ==> m == Message(CMD_DATA, m.payload);
    }
    MadeIsPayloads(RNodeRelay, RNodeData, Seen(ms));
    forall m
      ensures Reads(RNodeData, m) == Wrote(RNodeData, m) <==> !Spurious(m)
      ensures Spurious(m) ==> Volume(Wrote(RNodeData, m)) < Volume(Reads(RNodeData, m))
    {
      RNodeOnWire(m);
    }
    SameIffEachSame(RNodeData, ms, true);
    DecodesOnce(RawsOf(IDLE, received), Payloads(RNodeData, Seen(ms)), Payloads(RNodeData, ms));
  }

  // ----- the TNC pair -----

  function Port(m: Message): int {
    m.cmd / 16
  }

  lemma TncOnWire(m: Message)
    ensures var w, r := Wrote(TncData, m), Reads(TncData, m);
            var lost := TncData(m) && Port(m) == 12;
            (r == w <==> !lost) && (lost ==> Volume(r) < Volume(w))
  {
    hide Payloads, Volume;
    OnePayload(TncData, m);
    if m.cmd == FEND && m.payload != [] { OnePayload(TncData, OnWire(m)[0]); assert OnWire(m) == [OnWire(m)[0]]; }
  }

  /** The far host of a TNC pair decodes the data of what the parser sees; that is
      exactly the data of every port if and only if none is of port 12, whose type
      byte is the delimiter. */
  lemma TncPairIsTransparent(ms: seq<Message>, sent: seq<seq<byte>>, received: seq<seq<byte>>)
    requires Flatten(sent) == Stream(ms) && Flatten(received) == Each(TncRelay, RawsOf(IDLE, sent))
    ensures Decodes(RawsOf(IDLE, received), Payloads(TncData, Seen(ms)))
    ensures Decodes(RawsOf(IDLE, received), Payloads(TncData, ms)) <==>
            forall i :: 0 <= i < |ms| ==> !(TncData(ms[i]) && Port(ms[i]) == 12)
  {
    hide Each, Decodes, RawsOf, Stream, Flatten, Payloads, Reads, Wrote, Volume, Seen, OnWire;
    StreamArrives(TncRelay, ms, sent, received);
    MadeIsPayloads(TncRelay, TncData, Seen(ms));
    forall m
      ensures Reads(TncData, m) == Wrote(TncData, m) <==> !(TncData(m) && Port(m) == 12)
      ensures TncData(m) && Port(m) == 12 ==> Volume(Reads(TncData, m)) < Volume(Wrote(TncData, m))
    {
      TncOnWire(m);
    }
    SameIffEachSame(TncData, ms, false);
    DecodesOnce(RawsOf(IDLE, received), Payloads(TncData, Seen(ms)), Payloads(TncData, ms));
  }

  /** Not only lost: the port 12 payload 00 41 goes on as the payload 41 of port 0. */
  lemma PortTwelveGarbled()
    ensures Seen([Message(0xC0, [0x00, 0x41])]) == [Message(CMD_DATA, [0x41])]
    ensures Payloads(TncData, Seen([Message(0xC0, [0x00, 0x41])])) == [Message(CMD_DATA, [0x41])]
  {
    var payload: seq<byte> := [0x00, 0x41];
    var m := Message(0xC0, payload);
    assert payload[1..] == [0x41] && Code(0x00)[1..] + payload[1..] == [0x41];
    assert [m][1..] == [] && Seen([]) == [];
    OnePayload(TncData, Message(CMD_DATA, [0x41]));
  }

  // ----- flow control -----

  function ReadyCount(ms: seq<Message>): nat {
    if ms == [] then 0 else ReadyCount(ms[..|ms| - 1]) + if ms[|ms| - 1].cmd == CMD_READY then 1 else 0
  }

  lemma ReadyAppend(ms: seq<Message>, m: Message)
    ensures ReadyCount(ms + [m]) == ReadyCount(ms) + if m.cmd == CMD_READY then 1 else 0
  {
    assert (ms + [m])[..|ms|] == ms;
  }

  /** One ready for each data frame taken, if readies are on, and none otherwise. */
  lemma {:induction false} ReadyPerData(answers: Message -> Option<Message>, isData: Message -> bool, ready: bool,
                                        ms: seq<Message>)
    requires forall m :: answers(m).Some? && answers(m).value.cmd == CMD_READY <==> ready && isData(m)
    ensures ReadyCount(Made(answers, ms)) == if ready then |Payloads(isData, ms)| else 0
  {
    if ms != [] {
      var front, m := ms[..|ms| - 1], ms[|ms| - 1];
      ReadyPerData(answers, isData, ready, front);
      var o, made := answers(m), Made(answers, front);
      assert Made(answers, ms) == made + if o.Some? then [o.value] else [];
      if o.Some? { ReadyAppend(made, o.value); } else { assert made + [] == made; }
    }
  }

  /** What an RNode's own host decodes: its answers in order, with exactly one
      ready for each payload that goes to the far host. */
  lemma RNodeHostAnswered(ready: bool, ms: seq<Message>, sent: seq<seq<byte>>, received: seq<seq<byte>>)
    requires Flatten(sent) == Stream(ms) && Flatten(received) == Each(RNodeAnswers(ready), RawsOf(IDLE, sent))
    ensures Decodes(RawsOf(IDLE, received), Made(RNodeAnswers(ready), Seen(ms)))
    ensures ReadyCount(Made(RNodeAnswers(ready), Seen(ms))) == if ready then |Payloads(RNodeData, Seen(ms))| else 0
  {
    hide Each, Decodes, RawsOf, Stream, Flatten, Seen;
    StreamArrives(RNodeAnswers(ready), ms, sent, received);
    ReadyPerData(RNodeAnswers(ready), RNodeData, ready, Seen(ms));
  }

  /** The same for a TNC's own host. */
  lemma TncHostAnswered(ready: bool, ms: seq<Message>, sent: seq<seq<byte>>, received: seq<seq<byte>>)
    requires Flatten(sent) == Stream(ms) && Flatten(received) == Each(TncAnswers(ready), RawsOf(IDLE, sent))
    ensures Decodes(RawsOf(IDLE, received), Made(TncAnswers(ready), Seen(ms)))
    ensures ReadyCount(Made(TncAnswers(ready), Seen(ms))) == if ready then |Payloads(TncData, Seen(ms))| else 0
  {
    hide Each, Decodes, RawsOf, Stream, Flatten, Seen;
    StreamArrives(TncAnswers(ready), ms, sent, received);
    ReadyPerData(TncAnswers(ready), TncData, ready, Seen(ms));
  }

  // ----- answers and relays, by number -----

  /** The RNode side: detection, firmware, platform and processor are answered, the
      eight settings echoed, data relayed and acknowledged, the rest not answered. */
  lemma RNodeByNumber(m: Message, ready: bool)
    ensures RNodeAnswer(m, ready) ==
            if m.cmd == 0x08 then (if m.payload != [] && m.payload[0] == 0x73 then Some(Message(0x08, [0x46])) else None)
            else if m.cmd == 0x50 then Some(Message(0x50, [1, 75]))
            else if m.cmd == 0x48 then Some(Message(0x48, [0x80]))
            else if m.cmd == 0x49 then Some(Message(0x49, [0x81]))
            else if m.cmd in {0x01, 0x02, 0x03, 0x04, 0x05, 0x06, 0x0B, 0x0C} then Some(m)
            else if m.cmd == 0x00 && ready then Some(Message(0x0F, [1]))
            else None
    ensures RNodeRelay(m) == if m.cmd == 0x00 then Some(Message(0x00, m.payload)) else None
  {
    assert m == Message(m.cmd, m.payload);
  }

  /** The TNC side: data of every port is relayed as port 0 and acknowledged. */
  lemma TncByNumber(m: Message, ready: bool)
    ensures var data := m.cmd in {0x00, 0x10, 0x20, 0x30, 0x40, 0x50, 0x60, 0x70, 0x80, 0x90, 0xA0, 0xB0, 0xC0, 0xD0, 0xE0, 0xF0};
            && TncAnswer(m, ready) == (if data && ready then Some(Message(0x0F, [1])) else None)
            && TncRelay(m) == if data then Some(Message(0x00, m.payload)) else None
  {
    var k := m.cmd / 16;
    assert m.cmd % 16 == 0 <==> m.cmd == 16 * k;
  }
}
