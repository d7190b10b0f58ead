/** What the modem's lines say, read off their fields: codes, targets and values as
    the interface writes them, and a comparison of values by their canonical form.
    The tables give the effect of every line and poll in these terms alone
    (cmd/jspr-helper/jspr_helper.py, lines 259 to 485). */
module JsprWire {
  import opened Options
  import opened JsprSend

  // ----- values and fields -----

  /** Numbers of every kind as reals, true and false among them. */
  function Canon(j: Json): Json {
    match j
    case Bool(b) => Float(if b then 1.0 else 0.0)
    case Int(n) => Float(n as real)
    case _ => j
  }

  function ValueAt(line: Line, k: Key): Json {
    match line.body
    case None => Null
    case Some(d) => if k in d then d[k] else Null
  }

  predicate FieldIs(line: Line, k: Key, v: Json) {
    Canon(ValueAt(line, k)) == Canon(v)
  }

  /** An integer field, value by value. */
  lemma IntegerField(line: Line, k: Key, n: int)
    ensures FieldIs(line, k, Int(n)) <==>
            && line.body.Some? && k in line.body.value
            && var v := line.body.value[k];
               v == Int(n) || v == Float(n as real) || (n == 1 && v == Bool(true)) || (n == 0 && v == Bool(false))
  {
    var v := ValueAt(line, k);
    if v.Int? { assert v.n as real == n as real <==> v.n == n; }
  }

  lemma SameIsCanonical(a: Json, b: Json)
    ensures Same(a, b) <==> Canon(a) == Canon(b)
  {
  }

  predicate Falsy(j: Json) {
    j == Null || j == Bool(false) || j == Int(0) || j == Float(0.0) || j == Text("") || (j.Compound? && j.empty)
  }

  function OrNought(j: Json): Json {
    if Falsy(j) then Int(0) else j
  }

  // ----- lines -----

  /** A reply to an originate that names this send's reference and topic. */
  predicate Reply(req: Request, line: Line) {
    && line.code == 200 && line.target == Originate
    && FieldIs(line, RequestReference, req.reference) && FieldIs(line, TopicId, req.topic)
  }

  function Response(line: Line): Json {
    if line.body.Some? && MessageResponse in line.body.value then line.body.value[MessageResponse] else Text("")
  }

  predicate Acceptance(req: Request, line: Line, id: Json) {
    && Reply(req, line) && Response(line) == Text("message_accepted")
    && ValueAt(line, MessageId) == id && (id.Int? || id.Bool?)
  }

  /** A prompt for the whole payload of message id. */
  predicate Prompt(req: Request, id: Json, line: Line) {
    && line.code == 299 && line.target == Segment
    && FieldIs(line, MessageId, id) && FieldIs(line, TopicId, req.topic)
    && FieldIs(line, SegmentStart, Int(0)) && FieldIs(line, SegmentLength, req.length)
  }

  /** The final status of message id. */
  predicate Final(req: Request, id: Json, line: Line) {
    && line.code == 299 && line.target == Status
    && FieldIs(line, MessageId, id) && FieldIs(line, TopicId, req.topic)
  }

  function Body(line: Line): Doc {
    match line.body
    case None => map[]
    case Some(d) => d
  }

  lemma Meanings(req: Request, id: Json, line: Line)
    ensures NamesRequest(req, line) <==> Reply(req, line)
    ensures Accepts(req, line, id) <==> Acceptance(req, line, id)
    ensures Prompts(req, id, line) <==> Prompt(req, id, line)
    ensures Settles(req, id, line) <==> Final(req, id, line)
    ensures NamesMessage(req, id, line) <==> FieldIs(line, MessageId, id) && FieldIs(line, TopicId, req.topic)
    ensures DocOf(line) == Body(line) && ResponseOf(line) == Response(line)
  {
    hide Same, Canon;
    forall k: Key, v: Json ensures Same(Get(DocOf(line), k), v) <==> FieldIs(line, k, v) {
      SameIsCanonical(Get(DocOf(line), k), v);
    }
  }

  // ----- documents -----

  function OriginateFields(req: Request): Doc {
    map[TopicId := req.topic, MessageLength := req.length, RequestReference := req.reference]
  }

  function SegmentFields(req: Request, id: Json): Doc {
    map[TopicId := req.topic, MessageId := id, SegmentLength := req.length, SegmentStart := Int(0), Data := req.payload]
  }

  function CancelFields(req: Request, id: Json): Doc {
    map[TopicId := req.topic, MessageId := id, Action := Text("cancel")]
  }

  /** The modem's own document, with this side's two fields put over it. */
  function VerdictFields(req: Request, line: Line, sent: bool): Doc {
    Body(line) + map[SegmentSupplied := Bool(sent), RequestReference := req.reference]
  }

  function RejectionFields(req: Request, line: Line): Doc {
    Body(line) + map[RefusedAt := Text("originate"), SegmentSupplied := Bool(false), RequestReference := req.reference]
  }

  function RefusalFields(req: Request, line: Line): Doc {
    map[FinalMoStatus := Response(line), MessageId := OrNought(ValueAt(line, MessageId)), TopicId := req.topic,
        RefusedAt := Text("originate"), SegmentSupplied := Bool(false), RequestReference := req.reference]
  }

  function SilenceFields(req: Request): Doc {
    map[FinalMoStatus := Text("no_response"), MessageId := Int(0), TopicId := req.topic,
        SegmentSupplied := Bool(false), RequestReference := req.reference]
  }

  function TimeoutFields(req: Request, msgId: Option<Json>, sent: bool): Doc {
    map[FinalMoStatus := Text("helper_timeout"), MessageId := if msgId.Some? then OrNought(msgId.value) else Int(0),
        TopicId := req.topic, SegmentSupplied := Bool(sent), RequestReference := req.reference]
  }

  lemma FalsyIsNotTruthy(j: Json)
    ensures OrZero(j) == OrNought(j)
  {
    if j.Int? { assert j.n as real == 0.0 <==> j.n == 0; }
  }

  /** Every document the helper builds, field by field. */
  lemma Documents(req: Request, s: State, id: Json, line: Line)
    ensures OriginateDoc(req) == OriginateFields(req) && SegmentDoc(req, id) == SegmentFields(req, id)
    ensures CancelDoc(req, id) == CancelFields(req, id)
    ensures ResultEvent(req, 200, Status, DocOf(line), Supplied(s.sent)) ==
            EmitResult(200, Status, VerdictFields(req, line, s.sent))
    ensures ResultEvent(req, line.code, line.target, DocOf(line), REFUSED) ==
            EmitResult(line.code, line.target, RejectionFields(req, line))
    ensures ResultEvent(req, 200, Status, OwnDoc(req, ResponseOf(line), OrZero(Get(DocOf(line), MessageId))), REFUSED) ==
            EmitResult(200, Status, RefusalFields(req, line))
    ensures ResultEvent(req, 200, Status, OwnDoc(req, Text("no_response"), Int(0)), Supplied(false)) ==
            EmitResult(200, Status, SilenceFields(req))
    ensures var held := if s.msgId.Some? then OrZero(s.msgId.value) else Int(0);
            ResultEvent(req, 200, Status, OwnDoc(req, Text("helper_timeout"), held), Supplied(s.sent)) ==
            EmitResult(200, Status, TimeoutFields(req, s.msgId, s.sent))
  {
    hide ResultEvent, OwnDoc, OrZero, DocOf, ResponseOf, Body, VerdictFields, RejectionFields, RefusalFields,
         SilenceFields, TimeoutFields;
    VerdictDocument(req, line, s.sent);
    RejectionDocument(req, line);
    RefusalDocument(req, line);
    OwnDocument(req, Text("no_response"), Int(0), false);
    SilenceDocument(req);
    var held := if s.msgId.Some? then OrZero(s.msgId.value) else Int(0);
    OwnDocument(req, Text("helper_timeout"), held, s.sent);
    TimeoutDocument(req, s.msgId, s.sent);
  }

  lemma VerdictDocument(req: Request, line: Line, sent: bool)
    ensures ResultEvent(req, 200, Status, DocOf(line), Supplied(sent)) ==
            EmitResult(200, Status, VerdictFields(req, line, sent))
  {
    var d := Body(line);
    assert DocOf(line) == d;
    assert d + map[SegmentSupplied := Bool(sent)] + map[RequestReference := req.reference] ==
           d + map[SegmentSupplied := Bool(sent), RequestReference := req.reference];
  }

  lemma RejectionDocument(req: Request, line: Line)
    ensures ResultEvent(req, line.code, line.target, DocOf(line), REFUSED) ==
            EmitResult(line.code, line.target, RejectionFields(req, line))
  {
    var d := Body(line);
    assert DocOf(line) == d;
    assert d + map[RefusedAt := Text("originate"), SegmentSupplied := Bool(false)] + map[RequestReference := req.reference] ==
           d + map[RefusedAt := Text("originate"), SegmentSupplied := Bool(false), RequestReference := req.reference];
  }

  lemma RefusalDocument(req: Request, line: Line)
    ensures ResultEvent(req, 200, Status, OwnDoc(req, ResponseOf(line), OrZero(Get(DocOf(line), MessageId))), REFUSED) ==
            EmitResult(200, Status, RefusalFields(req, line))
  {
    hide OrZero, OrNought;
    FalsyIsNotTruthy(ValueAt(line, MessageId));
    IdentityField(line);
    assert ResponseOf(line) == Response(line);
    var status, id := Response(line), OrNought(ValueAt(line, MessageId));
    var own := map[FinalMoStatus := status, MessageId := id, TopicId := req.topic];
    assert own + map[RefusedAt := Text("originate"), SegmentSupplied := Bool(false)] + map[RequestReference := req.reference] ==
           map[FinalMoStatus := status, MessageId := id, TopicId := req.topic,
               RefusedAt := Text("originate"), SegmentSupplied := Bool(false), RequestReference := req.reference];
  }

  lemma OwnDocument(req: Request, status: Json, id: Json, sent: bool)
    ensures ResultEvent(req, 200, Status, OwnDoc(req, status, id), Supplied(sent)) ==
            EmitResult(200, Status, map[FinalMoStatus := status, MessageId := id, TopicId := req.topic,
                                        SegmentSupplied := Bool(sent), RequestReference := req.reference])
  {
    var own := map[FinalMoStatus := status, MessageId := id, TopicId := req.topic];
    assert own + map[SegmentSupplied := Bool(sent)] + map[RequestReference := req.reference] ==
           map[FinalMoStatus := status, MessageId := id, TopicId := req.topic,
               SegmentSupplied := Bool(sent), RequestReference := req.reference];
  }

  lemma SilenceDocument(req: Request)
    ensures SilenceFields(req) == map[FinalMoStatus := Text("no_response"), MessageId := Int(0), TopicId := req.topic,
                                      SegmentSupplied := Bool(false), RequestReference := req.reference]
  {
  }

  lemma TimeoutDocument(req: Request, msgId: Option<Json>, sent: bool)
    ensures var held := if msgId.Some? then OrZero(msgId.value) else Int(0);
            TimeoutFields(req, msgId, sent) ==
            map[FinalMoStatus := Text("helper_timeout"), MessageId := held, TopicId := req.topic,
                SegmentSupplied := Bool(sent), RequestReference := req.reference]
  {
    hide OrZero, OrNought;
    if msgId.Some? { FalsyIsNotTruthy(msgId.value); }
  }

  // ----- the main loop, line by line -----

  /** The effect of every line on a send, by its fields. */
  lemma LineTable(req: Request, s: State, line: Line)
    requires s.phase.Reading?
    ensures var s', took := MainLine(req, s, line), s.(out := s.out + [Took(line)]);
            && (line.code == 299 && line.target != Segment && line.target != Status ==>
                  s' == s.(out := s.out + [Took(line), EmitUnsolicited(line)]))
            && (line.code == 299 && line.target == Segment ==>
                  s' == if s.msgId.Some? && !s.sent && Prompt(req, s.msgId.value, line)
                        then s.(sent := true, out := s.out + [Took(line), Write(Segment, SegmentFields(req, s.msgId.value))])
                        else took)
            && (line.code == 299 && line.target == Status ==>
                  s' == if s.msgId.Some? && Final(req, s.msgId.value, line)
                        then s.(phase := Done,
                                out := s.out + [Took(line), EmitResult(200, Status, VerdictFields(req, line, s.sent))])
                        else took)
    ensures var s', took := MainLine(req, s, line), s.(out := s.out + [Took(line)]);
            && (line.code == 200 && line.target == Originate ==>
                  s' == if !Reply(req, line) || s.msgId.Some? then took
                        else if Response(line) != Text("message_accepted")
                        then s.(phase := Done, out := s.out + [Took(line), EmitResponse(line),
                                                               EmitResult(200, Status, RefusalFields(req, line))])
                        else if ValueAt(line, MessageId).Int? || ValueAt(line, MessageId).Bool?
                        then s.(msgId := Some(ValueAt(line, MessageId)), out := s.out + [Took(line), EmitResponse(line)])
                        else s.(out := s.out + [Took(line), EmitResponse(line)]))
            && (line.code >= 400 && line.target == Originate ==>
                  s' == if s.msgId.Some? then took
                        else s.(phase := Done,
                                out := s.out + [Took(line), EmitResult(line.code, Originate, RejectionFields(req, line))]))
            && (line.code != 299 && !(line.target == Originate && (line.code == 200 || line.code >= 400)) ==>
                  s' == s.(out := s.out + [Took(line), EmitResponse(line)]))
  {
    hide NamesRequest, NamesMessage, FieldIs, ResultEvent, OwnDoc, SegmentDoc, SegmentFields, Response, ResponseOf,
         VerdictFields, RefusalFields, RejectionFields, DocOf, OrZero;
    var id := if s.msgId.Some? then s.msgId.value else Null;
    Meanings(req, id, line);
    Documents(req, s, id, line);
    IdentityField(line);
    WholePayloadFields(req, line);
    OutParts(s.out, Took(line));
  }

  lemma IdentityField(line: Line)
    ensures Get(DocOf(line), MessageId) == ValueAt(line, MessageId)
  {
  }

  lemma WholePayloadFields(req: Request, line: Line)
    ensures WholePayload(req, line) <==> FieldIs(line, SegmentStart, Int(0)) && FieldIs(line, SegmentLength, req.length)
  {
    hide Same, Canon;
    SameIsCanonical(Get(DocOf(line), SegmentStart), Int(0));
    SameIsCanonical(Get(DocOf(line), SegmentLength), req.length);
  }

  lemma OutParts(out: seq<Event>, a: Event)
    ensures forall b: Event :: out + [a] + [b] == out + [a, b]
    ensures forall b: Event, c: Event :: out + [a] + [b] + [c] == out + [a, b, c]
  {
  }

  // ----- the settle loop, line by line -----

  lemma SettleTable(req: Request, s: State, line: Line)
    requires s.phase.Settling? && s.msgId.Some?
    ensures var s', took, id := SettleLine(req, s, line), s.(out := s.out + [Took(line)]), s.msgId.value;
            && (line.target == Status && line.code == 299 ==>
                  s' == if line.body.Some? && Final(req, id, line)
                        then s.(phase := Done,
                                out := s.out + [Took(line), EmitResult(200, Status, VerdictFields(req, line, s.sent))])
                        else took)
            && (line.target == Status && line.code >= 400 ==>
                  s' == if s.phase.timedOut
                        then s.(phase := Done,
                                out := s.out + [Took(line), EmitResult(200, Status, TimeoutFields(req, s.msgId, s.sent))])
                        else s.(phase := Reading, out := s.out + [Took(line)]))
            && (line.target != Status && line.code == 299 ==> s' == s.(out := s.out + [Took(line), EmitUnsolicited(line)]))
            && (line.code != 299 && (line.target != Status || line.code < 400) ==> s' == took)
  {
    hide NamesMessage, FieldIs, ResultEvent, OwnDoc, VerdictFields, TimeoutFields, DocOf, OrZero;
    Meanings(req, s.msgId.value, line);
    Documents(req, s, s.msgId.value, line);
    OutParts(s.out, Took(line));
  }

  // ----- the polls -----

  /** The head of the main loop: 30 s for an identity, the send's own budget, and
      20 s for the modem to settle a cancel. */
  lemma PollTable(req: Request, s: State, i: Input)
    requires s.phase.Top?
    ensures var cancel := if s.msgId.Some? then [Write(Status, CancelFields(req, s.msgId.value))] else [];
            var over := if s.msgId.Some? then s.(phase := Settling(i.t3 + 20.0, true), out := s.out + cancel)
                        else s.(phase := Done, out := s.out + [EmitResult(200, Status, TimeoutFields(req, None, s.sent))]);
            Step(req, s, i) ==
            if !i.running then over
            else if s.msgId.None? && i.t1 > s.initialDeadline
            then s.(phase := Done, out := s.out + [EmitResult(200, Status, SilenceFields(req))])
            else if i.t2 > s.fullDeadline then over
            else if s.msgId.Some? && req.op != "" && i.cancel
            then s.(phase := Settling(i.t3 + 20.0, false), out := s.out + cancel)
            else s.(phase := Reading)
  {
    hide ResultEvent, OwnDoc, CancelDoc, CancelFields, SilenceFields, TimeoutFields, OrZero;
    Documents(req, s, if s.msgId.Some? then s.msgId.value else Null, Line(0, Status, None));
  }

  /** The settle loop gives up at its deadline or when the helper stops. */
  lemma SettlePollTable(req: Request, s: State, i: Input)
    requires s.phase.Settling? && s.msgId.Some?
    ensures !i.running || i.t1 >= s.phase.deadline ==>
              Step(req, s, i) ==
              if s.phase.timedOut
              then s.(phase := Done, out := s.out + [EmitResult(200, Status, TimeoutFields(req, s.msgId, s.sent))])
              else s.(phase := Reading)
    ensures i.running && i.t1 < s.phase.deadline ==> Step(req, s, i) == SettleLines(req, s, i.lines)
  {
    hide ResultEvent, OwnDoc, TimeoutFields, OrZero, SettleLines;
    Documents(req, s, s.msgId.value, Line(0, Status, None));
  }

  // ----- before the loop -----

  /** Of the lines that wait, each reaches the host, as what it is. */
  lemma {:induction false} WaitingHandedOver(out: seq<Event>, lines: seq<Line>)
    ensures var out' := HandOver(out, lines);
            && |out'| == |out| + 2 * |lines| && out <= out'
            && forall i :: 0 <= i < |lines| ==>
                 && out'[|out| + 2 * i] == Took(lines[i])
                 && out'[|out| + 2 * i + 1] == if lines[i].code == 299 then EmitUnsolicited(lines[i]) else EmitResponse(lines[i])
    decreases lines
  {
    if lines != [] {
      var first := [Took(lines[0]), if lines[0].code == 299 then EmitUnsolicited(lines[0]) else EmitResponse(lines[0])];
      WaitingHandedOver(out + first, lines[1..]);
      var out' := HandOver(out, lines);
      assert out' == HandOver(out + first, lines[1..]) && out + first <= out';
      forall i | 0 <= i < |lines|
        ensures out'[|out| + 2 * i] == Took(lines[i])
        ensures out'[|out| + 2 * i + 1] == if lines[i].code == 299 then EmitUnsolicited(lines[i]) else EmitResponse(lines[i])
      {
        if i > 0 {
          assert |out + first| + 2 * (i - 1) == |out| + 2 * i && lines[1..][i - 1] == lines[i];
        } else {
          assert out'[|out|] == (out + first)[|out|] && out'[|out| + 1] == (out + first)[|out| + 1];
        }
      }
    }
  }

  /** What a log has handed to the host, of lines. */
  function Emitted(out: seq<Event>): seq<Event> {
    if out == [] then []
    else
      var e := out[|out| - 1];
      Emitted(out[..|out| - 1]) + if e.EmitUnsolicited? || e.EmitResponse? then [e] else []
  }

  /** The unsolicited lines other than a final status. */
  function Fresh(lines: seq<Line>): seq<Event> {
    if lines == [] then []
    else (if lines[0].code == 299 && lines[0].target != Status then [EmitUnsolicited(lines[0])] else []) + Fresh(lines[1..])
  }

  lemma EmittedAppend(out: seq<Event>, e: Event)
    ensures Emitted(out + [e]) == Emitted(out) + if e.EmitUnsolicited? || e.EmitResponse? then [e] else []
  {
    assert (out + [e])[..|out|] == out;
  }

  /** Of the lines read after that, a late status and every response are dropped. */
  lemma {:induction false} StaleDropped(out: seq<Event>, lines: seq<Line>)
    ensures Emitted(DropStale(out, lines)) == Emitted(out) + Fresh(lines)
    decreases lines
  {
    if lines != [] {
      var taken := out + [Took(lines[0])];
      EmittedAppend(out, Took(lines[0]));
      EmittedAppend(taken, EmitUnsolicited(lines[0]));
      if lines[0].code == 299 && !lines[0].target.Status? {
        StaleDropped(taken + [EmitUnsolicited(lines[0])], lines[1..]);
      } else {
        StaleDropped(taken, lines[1..]);
      }
    }
  }

  /** How a send begins: both deadlines, and the originate command last. */
  lemma StartTable(req: Request, o: Opening)
    ensures Start(req, o) ==
            State(Top, None, false, o.t1 + 30.0, o.t2 + req.timeout,
                  DropStale(HandOver([], o.waiting), o.stale) + [Write(Originate, OriginateFields(req))])
  {
  }
}
