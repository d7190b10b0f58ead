/** One mobile-originated send of the 9704 modem helper, as a state machine over
    the polls of its two loops (cmd/jspr-helper/jspr_helper.py). The modem, the
    clock, the stop flag and the host's cancels are inputs; everything the helper
    reads, writes to the modem or emits to the host is appended to a log. */
module JsprSend {
  import opened Options

  /** A decoded JSON value. Lists and objects inside a document are only ever
      compared or tested for truth, so they are kept as an identity. */
  datatype Json =
    | Null
    | Bool(b: bool)
    | Int(n: int)
    | Float(r: real)
    | Text(s: string)
    | Compound(id: int, empty: bool)

  predicate IsNumber(j: Json) {
    j.Bool? || j.Int? || j.Float?
  }

  function NumberOf(j: Json): real
    requires IsNumber(j)
  {
    match j
    case Bool(b) => if b then 1.0 else 0.0
    case Int(n) => n as real
    case Float(r) => r
  }

  /** Equality as the helper's language has it: true, 1 and 1.0 are equal. */
  predicate Same(a: Json, b: Json) {
    if IsNumber(a) && IsNumber(b) then NumberOf(a) == NumberOf(b) else a == b
  }

  /** The integer test the helper applies to a message id; it admits booleans. */
  predicate IsInteger(j: Json) {
    j.Int? || j.Bool?
  }

  predicate Truthy(j: Json) {
    match j
    case Null => false
    case Text(s) => s != ""
    case Compound(_, empty) => !empty
    case _ => NumberOf(j) != 0.0
  }

  function OrZero(j: Json): Json {
    if Truthy(j) then j else Int(0)
  }

  datatype Key =
    | MessageId | TopicId | RequestReference | MessageResponse | MessageLength
    | SegmentStart | SegmentLength | FinalMoStatus | SegmentSupplied | RefusedAt
    | Action | Data | OtherKey(name: string)

  type Doc = map<Key, Json>

  function Get(d: Doc, k: Key): Json {
    if k in d then d[k] else Null
  }

  datatype Target = Originate | Segment | Status | OtherTarget(name: string)

  /** A parsed modem line; body is None when its text is not a JSON object. */
  datatype Line = Line(code: int, target: Target, body: Option<Doc>)

  function DocOf(line: Line): Doc {
    if line.body.Some? then line.body.value else map[]
  }

  datatype Request = Request(topic: Json, payload: Json, length: Json, reference: Json, timeout: real, op: string)

  datatype Event =
    | Took(line: Line)                                   // a line taken up by one of the loops
    | Write(put: Target, doc: Doc)                       // a PUT to the modem
    | EmitUnsolicited(line: Line)
    | EmitResponse(line: Line)
    | EmitResult(code: int, target: Target, doc: Doc)    // the mo_result

  datatype Phase =
    | Top                                                // at the head of the main loop
    | Reading                                            // at the main loop's read
    | Settling(deadline: real, timedOut: bool)           // in the cancel-and-settle loop
    | Done

  datatype State = State(
    phase: Phase,
    msgId: Option<Json>,
    sent: bool,
    initialDeadline: real,
    fullDeadline: real,
    out: seq<Event>)
  {
    function Log(e: Event): State {
      this.(out := out + [e])
    }

    function Finish(e: Event): State {
      this.(phase := Done, out := out + [e])
    }
  }

  /** What the environment shows one pass of either loop: the stop flag, up to
      three clock readings, whether a cancel for this send is pending, and the
      complete lines the serial port holds. */
  datatype Input = Input(running: bool, t1: real, t2: real, t3: real, cancel: bool, lines: seq<Line>)

  const INITIAL_S := 30.0
  const SETTLE_S := 20.0
  const ACCEPTED := "message_accepted"

  // ----- documents the helper builds -----

  function OriginateDoc(req: Request): Doc {
    map[TopicId := req.topic, MessageLength := req.length, RequestReference := req.reference]
  }

  function SegmentDoc(req: Request, id: Json): Doc {
    map[TopicId := req.topic, MessageId := id, SegmentLength := req.length, SegmentStart := Int(0), Data := req.payload]
  }

  function CancelDoc(req: Request, id: Json): Doc {
    map[TopicId := req.topic, MessageId := id, Action := Text("cancel")]
  }

  function OwnDoc(req: Request, status: Json, id: Json): Doc {
    map[FinalMoStatus := status, MessageId := id, TopicId := req.topic]
  }

  /** The result line: the given document, then this side's account, then the
      reference the host sent, each overriding what came before. */
  function ResultEvent(req: Request, code: int, target: Target, d: Doc, extra: Doc): Event {
    EmitResult(code, target, d + extra + map[RequestReference := req.reference])
  }

  function Supplied(sent: bool): Doc {
    map[SegmentSupplied := Bool(sent)]
  }

  const REFUSED: Doc := map[RefusedAt := Text("originate"), SegmentSupplied := Bool(false)]

  // ----- which lines belong to this send -----

  predicate NamesRequest(req: Request, line: Line) {
    && line.code == 200 && line.target.Originate?
    && Same(Get(DocOf(line), RequestReference), req.reference)
    && Same(Get(DocOf(line), TopicId), req.topic)
  }

  function ResponseOf(line: Line): Json {
    if MessageResponse in DocOf(line) then DocOf(line)[MessageResponse] else Text("")
  }

  predicate Accepts(req: Request, line: Line, id: Json) {
    && NamesRequest(req, line)
    && ResponseOf(line) == Text(ACCEPTED)
    && Get(DocOf(line), MessageId) == id
    && IsInteger(id)
  }

  predicate NamesMessage(req: Request, id: Json, line: Line) {
    && Same(Get(DocOf(line), MessageId), id)
    && Same(Get(DocOf(line), TopicId), req.topic)
  }

  predicate WholePayload(req: Request, line: Line) {
    && Same(Get(DocOf(line), SegmentStart), Int(0))
    && Same(Get(DocOf(line), SegmentLength), req.length)
  }

  /** The segment prompt this send answers. */
  predicate Prompts(req: Request, id: Json, line: Line) {
    line.code == 299 && line.target.Segment? && NamesMessage(req, id, line) && WholePayload(req, line)
  }

  /** The final status this send accepts as the modem's verdict. */
  predicate Settles(req: Request, id: Json, line: Line) {
    line.code == 299 && line.target.Status? && NamesMessage(req, id, line)
  }

  // ----- the main loop's treatment of one line -----

  function OnOriginateReply(req: Request, s: State, line: Line): State {
    if !NamesRequest(req, line) || s.msgId.Some? then s
    else
      var s1 := s.Log(EmitResponse(line));
      var id := Get(DocOf(line), MessageId);
      if ResponseOf(line) != Text(ACCEPTED) then
        s1.Finish(ResultEvent(req, 200, Status, OwnDoc(req, ResponseOf(line), OrZero(id)), REFUSED))
      else if !IsInteger(id) then s1
      else s1.(msgId := Some(id))
  }

  function OnPrompt(req: Request, s: State, line: Line): State {
    if s.msgId.None? || s.sent || !NamesMessage(req, s.msgId.value, line) || !WholePayload(req, line) then s
    else s.Log(Write(Segment, SegmentDoc(req, s.msgId.value))).(sent := true)
  }

  function OnStatus(req: Request, s: State, line: Line): State {
    if s.msgId.None? || !NamesMessage(req, s.msgId.value, line) then s
    else s.Finish(ResultEvent(req, 200, Status, DocOf(line), Supplied(s.sent)))
  }

  function OnOriginateError(req: Request, s: State, line: Line): State {
    if s.msgId.Some? then s
    else s.Finish(ResultEvent(req, line.code, line.target, DocOf(line), REFUSED))
  }

  function MainLine(req: Request, s: State, line: Line): State {
    var s := s.Log(Took(line));
    if line.code == 299 && !line.target.Segment? && !line.target.Status? then s.Log(EmitUnsolicited(line))
    else if line.code == 200 && line.target.Originate? then OnOriginateReply(req, s, line)
    else if line.code == 299 && line.target.Segment? then OnPrompt(req, s, line)
    else if line.code == 200 && line.target.Segment? then s.Log(EmitResponse(line))
    else if line.code == 299 && line.target.Status? then OnStatus(req, s, line)
    else if line.code >= 400 && line.target.Originate? then OnOriginateError(req, s, line)
    else s.Log(EmitResponse(line))
  }

  /** One batch of the main loop: a line that ends the send leaves the rest unread. */
  function MainLines(req: Request, s: State, lines: seq<Line>): State
    decreases lines
  {
    if lines == [] || s.phase.Done? then s
    else MainLines(req, MainLine(req, s, lines[0]), lines[1..])
  }

  // ----- the cancel-and-settle loop -----

  /** The settle loop gives up: after a timeout the send ends, after a host
      cancel the main loop resumes at its read. */
  function Unsettled(req: Request, s: State): State
    requires s.phase.Settling?
  {
    if s.phase.timedOut then TimeoutResult(req, s) else s.(phase := Reading)
  }

  function TimeoutResult(req: Request, s: State): State {
    var id := if s.msgId.Some? then OrZero(s.msgId.value) else Int(0);
    s.Finish(ResultEvent(req, 200, Status, OwnDoc(req, Text("helper_timeout"), id), Supplied(s.sent)))
  }

  function SettleLine(req: Request, s: State, line: Line): State
    requires s.phase.Settling? && s.msgId.Some?
  {
    var s := s.Log(Took(line));
    if line.target.Status? then
      if line.code == 299 then
        if line.body.None? || !NamesMessage(req, s.msgId.value, line) then s
        else s.Finish(ResultEvent(req, 200, Status, DocOf(line), Supplied(s.sent)))
      else if line.code >= 400 then Unsettled(req, s)
      else s
    else if line.code == 299 then s.Log(EmitUnsolicited(line))
    else s
  }

  function SettleLines(req: Request, s: State, lines: seq<Line>): State
    requires s.msgId.Some?
    decreases lines
  {
    if lines == [] || !s.phase.Settling? then s
    else SettleLines(req, SettleLine(req, s, lines[0]), lines[1..])
  }

  function BeginCancel(req: Request, s: State, now: real, timedOut: bool): State
    requires s.msgId.Some?
  {
    s.Log(Write(Status, CancelDoc(req, s.msgId.value))).(phase := Settling(now + SETTLE_S, timedOut))
  }

  // ----- one pass, and whole runs -----

  function GiveUp(req: Request, s: State, now: real): State {
    if s.msgId.Some? then BeginCancel(req, s, now, true) else TimeoutResult(req, s)
  }

  function AtTop(req: Request, s: State, i: Input): State {
    if !i.running then GiveUp(req, s, i.t3)
    else if s.msgId.None? && i.t1 > s.initialDeadline then
      s.Finish(ResultEvent(req, 200, Status, OwnDoc(req, Text("no_response"), Int(0)), Supplied(false)))
    else if i.t2 > s.fullDeadline then GiveUp(req, s, i.t3)
    else if s.msgId.Some? && req.op != "" && i.cancel then BeginCancel(req, s, i.t3, false)
    else s.(phase := Reading)
  }

  function Step(req: Request, s: State, i: Input): State
    requires s.phase.Settling? ==> s.msgId.Some?
  {
    match s.phase
    case Top => AtTop(req, s, i)
    case Reading =>
      var s' := MainLines(req, s, i.lines);
      if s'.phase.Done? then s' else s'.(phase := Top)
    case Settling(deadline, _) =>
      if !i.running || i.t1 >= deadline then Unsettled(req, s) else SettleLines(req, s, i.lines)
    case Done => s
  }

  /** The first hand-over of waiting lines before a send. */
  function HandOver(out: seq<Event>, lines: seq<Line>): seq<Event>
    decreases lines
  {
    if lines == [] then out
    else HandOver(out + [Took(lines[0]), if lines[0].code == 299 then EmitUnsolicited(lines[0]) else EmitResponse(lines[0])],
                  lines[1..])
  }

  /** The second, which drops a stale status and anything but unsolicited lines. */
  function DropStale(out: seq<Event>, lines: seq<Line>): seq<Event>
    decreases lines
  {
    if lines == [] then out
    else
      var taken := out + [Took(lines[0])];
      DropStale(if lines[0].code == 299 && !lines[0].target.Status? then taken + [EmitUnsolicited(lines[0])] else taken,
                lines[1..])
  }

  /** What a send meets before its main loop: two reads and two clock readings. */
  datatype Opening = Opening(waiting: seq<Line>, stale: seq<Line>, t1: real, t2: real)

  function Start(req: Request, o: Opening): State {
    State(Top, None, false, o.t1 + INITIAL_S, o.t2 + req.timeout,
          DropStale(HandOver([], o.waiting), o.stale) + [Write(Originate, OriginateDoc(req))])
  }

  /** A run keeps the shape Step needs: a settle loop always has an identity. */
  predicate Sound(s: State) {
    s.phase.Settling? ==> s.msgId.Some?
  }

  function Run(req: Request, s: State, tape: seq<Input>): (s': State)
    requires Sound(s)
    ensures Sound(s')
    decreases |tape|
  {
    if tape == [] then s
    else
      StepSound(req, s, tape[0]);
      Run(req, Step(req, s, tape[0]), tape[1..])
  }

  lemma {:induction false} StepSound(req: Request, s: State, i: Input)
    requires Sound(s)
    ensures Sound(Step(req, s, i))
  {
    match s.phase
    case Reading => MainLinesPhase(req, s, i.lines);
    case Settling(_, _) => if !(!i.running || i.t1 >= s.phase.deadline) { SettleLinesIdentity(req, s, i.lines); }
    case _ =>
  }

  lemma {:induction false} MainLinesPhase(req: Request, s: State, lines: seq<Line>)
    requires s.phase.Reading?
    ensures MainLines(req, s, lines).phase in {Reading, Done}
    decreases lines
  {
    if lines != [] {
      var s1 := MainLine(req, s, lines[0]);
      if s1.phase.Done? {
        assert MainLines(req, s1, lines[1..]) == s1;
      } else {
        MainLinesPhase(req, s1, lines[1..]);
      }
    }
  }

  lemma {:induction false} SettleLinesIdentity(req: Request, s: State, lines: seq<Line>)
    requires s.msgId.Some?
    ensures SettleLines(req, s, lines).msgId == s.msgId
    decreases lines
  {
    if lines != [] && s.phase.Settling? {
      SettleLinesIdentity(req, SettleLine(req, s, lines[0]), lines[1..]);
    }
  }
}
