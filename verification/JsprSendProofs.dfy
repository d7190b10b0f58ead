/** What every run of a send keeps, against any modem, clock, stop flag and
    cancels (cmd/jspr-helper/jspr_helper.py, lines 259 to 485). */
module JsprSendProofs {
  import opened Options
  import opened JsprSend

  // ----- counting events in a log -----

  predicate IsResult(e: Event) { e.EmitResult? }

  /** The payload handed to the modem. */
  predicate IsSupply(e: Event) { e.Write? && e.put.Segment? }

  function Count(out: seq<Event>, kind: Event -> bool): nat {
    if out == [] then 0
    else Count(out[..|out| - 1], kind) + if kind(out[|out| - 1]) then 1 else 0
  }

  lemma CountAppend(out: seq<Event>, e: Event, kind: Event -> bool)
    ensures Count(out + [e], kind) == Count(out, kind) + if kind(e) then 1 else 0
  {
    assert (out + [e])[..|out|] == out;
  }

  lemma {:induction false} CountHas(out: seq<Event>, kind: Event -> bool, i: nat)
    requires i < |out| && kind(out[i])
    ensures Count(out, kind) >= 1
  {
    if i < |out| - 1 { CountHas(out[..|out| - 1], kind, i); }
  }

  lemma {:induction false} CountTwo(out: seq<Event>, kind: Event -> bool, i: nat, j: nat)
    requires i < j < |out| && kind(out[i]) && kind(out[j])
    ensures Count(out, kind) >= 2
  {
    if j == |out| - 1 {
      CountHas(out[..|out| - 1], kind, i);
    } else {
      CountTwo(out[..|out| - 1], kind, i, j);
    }
  }

  lemma {:induction false} CountNone(out: seq<Event>, kind: Event -> bool)
    requires Count(out, kind) == 0
    ensures forall i :: 0 <= i < |out| ==> !kind(out[i])
  {
    forall i | 0 <= i < |out| ensures !kind(out[i]) {
      if kind(out[i]) { CountHas(out, kind, i); }
    }
  }

  lemma {:induction false} CountSome(out: seq<Event>, kind: Event -> bool) returns (i: nat)
    requires Count(out, kind) > 0
    ensures i < |out| && kind(out[i])
  {
    i := |out| - 1;
    if !kind(out[i]) { i := CountSome(out[..|out| - 1], kind); }
  }

  // ----- the invariant -----

  ghost predicate AcceptedAt(req: Request, id: Json, out: seq<Event>, j: int) {
    0 <= j < |out| && out[j].Took? && Accepts(req, out[j].line, id)
  }

  /** Every write of a log is one this send may make, at the place it stands. */
  ghost predicate Justified(req: Request, id: Option<Json>, out: seq<Event>, i: int)
    requires 0 <= i < |out|
  {
    match out[i]
    case Write(Originate, d) => d == OriginateDoc(req)
    case Write(Segment, d) =>
      && id.Some? && d == SegmentDoc(req, id.value)
      && i > 0 && out[i - 1].Took? && Prompts(req, id.value, out[i - 1].line)
      && exists j :: j < i && AcceptedAt(req, id.value, out, j)
    case Write(Status, d) => id.Some? && d == CancelDoc(req, id.value)
    case Write(OtherTarget(_), d) => false
    case _ => true
  }

  /** The ways a send ends; the log's last event is its result. */
  datatype Ending = Verdict | Refusal | Rejection | Silence | Timeout

  ghost predicate EndsAs(req: Request, s: State, how: Ending)
    requires s.out != []
  {
    var n := |s.out| - 1;
    match how
    case Verdict =>
      && n >= 1 && s.msgId.Some? && s.out[n - 1].Took? && Settles(req, s.msgId.value, s.out[n - 1].line)
      && s.out[n] == ResultEvent(req, 200, Status, DocOf(s.out[n - 1].line), Supplied(s.sent))
    case Refusal =>
      && n >= 1 && s.msgId.None? && s.out[n - 1].EmitResponse?
      && var line := s.out[n - 1].line;
         && NamesRequest(req, line) && ResponseOf(line) != Text(ACCEPTED)
         && s.out[n] == ResultEvent(req, 200, Status,
                                    OwnDoc(req, ResponseOf(line), OrZero(Get(DocOf(line), MessageId))), REFUSED)
    case Rejection =>
      && n >= 1 && s.msgId.None? && s.out[n - 1].Took?
      && s.out[n - 1].line.code >= 400 && s.out[n - 1].line.target.Originate?
      && s.out[n] == ResultEvent(req, s.out[n - 1].line.code, Originate, DocOf(s.out[n - 1].line), REFUSED)
    case Silence =>
      && s.msgId.None?
      && s.out[n] == ResultEvent(req, 200, Status, OwnDoc(req, Text("no_response"), Int(0)), Supplied(false))
    case Timeout =>
      s.out[n] == ResultEvent(req, 200, Status,
                              OwnDoc(req, Text("helper_timeout"), if s.msgId.Some? then OrZero(s.msgId.value) else Int(0)),
                              Supplied(s.sent))
  }

  ghost predicate Inv(req: Request, s: State) {
    && Sound(s)
    && (forall i :: 0 <= i < |s.out| ==> Justified(req, s.msgId, s.out, i))
    && Count(s.out, IsResult) == (if s.phase.Done? then 1 else 0)
    && Count(s.out, IsSupply) == (if s.sent then 1 else 0)
    && (s.sent ==> s.msgId.Some?)
    && (s.msgId.Some? ==> exists j :: AcceptedAt(req, s.msgId.value, s.out, j))
    && (s.phase.Done? ==> s.out != [] && s.out[|s.out| - 1].EmitResult? && exists how :: EndsAs(req, s, how))
  }

  predicate Quiet(e: Event) { e.Took? || e.EmitUnsolicited? || e.EmitResponse? }

  lemma InvLog(req: Request, s: State, e: Event)
    requires Inv(req, s) && !s.phase.Done?
    requires Quiet(e) || (e.Write? && e.put.Status? && s.msgId.Some? && e.doc == CancelDoc(req, s.msgId.value))
    ensures Inv(req, s.Log(e))
  {
    CountAppend(s.out, e, IsResult);
    CountAppend(s.out, e, IsSupply);
    JustifiedAppend(req, s, e);
    assert Justified(req, s.msgId, s.Log(e).out, |s.out|);
  }

  lemma JustifiedAppend(req: Request, s: State, e: Event)
    requires Inv(req, s)
    ensures forall i :: 0 <= i < |s.out| ==> Justified(req, s.msgId, s.out + [e], i)
    ensures s.msgId.Some? ==> exists j :: j < |s.out| && AcceptedAt(req, s.msgId.value, s.out + [e], j)
  {
    forall j, id | AcceptedAt(req, id, s.out, j) ensures AcceptedAt(req, id, s.out + [e], j) {}
    forall i | 0 <= i < |s.out| ensures Justified(req, s.msgId, s.out + [e], i) {
      assert Justified(req, s.msgId, s.out, i);
    }
  }

  lemma InvFinish(req: Request, s: State, e: Event, how: Ending)
    requires Inv(req, s) && !s.phase.Done? && e.EmitResult?
    requires EndsAs(req, s.Finish(e), how)
    ensures Inv(req, s.Finish(e))
  {
    CountAppend(s.out, e, IsResult);
    CountAppend(s.out, e, IsSupply);
    JustifiedAppend(req, s, e);
  }

  // ----- each step keeps it -----

  lemma StartInv(req: Request, o: Opening)
    ensures Inv(req, Start(req, o))
  {
    HandOverQuiet([], o.waiting);
    var waiting := HandOver([], o.waiting);
    DropStaleQuiet(waiting, o.stale);
    var out := DropStale(waiting, o.stale);
    QuietCounts(out);
    CountAppend(out, Write(Originate, OriginateDoc(req)), IsResult);
    CountAppend(out, Write(Originate, OriginateDoc(req)), IsSupply);
  }

  ghost predicate AllQuiet(out: seq<Event>) {
    forall i :: 0 <= i < |out| ==> Quiet(out[i])
  }

  lemma {:induction false} HandOverQuiet(out: seq<Event>, lines: seq<Line>)
    requires AllQuiet(out)
    ensures AllQuiet(HandOver(out, lines))
    decreases lines
  {
    if lines != [] {
      HandOverQuiet(out + [Took(lines[0]), if lines[0].code == 299 then EmitUnsolicited(lines[0]) else EmitResponse(lines[0])],
                    lines[1..]);
    }
  }

  lemma {:induction false} DropStaleQuiet(out: seq<Event>, lines: seq<Line>)
    requires AllQuiet(out)
    ensures AllQuiet(DropStale(out, lines))
    decreases lines
  {
    if lines != [] {
      var taken := out + [Took(lines[0])];
      DropStaleQuiet(if lines[0].code == 299 && !lines[0].target.Status? then taken + [EmitUnsolicited(lines[0])] else taken,
                     lines[1..]);
    }
  }

  lemma {:induction false} QuietCounts(out: seq<Event>)
    requires AllQuiet(out)
    ensures Count(out, IsResult) == 0 && Count(out, IsSupply) == 0
  {
    if out != [] { QuietCounts(out[..|out| - 1]); }
  }

  lemma OriginateReplyInv(req: Request, s: State, line: Line)
    requires Inv(req, s) && !s.phase.Done? && s.out != [] && s.out[|s.out| - 1] == Took(line)
    requires line.code == 200 && line.target.Originate?
    ensures Inv(req, OnOriginateReply(req, s, line))
  {
    if NamesRequest(req, line) && s.msgId.None? {
      var s1 := s.Log(EmitResponse(line));
      InvLog(req, s, EmitResponse(line));
      var id := Get(DocOf(line), MessageId);
      if ResponseOf(line) != Text(ACCEPTED) {
        var e := ResultEvent(req, 200, Status, OwnDoc(req, ResponseOf(line), OrZero(id)), REFUSED);
        assert EndsAs(req, s1.Finish(e), Refusal);
        InvFinish(req, s1, e, Refusal);
      } else if IsInteger(id) {
        var s2 := s1.(msgId := Some(id));
        assert AcceptedAt(req, id, s2.out, |s.out| - 1);
        forall i | 0 <= i < |s2.out| ensures Justified(req, s2.msgId, s2.out, i) {
          assert Justified(req, s1.msgId, s1.out, i);
        }
      }
    }
  }

  lemma PromptInv(req: Request, s: State, line: Line)
    requires Inv(req, s) && !s.phase.Done? && s.out != [] && s.out[|s.out| - 1] == Took(line)
    requires line.code == 299 && line.target.Segment?
    ensures Inv(req, OnPrompt(req, s, line))
  {
    var s' := OnPrompt(req, s, line);
    if s' != s {
      var e := Write(Segment, SegmentDoc(req, s.msgId.value));
      CountAppend(s.out, e, IsResult);
      CountAppend(s.out, e, IsSupply);
      JustifiedAppend(req, s, e);
      var j :| j < |s.out| && AcceptedAt(req, s.msgId.value, s'.out, j);
      assert Prompts(req, s.msgId.value, s'.out[|s.out| - 1].line);
      assert Justified(req, s'.msgId, s'.out, |s.out|);
    }
  }

  lemma MainLineInv(req: Request, s: State, line: Line)
    requires Inv(req, s) && s.phase.Reading?
    ensures Inv(req, MainLine(req, s, line))
  {
    hide Inv, ResultEvent, OnOriginateReply, OnPrompt, NamesMessage, DocOf;
    InvLog(req, s, Took(line));
    var s := s.Log(Took(line));
    if line.code == 299 && !line.target.Segment? && !line.target.Status? {
      InvLog(req, s, EmitUnsolicited(line));
    } else if line.code == 200 && line.target.Originate? {
      OriginateReplyInv(req, s, line);
    } else if line.code == 299 && line.target.Segment? {
      PromptInv(req, s, line);
    } else if line.code == 299 && line.target.Status? {
      if s.msgId.Some? && NamesMessage(req, s.msgId.value, line) {
        VerdictInv(req, s, line);
      }
    } else if line.code >= 400 && line.target.Originate? {
      if s.msgId.None? { RejectionInv(req, s, line); }
    } else {
      InvLog(req, s, EmitResponse(line));
    }
  }

  lemma RejectionInv(req: Request, s: State, line: Line)
    requires Inv(req, s) && !s.phase.Done? && s.out != [] && s.out[|s.out| - 1] == Took(line)
    requires s.msgId.None? && line.code >= 400 && line.target.Originate?
    ensures Inv(req, s.Finish(ResultEvent(req, line.code, line.target, DocOf(line), REFUSED)))
  {
    var e := ResultEvent(req, line.code, line.target, DocOf(line), REFUSED);
    assert EndsAs(req, s.Finish(e), Rejection);
    InvFinish(req, s, e, Rejection);
  }

  lemma VerdictInv(req: Request, s: State, line: Line)
    requires Inv(req, s) && !s.phase.Done? && s.out != [] && s.out[|s.out| - 1] == Took(line)
    requires s.msgId.Some? && Settles(req, s.msgId.value, line)
    ensures Inv(req, s.Finish(ResultEvent(req, 200, Status, DocOf(line), Supplied(s.sent))))
  {
    var e := ResultEvent(req, 200, Status, DocOf(line), Supplied(s.sent));
    assert EndsAs(req, s.Finish(e), Verdict);
    InvFinish(req, s, e, Verdict);
  }

  lemma TimeoutInv(req: Request, s: State)
    requires Inv(req, s) && !s.phase.Done?
    ensures Inv(req, TimeoutResult(req, s))
  {
    var s' := TimeoutResult(req, s);
    assert EndsAs(req, s', Timeout);
    InvFinish(req, s, s'.out[|s.out|], Timeout);
  }

  lemma SettleLineInv(req: Request, s: State, line: Line)
    requires Inv(req, s) && s.phase.Settling?
    ensures Inv(req, SettleLine(req, s, line))
  {
    InvLog(req, s, Took(line));
    var s := s.Log(Took(line));
    if line.target.Status? {
      if line.code == 299 {
        if line.body.Some? && NamesMessage(req, s.msgId.value, line) { VerdictInv(req, s, line); }
      } else if line.code >= 400 && s.phase.timedOut {
        TimeoutInv(req, s);
      }
    } else if line.code == 299 {
      InvLog(req, s, EmitUnsolicited(line));
    }
  }

  lemma {:induction false} MainLinesInv(req: Request, s: State, lines: seq<Line>)
    requires Inv(req, s) && s.phase in {Reading, Done}
    ensures Inv(req, MainLines(req, s, lines))
    ensures MainLines(req, s, lines).phase in {Reading, Done}
    decreases lines
  {
    if lines != [] && s.phase.Reading? {
      MainLineInv(req, s, lines[0]);
      MainLinesInv(req, MainLine(req, s, lines[0]), lines[1..]);
    }
  }

  lemma {:induction false} SettleLinesInv(req: Request, s: State, lines: seq<Line>)
    requires Inv(req, s) && s.msgId.Some?
    ensures Inv(req, SettleLines(req, s, lines))
    decreases lines
  {
    if lines != [] && s.phase.Settling? {
      SettleLineInv(req, s, lines[0]);
      SettleLinesInv(req, SettleLine(req, s, lines[0]), lines[1..]);
    }
  }

  lemma GiveUpInv(req: Request, s: State, now: real)
    requires Inv(req, s) && s.phase.Top?
    ensures Inv(req, GiveUp(req, s, now))
  {
    if s.msgId.Some? {
      InvLog(req, s, Write(Status, CancelDoc(req, s.msgId.value)));
    } else {
      TimeoutInv(req, s);
    }
  }

  lemma StepInv(req: Request, s: State, i: Input)
    requires Inv(req, s)
    ensures Inv(req, Step(req, s, i))
  {
    match s.phase
    case Top =>
      if !i.running {
        GiveUpInv(req, s, i.t3);
      } else if s.msgId.None? && i.t1 > s.initialDeadline {
        var e := ResultEvent(req, 200, Status, OwnDoc(req, Text("no_response"), Int(0)), Supplied(false));
        assert EndsAs(req, s.Finish(e), Silence);
        InvFinish(req, s, e, Silence);
      } else if i.t2 > s.fullDeadline {
        GiveUpInv(req, s, i.t3);
      } else if s.msgId.Some? && req.op != "" && i.cancel {
        InvLog(req, s, Write(Status, CancelDoc(req, s.msgId.value)));
      }
    case Reading => MainLinesInv(req, s, i.lines);
    case Settling(deadline, timedOut) =>
      if !i.running || i.t1 >= deadline {
        if timedOut { TimeoutInv(req, s); }
      } else {
        SettleLinesInv(req, s, i.lines);
      }
    case Done =>
  }

  lemma {:induction false} RunInv(req: Request, s: State, tape: seq<Input>)
    requires Inv(req, s)
    ensures Inv(req, Run(req, s, tape))
    decreases |tape|
  {
    if tape != [] {
      StepInv(req, s, tape[0]);
      RunInv(req, Step(req, s, tape[0]), tape[1..]);
    }
  }
}
