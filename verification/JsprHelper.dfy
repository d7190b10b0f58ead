/** The send as the helper runs it: fields updated in polling loops with early
    returns (cmd/jspr-helper/jspr_helper.py). Each method is proved to follow the
    state machine of JsprSend, so every theorem about runs holds of it. */
module JsprHelper {
  import opened Options
  import opened JsprSend
  import opened JsprSendTheorems

  /** How a loop that consumes polls stops: with a result, without one, or
      because the tape of polls ends here. */
  datatype Stop = Settled | GaveUp | OutOfTape

  class Send {
    const req: Request
    var msgId: Option<Json>
    var segmentSent: bool
    var initialDeadline: real
    var fullDeadline: real
    var out: seq<Event>

    ghost function View(phase: Phase): State
      reads this
    {
      State(phase, msgId, segmentSent, initialDeadline, fullDeadline, out)
    }

    constructor (req: Request, o: Opening)
      ensures this.req == req
      ensures View(Top) == Start(req, o)
    {
      this.req := req;
      msgId, segmentSent := None, false;
      initialDeadline, fullDeadline := o.t1 + INITIAL_S, o.t2 + req.timeout;
      out := [];
      new;
      for k := 0 to |o.waiting|
        invariant HandOver([], o.waiting) == HandOver(out, o.waiting[k..])
        invariant View(Top) == State(Top, None, false, o.t1 + INITIAL_S, o.t2 + req.timeout, out)
      {
        var line := o.waiting[k];
        if line.code == 299 {
          out := out + [Took(line), EmitUnsolicited(line)];
        } else {
          out := out + [Took(line), EmitResponse(line)];
        }
        assert o.waiting[k..][1..] == o.waiting[k + 1..];
      }
      ghost var handed := out;
      for k := 0 to |o.stale|
        invariant DropStale(handed, o.stale) == DropStale(out, o.stale[k..])
        invariant View(Top) == State(Top, None, false, o.t1 + INITIAL_S, o.t2 + req.timeout, out)
      {
        var line := o.stale[k];
        out := out + [Took(line)];
        if line.code == 299 && !line.target.Status? {
          out := out + [EmitUnsolicited(line)];
        }
        assert o.stale[k..][1..] == o.stale[k + 1..];
      }
      out := out + [Write(Originate, OriginateDoc(req))];
    }

    method Emit(e: Event)
      modifies `out
      ensures out == old(out) + [e]
    {
      out := out + [e];
    }

    /** One line of the main loop; true when it ended the send. */
    method TakeLine(line: Line) returns (done: bool)
      modifies this
      ensures View(if done then Done else Reading) == MainLine(req, old(View(Reading)), line)
    {
      done := false;
      Emit(Took(line));
      if line.code == 299 && !line.target.Segment? && !line.target.Status? {
        Emit(EmitUnsolicited(line));
        return;
      }
      var d := DocOf(line);
      if line.code == 200 && line.target.Originate? {
        if !Same(Get(d, RequestReference), req.reference) || !Same(Get(d, TopicId), req.topic) {
          return;
        }
        if msgId.Some? {
          return;
        }
        Emit(EmitResponse(line));
        if ResponseOf(line) != Text(ACCEPTED) {
          Emit(ResultEvent(req, 200, Status, OwnDoc(req, ResponseOf(line), OrZero(Get(d, MessageId))), REFUSED));
          return true;
        }
        if IsInteger(Get(d, MessageId)) {
          msgId := Some(Get(d, MessageId));
        }
      } else if line.code == 299 && line.target.Segment? {
        if msgId.None? || segmentSent || !NamesMessage(req, msgId.value, line) {
          return;
        }
        if !WholePayload(req, line) {
          return;
        }
        Emit(Write(Segment, SegmentDoc(req, msgId.value)));
        segmentSent := true;
      } else if line.code == 200 && line.target.Segment? {
        Emit(EmitResponse(line));
      } else if line.code == 299 && line.target.Status? {
        if msgId.None? || !NamesMessage(req, msgId.value, line) {
          return;
        }
        Emit(ResultEvent(req, 200, Status, d, Supplied(segmentSent)));
        return true;
      } else if line.code >= 400 && line.target.Originate? {
        if msgId.Some? {
          return;
        }
        Emit(ResultEvent(req, line.code, line.target, d, REFUSED));
        return true;
      } else {
        // The source tests for 299 once more here; every such line went above.
        Emit(EmitResponse(line));
      }
    }

    method TakeLines(lines: seq<Line>) returns (done: bool)
      modifies this
      ensures View(if done then Done else Reading) == MainLines(req, old(View(Reading)), lines)
    {
      for k := 0 to |lines|
        invariant MainLines(req, old(View(Reading)), lines) == MainLines(req, View(Reading), lines[k..])
      {
        assert lines[k..][1..] == lines[k + 1..];
        done := TakeLine(lines[k]);
        if done {
          return;
        }
      }
      done := false;
    }

    /** Lines of the settle loop: Settled emitted the modem's verdict, GaveUp is
        the modem refusing the cancel, OutOfTape only means the batch is read. */
    method SettleOn(lines: seq<Line>, ghost phase: Phase) returns (how: Stop)
      requires phase.Settling? && msgId.Some?
      modifies `out
      ensures how.Settled? ==> View(Done) == SettleLines(req, old(View(phase)), lines)
      ensures how.GaveUp? ==> Unsettled(req, View(phase)) == SettleLines(req, old(View(phase)), lines)
      ensures how.OutOfTape? ==> View(phase) == SettleLines(req, old(View(phase)), lines)
    {
      for k := 0 to |lines|
        invariant SettleLines(req, old(View(phase)), lines) == SettleLines(req, View(phase), lines[k..])
      {
        var line := lines[k];
        ghost var before := View(phase);
        ghost var after := SettleLine(req, before, line);
        assert lines[k..][1..] == lines[k + 1..];
        Emit(Took(line));
        if line.target.Status? {
          if line.code == 299 {
            if line.body.None? {
              continue;
            }
            if !NamesMessage(req, msgId.value, line) {
              continue;
            }
            Emit(ResultEvent(req, 200, Status, DocOf(line), Supplied(segmentSent)));
            assert SettleLines(req, after, lines[k + 1..]) == after;
            return Settled;
          }
          if line.code >= 400 {
            assert SettleLines(req, after, lines[k + 1..]) == after;
            return GaveUp;
          }
          continue;
        }
        if line.code == 299 {
          Emit(EmitUnsolicited(line));
        }
      }
      how := OutOfTape;
    }

    /** Ask the modem to cancel, then wait for its word. */
    method CancelAndSettle(now: real, tape: seq<Input>, from: nat, ghost timedOut: bool) returns (how: Stop, next: nat)
      requires from <= |tape| && msgId.Some?
      modifies `out
      ensures from <= next <= |tape|
      ensures var begun := BeginCancel(req, old(View(Top)), now, timedOut);
              var phase := Settling(now + SETTLE_S, timedOut);
              match how
              case Settled => Run(req, begun, tape[from..]) == View(Done)
              case GaveUp => Run(req, begun, tape[from..]) == Run(req, Unsettled(req, View(phase)), tape[next..])
              case OutOfTape => Run(req, begun, tape[from..]) == View(phase)
    {
      Emit(Write(Status, CancelDoc(req, msgId.value)));
      var deadline := now + SETTLE_S;
      ghost var phase := Settling(deadline, timedOut);
      ghost var begun := BeginCancel(req, old(View(Top)), now, timedOut);
      next := from;
      while next < |tape|
        invariant from <= next <= |tape| && msgId.Some?
        invariant Run(req, begun, tape[from..]) == Run(req, View(phase), tape[next..])
      {
        var poll := tape[next];
        UnfoldRun(req, View(phase), tape, next);
        next := next + 1;
        if !poll.running || poll.t1 >= deadline {
          return GaveUp, next;
        }
        how := SettleOn(poll.lines, phase);
        if how.Settled? {
          RunExtends(req, View(Done), tape[next..]);
          return;
        }
        if how.GaveUp? {
          return;
        }
      }
      how := OutOfTape;
    }

    /** The end of the main loop without a result: cancel what the modem holds. */
    method TimeOut(now: real, tape: seq<Input>, from: nat) returns (done: bool, ghost phase: Phase)
      requires from <= |tape|
      modifies `out
      ensures View(phase) == Run(req, GiveUp(req, old(View(Top)), now), tape[from..]) && done == phase.Done?
    {
      var at := from;
      if msgId.Some? {
        var how;
        how, at := CancelAndSettle(now, tape, from, true);
        if how.Settled? {
          return true, Done;
        }
        if how.OutOfTape? {
          return false, Settling(now + SETTLE_S, true);
        }
      }
      var id := if msgId.Some? then OrZero(msgId.value) else Int(0);
      Emit(ResultEvent(req, 200, Status, OwnDoc(req, Text("helper_timeout"), id), Supplied(segmentSent)));
      RunExtends(req, View(Done), tape[at..]);
      return true, Done;
    }

    /** The main loop over a tape of polls: one poll at its head, one at its read. */
    method Pump(tape: seq<Input>) returns (done: bool, ghost phase: Phase)
      modifies this
      ensures View(phase) == Run(req, old(View(Top)), tape) && done == phase.Done?
    {
      hide MainLines, SettleLines, ResultEvent, OwnDoc, Supplied, Run;
      var at := 0;
      ghost var start := View(Top);
      assert tape[0..] == tape;
      while at < |tape|
        invariant 0 <= at <= |tape|
        invariant Run(req, start, tape) == Run(req, View(Top), tape[at..])
      {
        var poll := tape[at];
        UnfoldRun(req, View(Top), tape, at);
        at := at + 1;
        if !poll.running {
          done, phase := TimeOut(poll.t3, tape, at);
          return;
        }
        if msgId.None? && poll.t1 > initialDeadline {
          Emit(ResultEvent(req, 200, Status, OwnDoc(req, Text("no_response"), Int(0)), Supplied(false)));
          RunExtends(req, View(Done), tape[at..]);
          return true, Done;
        }
        if poll.t2 > fullDeadline {
          done, phase := TimeOut(poll.t3, tape, at);
          return;
        }
        if msgId.Some? && req.op != "" && poll.cancel {
          var how;
          how, at := CancelAndSettle(poll.t3, tape, at, false);
          if how.Settled? {
            return true, Done;
          }
          if how.OutOfTape? {
            return false, Settling(poll.t3 + SETTLE_S, false);
          }
        }
        assert Run(req, start, tape) == Run(req, View(Reading), tape[at..]);
        if at == |tape| {
          assert tape[at..] == [];
          RunNoPolls(req, View(Reading));
          return false, Reading;
        }
        UnfoldRun(req, View(Reading), tape, at);
        done := TakeLines(tape[at].lines);
        at := at + 1;
        if done {
          RunExtends(req, View(Done), tape[at..]);
          return true, Done;
        }
      }
      assert tape[at..] == [];
      RunNoPolls(req, View(Top));
      return false, Top;
    }
  }

  lemma UnfoldRun(req: Request, s: State, tape: seq<Input>, at: nat)
    requires Sound(s) && at < |tape|
    ensures Sound(Step(req, s, tape[at]))
    ensures Run(req, s, tape[at..]) == Run(req, Step(req, s, tape[at]), tape[at + 1..])
  {
    StepSound(req, s, tape[at]);
    assert tape[at..][1..] == tape[at + 1..];
  }

  /** A whole send. */
  method DoSend(req: Request, o: Opening, tape: seq<Input>) returns (done: bool, out: seq<Event>)
    ensures done <==> Outcome(req, o, tape).phase.Done?
    ensures out == Outcome(req, o, tape).out
  {
    var send := new Send(req, o);
    ghost var phase;
    done, phase := send.Pump(tape);
    out := send.out;
  }
}
