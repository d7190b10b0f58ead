/** What a send does not do: end before its time, or cancel unasked
    (cmd/jspr-helper/jspr_helper.py, lines 271 to 304 and 349 to 370). */
module JsprSendLimits {
  import opened Options
  import opened JsprSend
  import opened JsprSendProofs
  import opened JsprSendTheorems
  import opened JsprWire

  // ----- no early end -----

  /** Going on, or ended by a line; quick leaves no room for the 30 s silence. */
  ghost predicate EndedByLine(req: Request, s: State, quick: bool) {
    && (s.phase.Settling? ==> !s.phase.timedOut)
    && (s.phase.Done? ==>
          s.out != [] && (EndedAs(req, s, Verdict) || EndedAs(req, s, Refusal) || EndedAs(req, s, Rejection) ||
                          (!quick && EndedAs(req, s, Silence))))
  }

  lemma MainLineEnds(req: Request, s: State, line: Line, quick: bool)
    requires s.phase.Reading?
    ensures EndedByLine(req, MainLine(req, s, line), quick)
  {
    hide MainLine, FieldIs, Response, VerdictFields, RefusalFields, RejectionFields, SegmentFields, SilenceFields, TimeoutFields;
    LineTable(req, s, line);
  }

  lemma {:induction false} MainLinesEnd(req: Request, s: State, lines: seq<Line>, quick: bool)
    requires s.phase.Reading?
    ensures EndedByLine(req, MainLines(req, s, lines), quick)
    decreases lines
  {
    hide MainLine, EndedAs;
    if lines != [] {
      MainLineEnds(req, s, lines[0], quick);
      MainLineEndsOrReads(req, s, lines[0]);
      var s1 := MainLine(req, s, lines[0]);
      if s1.phase.Reading? { MainLinesEnd(req, s1, lines[1..], quick); }
    }
  }

  lemma SettleLineEnds(req: Request, s: State, line: Line, quick: bool)
    requires s.phase.Settling? && !s.phase.timedOut && s.msgId.Some?
    ensures EndedByLine(req, SettleLine(req, s, line), quick)
    ensures SettleLine(req, s, line).msgId == s.msgId
  {
    hide SettleLine, FieldIs, VerdictFields, TimeoutFields, SilenceFields, RefusalFields, RejectionFields;
    SettleTable(req, s, line);
  }

  lemma {:induction false} SettleLinesEnd(req: Request, s: State, lines: seq<Line>, quick: bool)
    requires s.msgId.Some? && EndedByLine(req, s, quick)
    ensures EndedByLine(req, SettleLines(req, s, lines), quick)
    decreases lines
  {
    hide SettleLine, EndedAs;
    if lines != [] && s.phase.Settling? {
      SettleLineEnds(req, s, lines[0], quick);
      SettleLinesEnd(req, SettleLine(req, s, lines[0]), lines[1..], quick);
    }
  }

  lemma StepEnds(req: Request, s: State, i: Input, quick: bool)
    requires Sound(s) && EndedByLine(req, s, quick)
    requires i.running && i.t2 <= s.fullDeadline && (quick ==> i.t1 <= s.initialDeadline)
    ensures EndedByLine(req, Step(req, s, i), quick)
  {
    match s.phase
    case Top => TopEnds(req, s, i, quick);
    case Reading =>
      hide MainLines, EndedAs;
      MainLinesEnd(req, s, i.lines, quick);
    case Settling(_, _) =>
      hide SettleLines, EndedAs;
      SettlePollTable(req, s, i);
      SettleLinesEnd(req, s, i.lines, quick);
    case Done =>
  }

  lemma TopEnds(req: Request, s: State, i: Input, quick: bool)
    requires s.phase.Top? && i.running && i.t2 <= s.fullDeadline && (quick ==> i.t1 <= s.initialDeadline)
    ensures EndedByLine(req, Step(req, s, i), quick)
  {
    hide Step, CancelFields, SilenceFields, TimeoutFields, VerdictFields, RefusalFields, RejectionFields;
    PollTable(req, s, i);
  }

  lemma {:induction false} RunEnds(req: Request, s: State, tape: seq<Input>, quick: bool)
    requires Sound(s) && EndedByLine(req, s, quick)
    requires forall k :: 0 <= k < |tape| ==>
               tape[k].running && tape[k].t2 <= s.fullDeadline && (quick ==> tape[k].t1 <= s.initialDeadline)
    ensures EndedByLine(req, Run(req, s, tape), quick)
    decreases |tape|
  {
    hide Step, EndedByLine;
    if tape != [] {
      StepSound(req, s, tape[0]);
      StepEnds(req, s, tape[0], quick);
      StepExtends(req, s, tape[0]);
      RunEnds(req, Step(req, s, tape[0]), tape[1..], quick);
    }
  }

  /** While the helper runs and no poll comes after the budget the host gave, nothing
      but a line ends a send, except that 30 s may pass without an identity; and not
      even that before a poll has come after those 30 s. */
  lemma NoEarlyEnd(req: Request, o: Opening, tape: seq<Input>)
    requires forall k :: 0 <= k < |tape| ==> tape[k].running && tape[k].t2 <= o.t2 + req.timeout
    requires Outcome(req, o, tape).phase.Done?
    ensures var s := Outcome(req, o, tape);
            s.out != [] && (EndedAs(req, s, Verdict) || EndedAs(req, s, Refusal) || EndedAs(req, s, Rejection) ||
                            EndedAs(req, s, Silence))
    ensures var s := Outcome(req, o, tape);
            (forall k :: 0 <= k < |tape| ==> tape[k].t1 <= o.t1 + 30.0) ==>
              EndedAs(req, s, Verdict) || EndedAs(req, s, Refusal) || EndedAs(req, s, Rejection)
  {
    hide Run, EndedAs, OriginateDoc;
    StartTable(req, o);
    RunEnds(req, Start(req, o), tape, false);
    if forall k :: 0 <= k < |tape| ==> tape[k].t1 <= o.t1 + 30.0 { RunEnds(req, Start(req, o), tape, true); }
  }

  // ----- no cancel unasked -----

  ghost predicate Uncancelled(s: State) {
    !s.phase.Settling? && forall i :: 0 <= i < |s.out| ==> !IsCancel(s.out[i])
  }

  lemma MainLineUncancelled(req: Request, s: State, line: Line)
    requires Uncancelled(s) && s.phase.Reading?
    ensures Uncancelled(MainLine(req, s, line))
  {
    hide MainLine, FieldIs, Response;
    LineTable(req, s, line);
  }

  lemma {:induction false} MainLinesUncancelled(req: Request, s: State, lines: seq<Line>)
    requires Uncancelled(s) && s.phase.Reading?
    ensures Uncancelled(MainLines(req, s, lines))
    decreases lines
  {
    hide MainLine, Uncancelled;
    if lines != [] {
      MainLineUncancelled(req, s, lines[0]);
      MainLineEndsOrReads(req, s, lines[0]);
      var s1 := MainLine(req, s, lines[0]);
      if s1.phase.Reading? { MainLinesUncancelled(req, s1, lines[1..]); }
    }
  }

  lemma StepUncancelled(req: Request, s: State, i: Input)
    requires Uncancelled(s) && i.running && i.t2 <= s.fullDeadline && (req.op == "" || !i.cancel)
    ensures Uncancelled(Step(req, s, i))
  {
    hide MainLines;
    if s.phase.Top? { PollTable(req, s, i); }
    if s.phase.Reading? { MainLinesUncancelled(req, s, i.lines); }
  }

  lemma {:induction false} RunUncancelled(req: Request, s: State, tape: seq<Input>)
    requires Sound(s) && Uncancelled(s)
    requires forall k :: 0 <= k < |tape| ==>
               tape[k].running && tape[k].t2 <= s.fullDeadline && (req.op == "" || !tape[k].cancel)
    ensures Uncancelled(Run(req, s, tape))
    decreases |tape|
  {
    hide Step, Uncancelled;
    if tape != [] {
      StepSound(req, s, tape[0]);
      StepUncancelled(req, s, tape[0]);
      StepExtends(req, s, tape[0]);
      RunUncancelled(req, Step(req, s, tape[0]), tape[1..]);
    }
  }

  /** Without a late poll, a stop or a host's cancel for this op, no cancel is ever
      written; a send without an op ignores every cancel. */
  lemma NoUnaskedCancel(req: Request, o: Opening, tape: seq<Input>)
    requires forall k :: 0 <= k < |tape| ==>
               tape[k].running && tape[k].t2 <= o.t2 + req.timeout && (req.op == "" || !tape[k].cancel)
    ensures var s := Outcome(req, o, tape); forall i :: 0 <= i < |s.out| && s.out[i].Write? ==> s.out[i].put != Status
  {
    hide Run;
    StartTable(req, o);
    HandOverQuiet([], o.waiting);
    DropStaleQuiet(HandOver([], o.waiting), o.stale);
    RunUncancelled(req, Start(req, o), tape);
  }

  // ----- the settle loop waits its 20 s out -----

  lemma {:induction false} KeepsSettling(req: Request, s: State, lines: seq<Line>)
    requires s.phase.Settling? && s.msgId.Some?
    requires forall i :: 0 <= i < |lines| ==> !Stopper(req, s.msgId.value, lines[i])
    ensures SettleLines(req, s, lines).phase == s.phase && SettleLines(req, s, lines).msgId == s.msgId
    decreases lines
  {
    hide SettleLine, Stopper;
    if lines != [] {
      StopsAtStopper(req, s, lines[0]);
      KeepsSettling(req, SettleLine(req, s, lines[0]), lines[1..]);
    }
  }

  /** After a cancel, as long as the helper runs, 20 s have not passed and neither
      this message's final status nor a refusal comes, the send goes on waiting. */
  lemma {:induction false} SettleWaits(req: Request, s: State, began: real, late: bool, tape: seq<Input>)
    requires s.msgId.Some? && s.phase == Settling(began + 20.0, late)
    requires forall k :: 0 <= k < |tape| ==> tape[k].running && tape[k].t1 < began + 20.0
    requires forall k, i :: 0 <= k < |tape| && 0 <= i < |tape[k].lines| ==>
               !(tape[k].lines[i].body.Some? && Final(req, s.msgId.value, tape[k].lines[i])) &&
               !(tape[k].lines[i].target == Status && tape[k].lines[i].code >= 400)
    ensures Run(req, s, tape).phase == s.phase && Run(req, s, tape).msgId == s.msgId
    decreases |tape|
  {
    if tape != [] {
      var i, rest := tape[0], tape[1..];
      forall k | 0 <= k < |i.lines| ensures !Stopper(req, s.msgId.value, i.lines[k]) {
        assert !(tape[0].lines[k].body.Some? && Final(req, s.msgId.value, tape[0].lines[k]));
      }
      hide Final, SettleLines;
      StepSound(req, s, i);
      SettlePollTable(req, s, i);
      KeepsSettling(req, s, i.lines);
      assert forall k :: 0 <= k < |rest| ==> rest[k] == tape[k + 1];
      SettleWaits(req, Step(req, s, i), began, late, rest);
    }
  }
}
