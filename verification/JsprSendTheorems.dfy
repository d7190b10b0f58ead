/** The promises of a send, over every run: any opening, any tape of polls. */
module JsprSendTheorems {
  import opened Options
  import opened JsprSend
  import opened JsprSendProofs
  import opened JsprWire

  function Outcome(req: Request, o: Opening, tape: seq<Input>): State {
    Run(req, Start(req, o), tape)
  }

  lemma OutcomeInv(req: Request, o: Opening, tape: seq<Input>)
    ensures Inv(req, Outcome(req, o, tape))
  {
    StartInv(req, o);
    RunInv(req, Start(req, o), tape);
  }

  // ----- one result, and what it says -----

  /** A send still going has emitted no result; a finished one has emitted
      exactly one, as its last act, under its own reference. */
  lemma ExactlyOneResult(req: Request, o: Opening, tape: seq<Input>)
    ensures var s := Outcome(req, o, tape);
            forall i :: 0 <= i < |s.out| ==> (IsResult(s.out[i]) <==> s.phase.Done? && i == |s.out| - 1)
    ensures var s := Outcome(req, o, tape);
            s.phase.Done? ==> s.out != [] && s.out[|s.out| - 1].EmitResult? &&
                              RequestReference in s.out[|s.out| - 1].doc &&
                              s.out[|s.out| - 1].doc[RequestReference] == req.reference
  {
    hide Run, Start, Justified;
    OutcomeInv(req, o, tape);
    var s := Outcome(req, o, tape);
    if s.phase.Done? {
      forall i | 0 <= i < |s.out| - 1 ensures !IsResult(s.out[i]) {
        if IsResult(s.out[i]) { CountTwo(s.out, IsResult, i, |s.out| - 1); }
      }
    } else {
      CountNone(s.out, IsResult);
    }
  }

  ghost predicate PayloadWritten(s: State) {
    exists i :: 0 <= i < |s.out| && IsSupply(s.out[i])
  }

  lemma SentIffWritten(req: Request, s: State)
    requires Inv(req, s)
    ensures s.sent <==> PayloadWritten(s)
  {
    if s.sent {
      var i := CountSome(s.out, IsSupply);
    } else {
      CountNone(s.out, IsSupply);
    }
  }

  /** The result's segment_supplied is true exactly when this send wrote its
      payload to the modem. A send that ends in silence, a refusal or a rejected
      originate wrote nothing. */
  lemma SuppliedIffWritten(req: Request, o: Opening, tape: seq<Input>)
    requires Outcome(req, o, tape).phase.Done?
    ensures var s := Outcome(req, o, tape);
            && s.out != [] && s.out[|s.out| - 1].EmitResult?
            && SegmentSupplied in s.out[|s.out| - 1].doc
            && s.out[|s.out| - 1].doc[SegmentSupplied] == Bool(PayloadWritten(s))
    ensures var s := Outcome(req, o, tape);
            EndedAs(req, s, Silence) || EndedAs(req, s, Refusal) || EndedAs(req, s, Rejection) ==> !PayloadWritten(s)
  {
    hide Run, Start, Justified;
    OutcomeInv(req, o, tape);
    var s := Outcome(req, o, tape);
    SentIffWritten(req, s);
    EndingMeans(req, s, Silence);
    EndingMeans(req, s, Refusal);
    EndingMeans(req, s, Rejection);
  }

  /** The payload goes out at most once, whole and with every field as the host gave
      it, to the message that an accepted originate reply, carrying this send's
      reference and topic, had identified earlier, and straight after a prompt that
      carries that message and topic and asks for all of it from offset 0. */
  lemma PayloadBoundToIdentity(req: Request, o: Opening, tape: seq<Input>)
    ensures var s := Outcome(req, o, tape);
            forall i, j :: 0 <= i < |s.out| && 0 <= j < |s.out| && IsSupply(s.out[i]) && IsSupply(s.out[j]) ==> i == j
    ensures var s := Outcome(req, o, tape);
            forall i :: 0 <= i < |s.out| && IsSupply(s.out[i]) ==>
              && s.msgId.Some? && s.out[i].doc == SegmentFields(req, s.msgId.value)
              && i > 0 && s.out[i - 1].Took? && Prompt(req, s.msgId.value, s.out[i - 1].line)
              && exists j :: 0 <= j < i && s.out[j].Took? && Acceptance(req, s.out[j].line, s.msgId.value)
  {
    hide Run, Start, Accepts, Prompts, Acceptance, Prompt, SegmentDoc, SegmentFields;
    OutcomeInv(req, o, tape);
    var s := Outcome(req, o, tape);
    forall i, j | 0 <= i < |s.out| && 0 <= j < |s.out| && IsSupply(s.out[i]) && IsSupply(s.out[j]) ensures i == j {
      if i < j { CountTwo(s.out, IsSupply, i, j); } else if j < i { CountTwo(s.out, IsSupply, j, i); }
    }
    forall i | 0 <= i < |s.out| && IsSupply(s.out[i])
      ensures && s.msgId.Some? && s.out[i].doc == SegmentFields(req, s.msgId.value)
              && i > 0 && s.out[i - 1].Took? && Prompt(req, s.msgId.value, s.out[i - 1].line)
              && exists j :: 0 <= j < i && s.out[j].Took? && Acceptance(req, s.out[j].line, s.msgId.value)
    {
      assert Justified(req, s.msgId, s.out, i);
      var id := s.msgId.value;
      Meanings(req, id, s.out[i - 1].line);
      Documents(req, s, id, s.out[i - 1].line);
      var j :| j < i && AcceptedAt(req, id, s.out, j);
      Meanings(req, id, s.out[j].line);
    }
  }

  /** Every write of a whole send, field by field, and exactly one originate. */
  lemma WritesSpelledOut(req: Request, o: Opening, tape: seq<Input>)
    ensures var s := Outcome(req, o, tape);
            forall i :: 0 <= i < |s.out| && s.out[i].Write? ==>
              match s.out[i].put
              case Originate => s.out[i].doc == OriginateFields(req)
              case Segment => s.msgId.Some? && s.out[i].doc == SegmentFields(req, s.msgId.value)
              case Status => s.msgId.Some? && s.out[i].doc == CancelFields(req, s.msgId.value)
              case OtherTarget(_) => false
    ensures Count(Outcome(req, o, tape).out, IsOriginate) == 1
  {
    hide Run, Start, Count;
    OutcomeInv(req, o, tape);
    var s := Outcome(req, o, tape);
    forall i | 0 <= i < |s.out| && s.out[i].Write?
      ensures match s.out[i].put
              case Originate => s.out[i].doc == OriginateFields(req)
              case Segment => s.msgId.Some? && s.out[i].doc == SegmentFields(req, s.msgId.value)
              case Status => s.msgId.Some? && s.out[i].doc == CancelFields(req, s.msgId.value)
              case OtherTarget(_) => false
    {
      assert Justified(req, s.msgId, s.out, i);
      Documents(req, s, if s.msgId.Some? then s.msgId.value else Null, Line(0, Status, None));
    }
    OneOriginate(req, o, tape);
  }

  predicate IsOriginate(e: Event) { e.Write? && e.put.Originate? }

  ghost predicate NoneFrom(out: seq<Event>, k: nat) {
    forall i :: k <= i < |out| ==> !IsOriginate(out[i])
  }

  lemma {:induction false} CountOriginates(out: seq<Event>, k: nat)
    requires k <= |out| && NoneFrom(out, k)
    ensures Count(out, IsOriginate) == Count(out[..k], IsOriginate)
    decreases |out|
  {
    if k == |out| {
      assert out[..k] == out;
    } else {
      var n := |out| - 1;
      CountOriginates(out[..n], k);
      assert out[..n][..k] == out[..k];
    }
  }

  lemma {:induction false} MainLinesNoOriginate(req: Request, s: State, lines: seq<Line>, k: nat)
    requires k <= |s.out| && NoneFrom(s.out, k)
    ensures k <= |MainLines(req, s, lines).out| && NoneFrom(MainLines(req, s, lines).out, k)
    decreases lines
  {
    if lines != [] && !s.phase.Done? {
      MainLineNoOriginate(req, s, lines[0], k);
      hide MainLine;
      MainLinesNoOriginate(req, MainLine(req, s, lines[0]), lines[1..], k);
    }
  }

  lemma MainLineNoOriginate(req: Request, s: State, line: Line, k: nat)
    requires k <= |s.out| && NoneFrom(s.out, k)
    ensures k <= |MainLine(req, s, line).out| && NoneFrom(MainLine(req, s, line).out, k)
  {
    hide OwnDoc, NamesRequest, NamesMessage, WholePayload;
  }

  lemma {:induction false} SettleLinesNoOriginate(req: Request, s: State, lines: seq<Line>, k: nat)
    requires s.msgId.Some? && k <= |s.out| && NoneFrom(s.out, k)
    ensures k <= |SettleLines(req, s, lines).out| && NoneFrom(SettleLines(req, s, lines).out, k)
    decreases lines
  {
    if lines != [] && s.phase.Settling? {
      SettleLinesNoOriginate(req, SettleLine(req, s, lines[0]), lines[1..], k);
    }
  }

  lemma {:induction false} RunNoOriginate(req: Request, s: State, tape: seq<Input>, k: nat)
    requires Sound(s) && k <= |s.out| && NoneFrom(s.out, k)
    ensures k <= |Run(req, s, tape).out| && NoneFrom(Run(req, s, tape).out, k)
    decreases |tape|
  {
    if tape != [] {
      var i := tape[0];
      StepSound(req, s, i);
      StepNoOriginate(req, s, i, k);
      hide Step;
      RunNoOriginate(req, Step(req, s, i), tape[1..], k);
    }
  }

  lemma StepNoOriginate(req: Request, s: State, i: Input, k: nat)
    requires Sound(s) && k <= |s.out| && NoneFrom(s.out, k)
    ensures k <= |Step(req, s, i).out| && NoneFrom(Step(req, s, i).out, k)
  {
    hide MainLines, SettleLines, OwnDoc;
    MainLinesNoOriginate(req, s, i.lines, k);
    if s.msgId.Some? { SettleLinesNoOriginate(req, s, i.lines, k); }
  }

  lemma OneOriginate(req: Request, o: Opening, tape: seq<Input>)
    ensures Count(Outcome(req, o, tape).out, IsOriginate) == 1
  {
    var s0 := Start(req, o);
    var k := |s0.out|;
    HandOverQuiet([], o.waiting);
    DropStaleQuiet(HandOver([], o.waiting), o.stale);
    var before := DropStale(HandOver([], o.waiting), o.stale);
    CountAppend(before, Write(Originate, OriginateDoc(req)), IsOriginate);
    CountOriginates(before, 0);
    assert before[..0] == [];
    RunNoOriginate(req, s0, tape, k);
    RunExtends(req, s0, tape);
    var out := Outcome(req, o, tape).out;
    CountOriginates(out, k);
    assert out[..k] == s0.out;
  }

  /** The five endings, by the line before and the fields of the result. */
  ghost predicate EndedAs(req: Request, s: State, how: Ending)
    requires s.out != []
  {
    var n := |s.out| - 1;
    match how
    case Verdict =>
      && n >= 1 && s.msgId.Some? && s.out[n - 1].Took? && Final(req, s.msgId.value, s.out[n - 1].line)
      && s.out[n] == EmitResult(200, Status, VerdictFields(req, s.out[n - 1].line, s.sent))
    case Refusal =>
      && n >= 1 && s.msgId.None? && s.out[n - 1].EmitResponse? && Reply(req, s.out[n - 1].line)
      && Response(s.out[n - 1].line) != Text("message_accepted")
      && s.out[n] == EmitResult(200, Status, RefusalFields(req, s.out[n - 1].line))
    case Rejection =>
      && n >= 1 && s.msgId.None? && s.out[n - 1].Took?
      && s.out[n - 1].line.code >= 400 && s.out[n - 1].line.target == Originate
      && s.out[n] == EmitResult(s.out[n - 1].line.code, Originate, RejectionFields(req, s.out[n - 1].line))
    case Silence => s.msgId.None? && s.out[n] == EmitResult(200, Status, SilenceFields(req))
    case Timeout => s.out[n] == EmitResult(200, Status, TimeoutFields(req, s.msgId, s.sent))
  }

  lemma EndingMeans(req: Request, s: State, how: Ending)
    requires s.out != []
    ensures EndsAs(req, s, how) <==> EndedAs(req, s, how)
  {
    hide NamesRequest, Settles, Final, Reply, ResultEvent, OwnDoc, DocOf, ResponseOf, Response, OrZero,
         VerdictFields, RefusalFields, RejectionFields, SilenceFields, TimeoutFields;
    var n := |s.out| - 1;
    var line := if n >= 1 && (s.out[n - 1].Took? || s.out[n - 1].EmitResponse?) then s.out[n - 1].line else Line(0, Status, None);
    var id := if s.msgId.Some? then s.msgId.value else Null;
    Meanings(req, id, line);
    Documents(req, s, id, line);
  }

  /** Every ending is one of five, and only a final status that carries this send's
      message and topic, taken up as the line before, ends it with the modem's own
      document. */
  lemma EveryEndingAccounted(req: Request, o: Opening, tape: seq<Input>)
    ensures var s := Outcome(req, o, tape);
            s.phase.Done? ==> s.out != [] && exists how :: EndedAs(req, s, how)
  {
    hide Run, Start, EndsAs, EndedAs;
    OutcomeInv(req, o, tape);
    var s := Outcome(req, o, tape);
    if s.phase.Done? {
      var how :| EndsAs(req, s, how);
      EndingMeans(req, s, how);
    }
  }

  // ----- another message's lines -----

  /** With message n in hand, a status or a prompt that carries another number, or
      another topic number, changes nothing, in the main loop. */
  lemma OtherMessageIgnored(req: Request, s: State, line: Line, n: int, t: int)
    requires s.phase.Reading? && s.msgId == Some(Int(n)) && req.topic == Int(t)
    requires line.code == 299 && (line.target == Status || line.target == Segment) && line.body.Some?
    requires var d := line.body.value;
             || (MessageId in d && d[MessageId].Int? && d[MessageId].n != n)
             || (TopicId in d && d[TopicId].Int? && d[TopicId].n != t)
             || MessageId !in d || TopicId !in d
    ensures MainLine(req, s, line) == s.(out := s.out + [Took(line)])
  {
    hide MainLine;
    LineTable(req, s, line);
    hide FieldIs;
    IntegerField(line, MessageId, n);
    IntegerField(line, TopicId, t);
  }

  /** And in the settle loop. */
  lemma OtherMessageSettlesNothing(req: Request, s: State, line: Line, n: int, t: int)
    requires s.phase.Settling? && s.msgId == Some(Int(n)) && req.topic == Int(t)
    requires line.code == 299 && line.target == Status && line.body.Some?
    requires var d := line.body.value;
             || (MessageId in d && d[MessageId].Int? && d[MessageId].n != n)
             || (TopicId in d && d[TopicId].Int? && d[TopicId].n != t)
             || MessageId !in d || TopicId !in d
    ensures SettleLine(req, s, line) == s.(out := s.out + [Took(line)])
  {
    hide SettleLine;
    SettleTable(req, s, line);
    hide FieldIs;
    IntegerField(line, MessageId, n);
    IntegerField(line, TopicId, t);
  }

  // ----- a run only ever extends -----

  ghost predicate Extends(s: State, s': State) {
    && s.out <= s'.out
    && (s.msgId.Some? ==> s'.msgId == s.msgId)
    && (s.sent ==> s'.sent)
    && (s.phase.Done? ==> s' == s)
    && s'.initialDeadline == s.initialDeadline && s'.fullDeadline == s.fullDeadline
  }

  lemma {:induction false} MainLinesExtend(req: Request, s: State, lines: seq<Line>)
    ensures Extends(s, MainLines(req, s, lines))
    decreases lines
  {
    if lines != [] && !s.phase.Done? {
      MainLinesExtend(req, MainLine(req, s, lines[0]), lines[1..]);
    }
  }

  lemma {:induction false} SettleLinesExtend(req: Request, s: State, lines: seq<Line>)
    requires s.msgId.Some?
    ensures Extends(s, SettleLines(req, s, lines))
    decreases lines
  {
    if lines != [] && s.phase.Settling? {
      SettleLinesExtend(req, SettleLine(req, s, lines[0]), lines[1..]);
    }
  }

  lemma StepExtends(req: Request, s: State, i: Input)
    requires Sound(s)
    ensures Extends(s, Step(req, s, i))
  {
    MainLinesExtend(req, s, i.lines);
    if s.msgId.Some? { SettleLinesExtend(req, s, i.lines); }
  }

  lemma {:induction false} RunExtends(req: Request, s: State, tape: seq<Input>)
    requires Sound(s)
    ensures Extends(s, Run(req, s, tape))
    decreases |tape|
  {
    if tape != [] {
      StepSound(req, s, tape[0]);
      StepExtends(req, s, tape[0]);
      RunExtends(req, Step(req, s, tape[0]), tape[1..]);
    }
  }

  lemma {:induction false} RunConcat(req: Request, s: State, a: seq<Input>, b: seq<Input>)
    requires Sound(s)
    ensures Run(req, s, a + b) == Run(req, Run(req, s, a), b)
    decreases |a|
  {
    if a == [] {
      assert a + b == b;
    } else {
      StepSound(req, s, a[0]);
      assert (a + b)[1..] == a[1..] + b;
      RunConcat(req, Step(req, s, a[0]), a[1..], b);
    }
  }

  /** Once set, the identity never changes; a finished send never acts again. */
  lemma IdentityNeverChanges(req: Request, o: Opening, tape: seq<Input>, more: seq<Input>)
    ensures Extends(Outcome(req, o, tape), Outcome(req, o, tape + more))
  {
    RunConcat(req, Start(req, o), tape, more);
    RunExtends(req, Outcome(req, o, tape), more);
  }

  lemma MainLineEndsOrReads(req: Request, s: State, line: Line)
    requires s.phase.Reading?
    ensures MainLine(req, s, line).phase.Reading? || MainLine(req, s, line).phase.Done?
  {
  }

  // ----- a message the modem holds is never just left there -----

  predicate IsCancel(e: Event) { e.Write? && e.put.Status? }

  ghost predicate CancelWritten(out: seq<Event>) {
    exists i :: 0 <= i < |out| && IsCancel(out[i])
  }

  lemma CancelStays(out: seq<Event>, out': seq<Event>)
    requires out <= out' && CancelWritten(out)
    ensures CancelWritten(out')
  {
    var i :| 0 <= i < |out| && IsCancel(out[i]);
    assert IsCancel(out'[i]);
  }

  ghost predicate Kept(req: Request, s: State) {
    && (s.phase.Settling? ==> CancelWritten(s.out))
    && (s.phase.Done? && s.msgId.Some? ==> CancelWritten(s.out) || (s.out != [] && EndsAs(req, s, Verdict)))
  }

  lemma MainLineKept(req: Request, s: State, line: Line)
    requires s.phase.Reading?
    ensures Kept(req, MainLine(req, s, line))
  {
    hide ResultEvent, OwnDoc, NamesRequest, ResponseOf, CancelWritten;
  }

  lemma {:induction false} MainLinesKept(req: Request, s: State, lines: seq<Line>)
    requires s.phase.Reading?
    ensures Kept(req, MainLines(req, s, lines))
    decreases lines
  {
    hide MainLine, EndsAs, CancelWritten;
    if lines != [] {
      var s1 := MainLine(req, s, lines[0]);
      MainLineKept(req, s, lines[0]);
      MainLineEndsOrReads(req, s, lines[0]);
      if s1.phase.Reading? { MainLinesKept(req, s1, lines[1..]); }
    }
  }

  lemma BegunKept(req: Request, s: State, now: real, timedOut: bool)
    requires s.msgId.Some?
    ensures Kept(req, BeginCancel(req, s, now, timedOut))
  {
    var s' := BeginCancel(req, s, now, timedOut);
    assert IsCancel(s'.out[|s.out|]);
  }

  lemma StepKept(req: Request, s: State, i: Input)
    requires Sound(s) && Kept(req, s)
    ensures Kept(req, Step(req, s, i))
  {
    hide MainLines, SettleLines, EndsAs, CancelWritten, BeginCancel;
    match s.phase
    case Top => if s.msgId.Some? { BegunKept(req, s, i.t3, true); BegunKept(req, s, i.t3, false); }
    case Reading => MainLinesKept(req, s, i.lines);
    case Settling(_, _) =>
      StepExtends(req, s, i);
      CancelStays(s.out, Step(req, s, i).out);
    case Done =>
  }

  lemma {:induction false} RunKept(req: Request, s: State, tape: seq<Input>)
    requires Sound(s) && Kept(req, s)
    ensures Kept(req, Run(req, s, tape))
    decreases |tape|
  {
    hide Step, Kept;
    if tape != [] {
      StepSound(req, s, tape[0]);
      StepKept(req, s, tape[0]);
      RunKept(req, Step(req, s, tape[0]), tape[1..]);
    }
  }

  lemma StartKept(req: Request, o: Opening)
    ensures Sound(Start(req, o)) && Kept(req, Start(req, o))
  {
    hide EndsAs, CancelWritten, HandOver, DropStale;
  }

  /** A send that had an identity ends with the modem's own verdict, or after the
      modem was told to cancel that very message. */
  lemma NeverAbandoned(req: Request, o: Opening, tape: seq<Input>)
    requires Outcome(req, o, tape).phase.Done? && Outcome(req, o, tape).msgId.Some?
    ensures var s := Outcome(req, o, tape);
            s.out != [] && (EndedAs(req, s, Verdict) ||
              exists i :: 0 <= i < |s.out| && s.out[i] == Write(Status, CancelFields(req, s.msgId.value)))
  {
    StartKept(req, o);
    hide Run, Start, EndsAs, EndedAs, CancelFields, OriginateFields, SegmentFields;
    OutcomeInv(req, o, tape);
    RunKept(req, Start(req, o), tape);
    var s := Outcome(req, o, tape);
    EndingMeans(req, s, Verdict);
    if !EndsAs(req, s, Verdict) {
      var i :| 0 <= i < |s.out| && IsCancel(s.out[i]);
      WritesSpelledOut(req, o, tape);
      assert s.out[i] == Write(Status, CancelFields(req, s.msgId.value));
    }
  }

  // ----- a send that the modem accepts and completes -----

  lemma {:induction false} MainLinesConcat(req: Request, s: State, a: seq<Line>, b: seq<Line>)
    ensures MainLines(req, s, a + b) == MainLines(req, MainLines(req, s, a), b)
    decreases a
  {
    hide MainLine;
    if a == [] {
      assert a + b == b;
    } else {
      assert (a + b)[1..] == a[1..] + b && (a + b)[0] == a[0];
      if !s.phase.Done? { MainLinesConcat(req, MainLine(req, s, a[0]), a[1..], b); }
    }
  }

  lemma MainLinesOne(req: Request, s: State, line: Line)
    requires !s.phase.Done?
    ensures MainLines(req, s, [line]) == MainLine(req, s, line)
  {
    hide MainLine;
    assert [line][1..] == [];
    assert MainLines(req, MainLine(req, s, line), []) == MainLine(req, s, line);
  }

  /** A line that neither gives a send without an identity one nor ends it. */
  predicate Bystander(req: Request, line: Line) {
    && !(Reply(req, line) && (Response(line) != Text("message_accepted") ||
                              ValueAt(line, MessageId).Int? || ValueAt(line, MessageId).Bool?))
    && !(line.code >= 400 && line.target == Originate)
  }

  lemma {:induction false} BystandersPass(req: Request, s: State, lines: seq<Line>)
    requires s.phase.Reading? && s.msgId.None? && forall i :: 0 <= i < |lines| ==> Bystander(req, lines[i])
    ensures MainLines(req, s, lines).phase.Reading? && MainLines(req, s, lines).msgId.None?
    decreases lines
  {
    if lines != [] {
      BystanderPasses(req, s, lines[0]);
      hide MainLine, Bystander;
      BystandersPass(req, MainLine(req, s, lines[0]), lines[1..]);
    }
  }

  lemma BystanderPasses(req: Request, s: State, line: Line)
    requires s.phase.Reading? && s.msgId.None? && Bystander(req, line)
    ensures MainLine(req, s, line).phase.Reading? && MainLine(req, s, line).msgId.None?
  {
    hide MainLine, FieldIs, RefusalFields, RejectionFields;
    LineTable(req, s, line);
  }

  /** With an identity, nothing but that message's final status ends the send. */
  lemma OnlyItsStatusEnds(req: Request, s: State, id: Json, line: Line)
    requires s.phase.Reading? && s.msgId == Some(id)
    ensures var s' := MainLine(req, s, line);
            s'.msgId == Some(id) && (s.sent || Prompt(req, id, line) <==> s'.sent) &&
            if Final(req, id, line) then
              s'.phase.Done? && s'.out == s.out + [Took(line)] + [EmitResult(200, Status, VerdictFields(req, line, s.sent))]
            else s'.phase.Reading?
  {
    hide MainLine, FieldIs, VerdictFields, SegmentFields;
    LineTable(req, s, line);
    OutParts(s.out, Took(line));
  }

  lemma {:induction false} OthersPass(req: Request, s: State, id: Json, lines: seq<Line>)
    requires s.phase.Reading? && s.msgId == Some(id)
    requires forall i :: 0 <= i < |lines| ==> !Final(req, id, lines[i])
    ensures var s' := MainLines(req, s, lines); s'.phase.Reading? && s'.msgId == Some(id) && (s.sent ==> s'.sent)
    decreases lines
  {
    hide MainLine, Final, Prompt;
    if lines != [] {
      OnlyItsStatusEnds(req, s, id, lines[0]);
      OthersPass(req, MainLine(req, s, lines[0]), id, lines[1..]);
    }
  }

  lemma AcceptIdentifies(req: Request, s: State, id: Json, line: Line)
    requires s.phase.Reading? && s.msgId.None? && Acceptance(req, line, id)
    ensures MainLine(req, s, line) == s.(msgId := Some(id), out := s.out + [Took(line)] + [EmitResponse(line)])
  {
    hide MainLine, FieldIs, Response;
    LineTable(req, s, line);
    OutParts(s.out, Took(line));
  }

  ghost predicate Completed(req: Request, s: State, id: Json, status: Line) {
    && s.phase.Done? && s.msgId == Some(id) && s.sent && s.out != []
    && s.out[|s.out| - 1] == EmitResult(200, Status, VerdictFields(req, status, true))
  }

  lemma LinesComplete(req: Request, s: State, id: Json, a: seq<Line>, accept: Line, b: seq<Line>, prompt: Line,
                      c: seq<Line>, status: Line, d: seq<Line>)
    requires s.phase.Reading? && s.msgId.None?
    requires Acceptance(req, accept, id) && Prompt(req, id, prompt) && Final(req, id, status)
    requires forall i :: 0 <= i < |a| ==> Bystander(req, a[i])
    requires forall i :: 0 <= i < |b| ==> !Final(req, id, b[i])
    requires forall i :: 0 <= i < |c| ==> !Final(req, id, c[i])
    ensures Completed(req, MainLines(req, s, a + [accept] + b + [prompt] + c + [status] + d), id, status)
  {
    NotItsOwnStatus(req, id, prompt);
    hide MainLine, MainLines, Acceptance, Prompt, Final, Bystander, VerdictFields;
    BystandersPass(req, s, a);
    var s1 := MainLines(req, s, a);
    AcceptIdentifies(req, s1, id, accept);
    MainLinesConcat(req, s, a, [accept]);
    MainLinesOne(req, s1, accept);
    var s2 := MainLine(req, s1, accept);
    OthersPass(req, s2, id, b);
    MainLinesConcat(req, s, a + [accept], b);
    var s3 := MainLines(req, s2, b);
    OnlyItsStatusEnds(req, s3, id, prompt);
    MainLinesConcat(req, s, a + [accept] + b, [prompt]);
    MainLinesOne(req, s3, prompt);
    var s4 := MainLine(req, s3, prompt);
    OthersPass(req, s4, id, c);
    MainLinesConcat(req, s, a + [accept] + b + [prompt], c);
    var s5 := MainLines(req, s4, c);
    OnlyItsStatusEnds(req, s5, id, status);
    MainLinesConcat(req, s, a + [accept] + b + [prompt] + c, [status]);
    MainLinesOne(req, s5, status);
    MainLinesConcat(req, s, a + [accept] + b + [prompt] + c + [status], d);
    DoneStays(req, MainLine(req, s5, status), d);
  }

  lemma NotItsOwnStatus(req: Request, id: Json, line: Line)
    ensures !(Prompt(req, id, line) && Final(req, id, line))
  {
  }

  lemma DoneStays(req: Request, s: State, lines: seq<Line>)
    requires s.phase.Done?
    ensures MainLines(req, s, lines) == s
  {
  }

  /** While the send goes on, no poll at the head of the loop stops it: the helper
      runs, no deadline has passed and no cancel is taken. */
  ghost predicate Calm(req: Request, s: State, tape: seq<Input>)
    decreases |tape|
  {
    || s.phase.Done? || tape == []
    || (s.phase.Top? && |tape| >= 2 && AtTop(req, s, tape[0]).phase.Reading?
        && Calm(req, Step(req, AtTop(req, s, tape[0]), tape[1]), tape[2..]))
  }

  /** The lines of every read, batch after batch. */
  function Heard(tape: seq<Input>): seq<Line> {
    if |tape| < 2 then [] else tape[1].lines + Heard(tape[2..])
  }

  /** In a calm run the batches do not matter, only the lines do. */
  lemma {:induction false} CalmRun(req: Request, s: State, tape: seq<Input>)
    requires s.phase.Top? && Calm(req, s, tape)
    ensures var s' := MainLines(req, s.(phase := Reading), Heard(tape));
            Run(req, s, tape) == if s'.phase.Done? then s' else s'.(phase := Top)
    decreases |tape|
  {
    hide MainLine;
    var reading := s.(phase := Reading);
    if tape != [] {
      var lines, later := tape[1].lines, tape[2..];
      assert AtTop(req, s, tape[0]) == reading;
      assert tape[1..][0] == tape[1] && tape[1..][1..] == later;
      MainLinesPhase(req, reading, lines);
      MainLinesConcat(req, reading, lines, Heard(later));
      var read := MainLines(req, reading, lines);
      if read.phase.Done? {
        DoneStays(req, read, Heard(later));
        RunExtends(req, read, later);
      } else {
        CalmRun(req, read.(phase := Top), later);
        assert read.(phase := Top).(phase := Reading) == read;
      }
    }
  }

  /** However the modem's lines fall into batches and whatever else comes between:
      if this send's acceptance, a prompt for its message and that message's final
      status come in this order, no other line identifies or ends the send before
      them, and no poll stops it, then the payload is supplied and the send ends
      with that status. */
  lemma AcceptedSendCompletes(req: Request, o: Opening, tape: seq<Input>, id: Json, a: seq<Line>, accept: Line,
                              b: seq<Line>, prompt: Line, c: seq<Line>, status: Line, d: seq<Line>)
    requires Calm(req, Start(req, o), tape) && Heard(tape) == a + [accept] + b + [prompt] + c + [status] + d
    requires Acceptance(req, accept, id) && Prompt(req, id, prompt) && Final(req, id, status)
    requires forall i :: 0 <= i < |a| ==> Bystander(req, a[i])
    requires forall i :: 0 <= i < |b| ==> !Final(req, id, b[i])
    requires forall i :: 0 <= i < |c| ==> !Final(req, id, c[i])
    ensures Completed(req, Outcome(req, o, tape), id, status)
  {
    hide Run, Calm, Heard, MainLines, Acceptance, Prompt, Final, Bystander, Completed;
    CalmRun(req, Start(req, o), tape);
    LinesComplete(req, Start(req, o).(phase := Reading), id, a, accept, b, prompt, c, status, d);
    CompletedIsDone(req, MainLines(req, Start(req, o).(phase := Reading), Heard(tape)), id, status);
  }

  lemma CompletedIsDone(req: Request, s: State, id: Json, status: Line)
    requires Completed(req, s, id, status)
    ensures s.phase.Done?
  {
  }

  // ----- refused_at: when the host may read it as "nothing was supplied" -----

  /** A result whose payload was supplied carries refused_at exactly when the
      modem's own final status did: the helper never writes it there itself. */
  lemma RefusedAtAfterSupply(req: Request, o: Opening, tape: seq<Input>)
    requires var s := Outcome(req, o, tape); s.phase.Done? && PayloadWritten(s)
    ensures var s := Outcome(req, o, tape);
            && |s.out| >= 2 && s.out[|s.out| - 1].EmitResult?
            && (RefusedAt in s.out[|s.out| - 1].doc <==>
                EndedAs(req, s, Verdict) && RefusedAt in Body(s.out[|s.out| - 2].line))
  {
    hide Run, Start, Justified;
    OutcomeInv(req, o, tape);
    var s := Outcome(req, o, tape);
    SentIffWritten(req, s);
    var i := CountSome(s.out, IsSupply);
    var how :| EndsAs(req, s, how);
    EndingMeans(req, s, Verdict);
    if s.out[|s.out| - 2].Took? { Meanings(req, Null, s.out[|s.out| - 2].line); }
  }

  /** So refused_at alone does not prove that nothing went out: a final status
      that carries it, after the payload was supplied, passes it on. */
  lemma RefusedAtCanFollowSupply() returns (req: Request, o: Opening, tape: seq<Input>)
    ensures var s := Outcome(req, o, tape);
            s.phase.Done? && PayloadWritten(s) && s.out != [] && s.out[|s.out| - 1].EmitResult? &&
            RefusedAt in s.out[|s.out| - 1].doc
  {
    req := Request(Int(244), Text("aGk="), Int(4), Int(7), 240.0, "");
    o := Opening([], [], 0.0, 0.0);
    var accept := Line(200, Originate, Some(map[RequestReference := Int(7), TopicId := Int(244), MessageId := Int(3),
                                                MessageResponse := Text(ACCEPTED)]));
    var prompt := Line(299, Segment, Some(map[MessageId := Int(3), TopicId := Int(244), SegmentStart := Int(0),
                                              SegmentLength := Int(4)]));
    var status := Line(299, Status, Some(map[MessageId := Int(3), TopicId := Int(244), RefusedAt := Text("originate")]));
    var top, read := Input(true, 0.0, 0.0, 0.0, false, []), Input(true, 0.0, 0.0, 0.0, false, [accept, prompt, status]);
    tape := [top, read];
    assert Acceptance(req, accept, Int(3)) && Prompt(req, Int(3), prompt);
    assert Final(req, Int(3), status) && RefusedAt in Body(status);
    OnePollIsCalm(req, Start(req, o), top, read);
    assert [accept, prompt, status] == [] + [accept] + [] + [prompt] + [] + [status] + [];
    hide Run, Start, MainLines, Acceptance, Prompt, Final;
    AcceptedSendCompletes(req, o, tape, Int(3), [], accept, [], prompt, [], status, []);
    OutcomeInv(req, o, tape);
    SentIffWritten(req, Outcome(req, o, tape));
  }

  lemma OnePollIsCalm(req: Request, s: State, top: Input, read: Input)
    requires s.phase.Top? && AtTop(req, s, top).phase.Reading?
    ensures Calm(req, s, [top, read]) && Heard([top, read]) == read.lines
  {
    hide MainLines;
    var tape := [top, read];
    assert tape[2..] == [] && tape[1] == read && Heard([]) == [];
  }

  // ----- every send ends in time -----

  /** The clock never goes back, and one pass of a loop takes at most slack. */
  ghost predicate WellTimed(start: real, tape: seq<Input>, slack: real)
    decreases |tape|
  {
    tape != [] ==>
      && start <= tape[0].t1 <= start + slack
      && tape[0].t1 <= tape[0].t2 <= tape[0].t3 <= tape[0].t1 + slack
      && WellTimed(tape[0].t1, tape[1..], slack)
  }

  function Max(a: real, b: real): real { if a < b then b else a }
  function Min(a: real, b: real): real { if a < b then a else b }

  /** Where a send that is still going can be on the clock; base is the end of
      its budget and first the end of its wait for an identity. */
  ghost predicate OnTime(s: State, now: real, base: real, first: real, slack: real) {
    && (s.msgId.None? ==> s.phase.Done? || now <= first + if s.phase.Top? then slack else 0.0)
    && match s.phase
       case Top => now <= base + SETTLE_S + 3.0 * slack
       case Reading => now <= base + SETTLE_S + 2.0 * slack
       case Settling(d, late) =>
         if late then now <= d && d <= base + 2.0 * SETTLE_S + 5.0 * slack
         else now <= d && d <= base + SETTLE_S + slack
       case Done => true
  }

  lemma {:induction false} MainLinesIdentity(req: Request, s: State, lines: seq<Line>)
    requires s.phase.Reading?
    ensures MainLines(req, s, lines).phase in {Reading, Done}
    ensures MainLines(req, s, lines).msgId.None? ==> s.msgId.None?
  {
    MainLinesPhase(req, s, lines);
    MainLinesExtend(req, s, lines);
  }

  lemma {:induction false} SettleLinesPhase(req: Request, s: State, lines: seq<Line>)
    requires s.phase.Settling? && s.msgId.Some?
    ensures var p := SettleLines(req, s, lines).phase; p.Done? || p == s.phase || (p.Reading? && !s.phase.timedOut)
    decreases lines
  {
    if lines != [] {
      var s1 := SettleLine(req, s, lines[0]);
      if s1.phase.Settling? {
        SettleLinesPhase(req, s1, lines[1..]);
      } else {
        assert SettleLines(req, s1, lines[1..]) == s1;
      }
    }
  }

  lemma StepOnTime(req: Request, s: State, i: Input, now: real, base: real, first: real, slack: real)
    requires Sound(s) && 0.0 <= slack
    requires OnTime(s, now, base, first, slack)
    requires now <= i.t1 <= now + slack && i.t1 <= i.t2 <= i.t3 <= i.t1 + slack
    requires s.fullDeadline <= base && Min(s.initialDeadline, s.fullDeadline) <= first
    ensures OnTime(Step(req, s, i), i.t1, base, first, slack)
  {
    match s.phase
    case Reading => MainLinesIdentity(req, s, i.lines);
    case Settling(deadline, _) =>
      SettleLinesPhase(req, s, i.lines);
      SettleLinesIdentity(req, s, i.lines);
    case _ =>
  }

  lemma {:induction false} RunOnTime(req: Request, s: State, tape: seq<Input>, now: real, base: real, first: real, slack: real)
    requires Sound(s) && 0.0 <= slack
    requires OnTime(s, now, base, first, slack) && WellTimed(now, tape, slack)
    requires s.fullDeadline <= base && Min(s.initialDeadline, s.fullDeadline) <= first
    ensures OnTime(Run(req, s, tape), if tape == [] then now else tape[|tape| - 1].t1, base, first, slack)
    decreases |tape|
  {
    if tape != [] {
      StepOnTime(req, s, tape[0], now, base, first, slack);
      StepSound(req, s, tape[0]);
      StepExtends(req, s, tape[0]);
      RunOnTime(req, Step(req, s, tape[0]), tape[1..], tape[0].t1, base, first, slack);
    }
  }

  /** A send without an identity is over once 30 s or its own timeout has
      passed, whichever is first, and any send once its timeout and two settle
      windows have; a pass of the loop that straddles a limit is the only slack. */
  lemma EndsInTime(req: Request, o: Opening, tape: seq<Input>, slack: real)
    requires tape != [] && 0.0 <= slack && o.t1 <= o.t2 <= o.t1 + slack && WellTimed(o.t2, tape, slack)
    ensures var s := Outcome(req, o, tape);
            var now := tape[|tape| - 1].t1;
            && (now > Max(o.t2, o.t2 + req.timeout) + 2.0 * 20.0 + 5.0 * slack ==> s.phase.Done?)
            && (now > Max(o.t2, Min(o.t1 + 30.0, o.t2 + req.timeout)) + slack ==> s.phase.Done? || s.msgId.Some?)
  {
    var base, first := Max(o.t2, o.t2 + req.timeout), Max(o.t2, Min(o.t1 + INITIAL_S, o.t2 + req.timeout));
    RunOnTime(req, Start(req, o), tape, o.t2, base, first, slack);
  }

  // ----- lines that are not this send's -----

  /** An unsolicited line of another subsystem, such as an arriving message. */
  predicate Foreign(line: Line) {
    line.code == 299 && !line.target.Segment? && !line.target.Status?
  }

  function TookForeign(out: seq<Event>): seq<Line> {
    if out == [] then []
    else
      var e := out[|out| - 1];
      TookForeign(out[..|out| - 1]) + if e.Took? && Foreign(e.line) then [e.line] else []
  }

  function SentForeign(out: seq<Event>): seq<Line> {
    if out == [] then []
    else
      var e := out[|out| - 1];
      SentForeign(out[..|out| - 1]) + if e.EmitUnsolicited? && Foreign(e.line) then [e.line] else []
  }

  lemma ForeignAppend(out: seq<Event>, e: Event)
    ensures TookForeign(out + [e]) == TookForeign(out) + if e.Took? && Foreign(e.line) then [e.line] else []
    ensures SentForeign(out + [e]) == SentForeign(out) + if e.EmitUnsolicited? && Foreign(e.line) then [e.line] else []
  {
    assert (out + [e])[..|out|] == out;
  }

  ghost predicate PassedOn(out: seq<Event>) {
    SentForeign(out) == TookForeign(out)
  }

  lemma PassedOnTwo(out: seq<Event>, a: Event, b: Event)
    requires PassedOn(out)
    requires a.Took? && (if Foreign(a.line) then b == EmitUnsolicited(a.line)
                         else (b.EmitUnsolicited? || b.Took?) ==> !Foreign(b.line))
    ensures PassedOn(out + [a, b])
  {
    ForeignAppend(out, a);
    ForeignAppend(out + [a], b);
    assert out + [a] + [b] == out + [a, b];
  }

  lemma PassedOnOne(out: seq<Event>, a: Event)
    requires PassedOn(out)
    requires (a.Took? || a.EmitUnsolicited?) ==> !Foreign(a.line)
    ensures PassedOn(out + [a])
  {
    ForeignAppend(out, a);
  }

  lemma MainLinePassesOn(req: Request, s: State, line: Line)
    requires PassedOn(s.out)
    ensures PassedOn(MainLine(req, s, line).out)
  {
    var s' := MainLine(req, s, line);
    var s1 := s.Log(Took(line));
    if Foreign(line) {
      PassedOnTwo(s.out, Took(line), EmitUnsolicited(line));
      assert s'.out == s.out + [Took(line), EmitUnsolicited(line)];
    } else {
      PassedOnOne(s.out, Took(line));
      if s'.out != s1.out {
        PassedOnOne(s1.out, s'.out[|s1.out|]);
        var s2 := s1.out + [s'.out[|s1.out|]];
        if |s'.out| == |s2| + 1 {
          PassedOnOne(s2, s'.out[|s2|]);
          assert s'.out == s2 + [s'.out[|s2|]];
        } else {
          assert s'.out == s2;
        }
      }
    }
  }

  lemma SettleLinePassesOn(req: Request, s: State, line: Line)
    requires PassedOn(s.out) && s.phase.Settling? && s.msgId.Some?
    ensures PassedOn(SettleLine(req, s, line).out)
  {
    var s' := SettleLine(req, s, line);
    if Foreign(line) {
      PassedOnTwo(s.out, Took(line), EmitUnsolicited(line));
      assert s'.out == s.out + [Took(line), EmitUnsolicited(line)];
    } else {
      PassedOnOne(s.out, Took(line));
      if |s'.out| == |s.out| + 2 {
        PassedOnOne(s.out + [Took(line)], s'.out[|s.out| + 1]);
        assert s'.out == s.out + [Took(line)] + [s'.out[|s.out| + 1]];
      }
    }
  }

  lemma {:induction false} MainLinesPassOn(req: Request, s: State, lines: seq<Line>)
    requires PassedOn(s.out)
    ensures PassedOn(MainLines(req, s, lines).out)
    decreases lines
  {
    if lines != [] && !s.phase.Done? {
      MainLinePassesOn(req, s, lines[0]);
      MainLinesPassOn(req, MainLine(req, s, lines[0]), lines[1..]);
    }
  }

  lemma {:induction false} SettleLinesPassOn(req: Request, s: State, lines: seq<Line>)
    requires PassedOn(s.out) && s.msgId.Some?
    ensures PassedOn(SettleLines(req, s, lines).out)
    decreases lines
  {
    if lines != [] && s.phase.Settling? {
      SettleLinePassesOn(req, s, lines[0]);
      SettleLinesPassOn(req, SettleLine(req, s, lines[0]), lines[1..]);
    }
  }

  lemma StepPassesOn(req: Request, s: State, i: Input)
    requires PassedOn(s.out) && Sound(s)
    ensures PassedOn(Step(req, s, i).out)
  {
    var s' := Step(req, s, i);
    match s.phase
    case Reading => MainLinesPassOn(req, s, i.lines);
    case Settling(deadline, _) =>
      if i.running && i.t1 < deadline {
        SettleLinesPassOn(req, s, i.lines);
      } else if s'.out != s.out {
        PassedOnOne(s.out, s'.out[|s.out|]);
      }
    case Top => if s'.out != s.out { PassedOnOne(s.out, s'.out[|s.out|]); }
    case Done =>
  }

  lemma {:induction false} RunPassesOn(req: Request, s: State, tape: seq<Input>)
    requires PassedOn(s.out) && Sound(s)
    ensures PassedOn(Run(req, s, tape).out)
    decreases |tape|
  {
    if tape != [] {
      StepPassesOn(req, s, tape[0]);
      StepSound(req, s, tape[0]);
      RunPassesOn(req, Step(req, s, tape[0]), tape[1..]);
    }
  }

  lemma {:induction false} HandOverPassesOn(out: seq<Event>, lines: seq<Line>)
    requires PassedOn(out)
    ensures PassedOn(HandOver(out, lines))
    decreases lines
  {
    if lines != [] {
      var e := if lines[0].code == 299 then EmitUnsolicited(lines[0]) else EmitResponse(lines[0]);
      PassedOnTwo(out, Took(lines[0]), e);
      HandOverPassesOn(out + [Took(lines[0]), e], lines[1..]);
    }
  }

  lemma {:induction false} DropStalePassesOn(out: seq<Event>, lines: seq<Line>)
    requires PassedOn(out)
    ensures PassedOn(DropStale(out, lines))
    decreases lines
  {
    if lines != [] {
      var taken := out + [Took(lines[0])];
      if lines[0].code == 299 && !lines[0].target.Status? {
        PassedOnTwo(out, Took(lines[0]), EmitUnsolicited(lines[0]));
        assert out + [Took(lines[0]), EmitUnsolicited(lines[0])] == taken + [EmitUnsolicited(lines[0])];
        DropStalePassesOn(taken + [EmitUnsolicited(lines[0])], lines[1..]);
      } else {
        PassedOnOne(out, Took(lines[0]));
        DropStalePassesOn(taken, lines[1..]);
      }
    }
  }

  /** Over a whole send every unsolicited line of another subsystem that a loop
      takes up reaches the host exactly once, in the order it arrived. */
  lemma ForeignLinesPassedOn(req: Request, o: Opening, tape: seq<Input>)
    ensures SentForeign(Outcome(req, o, tape).out) == TookForeign(Outcome(req, o, tape).out)
  {
    HandOverPassesOn([], o.waiting);
    DropStalePassesOn(HandOver([], o.waiting), o.stale);
    PassedOnOne(DropStale(HandOver([], o.waiting), o.stale), Write(Originate, OriginateDoc(req)));
    RunPassesOn(req, Start(req, o), tape);
  }

  // ----- which lines a batch leaves unread -----

  function TookLines(out: seq<Event>): seq<Line> {
    if out == [] then []
    else
      var e := out[|out| - 1];
      TookLines(out[..|out| - 1]) + if e.Took? then [e.line] else []
  }

  lemma TookAppend(out: seq<Event>, e: Event)
    ensures TookLines(out + [e]) == TookLines(out) + if e.Took? then [e.line] else []
  {
    assert (out + [e])[..|out|] == out;
  }

  /** Logged behind the taken line, and no line taken among it. */
  ghost predicate Follows(out: seq<Event>, out': seq<Event>) {
    out <= out' && forall i :: |out| <= i < |out'| ==> !out'[i].Took?
  }

  lemma ReplyFollows(req: Request, s: State, line: Line)
    ensures Follows(s.out, OnOriginateReply(req, s, line).out)
    ensures Follows(s.out, OnOriginateError(req, s, line).out)
  {
    hide OwnDoc, NamesRequest, ResponseOf;
  }

  lemma MainLineTakes(req: Request, s: State, line: Line)
    ensures TookLines(MainLine(req, s, line).out) == TookLines(s.out) + [line]
  {
    var s1 := s.Log(Took(line));
    var out := MainLine(req, s, line).out;
    TookAppend(s.out, Took(line));
    ReplyFollows(req, s1, line);
    hide OnOriginateReply, OnOriginateError, TookLines, NamesMessage, WholePayload;
    assert Follows(s1.out, out);
    assert out == s1.out + out[|s1.out|..];
    TookUnchanged(s1.out, out[|s1.out|..]);
  }

  lemma {:induction false} TookUnchanged(out: seq<Event>, tail: seq<Event>)
    requires forall i :: 0 <= i < |tail| ==> !tail[i].Took?
    ensures TookLines(out + tail) == TookLines(out)
  {
    if tail == [] {
      assert out + tail == out;
    } else {
      TookUnchanged(out, tail[..|tail| - 1]);
      TookAppend(out + tail[..|tail| - 1], tail[|tail| - 1]);
      assert out + tail == out + tail[..|tail| - 1] + [tail[|tail| - 1]];
    }
  }

  lemma SettleLineTakes(req: Request, s: State, line: Line)
    requires s.phase.Settling? && s.msgId.Some?
    ensures TookLines(SettleLine(req, s, line).out) == TookLines(s.out) + [line]
  {
    var s' := SettleLine(req, s, line);
    TookAppend(s.out, Took(line));
    if |s'.out| == |s.out| + 2 {
      TookAppend(s.out + [Took(line)], s'.out[|s.out| + 1]);
      assert s'.out == s.out + [Took(line)] + [s'.out[|s.out| + 1]];
    }
  }

  /** A main-loop batch is read in order and to its end unless a line ends the
      send; then exactly the lines behind that one are never taken up. */
  lemma {:induction false} MainBatchRead(req: Request, s: State, lines: seq<Line>) returns (k: nat)
    requires s.phase.Reading?
    ensures k <= |lines| && TookLines(MainLines(req, s, lines).out) == TookLines(s.out) + lines[..k]
    ensures MainLines(req, s, lines) == MainLines(req, s, lines[..k])
    ensures k < |lines| ==> MainLines(req, s, lines).phase.Done? && k > 0 && MainLines(req, s, lines[..k - 1]).phase.Reading?
    decreases lines
  {
    hide MainLine, TookLines;
    if lines == [] { return 0; }
    var s1 := MainLine(req, s, lines[0]);
    MainLineTakes(req, s, lines[0]);
    MainLineEndsOrReads(req, s, lines[0]);
    if s1.phase.Done? {
      k := 1;
      assert MainLines(req, s1, lines[1..]) == s1;
      assert MainLines(req, s1, lines[..1][1..]) == s1;
    } else {
      var m := MainBatchRead(req, s1, lines[1..]);
      k := m + 1;
      assert lines[..k] == [lines[0]] + lines[1..][..m];
      assert lines[..k][1..] == lines[1..][..m];
      if k < |lines| {
        assert lines[..k - 1][1..] == lines[1..][..m - 1];
        assert lines[..k - 1] != [] && lines[..k - 1][0] == lines[0];
      }
    }
  }

  /** What the settle loop stops at: this message's final status, or the modem's
      refusal of the cancel. */
  predicate Stopper(req: Request, id: Json, line: Line) {
    (line.body.Some? && Final(req, id, line)) || (line.target == Status && line.code >= 400)
  }

  /** How many lines of a batch the settle loop takes up. */
  function TakenUp(req: Request, id: Json, lines: seq<Line>): (k: nat)
    ensures k <= |lines|
  {
    if lines == [] then 0 else if Stopper(req, id, lines[0]) then 1 else 1 + TakenUp(req, id, lines[1..])
  }

  lemma StopsAtStopper(req: Request, s: State, line: Line)
    requires s.phase.Settling? && s.msgId.Some?
    ensures var s' := SettleLine(req, s, line);
            s'.msgId == s.msgId && if Stopper(req, s.msgId.value, line) then !s'.phase.Settling? else s'.phase == s.phase
  {
    hide SettleLine, FieldIs, VerdictFields, TimeoutFields;
    SettleTable(req, s, line);
  }

  lemma {:induction false} TakenUpAll(req: Request, id: Json, lines: seq<Line>)
    ensures TakenUp(req, id, lines) == |lines| <==> forall i :: 0 <= i < |lines| - 1 ==> !Stopper(req, id, lines[i])
  {
    hide Stopper;
    if lines != [] {
      var rest := lines[1..];
      TakenUpAll(req, id, rest);
      if forall i :: 0 <= i < |lines| - 1 ==> !Stopper(req, id, lines[i]) {
        assert forall i :: 0 <= i < |rest| - 1 ==> rest[i] == lines[i + 1];
      } else {
        var i :| 0 <= i < |lines| - 1 && Stopper(req, id, lines[i]);
        if i > 0 { assert rest[i - 1] == lines[i]; }
      }
    }
  }

  lemma {:induction false} SettleTakesUp(req: Request, s: State, lines: seq<Line>)
    requires s.phase.Settling? && s.msgId.Some?
    ensures TookLines(SettleLines(req, s, lines).out) == TookLines(s.out) + lines[..TakenUp(req, s.msgId.value, lines)]
    decreases lines
  {
    hide SettleLine, Stopper, TookLines;
    if lines == [] {
      assert lines[..0] == [] && TookLines(s.out) + [] == TookLines(s.out);
    } else {
      var line, rest := lines[0], lines[1..];
      var s1 := SettleLine(req, s, line);
      SettleLineTakes(req, s, line);
      StopsAtStopper(req, s, line);
      if Stopper(req, s.msgId.value, line) {
        assert SettleLines(req, s1, rest) == s1 && lines[..1] == [line];
      } else {
        SettleTakesUp(req, s1, rest);
        var k := TakenUp(req, s.msgId.value, rest);
        assert lines[..1 + k] == [line] + rest[..k];
        assert TookLines(s.out) + [line] + rest[..k] == TookLines(s.out) + ([line] + rest[..k]);
      }
    }
  }

  /** Exactly when the settle loop reads a batch to its end: no line but the last
      is this message's final status or a refusal of the cancel. */
  lemma SettleBatchReadIff(req: Request, s: State, lines: seq<Line>)
    requires s.phase.Settling? && s.msgId.Some?
    ensures TookLines(SettleLines(req, s, lines).out) == TookLines(s.out) + lines <==>
            forall i :: 0 <= i < |lines| - 1 ==> !Stopper(req, s.msgId.value, lines[i])
  {
    hide SettleLines, Stopper, TookLines, TakenUp;
    var k := TakenUp(req, s.msgId.value, lines);
    SettleTakesUp(req, s, lines);
    TakenUpAll(req, s.msgId.value, lines);
    if k == |lines| {
      assert lines[..k] == lines;
    } else {
      assert |TookLines(s.out) + lines[..k]| < |TookLines(s.out) + lines|;
    }
  }

  // ----- a verdict lost behind a refusal -----

  lemma RunStep(req: Request, s: State, i: Input, rest: seq<Input>)
    requires Sound(s)
    ensures Sound(Step(req, s, i)) && Run(req, s, [i] + rest) == Run(req, Step(req, s, i), rest)
  {
    StepSound(req, s, i);
    assert ([i] + rest)[1..] == rest;
  }

  function Poll(t: real, cancel: bool, lines: seq<Line>): Input {
    Input(true, t, t, t, cancel, lines)
  }

  lemma AcceptAndPrompt(req: Request, s: State, id: Json, accept: Line, prompt: Line)
    requires s.phase.Reading? && s.msgId.None? && !s.sent
    requires Acceptance(req, accept, id) && Prompt(req, id, prompt)
    ensures var s' := MainLines(req, s, [accept] + [prompt]);
            s' == s.(msgId := Some(id), sent := true, out := s'.out)
  {
    NotItsOwnStatus(req, id, prompt);
    hide MainLine, MainLines, Acceptance, Prompt, Final;
    MainLinesConcat(req, s, [accept], [prompt]);
    MainLinesOne(req, s, accept);
    AcceptIdentifies(req, s, id, accept);
    var s1 := MainLine(req, s, accept);
    MainLinesOne(req, s1, prompt);
    OnlyItsStatusEnds(req, s1, id, prompt);
    MainLinesExtend(req, s1, [prompt]);
  }

  lemma RefusalGivesUp(req: Request, s: State, refusal: Line, rest: seq<Line>)
    requires s.phase.Settling? && !s.phase.timedOut && s.msgId.Some? && refusal.target.Status? && refusal.code >= 400
    ensures SettleLines(req, s, [refusal] + rest) == s.(phase := Reading, out := s.out + [Took(refusal)])
  {
    var s1 := SettleLine(req, s, refusal);
    assert ([refusal] + rest)[1..] == rest;
    assert SettleLines(req, s1, rest) == s1;
  }

  /** For every send that the host may cancel: the payload is supplied, the host
      cancels, the modem refuses the cancel and in the same batch reports the final
      status. The send does not see it, and ends as a timeout. */
  lemma VerdictLostBehindRefusal(req: Request, id: Json, accept: Line, prompt: Line, refusal: Line, status: Line)
    returns (tape: seq<Input>)
    requires req.op != "" && req.timeout >= 0.0
    requires Acceptance(req, accept, id) && Prompt(req, id, prompt) && Final(req, id, status)
    requires refusal.target.Status? && refusal.code >= 400
    ensures exists i :: 0 <= i < |tape| && tape[i].lines == [refusal] + [status]
    ensures var s := Outcome(req, Opening([], [], 0.0, 0.0), tape);
            && s.phase.Done? && s.msgId == Some(id) && s.sent && s.out != []
            && s.out[|s.out| - 1] ==
               EmitResult(200, Status, TimeoutFields(req, Some(id), true))
  {
    hide MainLines, SettleLines, Run, Acceptance, Prompt, Final, TimeoutFields;
    var late := req.timeout + 1.0;
    var s0 := Start(req, Opening([], [], 0.0, 0.0));
    var i0, i1, i2 := Poll(0.0, false, []), Poll(0.0, false, [accept] + [prompt]), Poll(0.0, true, []);
    var i3, i4 := Poll(0.0, false, [refusal] + [status]), Poll(0.0, false, []);
    var i5, i6 := Poll(late, false, []), Poll(late + 20.0, false, []);
    var t5 := [i5] + ([i6] + []);
    var t3 := [i3] + ([i4] + t5);
    tape := [i0] + ([i1] + ([i2] + t3));
    assert tape[3] == i3;
    RunStep(req, s0, i0, [i1] + ([i2] + t3));
    var s1 := s0.(phase := Reading);
    assert Step(req, s0, i0) == s1;
    AcceptAndPrompt(req, s1, id, accept, prompt);
    RunStep(req, s1, i1, [i2] + t3);
    var s2 := Step(req, s1, i1);
    assert s2 == s0.(msgId := Some(id), sent := true, out := s2.out);
    RunStep(req, s2, i2, t3);
    var s3 := Step(req, s2, i2);
    assert s3.phase == Settling(0.0 + 20.0, false) && s3.msgId == Some(id) && s3.sent;
    RunStep(req, s3, i3, [i4] + t5);
    RefusalGivesUp(req, s3, refusal, [status]);
    var s4 := Step(req, s3, i3);
    assert s4 == s3.(phase := Reading, out := s4.out);
    RunStep(req, s4, i4, t5);
    NoLines(req, s4);
    var s5 := s4.(phase := Top);
    assert Step(req, s4, i4) == s5;
    RunStep(req, s5, i5, [i6] + []);
    var s6 := Step(req, s5, i5);
    assert s6.phase == Settling(late + 20.0, true) && s6.msgId == Some(id) && s6.sent;
    SettlePollTable(req, s6, i6);
    RunStep(req, s6, i6, []);
    RunNoPolls(req, Step(req, s6, i6));
  }

  lemma NoLines(req: Request, s: State)
    ensures MainLines(req, s, []) == s
  {
  }

  lemma RunNoPolls(req: Request, s: State)
    requires Sound(s)
    ensures Run(req, s, []) == s
  {
  }
}
