/** The helper's two threads. The event loop takes commands, runs sends and
    drains stale commands; the stdin thread puts commands and cancel tokens at
    any moment. Each step below is atomic, and a run is any interleaving
    (cmd/jspr-helper/jspr_helper.py, lines 221 to 251, 487 to 509, 536 to 544 and
    579 to 598). */
module JsprThreads {

  /** id tells apart commands that the host sent separately. */
  datatype Cmd = SendMo(op: string, id: nat) | Other(id: nat)

  datatype Pc =
    | Idle
    | Starting(cmd: Cmd)                          // before the snapshot of the cancel set
    | Dropping(cmd: Cmd, todo: set<string>)       // discarding what the snapshot held
    | Sending(cmd: Cmd)
    | Ending(cmd: Cmd)                            // before the send's own token is discarded
    | Draining(keep: seq<Cmd>)
    | Returning(keep: seq<Cmd>)

  datatype State = State(queue: seq<Cmd>, ops: set<string>, pc: Pc, started: seq<Cmd>)

  const INIT := State([], {}, Idle, [])

  datatype Step =
    | HostPut(cmd: Cmd) | HostCancel(op: string)
    | Get | Snapshot | Discard(op: string) | Begin | Take | End | Forget
    | DrainGet | DrainEmpty | PutBack | Resume

  predicate Enabled(s: State, a: Step) {
    match a
    case HostPut(_) => true
    case HostCancel(_) => true
    case Get => s.pc.Idle? && s.queue != []
    case Snapshot => s.pc.Starting?
    case Discard(o) => s.pc.Dropping? && o in s.pc.todo
    case Begin => s.pc.Dropping? && s.pc.todo == {}
    case Take => s.pc.Sending?
    case End => s.pc.Sending?
    case Forget => s.pc.Ending?
    case DrainGet => s.pc.Draining? && s.queue != []
    case DrainEmpty => s.pc.Draining? && s.queue == []
    case PutBack => s.pc.Returning? && s.pc.keep != []
    case Resume => s.pc.Returning? && s.pc.keep == []
  }

  function OpOf(c: Cmd): string {
    if c.SendMo? then c.op else ""
  }

  /** The running send is cancelled by this look at the set. */
  predicate Cancels(s: State, a: Step) {
    a.Take? && s.pc.Sending? && OpOf(s.pc.cmd) != "" && OpOf(s.pc.cmd) in s.ops
  }

  function Next(s: State, a: Step): State
    requires Enabled(s, a)
  {
    match a
    case HostPut(c) => s.(queue := s.queue + [c])
    case HostCancel(o) => if o == "" then s else s.(ops := s.ops + {o})
    case Get =>
      var c := s.queue[0];
      if c.SendMo? then s.(queue := s.queue[1..], pc := Starting(c), started := s.started + [c])
      else s.(queue := s.queue[1..])
    case Snapshot => s.(pc := Dropping(s.pc.cmd, s.ops))
    case Discard(o) =>
      s.(ops := if o == OpOf(s.pc.cmd) then s.ops else s.ops - {o}, pc := Dropping(s.pc.cmd, s.pc.todo - {o}))
    case Begin => s.(pc := Sending(s.pc.cmd))
    case Take => if Cancels(s, a) then s.(ops := s.ops - {OpOf(s.pc.cmd)}) else s
    case End => s.(pc := Ending(s.pc.cmd))
    case Forget => s.(ops := s.ops - {OpOf(s.pc.cmd)}, pc := Draining([]))
    case DrainGet =>
      var c := s.queue[0];
      s.(queue := s.queue[1..], pc := if c.SendMo? then Draining(s.pc.keep + [c]) else s.pc)
    case DrainEmpty => s.(pc := Returning(s.pc.keep))
    case PutBack => s.(queue := s.queue + [s.pc.keep[0]], pc := Returning(s.pc.keep[1..]))
    case Resume => s.(pc := Idle)
  }

  // ----- runs, and what they contain -----

  ghost predicate Valid(run: seq<Step>)
    decreases |run|, 0
  {
    run == [] || (var before := run[..|run| - 1]; Valid(before) && Enabled(After(before), run[|run| - 1]))
  }

  ghost function After(run: seq<Step>): State
    requires Valid(run)
    decreases |run|, 1
  {
    if run == [] then INIT else Next(After(run[..|run| - 1]), run[|run| - 1])
  }

  function SendsIn(cs: seq<Cmd>): seq<Cmd> {
    if cs == [] then []
    else SendsIn(cs[..|cs| - 1]) + if cs[|cs| - 1].SendMo? then [cs[|cs| - 1]] else []
  }

  function NewSends(a: Step): seq<Cmd> {
    if a.HostPut? && a.cmd.SendMo? then [a.cmd] else []
  }

  /** The sends the host has put, in order. */
  function Puts(run: seq<Step>): seq<Cmd> {
    if run == [] then []
    else Puts(run[..|run| - 1]) + NewSends(run[|run| - 1])
  }

  function Arrivals(run: seq<Step>, op: string): nat {
    if run == [] then 0
    else Arrivals(run[..|run| - 1], op) + if run[|run| - 1] == HostCancel(op) then 1 else 0
  }

  ghost function Cancellations(run: seq<Step>, op: string): nat
    requires Valid(run)
  {
    if run == [] then 0
    else
      var before := run[..|run| - 1];
      var s := After(before);
      Cancellations(before, op) + if Cancels(s, run[|run| - 1]) && OpOf(s.pc.cmd) == op then 1 else 0
  }

  /** Tokens that arrived since the last send took its snapshot. */
  function Fresh(run: seq<Step>): set<string> {
    if run == [] then {}
    else
      var a := run[|run| - 1];
      if a.Snapshot? then {} else Fresh(run[..|run| - 1]) + if a.HostCancel? then {a.op} else {}
  }

  /** Tokens that arrived between the last snapshot and the one before it. */
  function Prior(run: seq<Step>): set<string> {
    if run == [] then {}
    else if run[|run| - 1].Snapshot? then Fresh(run[..|run| - 1])
    else Prior(run[..|run| - 1])
  }

  // ----- cancel tokens -----

  /** What the cancel set can hold at each place of the event loop. */
  ghost predicate TokensExplained(s: State, recent: set<string>, prior: set<string>) {
    && "" !in s.ops
    && match s.pc
       case Dropping(c, todo) => todo <= prior && s.ops <= recent + todo + ({OpOf(c)} * prior)
       case Sending(c) => s.ops <= recent + ({OpOf(c)} * prior)
       case Ending(c) => s.ops <= recent + ({OpOf(c)} * prior)
       case _ => s.ops <= recent
  }

  lemma {:induction false} TokensAlwaysExplained(run: seq<Step>)
    requires Valid(run)
    ensures TokensExplained(After(run), Fresh(run), Prior(run))
  {
    if run != [] {
      TokensAlwaysExplained(run[..|run| - 1]);
    }
  }

  /** In every interleaving a send is cancelled only by a token with its own
      non-empty op that arrived after the previous send had started. */
  lemma CancelledOnlyByItsOwnToken(run: seq<Step>)
    requires Valid(run) && Cancels(After(run), Take)
    ensures var op := OpOf(After(run).pc.cmd);
            op != "" && op in After(run).ops && (op in Fresh(run) || op in Prior(run))
  {
    TokensAlwaysExplained(run);
  }

  /** While a send runs, every other token in the set arrived after that send's
      start: those that were there are void, and a send without an op has none. */
  lemma OthersAreVoidedAtStart(run: seq<Step>, o: string)
    requires Valid(run) && After(run).pc.Sending? && o in After(run).ops && o != OpOf(After(run).pc.cmd)
    ensures o in Fresh(run) && o != ""
  {
    TokensAlwaysExplained(run);
  }

  /** A token cancels at most once per arrival. */
  lemma {:induction false} OneCancelPerArrival(run: seq<Step>, op: string)
    requires Valid(run)
    ensures Cancellations(run, op) + (if op in After(run).ops then 1 else 0) <= Arrivals(run, op)
  {
    if run != [] {
      OneCancelPerArrival(run[..|run| - 1], op);
    }
  }

  /** A token that the loop will not discard before its own send looks for it. */
  ghost predicate Waiting(s: State, o: string) {
    && o in s.ops
    && match s.pc
       case Dropping(c, todo) => OpOf(c) == o || o !in todo
       case Ending(c) => OpOf(c) != o
       case _ => true
  }

  ghost predicate LeavesAlone(s: State, a: Step, o: string) {
    match a
    case Snapshot => s.pc.Starting? ==> OpOf(s.pc.cmd) == o
    case Take => s.pc.Sending? ==> OpOf(s.pc.cmd) != o
    case End => s.pc.Sending? ==> OpOf(s.pc.cmd) != o
    case _ => true
  }

  /** One step, exactly: without a new arrival a token waits afterwards if and only
      if it waited before and the step leaves it alone. So a token that does not
      wait is as good as gone. */
  lemma WaitsIffLeftAlone(s: State, a: Step, o: string)
    requires Enabled(s, a) && a != HostCancel(o) && o != ""
    ensures Waiting(Next(s, a), o) <==> Waiting(s, o) && LeavesAlone(s, a, o)
  {
  }

  /** A new token waits unless the loop is just discarding an older one of the same
      name, or is ending that very send. */
  predicate Discarding(s: State, o: string) {
    || (s.pc.Dropping? && OpOf(s.pc.cmd) != o && o in s.pc.todo)
    || (s.pc.Ending? && OpOf(s.pc.cmd) == o)
  }

  lemma ArrivalWaits(s: State, o: string)
    requires o != ""
    ensures Waiting(Next(s, HostCancel(o)), o) <==> !Discarding(s, o)
  {
  }

  lemma WaitingAtSend(s: State, o: string)
    requires s.pc.Sending? && OpOf(s.pc.cmd) == o != ""
    ensures Waiting(s, o) <==> Cancels(s, Take)
  {
  }

  lemma Prefix(run: seq<Step>, more: seq<Step>, k: nat)
    requires Valid(run + more) && k <= |more|
    ensures Valid(run + more[..k])
    decreases |more| - k
  {
    if k == |more| {
      assert more[..k] == more;
    } else {
      Prefix(run, more, k + 1);
      assert (run + more[..k + 1])[..|run| + k] == run + more[..k];
    }
  }

  /** No step of more takes the token o away or makes it void. */
  ghost predicate LeftAlone(run: seq<Step>, more: seq<Step>, o: string)
    requires Valid(run + more)
    decreases |more|
  {
    more != [] ==>
      var n := |more| - 1;
      Prefix(run, more, n);
      LeftAlone(run, more[..n], o) && LeavesAlone(After(run + more[..n]), more[n], o)
  }

  lemma {:induction false} WaitsAfter(run: seq<Step>, more: seq<Step>, o: string)
    requires Valid(run) && Valid(run + more) && o != "" && HostCancel(o) !in more
    ensures Waiting(After(run + more), o) <==> Waiting(After(run), o) && LeftAlone(run, more, o)
    decreases |more|
  {
    hide Next, Waiting, LeavesAlone;
    if more == [] {
      assert run + more == run;
    } else {
      var n := |more| - 1;
      Prefix(run, more, n);
      assert (run + more)[..|run + more| - 1] == run + more[..n] && (run + more)[|run + more| - 1] == more[n];
      WaitsAfter(run, more[..n], o);
      WaitsIffLeftAlone(After(run + more[..n]), more[n], o);
    }
  }

  /** A waiting token outlives everything, the end of the preceding send
      included, until its own send takes it or another send starts. */
  lemma TokenSurvives(run: seq<Step>, more: seq<Step>, o: string)
    requires Valid(run) && Valid(run + more) && o != "" && HostCancel(o) !in more
    requires Waiting(After(run), o) && LeftAlone(run, more, o)
    ensures o in After(run + more).ops
    ensures After(run + more).pc.Sending? && OpOf(After(run + more).pc.cmd) == o ==> Cancels(After(run + more), Take)
  {
    WaitsAfter(run, more, o);
  }

  /** And a token that arrives while one of its name is being discarded, or that
      some step does not leave alone, is lost for good: without another arrival it
      is gone from the set, in every later state in which the loop discards nothing. */
  lemma TokenLost(run: seq<Step>, more: seq<Step>, o: string)
    requires Valid(run) && Valid(run + more) && o != "" && HostCancel(o) !in more
    requires !Waiting(After(run), o) || !LeftAlone(run, more, o)
    ensures o in After(run + more).ops ==> Discarding(After(run + more), o)
    ensures !(After(run + more).pc.Sending? && OpOf(After(run + more).pc.cmd) == o && Cancels(After(run + more), Take))
  {
    WaitsAfter(run, more, o);
  }

  /** The whole life of one arrival, in every interleaving: when a send with its op
      looks for it, it is there, and cancels, if and only if the loop was not just
      discarding that name when it arrived, and since then no other send has
      started and no send of that op has looked for it or ended. */
  lemma ArrivalCancelsIff(run: seq<Step>, o: string, more: seq<Step>)
    requires o != "" && Valid(run) && Valid(run + [HostCancel(o)] + more) && HostCancel(o) !in more
    requires var s := After(run + [HostCancel(o)] + more); s.pc.Sending? && OpOf(s.pc.cmd) == o
    ensures Cancels(After(run + [HostCancel(o)] + more), Take) <==>
            !Discarding(After(run), o) && LeftAlone(run + [HostCancel(o)], more, o)
  {
    hide Waiting, Next;
    var arrived := run + [HostCancel(o)];
    Prefix(arrived, more, 0);
    assert arrived + more[..0] == arrived;
    Extend(run, HostCancel(o));
    ArrivalWaits(After(run), o);
    WaitsAfter(arrived, more, o);
    WaitingAtSend(After(arrived + more), o);
  }

  // ----- runs step by step -----

  lemma Extend(run: seq<Step>, a: Step)
    requires Valid(run) && Enabled(After(run), a)
    ensures Valid(run + [a]) && After(run + [a]) == Next(After(run), a)
  {
    assert (run + [a])[..|run|] == run;
  }

  /** Steps of the loop itself, and none that looks for a cancel. */
  ghost predicate Quiet(steps: seq<Step>) {
    forall i :: 0 <= i < |steps| ==> !steps[i].HostPut? && !steps[i].HostCancel? && !steps[i].Take?
  }

  lemma Goes(run: seq<Step>, more: seq<Step>, a: Step, s: State)
    requires Valid(run + more) && Enabled(After(run + more), a) && Next(After(run + more), a) == s
    ensures Valid(run + (more + [a])) && After(run + (more + [a])) == s
  {
    Extend(run + more, a);
    assert run + (more + [a]) == run + more + [a];
  }

  /** The loop takes the next send and starts it, with no cancel in the set. */
  lemma StartSend(run: seq<Step>, c: Cmd, rest: seq<Cmd>, started: seq<Cmd>) returns (more: seq<Step>)
    requires Valid(run) && c.SendMo? && After(run) == State([c] + rest, {}, Idle, started)
    ensures Quiet(more) && Valid(run + more) && After(run + more) == State(rest, {}, Sending(c), started + [c])
  {
    hide Valid, After;
    more := [];
    assert run + more == run && ([c] + rest)[1..] == rest;
    Goes(run, more, Get, State(rest, {}, Starting(c), started + [c]));
    more := more + [Get];
    Goes(run, more, Snapshot, State(rest, {}, Dropping(c, {}), started + [c]));
    more := more + [Snapshot];
    Goes(run, more, Begin, State(rest, {}, Sending(c), started + [c]));
    more := more + [Begin];
  }

  /** A send ends and the loop is at its drain, which holds the one queued send. */
  lemma EndSend(run: seq<Step>, a: Cmd, b: Cmd, started: seq<Cmd>) returns (more: seq<Step>)
    requires Valid(run) && b.SendMo? && After(run) == State([b], {}, Sending(a), started)
    ensures Quiet(more) && Valid(run + more) && After(run + more) == State([], {}, Returning([b]), started)
  {
    hide Valid, After;
    more := [];
    assert run + more == run && [b][1..] == [] && [] + [b] == [b];
    Goes(run, more, End, State([b], {}, Ending(a), started));
    more := more + [End];
    Goes(run, more, Forget, State([b], {}, Draining([]), started));
    more := more + [Forget];
    Goes(run, more, DrainGet, State([], {}, Draining([b]), started));
    more := more + [DrainGet];
    Goes(run, more, DrainEmpty, State([], {}, Returning([b]), started));
    more := more + [DrainEmpty];
  }

  /** The drain returns the send it holds and the loop goes on. */
  lemma ReturnSend(run: seq<Step>, queue: seq<Cmd>, b: Cmd, started: seq<Cmd>) returns (more: seq<Step>)
    requires Valid(run) && After(run) == State(queue, {}, Returning([b]), started)
    ensures Quiet(more) && Valid(run + more) && After(run + more) == State(queue + [b], {}, Idle, started)
  {
    hide Valid, After;
    more := [];
    assert run + more == run && [b][1..] == [];
    Goes(run, more, PutBack, State(queue + [b], {}, Returning([]), started));
    more := more + [PutBack];
    Goes(run, more, Resume, State(queue + [b], {}, Idle, started));
    more := more + [Resume];
  }

  /** From one running send through its drain to the start of the queued one. */
  lemma SendAfterSend(run: seq<Step>, a: Cmd, b: Cmd, started: seq<Cmd>) returns (more: seq<Step>)
    requires Valid(run) && b.SendMo? && After(run) == State([b], {}, Sending(a), started)
    ensures Quiet(more) && Valid(run + more) && After(run + more) == State([], {}, Sending(b), started + [b])
  {
    hide Valid, After;
    var m1 := EndSend(run, a, b, started);
    var m2 := ReturnSend(run + m1, [], b, started);
    assert [] + [b] == [b] + [];
    var m3 := StartSend(run + m1 + m2, b, [], started);
    more := m1 + m2 + m3;
    assert run + more == run + m1 + m2 + m3;
  }

  // ----- two ways to lose a cancel -----

  /** A cancel for a send that is still queued is void once another send starts
      first: b runs and is not cancelled, though nothing took its cancel. */
  lemma QueuedCancelLost(a: Cmd, b: Cmd) returns (more: seq<Step>)
    requires a.SendMo? && b.SendMo? && b.op != "" && a.op != b.op
    ensures var run := [HostPut(a), HostPut(b), HostCancel(b.op)] + more;
            Quiet(more) && Valid(run) && After(run).pc == Sending(b) && !Cancels(After(run), Take)
  {
    hide Valid, After;
    var o := b.op;
    NothingYet();
    assert [] + [a] == [a] && [a] + [b] == [a, b] && [a, b][1..] == [b];
    Goes([], [], HostPut(a), State([a], {}, Idle, []));
    Goes([], [] + [HostPut(a)], HostPut(b), State([a, b], {}, Idle, []));
    Goes([], [] + [HostPut(a)] + [HostPut(b)], HostCancel(o), State([a, b], {o}, Idle, []));
    var host := [HostPut(a), HostPut(b), HostCancel(o)];
    assert [] + ([] + [HostPut(a)] + [HostPut(b)] + [HostCancel(o)]) == host + [];
    Goes(host, [], Get, State([b], {o}, Starting(a), [a]));
    Goes(host, [] + [Get], Snapshot, State([b], {o}, Dropping(a, {o}), [a]));
    var m1 := [] + [Get] + [Snapshot];
    var m2 := DiscardAndGoOn(host + m1, a, b);
    more := m1 + m2;
    assert host + more == host + m1 + m2;
  }

  /** The cancel for b is discarded at the start of a; a runs and ends, b starts. */
  lemma DiscardAndGoOn(run: seq<Step>, a: Cmd, b: Cmd) returns (more: seq<Step>)
    requires a.SendMo? && b.SendMo? && a.op != b.op
    requires Valid(run) && After(run) == State([b], {b.op}, Dropping(a, {b.op}), [a])
    ensures Quiet(more) && Valid(run + more) && After(run + more) == State([], {}, Sending(b), [a, b])
  {
    hide Valid, After;
    var m1: seq<Step>, none: set<string> := [], {b.op} - {b.op};
    assert run + m1 == run && none == {};
    Goes(run, m1, Discard(b.op), State([b], {}, Dropping(a, {}), [a]));
    m1 := m1 + [Discard(b.op)];
    Goes(run, m1, Begin, State([b], {}, Sending(a), [a]));
    m1 := m1 + [Begin];
    var m2 := SendAfterSend(run + m1, a, b, [a]);
    more := m1 + m2;
    assert run + more == run + m1 + m2 && [a] + [b] == [a, b];
  }

  lemma NothingYet()
    ensures Valid([] + []) && After([] + []) == INIT
  {
    var none: seq<Step> := [];
    assert none + none == none;
  }

  /** A cancel that arrives while an older one of its name is being discarded goes
      with it, though no other send starts between it and its own. */
  lemma CaughtCancelLost(a: Cmd, b: Cmd) returns (more: seq<Step>)
    requires a.SendMo? && b.SendMo? && b.op != "" && a.op != b.op
    ensures var run := [HostCancel(b.op), HostPut(a), Get, Snapshot, HostPut(b)];
            && Valid(run) && Discarding(After(run), b.op)
            && Quiet(more) && Valid(run + [HostCancel(b.op)] + more)
            && After(run + [HostCancel(b.op)] + more).pc == Sending(b)
            && !Cancels(After(run + [HostCancel(b.op)] + more), Take)
  {
    hide Valid, After;
    var o := b.op;
    NothingYet();
    assert [] + [a] == [a] && [a][1..] == [] && [] + [b] == [b];
    var m := [];
    Goes([], m, HostCancel(o), State([], {o}, Idle, []));
    m := m + [HostCancel(o)];
    Goes([], m, HostPut(a), State([a], {o}, Idle, []));
    m := m + [HostPut(a)];
    Goes([], m, Get, State([], {o}, Starting(a), [a]));
    m := m + [Get];
    Goes([], m, Snapshot, State([], {o}, Dropping(a, {o}), [a]));
    m := m + [Snapshot];
    Goes([], m, HostPut(b), State([b], {o}, Dropping(a, {o}), [a]));
    var run := [HostCancel(o), HostPut(a), Get, Snapshot, HostPut(b)];
    assert [] + (m + [HostPut(b)]) == run == run + [];
    Goes(run, [], HostCancel(o), State([b], {o}, Dropping(a, {o}), [a]));
    assert run + ([] + [HostCancel(o)]) == run + [HostCancel(o)];
    more := DiscardAndGoOn(run + [HostCancel(o)], a, b);
  }

  // ----- queued sends -----

  function Held(pc: Pc): seq<Cmd> {
    match pc
    case Draining(keep) => keep
    case Returning(keep) => keep
    case _ => []
  }

  lemma SendsNone()
    ensures SendsIn([]) == []
  {
  }

  lemma SendsAppend(cs: seq<Cmd>, c: Cmd)
    ensures SendsIn(cs + [c]) == SendsIn(cs) + if c.SendMo? then [c] else []
  {
    assert (cs + [c])[..|cs|] == cs;
  }

  lemma {:induction false} SendsFirst(cs: seq<Cmd>)
    requires cs != []
    ensures SendsIn(cs) == (if cs[0].SendMo? then [cs[0]] else []) + SendsIn(cs[1..])
  {
    if |cs| > 1 {
      var front, last := cs[..|cs| - 1], cs[|cs| - 1];
      SendsFirst(front);
      assert front[1..] == cs[1..][..|cs| - 2];
    }
  }

  ghost predicate OnlySends(cs: seq<Cmd>) {
    forall i :: 0 <= i < |cs| ==> cs[i].SendMo?
  }

  lemma {:induction false} KeepsOnlySends(run: seq<Step>)
    requires Valid(run)
    ensures OnlySends(Held(After(run).pc))
  {
    if run != [] { KeepsOnlySends(run[..|run| - 1]); }
  }

  ghost function Accounted(s: State): multiset<Cmd> {
    multiset(s.started) + multiset(SendsIn(s.queue)) + multiset(Held(s.pc))
  }

  lemma StepAccounts(s: State, a: Step)
    requires Enabled(s, a) && OnlySends(Held(s.pc))
    ensures Accounted(Next(s, a)) == Accounted(s) + multiset(NewSends(a))
  {
    hide SendsIn;
    match a
    case HostPut(c) => SendsAppend(s.queue, c);
    case Get => GetAccounts(s);
    case DrainGet => DrainGetAccounts(s);
    case PutBack => PutBackAccounts(s);
    case _ =>
  }

  lemma PutBackAccounts(s: State)
    requires Enabled(s, PutBack) && OnlySends(s.pc.keep)
    ensures Accounted(Next(s, PutBack)) == Accounted(s)
  {
    hide SendsIn;
    SendsAppend(s.queue, s.pc.keep[0]);
    assert s.pc.keep == [s.pc.keep[0]] + s.pc.keep[1..];
  }

  lemma GetAccounts(s: State)
    requires Enabled(s, Get)
    ensures Accounted(Next(s, Get)) == Accounted(s)
  {
    SendsFirst(s.queue);
  }

  lemma DrainGetAccounts(s: State)
    requires Enabled(s, DrainGet)
    ensures Accounted(Next(s, DrainGet)) == Accounted(s)
  {
    SendsFirst(s.queue);
  }

  /** In every interleaving of puts with the drain each send the host put is
      started once, queued, or held by the drain, and nowhere twice. */
  lemma {:induction false} NoSendLostOrDoubled(run: seq<Step>)
    requires Valid(run)
    ensures multiset(Puts(run)) ==
            multiset(After(run).started) + multiset(SendsIn(After(run).queue)) + multiset(Held(After(run).pc))
  {
    if run != [] {
      var before, a := run[..|run| - 1], run[|run| - 1];
      NoSendLostOrDoubled(before);
      KeepsOnlySends(before);
      StepAccounts(After(before), a);
    }
  }

  /** Sends not yet started, in the order the loop will reach them. */
  function Pending(s: State): seq<Cmd> {
    match s.pc
    case Draining(keep) => keep + SendsIn(s.queue)
    case Returning(keep) => SendsIn(s.queue) + keep
    case _ => SendsIn(s.queue)
  }

  ghost function Order(s: State): seq<Cmd> {
    s.started + Pending(s)
  }

  ghost predicate InOrder(run: seq<Step>)
    requires Valid(run)
  {
    Order(After(run)) == Puts(run)
  }

  /** A send put while the drain still has others to return. */
  predicate Overtakes(s: State, a: Step) {
    a.HostPut? && a.cmd.SendMo? && s.pc.Returning? && s.pc.keep != []
  }

  lemma StepKeepsOrder(s: State, a: Step)
    requires Enabled(s, a) && OnlySends(Held(s.pc)) && !Overtakes(s, a)
    ensures Order(Next(s, a)) == Order(s) + NewSends(a)
  {
    hide SendsIn;
    SendsNone();
    match a
    case HostPut(c) => PutKeepsOrder(s, c);
    case Get => GetKeepsOrder(s);
    case DrainGet => DrainGetKeepsOrder(s);
    case PutBack => PutBackKeepsOrder(s);
    case _ =>
  }

  lemma PutKeepsOrder(s: State, c: Cmd)
    requires !Overtakes(s, HostPut(c))
    ensures Order(Next(s, HostPut(c))) == Order(s) + NewSends(HostPut(c))
  {
    hide SendsIn;
    SendsAppend(s.queue, c);
  }

  lemma GetKeepsOrder(s: State)
    requires Enabled(s, Get)
    ensures Order(Next(s, Get)) == Order(s)
  {
    hide SendsIn;
    SendsFirst(s.queue);
  }

  lemma DrainGetKeepsOrder(s: State)
    requires Enabled(s, DrainGet)
    ensures Order(Next(s, DrainGet)) == Order(s)
  {
    hide SendsIn;
    SendsFirst(s.queue);
  }

  lemma PutBackKeepsOrder(s: State)
    requires Enabled(s, PutBack) && OnlySends(s.pc.keep)
    ensures Order(Next(s, PutBack)) == Order(s)
  {
    hide SendsIn;
    var c, rest, queued := s.pc.keep[0], s.pc.keep[1..], SendsIn(s.queue);
    SendsAppend(s.queue, c);
    assert s.pc.keep == [c] + rest;
    assert queued + [c] + rest == queued + ([c] + rest);
  }

  /** A put while the drain returns others goes in ahead of those. */
  lemma OvertakingInserts(s: State, a: Step)
    requires Overtakes(s, a)
    ensures Order(Next(s, a)) == s.started + SendsIn(s.queue) + [a.cmd] + s.pc.keep
    ensures Order(s) == s.started + SendsIn(s.queue) + s.pc.keep
  {
    hide SendsIn;
    SendsAppend(s.queue, a.cmd);
    var queued := SendsIn(s.queue);
    assert s.started + (queued + [a.cmd] + s.pc.keep) == s.started + queued + [a.cmd] + s.pc.keep;
  }

  lemma InsertedIsNotLast<T>(order: seq<T>, front: seq<T>, back: seq<T>, x: T)
    requires back != [] && x !in back
    ensures front + [x] + back != order + [x]
  {
    var inserted := front + [x] + back;
    assert inserted[|inserted| - 1] == back[|back| - 1];
    assert (order + [x])[|order|] == x;
  }

  /** Once out of order, always out of order: the exact effect of one step. */
  lemma OrderAfterStep(run: seq<Step>, a: Step)
    requires Valid(run + [a]) && Valid(run)
    requires a.HostPut? ==> a.cmd !in Puts(run)
    ensures InOrder(run + [a]) <==> InOrder(run) && !Overtakes(After(run), a)
  {
    hide Next, SendsIn, Held;
    assert (run + [a])[..|run|] == run;
    var s := After(run);
    KeepsOnlySends(run);
    if Overtakes(s, a) {
      OvertakingInserts(s, a);
      NoSendLostOrDoubled(run);
      HeldWhileReturning(s);
      assert a.cmd !in multiset(Puts(run)) && multiset(s.pc.keep) <= multiset(Puts(run));
      assert a.cmd !in s.pc.keep;
      InsertedIsNotLast(Puts(run), s.started + SendsIn(s.queue), s.pc.keep, a.cmd);
    } else {
      StepKeepsOrder(s, a);
      SameTail(Order(s), Puts(run), NewSends(a));
    }
  }

  lemma HeldWhileReturning(s: State)
    requires s.pc.Returning?
    ensures Held(s.pc) == s.pc.keep
  {
  }

  lemma SameTail<T>(a: seq<T>, b: seq<T>, tail: seq<T>)
    ensures a + tail == b + tail <==> a == b
  {
    if a + tail == b + tail {
      assert |a| == |b|;
      assert a == (a + tail)[..|a|] && b == (b + tail)[..|b|];
    }
  }

  ghost predicate NeverOvertaken(run: seq<Step>)
    requires Valid(run)
  {
    run != [] ==> NeverOvertaken(run[..|run| - 1]) && !Overtakes(After(run[..|run| - 1]), run[|run| - 1])
  }

  ghost predicate NoRepeats(run: seq<Step>) {
    run != [] ==>
      var before, a := run[..|run| - 1], run[|run| - 1];
      NoRepeats(before) && (a.HostPut? ==> a.cmd !in Puts(before))
  }

  lemma {:induction false} InOrderIffNeverOvertaken(run: seq<Step>)
    requires Valid(run) && NoRepeats(run)
    ensures InOrder(run) <==> NeverOvertaken(run)
  {
    if run != [] {
      var before, a := run[..|run| - 1], run[|run| - 1];
      assert run == before + [a];
      InOrderIffNeverOvertaken(before);
      OrderAfterStep(before, a);
    }
  }

  ghost predicate NoPuts(steps: seq<Step>) {
    forall i :: 0 <= i < |steps| ==> !steps[i].HostPut?
  }

  lemma {:induction false} OrderStays(run: seq<Step>, more: seq<Step>)
    requires Valid(run) && Valid(run + more) && NoPuts(more)
    ensures Order(After(run + more)) == Order(After(run)) && Puts(run + more) == Puts(run)
    decreases |more|
  {
    hide Next, Order;
    if more == [] {
      assert run + more == run;
    } else {
      var n := |more| - 1;
      Prefix(run, more, n);
      assert (run + more)[..|run + more| - 1] == run + more[..n] && (run + more)[|run + more| - 1] == more[n];
      OrderStays(run, more[..n]);
      KeepsOnlySends(run + more[..n]);
      StepKeepsOrder(After(run + more[..n]), more[n]);
    }
  }

  // ----- left to itself, the loop starts every send -----

  function PendingCount(s: State): nat { |Pending(s)| }

  /** How far the loop is from taking its next command. */
  function Rank(pc: Pc): nat {
    match pc
    case Idle => 0
    case Returning(_) => 1
    case Draining(_) => 2
    case Ending(_) => 3
    case Sending(_) => 4
    case Dropping(_, _) => 5
    case Starting(_) => 6
  }

  function Left(s: State): nat {
    match s.pc
    case Returning(keep) => |keep|
    case Dropping(_, todo) => |todo|
    case _ => |s.queue|
  }

  /** A step of the loop itself that brings it nearer to its next command. */
  lemma NextStep(s: State) returns (a: Step)
    requires OnlySends(Held(s.pc)) && Pending(s) != []
    ensures Enabled(s, a) && !a.HostPut?
    ensures var s' := Next(s, a);
            || PendingCount(s') < PendingCount(s)
            || (PendingCount(s') == PendingCount(s) && Rank(s'.pc) < Rank(s.pc))
            || (PendingCount(s') == PendingCount(s) && Rank(s'.pc) == Rank(s.pc) && Left(s') < Left(s))
  {
    hide SendsIn;
    SendsNone();
    match s.pc
    case Idle =>
      a := Get;
      SendsFirst(s.queue);
    case Starting(_) => a := Snapshot;
    case Dropping(_, todo) =>
      if todo == {} {
        a := Begin;
      } else {
        var o :| o in todo;
        a := Discard(o);
      }
    case Sending(_) => a := End;
    case Ending(_) => a := Forget;
    case Draining(_) =>
      if s.queue == [] {
        a := DrainEmpty;
      } else {
        a := DrainGet;
        SendsFirst(s.queue);
      }
    case Returning(keep) =>
      if keep == [] {
        a := Resume;
      } else {
        a := PutBack;
        SendsAppend(s.queue, keep[0]);
      }
  }

  lemma {:induction false} StartsThemAll(run: seq<Step>) returns (more: seq<Step>)
    requires Valid(run)
    ensures Valid(run + more) && NoPuts(more) && Pending(After(run + more)) == []
    decreases PendingCount(After(run)), Rank(After(run).pc), Left(After(run))
  {
    hide Next, Pending, Enabled;
    if PendingCount(After(run)) == 0 {
      more := [];
      assert run + more == run;
    } else {
      KeepsOnlySends(run);
      var a := NextStep(After(run));
      Extend(run, a);
      var rest := StartsThemAll(run + [a]);
      more := [a] + rest;
      assert run + more == run + [a] + rest;
    }
  }

  /** When the host never repeats a send: whatever the loop does without further
      puts, sends start in the order they were put, if and only if none was put
      while the drain was still returning others to the queue. */
  lemma FifoUnlessOvertaken(run: seq<Step>)
    requires Valid(run) && NoRepeats(run)
    ensures NeverOvertaken(run) <==>
            forall more :: Valid(run + more) && NoPuts(more) ==> After(run + more).started <= Puts(run)
  {
    hide Next, Pending, NeverOvertaken, NoRepeats, Valid, After, Puts;
    InOrderIffNeverOvertaken(run);
    if NeverOvertaken(run) {
      forall more | Valid(run + more) && NoPuts(more) ensures After(run + more).started <= Puts(run) {
        OrderStays(run, more);
        assert After(run + more).started <= Order(After(run + more));
      }
    } else {
      var more := StartsThemAll(run);
      OrderStays(run, more);
      var s := After(run + more);
      assert s.started == Order(s) != Puts(run);
      NoSendLostOrDoubled(run + more);
      SameLength(run, more);
    }
  }

  lemma SameLength(run: seq<Step>, more: seq<Step>)
    requires Valid(run) && Valid(run + more) && NoPuts(more) && Pending(After(run + more)) == []
    ensures |After(run + more).started| == |Puts(run)|
  {
    hide Next, Valid, After, Puts;
    NoSendLostOrDoubled(run + more);
    OrderStays(run, more);
    var s := After(run + more);
    assert multiset(SendsIn(s.queue)) + multiset(Held(s.pc)) == multiset{};
    assert |multiset(Puts(run))| == |multiset(s.started)|;
  }

  /** Such runs: c is put while the drain is about to return b, and starts first. */
  lemma OvertakenRun(a: Cmd, b: Cmd, c: Cmd) returns (m1: seq<Step>, m2: seq<Step>, m3: seq<Step>)
    requires a.SendMo? && b.SendMo? && c.SendMo?
    ensures Quiet(m1) && Quiet(m2) && Quiet(m3)
    ensures var run := [HostPut(a)] + m1 + [HostPut(b)] + m2 + [HostPut(c)] + m3;
            Valid(run) && After(run).started == [a, c, b] && Puts(run) == [a, b, c]
  {
    hide Valid, After, Puts;
    NothingYet();
    assert [] + [a] == [a] + [] && [] + [b] == [b] && [] + [c] == [c];
    Goes([], [], HostPut(a), State([a], {}, Idle, []));
    var r1 := [HostPut(a)];
    assert [] + ([] + [HostPut(a)]) == r1;
    m1 := StartSend(r1, a, [], []);
    var r2 := r1 + m1 + [HostPut(b)];
    Extend(r1 + m1, HostPut(b));
    m2 := EndSend(r2, a, b, [a]);
    var r3 := r2 + m2 + [HostPut(c)];
    Extend(r2 + m2, HostPut(c));
    var n1 := ReturnSend(r3, [c], b, [a]);
    assert [c] + [b] == [c, b];
    var n2 := StartSend(r3 + n1, c, [b], [a]);
    var n3 := SendAfterSend(r3 + n1 + n2, c, b, [a, c]);
    m3 := n1 + n2 + n3;
    assert r3 + m3 == r3 + n1 + n2 + n3;
    PutsThree(a, b, c, m1, m2, m3);
  }

  lemma PutsThree(a: Cmd, b: Cmd, c: Cmd, m1: seq<Step>, m2: seq<Step>, m3: seq<Step>)
    requires a.SendMo? && b.SendMo? && c.SendMo? && Quiet(m1) && Quiet(m2) && Quiet(m3)
    ensures Puts([HostPut(a)] + m1 + [HostPut(b)] + m2 + [HostPut(c)] + m3) == [a, b, c]
  {
    hide Puts, Quiet;
    var r1, r2 := [HostPut(a)] + m1, [HostPut(a)] + m1 + [HostPut(b)] + m2;
    PutsQuiet([HostPut(a)], m1);
    PutsQuiet(r1 + [HostPut(b)], m2);
    PutsQuiet(r2 + [HostPut(c)], m3);
    PutsAppend([], HostPut(a));
    assert [] + [HostPut(a)] == [HostPut(a)];
    PutsAppend(r1, HostPut(b));
    PutsAppend(r2, HostPut(c));
  }

  lemma PutsAppend(run: seq<Step>, a: Step)
    ensures Puts(run + [a]) == Puts(run) + NewSends(a) && Puts([]) == []
  {
    assert (run + [a])[..|run|] == run;
  }

  lemma {:induction false} PutsQuiet(run: seq<Step>, more: seq<Step>)
    requires Quiet(more)
    ensures Puts(run + more) == Puts(run)
    decreases |more|
  {
    if more == [] {
      assert run + more == run;
    } else {
      var n := |more| - 1;
      PutsQuiet(run, more[..n]);
      PutsAppend(run + more[..n], more[n]);
      assert run + more == run + more[..n] + [more[n]];
    }
  }

  // ----- the same operations as the helper writes them, undisturbed -----

  class Helper {
    var cmdQueue: seq<Cmd>
    var cancelOps: set<string>

    /** The start of a send voids every token but its own. */
    method DropOtherCancels(op: string)
      modifies `cancelOps
      ensures cancelOps == old(cancelOps) * {op}
    {
      var todo := cancelOps;
      while todo != {}
        invariant todo <= old(cancelOps)
        invariant cancelOps == todo + (old(cancelOps) - todo) * {op}
        decreases todo
      {
        var o :| o in todo;
        if o != op {
          cancelOps := cancelOps - {o};
        }
        todo := todo - {o};
      }
    }

    /** True once if the send carrying this op is to be cancelled. */
    method TakeCancel(op: string) returns (taken: bool)
      modifies `cancelOps
      ensures taken <==> op != "" && op in old(cancelOps)
      ensures cancelOps == if taken then old(cancelOps) - {op} else old(cancelOps)
    {
      if op == "" || op !in cancelOps {
        return false;
      }
      cancelOps := cancelOps - {op};
      return true;
    }

    /** Without a concurrent put the drain is the order-preserving filter. */
    method DrainStaleCommands()
      modifies `cmdQueue
      ensures cmdQueue == SendsIn(old(cmdQueue))
    {
      var keep: seq<Cmd> := [];
      while cmdQueue != []
        invariant keep + SendsIn(cmdQueue) == SendsIn(old(cmdQueue))
        decreases |cmdQueue|
      {
        var cmd := cmdQueue[0];
        SendsFirst(cmdQueue);
        cmdQueue := cmdQueue[1..];
        if cmd.SendMo? {
          ghost var rest := SendsIn(cmdQueue);
          assert keep + ([cmd] + rest) == keep + [cmd] + rest;
          keep := keep + [cmd];
        }
      }
      for k := 0 to |keep|
        invariant cmdQueue == keep[..k]
      {
        cmdQueue := cmdQueue + [keep[k]];
      }
    }
  }
}
