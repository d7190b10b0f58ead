/** The slots of the BLE peer manager (internal/api/ble_peer_manager.go). A client
    is started outside the lock, between two critical sections; each section is
    atomic here and calls interleave freely. */
module BlePeers {
  import opened Options
  import opened PeerNames

  /** Client None is a placeholder: some call is starting a client for it. A call
      and the client it makes have the same number. */
  datatype Slot = Slot(name: string, client: Option<nat>)

  type Peers = map<string, Slot>

  predicate InUse(peers: Peers, name: string) {
    exists k :: k in peers && peers[k].name == name
  }

  // ----- the critical sections, as the manager writes them -----

  class BLEPeerManager {
    var peers: Peers
    var nameSeq: nat

    constructor ()
      ensures peers == map[] && nameSeq == 0
    {
      peers, nameSeq := map[], 0;
    }

    /** The first name from the counter on that no slot uses; ends because names differ. */
    method AllocNameLocked() returns (name: string)
      modifies `nameSeq
      ensures old(nameSeq) < nameSeq && name == PeerName(nameSeq - 1) && !InUse(peers, name)
      ensures forall i :: old(nameSeq) <= i < nameSeq - 1 ==> InUse(peers, PeerName(i))
    {
      name := PeerName(nameSeq);
      nameSeq := nameSeq + 1;
      ghost var left := set k | k in peers :: peers[k].name;
      while InUse(peers, name)
        invariant old(nameSeq) < nameSeq && name == PeerName(nameSeq - 1)
        invariant forall i :: old(nameSeq) <= i < nameSeq - 1 ==> InUse(peers, PeerName(i))
        invariant forall i :: nameSeq - 1 <= i && InUse(peers, PeerName(i)) ==> PeerName(i) in left
        decreases left
      {
        ghost var taken := name;
        left := left - {taken};
        forall i | nameSeq <= i && InUse(peers, PeerName(i)) ensures PeerName(i) in left {
          if PeerName(i) == taken { NamesAreDistinct(i, nameSeq - 1); }
        }
        name := PeerName(nameSeq);
        nameSeq := nameSeq + 1;
      }
    }

    /** Claim a slot, unless one is being started or is online. */
    method Begin(key: string, online: bool) returns (name: Option<string>, stopped: Option<nat>)
      requires NamesBelow(peers, nameSeq)
      modifies this
      ensures key in old(peers) && (old(peers)[key].client.None? || online) ==>
                name == None && stopped == None && peers == old(peers) && nameSeq == old(nameSeq)
      ensures key !in old(peers) || (old(peers)[key].client.Some? && !online) ==>
                && name == Some(PeerName(old(nameSeq))) && nameSeq == old(nameSeq) + 1
                && peers == old(peers)[key := Slot(PeerName(old(nameSeq)), None)]
                && stopped == if key in old(peers) then old(peers)[key].client else None
    {
      stopped := None;
      if key in peers {
        if peers[key].client.None? || online {
          return None, None;
        }
        stopped := RemoveLocked(key);
      }
      FirstPassSuffices(peers, nameSeq);
      var free := AllocNameLocked();
      peers := peers[key := Slot(free, None)];
      name := Some(free);
    }

    /** Delete a slot and say which client to stop. */
    method RemoveLocked(key: string) returns (stopped: Option<nat>)
      modifies `peers
      ensures peers == old(peers) - {key}
      ensures stopped == if key in old(peers) then old(peers)[key].client else None
    {
      stopped := None;
      if key in peers {
        stopped := peers[key].client;
        peers := peers - {key};
      }
    }

    /** After a failed start: drop the placeholder if it is still this call's. */
    method CleanUp(key: string, name: string)
      modifies `peers
      ensures peers == if key in old(peers) && old(peers)[key] == Slot(name, None) then old(peers) - {key} else old(peers)
    {
      if key in peers && peers[key].client.None? && peers[key].name == name {
        peers := peers - {key};
      }
    }

    method Commit(key: string, name: string, client: nat)
      modifies `peers
      ensures peers == old(peers)[key := Slot(name, Some(client))]
    {
      peers := peers[key := Slot(name, Some(client))];
    }
  }

  predicate Claims(peers: Peers, key: string, online: bool) {
    key !in peers || (peers[key].client.Some? && !online)
  }

  function ClientAt(peers: Peers, key: string): Option<nat> {
    if key in peers then peers[key].client else None
  }

  function Cleaned(peers: Peers, key: string, name: string): Peers {
    if key in peers && peers[key] == Slot(name, None) then peers - {key} else peers
  }

  ghost predicate NamesBelow(peers: Peers, n: nat) {
    forall k :: k in peers ==> exists i: nat :: i < n && peers[k].name == PeerName(i)
  }

  /** While every name in use came from an earlier number, the next is free. */
  lemma FirstPassSuffices(peers: Peers, n: nat)
    requires NamesBelow(peers, n)
    ensures forall i: nat :: i >= n ==> !InUse(peers, PeerName(i))
  {
    forall i: nat | i >= n ensures !InUse(peers, PeerName(i)) {
      if InUse(peers, PeerName(i)) {
        var k :| k in peers && peers[k].name == PeerName(i);
        var j: nat :| j < n && peers[k].name == PeerName(j);
        NamesAreDistinct(i, j);
      }
    }
  }

  // ----- interleavings -----

  /** A call past its first section: started says its client is up. */
  datatype Call = Call(key: string, name: string, started: bool)

  /** live holds the clients that are up, with their address; issued says which
      call each name was given to. */
  datatype State = State(peers: Peers, next: nat, calls: map<nat, Call>, live: map<nat, string>, issued: map<string, nat>)

  const INIT := State(map[], 0, map[], map[], map[])

  datatype Step =
    | Begin(c: nat, key: string, online: bool)
    | StartOk(c: nat) | StartFails(c: nat) | Commit(c: nat)
    | Remove(key: string)

  predicate Enabled(s: State, a: Step) {
    match a
    case Begin(c, _, _) => c !in s.calls && c !in s.live && c !in s.issued.Values && s.next < MAX_INT
    case StartOk(c) => c in s.calls && !s.calls[c].started
    case StartFails(c) => c in s.calls && !s.calls[c].started
    case Commit(c) => c in s.calls && s.calls[c].started
    case Remove(_) => true
  }

  function Stop(live: map<nat, string>, client: Option<nat>): map<nat, string> {
    if client.Some? then live - {client.value} else live
  }

  function Next(s: State, a: Step): State
    requires Enabled(s, a)
  {
    match a
    case Begin(c, key, online) =>
      if Claims(s.peers, key, online) then
        var name := PeerName(s.next);
        State(s.peers[key := Slot(name, None)], s.next + 1, s.calls[c := Call(key, name, false)],
              Stop(s.live, ClientAt(s.peers, key)), s.issued[name := c])
      else s
    case StartOk(c) => s.(calls := s.calls[c := s.calls[c].(started := true)], live := s.live[c := s.calls[c].key])
    case StartFails(c) => s.(calls := s.calls - {c}, peers := Cleaned(s.peers, s.calls[c].key, s.calls[c].name))
    case Commit(c) =>
      s.(calls := s.calls - {c}, peers := s.peers[s.calls[c].key := Slot(s.calls[c].name, Some(c))])
    case Remove(key) => s.(peers := s.peers - {key}, live := Stop(s.live, ClientAt(s.peers, key)))
  }

  ghost predicate Valid(run: seq<Step>)
    decreases |run|, 0
  {
    run == [] || (Valid(run[..|run| - 1]) && Enabled(After(run[..|run| - 1]), run[|run| - 1]))
  }

  ghost function After(run: seq<Step>): State
    requires Valid(run)
    decreases |run|, 1
  {
    if run == [] then INIT else Next(After(run[..|run| - 1]), run[|run| - 1])
  }

  // ----- what each call is for -----

  /** A call for an address whose client is starting or online changes nothing. */
  lemma BusySlotLeftAlone(s: State, c: nat, key: string, online: bool)
    requires Enabled(s, Begin(c, key, online)) && key in s.peers && (s.peers[key].client.None? || online)
    ensures Next(s, Begin(c, key, online)) == s
  {
  }

  /** A call for an address without a slot, or with a client that is offline, takes
      the slot under the next name, and the stale client is stopped. */
  lemma FreeSlotTaken(s: State, c: nat, key: string, online: bool)
    requires Enabled(s, Begin(c, key, online))
    requires key !in s.peers || (s.peers[key].client.Some? && !online)
    ensures var s' := Next(s, Begin(c, key, online));
            && s'.peers == s.peers[key := Slot(PeerName(s.next), None)] && s'.next == s.next + 1
            && c in s'.calls && s'.calls == s.calls[c := Call(key, PeerName(s.next), false)]
            && s'.live == if key in s.peers then s.live - {s.peers[key].client.value} else s.live
  {
    hide PeerName;
  }

  ghost predicate Can(s: State, steps: seq<Step>)
    decreases |steps|
  {
    steps != [] ==> Enabled(s, steps[0]) && Can(Next(s, steps[0]), steps[1..])
  }

  ghost function Do(s: State, steps: seq<Step>): State
    requires Can(s, steps)
    decreases |steps|
  {
    if steps == [] then s else Do(Next(s, steps[0]), steps[1..])
  }

  lemma Chain(s: State, a: Step, rest: seq<Step>)
    requires Enabled(s, a) && Can(Next(s, a), rest)
    ensures Can(s, [a] + rest) && Do(s, [a] + rest) == Do(Next(s, a), rest)
  {
    assert ([a] + rest)[1..] == rest;
  }

  /** Such a call that starts and commits leaves its own client live in the slot, the
      stale one stopped, and every other slot and client as it was. */
  lemma CallCompletes(s: State, c: nat, key: string, online: bool)
    requires Enabled(s, Begin(c, key, online))
    requires key !in s.peers || (s.peers[key].client.Some? && !online)
    ensures var steps := [Begin(c, key, online)] + ([StartOk(c)] + ([Commit(c)] + []));
            && Can(s, steps)
            && var end := Do(s, steps);
               && end.peers == s.peers[key := Slot(PeerName(s.next), Some(c))]
               && end.live == (if key in s.peers then s.live - {s.peers[key].client.value} else s.live)[c := key]
               && end.calls == s.calls
  {
    hide PeerName;
    FreeSlotTaken(s, c, key, online);
    var s1 := Next(s, Begin(c, key, online));
    StartAndCommit(s1, c);
    assert s1.peers[key := Slot(PeerName(s.next), Some(c))] == s.peers[key := Slot(PeerName(s.next), Some(c))];
    assert s1.calls - {c} == s.calls;
    Chain(s, Begin(c, key, online), [StartOk(c)] + ([Commit(c)] + []));
  }

  lemma StartAndCommit(s: State, c: nat)
    requires c in s.calls && !s.calls[c].started
    ensures var steps := [StartOk(c)] + ([Commit(c)] + []);
            && Can(s, steps)
            && Do(s, steps) == s.(calls := s.calls - {c}, live := s.live[c := s.calls[c].key],
                                  peers := s.peers[s.calls[c].key := Slot(s.calls[c].name, Some(c))])
  {
    var s1 := Next(s, StartOk(c));
    var s2 := Next(s1, Commit(c));
    assert s1.calls - {c} == s.calls - {c};
    assert Can(s2, []) && Do(s2, []) == s2;
    Chain(s1, Commit(c), []);
    Chain(s, StartOk(c), [Commit(c)] + []);
  }

  /** One whose start fails leaves no slot, so the next call can try again. */
  lemma FailedCallCanRetry(s: State, c: nat, key: string, online: bool)
    requires Enabled(s, Begin(c, key, online))
    requires key !in s.peers || (s.peers[key].client.Some? && !online)
    ensures var steps := [Begin(c, key, online)] + ([StartFails(c)] + []);
            && Can(s, steps)
            && var end := Do(s, steps); end.peers == s.peers - {key} && end.calls == s.calls && c !in end.live
  {
    hide PeerName;
    FreeSlotTaken(s, c, key, online);
    var s1 := Next(s, Begin(c, key, online));
    var s2 := Next(s1, StartFails(c));
    assert s2.peers == s.peers - {key};
    assert s2.calls == s.calls;
    assert Can(s2, []) && Do(s2, []) == s2;
    Chain(s1, StartFails(c), []);
    Chain(s, Begin(c, key, online), [StartFails(c)] + []);
  }

  /** A removal deletes that slot and stops its client, and nothing else. */
  lemma RemovalStopsClient(s: State, key: string)
    ensures var s' := Next(s, Remove(key));
            && s'.peers == s.peers - {key} && s'.calls == s.calls
            && s'.live == if key in s.peers && s.peers[key].client.Some? then s.live - {s.peers[key].client.value} else s.live
  {
  }

  // ----- names, in every interleaving -----

  ghost predicate NamesSound(s: State) {
    && NamesBelow(s.peers, s.next)
    && (forall k :: k in s.peers ==> s.peers[k].name in s.issued)
    && (forall n :: n in s.issued ==> exists i: nat :: i < s.next && n == PeerName(i))
    && (forall c :: c in s.calls ==> s.calls[c].name in s.issued && s.issued[s.calls[c].name] == c)
  }

  lemma StepKeepsNames(s: State, a: Step)
    requires NamesSound(s) && Enabled(s, a)
    ensures NamesSound(Next(s, a))
  {
    hide PeerName;
    match a
    case Begin(c, key, online) => if Claims(s.peers, key, online) { BeginKeepsNames(s, c, key, online); }
    case Commit(c) => CommitKeepsNames(s, c);
    case _ =>
  }

  lemma BeginKeepsNames(s: State, c: nat, key: string, online: bool)
    requires NamesSound(s) && Enabled(s, Begin(c, key, online)) && Claims(s.peers, key, online)
    ensures NamesSound(Next(s, Begin(c, key, online)))
  {
    hide PeerName;
    var name, s' := PeerName(s.next), Next(s, Begin(c, key, online));
    NextNameIsNew(s);
    assert s.next < s'.next;
    forall k | k in s'.peers ensures exists i: nat :: i < s'.next && s'.peers[k].name == PeerName(i) {
      if k == key { assert s'.peers[k].name == PeerName(s.next); }
    }
    forall n | n in s'.issued ensures exists i: nat :: i < s'.next && n == PeerName(i) {
      if n == name { assert n == PeerName(s.next); }
    }
  }

  lemma CommitKeepsNames(s: State, c: nat)
    requires NamesSound(s) && Enabled(s, Commit(c))
    ensures NamesSound(Next(s, Commit(c)))
  {
    hide PeerName;
    var s' := Next(s, Commit(c));
    forall k | k in s'.peers ensures exists i: nat :: i < s'.next && s'.peers[k].name == PeerName(i) {
      if k == s.calls[c].key { assert s'.peers[k].name == s.calls[c].name; }
    }
  }

  lemma NextNameIsNew(s: State)
    requires NamesSound(s)
    ensures PeerName(s.next) !in s.issued
  {
    if PeerName(s.next) in s.issued {
      var i: nat :| i < s.next && PeerName(s.next) == PeerName(i);
      NamesAreDistinct(s.next, i);
    }
  }

  lemma {:induction false} NamesAlwaysSound(run: seq<Step>)
    requires Valid(run)
    ensures NamesSound(After(run))
  {
    if run != [] {
      NamesAlwaysSound(run[..|run| - 1]);
      StepKeepsNames(After(run[..|run| - 1]), run[|run| - 1]);
    }
  }

  /** Names are never reused: the name a call is about to get was issued to no call
      before it, so the allocation ends on its first pass. */
  lemma NamesNeverReused(run: seq<Step>)
    requires Valid(run)
    ensures PeerName(After(run).next) !in After(run).issued && !InUse(After(run).peers, PeerName(After(run).next))
  {
    NamesAlwaysSound(run);
    NextNameIsNew(After(run));
    FirstPassSuffices(After(run).peers, After(run).next);
  }

  /** Whatever removals do, a failed start deletes at most its own placeholder. */
  lemma FailedStartDeletesOnlyItsOwn(run: seq<Step>, c: nat, k: string)
    requires Valid(run) && Enabled(After(run), StartFails(c))
    requires k in After(run).peers && k !in Next(After(run), StartFails(c)).peers
    ensures var slot := After(run).peers[k];
            slot.client.None? && slot.name in After(run).issued && After(run).issued[slot.name] == c &&
            k == After(run).calls[c].key
  {
    NamesAlwaysSound(run);
  }

  // ----- at most one client per address -----

  /** A client being started, or up. */
  predicate Active(s: State, c: nat, key: string) {
    (c in s.calls && s.calls[c].key == key) || (c in s.live && s.live[c] == key)
  }

  ghost predicate OnePerAddress(s: State) {
    forall key, c, d :: Active(s, c, key) && Active(s, d, key) ==> c == d
  }

  /** A call holds the placeholder under its name, and its client is up if started. */
  ghost predicate CallOk(s: State, c: nat)
    requires c in s.calls
  {
    var call := s.calls[c];
    && call.key in s.peers && s.peers[call.key] == Slot(call.name, None)
    && (call.started <==> c in s.live) && (c in s.live ==> s.live[c] == call.key)
    && call.name in s.issued && s.issued[call.name] == c
  }

  /** A live client is in its address's slot, or its call is about to put it there. */
  ghost predicate LiveOk(s: State, c: nat)
    requires c in s.live
  {
    c in s.calls || (s.live[c] in s.peers && s.peers[s.live[c]].client == Some(c))
  }

  /** A slot holds a live client, or its call is still on its way. */
  ghost predicate SlotOk(s: State, k: string)
    requires k in s.peers
  {
    match s.peers[k].client
    case Some(c) => c in s.live && s.live[c] == k && c !in s.calls
    case None =>
      var n := s.peers[k].name;
      n in s.issued && s.issued[n] in s.calls && s.calls[s.issued[n]].key == k && s.calls[s.issued[n]].name == n
  }

  ghost predicate Tied(s: State) {
    && (forall c :: c in s.calls ==> CallOk(s, c))
    && (forall c :: c in s.live ==> LiveOk(s, c))
    && (forall k :: k in s.peers ==> SlotOk(s, k))
  }

  lemma TiedMeansOne(s: State)
    requires Tied(s)
    ensures OnePerAddress(s)
  {
    forall key, c, d | Active(s, c, key) && Active(s, d, key) ensures c == d {
      assert c in s.calls ==> CallOk(s, c);
      assert d in s.calls ==> CallOk(s, d);
      assert c in s.live ==> LiveOk(s, c);
      assert d in s.live ==> LiveOk(s, d);
    }
  }

  /** A slot whose client is still being started. */
  predicate Starting(s: State, key: string) {
    key in s.peers && s.peers[key].client.None?
  }

  lemma StepKeepsTied(s: State, a: Step)
    requires Tied(s) && NamesSound(s) && Enabled(s, a)
    requires a.Remove? ==> !Starting(s, a.key)
    ensures Tied(Next(s, a))
  {
    match a
    case Begin(c, key, online) => if Claims(s.peers, key, online) { BeginKeepsTied(s, c, key, online); }
    case StartOk(c) => StartOkKeepsTied(s, c);
    case StartFails(c) => StartFailsKeepsTied(s, c);
    case Commit(c) => CommitKeepsTied(s, c);
    case Remove(key) => RemoveKeepsTied(s, key);
  }

  lemma BeginKeepsTied(s: State, c: nat, key: string, online: bool)
    requires Tied(s) && NamesSound(s) && Enabled(s, Begin(c, key, online)) && Claims(s.peers, key, online)
    ensures Tied(Next(s, Begin(c, key, online)))
  {
    hide PeerName, NamesSound;
    NextNameIsNew(s);
    if key in s.peers { assert SlotOk(s, key); }
    var s' := Next(s, Begin(c, key, online));
    forall d | d in s'.calls ensures CallOk(s', d) {
      if d in s.calls { assert CallOk(s, d); }
    }
    forall d | d in s'.live ensures LiveOk(s', d) {
      if d in s.live { assert LiveOk(s, d); }
    }
    forall k | k in s'.peers ensures SlotOk(s', k) {
      if k in s.peers { assert SlotOk(s, k); }
    }
  }

  lemma StartOkKeepsTied(s: State, c: nat)
    requires Tied(s) && Enabled(s, StartOk(c))
    ensures Tied(Next(s, StartOk(c)))
  {
    assert CallOk(s, c);
    var s' := Next(s, StartOk(c));
    forall d | d in s'.calls ensures CallOk(s', d) {
      if d in s.calls { assert CallOk(s, d); }
    }
    forall d | d in s'.live ensures LiveOk(s', d) {
      if d in s.live { assert LiveOk(s, d); }
    }
    forall k | k in s'.peers ensures SlotOk(s', k) {
      if k in s.peers { assert SlotOk(s, k); }
    }
  }

  lemma StartFailsKeepsTied(s: State, c: nat)
    requires Tied(s) && Enabled(s, StartFails(c))
    ensures Tied(Next(s, StartFails(c)))
  {
    assert CallOk(s, c);
    var s' := Next(s, StartFails(c));
    forall d | d in s'.calls ensures CallOk(s', d) {
      if d in s.calls { assert CallOk(s, d); }
    }
    forall d | d in s'.live ensures LiveOk(s', d) {
      if d in s.live { assert LiveOk(s, d); }
    }
    forall k | k in s'.peers ensures SlotOk(s', k) {
      if k in s.peers { assert SlotOk(s, k); }
    }
  }

  lemma CommitKeepsTied(s: State, c: nat)
    requires Tied(s) && Enabled(s, Commit(c))
    ensures Tied(Next(s, Commit(c)))
  {
    assert CallOk(s, c) && SlotOk(s, s.calls[c].key);
    var s' := Next(s, Commit(c));
    forall d | d in s'.calls ensures CallOk(s', d) {
      if d in s.calls { assert CallOk(s, d); }
    }
    forall d | d in s'.live ensures LiveOk(s', d) {
      if d in s.live { assert LiveOk(s, d); }
    }
    forall k | k in s'.peers ensures SlotOk(s', k) {
      if k in s.peers { assert SlotOk(s, k); }
    }
  }

  lemma RemoveKeepsTied(s: State, key: string)
    requires Tied(s) && !Starting(s, key)
    ensures Tied(Next(s, Remove(key)))
  {
    if key in s.peers { assert SlotOk(s, key); }
    var s' := Next(s, Remove(key));
    forall d | d in s'.calls ensures CallOk(s', d) {
      if d in s.calls { assert CallOk(s, d); }
    }
    forall d | d in s'.live ensures LiveOk(s', d) {
      if d in s.live { assert LiveOk(s, d); }
    }
    forall k | k in s'.peers ensures SlotOk(s', k) {
      if k in s.peers { assert SlotOk(s, k); }
    }
  }

  /** No removal hits a slot whose client is being started. */
  ghost predicate GentleRemovals(run: seq<Step>)
    requires Valid(run)
  {
    run != [] ==>
      var before, a := run[..|run| - 1], run[|run| - 1];
      GentleRemovals(before) && (a.Remove? ==> !Starting(After(before), a.key))
  }

  lemma {:induction false} GentleRunsAreTied(run: seq<Step>)
    requires Valid(run) && GentleRemovals(run)
    ensures Tied(After(run))
  {
    if run != [] {
      var before, a := run[..|run| - 1], run[|run| - 1];
      GentleRunsAreTied(before);
      NamesAlwaysSound(before);
      StepKeepsTied(After(before), a);
    }
  }

  /** In every interleaving of calls, with removals only of slots that are not
      being started, each address has at most one client starting or live. */
  lemma AtMostOneClientPerAddress(run: seq<Step>)
    requires Valid(run) && GentleRemovals(run)
    ensures OnePerAddress(After(run))
  {
    GentleRunsAreTied(run);
    TiedMeansOne(After(run));
  }

  // ----- and exactly then -----

  lemma Extend(run: seq<Step>, a: Step)
    requires Valid(run) && Enabled(After(run), a)
    ensures Valid(run + [a]) && After(run + [a]) == Next(After(run), a)
  {
    assert (run + [a])[..|run|] == run;
  }

  /** A removal is safe exactly when the slot is not being started: otherwise one
      more call for that address makes it a second client beside the first. */
  lemma RemovalSafeIffNotStarting(run: seq<Step>, key: string, d: nat)
    requires Valid(run) && GentleRemovals(run) && Enabled(After(run), Begin(d, key, false))
    ensures var more := [Remove(key), Begin(d, key, false)];
            Valid(run + more) && (OnePerAddress(After(run + more)) <==> !Starting(After(run), key))
  {
    hide Next, Tied, NamesSound;
    var s, b := After(run), Begin(d, key, false);
    GentleRunsAreTied(run);
    NamesAlwaysSound(run);
    Extend(run, Remove(key));
    RemoveLeavesRoom(s, key, d);
    var r1 := run + [Remove(key)];
    Extend(r1, b);
    assert run + [Remove(key), b] == r1 + [b];
    if Starting(s, key) {
      SecondStart(s, key, d);
    } else {
      RemoveKeepsTied(s, key);
      NamesAlwaysSound(r1);
      StepKeepsTied(After(r1), b);
      TiedMeansOne(After(r1 + [b]));
    }
  }

  lemma RemoveLeavesRoom(s: State, key: string, d: nat)
    requires Enabled(s, Begin(d, key, false))
    ensures Enabled(Next(s, Remove(key)), Begin(d, key, false))
  {
  }

  lemma SecondStart(s: State, key: string, d: nat)
    requires Tied(s) && Starting(s, key) && Enabled(s, Begin(d, key, false))
    ensures Enabled(Next(s, Remove(key)), Begin(d, key, false))
    ensures !OnePerAddress(Next(Next(s, Remove(key)), Begin(d, key, false)))
  {
    hide PeerName;
    var s2 := Next(Next(s, Remove(key)), Begin(d, key, false));
    assert SlotOk(s, key);
    var c := s.issued[s.peers[key].name];
    assert c in s.calls && s.calls[c].key == key && c != d;
    assert Active(s2, c, key) && Active(s2, d, key);
  }

  /** Live, in no slot, and with no call left to put it into one. */
  ghost predicate Orphan(s: State, c: nat) {
    c in s.live && c !in s.calls && forall k :: k in s.peers ==> s.peers[k].client != Some(c)
  }

  /** Whatever calls and removals follow, nothing ever stops an orphan. */
  lemma {:induction false} OrphanForever(s: State, c: nat, steps: seq<Step>)
    requires Orphan(s, c) && Can(s, steps)
    ensures Orphan(Do(s, steps), c)
    decreases |steps|
  {
    if steps != [] {
      StepKeepsOrphan(s, c, steps[0]);
      OrphanForever(Next(s, steps[0]), c, steps[1..]);
    }
  }

  lemma StepKeepsOrphan(s: State, c: nat, a: Step)
    requires Orphan(s, c) && Enabled(s, a)
    ensures Orphan(Next(s, a), c)
  {
    hide PeerName;
  }

  /** And the first client leaks: both can come up, and then the first is an
      orphan, which OrphanForever says no step of any kind ever stops. */
  lemma FirstClientLeaks(s: State, key: string, d: nat) returns (c: nat, steps: seq<Step>)
    requires Tied(s) && Starting(s, key) && Enabled(s, Begin(d, key, false))
    ensures c in s.calls && s.calls[c].key == key && c != d && Can(s, steps)
    ensures forall i :: 0 <= i < |steps| && steps[i].Remove? ==> i == 0
    ensures var end := Do(s, steps);
            c in end.live && d in end.live && end.live[c] == end.live[d] == key && SlotHolds(end, key, d) && Orphan(end, c)
  {
    hide PeerName;
    assert SlotOk(s, key);
    c := s.issued[s.peers[key].name];
    assert CallOk(s, c);
    var s2 := Next(Next(s, Remove(key)), Begin(d, key, false));
    forall k | k in s.peers ensures s.peers[k].client != Some(c) {
      assert SlotOk(s, k);
    }
    if s.calls[c].started {
      steps := LeakTail(s2, key, c, d);
    } else {
      steps := LeakTail(Next(s2, StartOk(c)), key, c, d);
      Chain(s2, StartOk(c), steps);
      steps := [StartOk(c)] + steps;
    }
    Chain(Next(s, Remove(key)), Begin(d, key, false), steps);
    steps := [Begin(d, key, false)] + steps;
    Chain(s, Remove(key), steps);
    steps := [Remove(key)] + steps;
  }

  /** The address's slot holds client d. */
  ghost predicate SlotHolds(s: State, key: string, d: nat) {
    key in s.peers && s.peers[key].client == Some(d)
  }

  lemma LeakTail(s: State, key: string, c: nat, d: nat) returns (steps: seq<Step>)
    requires c != d && c in s.calls && d in s.calls && s.calls[c].key == s.calls[d].key == key
    requires s.calls[c].started && !s.calls[d].started && c in s.live && s.live[c] == key
    requires forall k :: k in s.peers ==> s.peers[k].client != Some(c)
    ensures Can(s, steps) && forall i :: 0 <= i < |steps| ==> !steps[i].Remove?
    ensures var end := Do(s, steps);
            c in end.live && d in end.live && end.live[c] == end.live[d] == key && SlotHolds(end, key, d) && Orphan(end, c)
  {
    var s1 := Next(s, Commit(c));
    var s2 := Next(s1, StartOk(d));
    Chain(s2, Commit(d), []);
    Chain(s1, StartOk(d), [Commit(d)] + []);
    Chain(s, Commit(c), [StartOk(d)] + ([Commit(d)] + []));
    steps := [Commit(c)] + ([StartOk(d)] + ([Commit(d)] + []));
  }
}
