/** High-availability peers of the gateway as a state machine over values: the HA task's
    peer table and its UP and DOWN notifications (dgwy_vlan_ha_task.c), and the control
    task that applies them (dgwy_ctrl_task.c).

    A step is what one task does between two points where the other can come in: a use of
    the message queue, a use of the event word, or work on what is its own.
 */
module HaModel {

  const MAX_PEERS: nat := 2
  const TIMEOUT: int := 30
  const CLOCKS_PER_SEC: int := 1000000

  /** state 0 is a free slot, 1 an inactive peer, 2 an active one */
  datatype Peer = Peer(addr: nat, state: nat, last: int)

  /** DGWY_PEER_UP carries state 2, DGWY_PEER_DOWN state 1. */
  datatype Note = Note(addr: nat, state: nat)

  /** Where the HA task is: between calls, or in the middle of telling of slot i. */
  datatype HaTask = Idle | ToSend(i: nat, state: nat) | ToSignal(i: nat, state: nat) | ToMark(i: nat)

  /** Where the control task is: about to look for events, or emptying its queue. */
  datatype Control = Polling | Draining

  datatype State = State(
    peers: seq<Peer>,
    queue: seq<Note>,         // the control task's messages
    msgEvent: bool,           // its message event is pending
    applied: map<nat, nat>,   // dgwy_ctrl_set_peer_state
    ha: HaTask,
    control: Control,
    notes: seq<Note>,         // every notification the HA task tried to send
    received: seq<Note>,      // those the control task took
    missedUp: bool,           // an UP notification could not be allocated
    lost: bool)               // a send failed

  datatype Step =
    | Configure(addr: nat, now: int)                             // update_peers_table
    | Hear(slot: nat, addr: nat, now: int, allocOk: bool)        // update_peer_clock at one slot
    | Expire(slot: nat, now: int, writable: bool, allocOk: bool) // keep_alive_peers at one slot
    | Send(ok: bool)                                             // queue_send
    | Signal                                                     // send_event
    | Mark                                                       // the last write of update_peer_clock
    | Poll(timer: bool)                                          // the control task's recv_event
    | Drain                                                      // its queue_receive

  /** (now - last) / CLOCKS_PER_SEC, truncated toward zero */
  function Seconds(d: int): int
  {
    if d >= 0 then d / CLOCKS_PER_SEC else -(-d / CLOCKS_PER_SEC)
  }

  /** The first slot with the address, or the number of slots. */
  function FindPeer(peers: seq<Peer>, addr: nat): (i: nat)
    ensures i <= |peers| && (i < |peers| ==> peers[i].addr == addr)
    ensures forall j :: 0 <= j < i ==> peers[j].addr != addr
  {
    if |peers| == 0 || peers[0].addr == addr then 0 else 1 + FindPeer(peers[1..], addr)
  }

  /** The first free slot, or the number of slots. */
  function FindFree(peers: seq<Peer>): (i: nat)
    ensures i <= |peers| && (i < |peers| ==> peers[i].state == 0)
    ensures forall j :: 0 <= j < i ==> peers[j].state != 0
  {
    if |peers| == 0 || peers[0].state == 0 then 0 else 1 + FindFree(peers[1..])
  }

  /** Whether the slot has been silent for too long. */
  predicate Silent(p: Peer, now: int, writable: bool)
  {
    p.addr != 0 && writable && p.state == 2 && Seconds(now - p.last) > TIMEOUT
  }

  ghost predicate Enabled(s: State, step: Step)
  {
    match step
    case Configure(_, _) => s.ha == Idle
    case Hear(i, _, _, _) => s.ha == Idle && i < |s.peers|
    case Expire(i, _, _, _) => s.ha == Idle && i < |s.peers|
    case Send(_) => s.ha.ToSend? && s.ha.i < |s.peers|
    case Signal => s.ha.ToSignal?
    case Mark => s.ha.ToMark? && s.ha.i < |s.peers|
    case Poll(_) => true
    case Drain => true
  }

  /** After telling: an UP still has its state to write. */
  function Told(i: nat, state: nat): HaTask
  {
    if state == 2 then ToMark(i) else Idle
  }

  /** A poll in the middle of emptying the queue, or a receive outside of it, is no step of the
      control task and leaves everything as it is. */
  ghost function Apply(s: State, step: Step): State
    requires Enabled(s, step)
  {
    match step
    case Configure(addr, now) =>
      var i := FindFree(s.peers);
      if FindPeer(s.peers, addr) < |s.peers| || i == |s.peers| then s else s.(peers := s.peers[i := Peer(addr, 1, now)])
    case Hear(i, addr, now, allocOk) =>
      var p := s.peers[i];
      if p.addr != addr then s
      else if p.state != 1 then s.(peers := s.peers[i := Peer(addr, 2, now)])
      else if allocOk then s.(peers := s.peers[i := p.(last := now)], ha := ToSend(i, 2))
      else s.(peers := s.peers[i := Peer(addr, 2, now)], missedUp := true)
    case Expire(i, now, writable, allocOk) =>
      if Silent(s.peers[i], now, writable) && allocOk
      then s.(peers := s.peers[i := s.peers[i].(state := 1)], ha := ToSend(i, 1)) else s
    case Send(ok) =>
      var i, note := s.ha.i, Note(s.peers[s.ha.i].addr, s.ha.state);
      if ok then s.(queue := s.queue + [note], notes := s.notes + [note], ha := ToSignal(i, s.ha.state))
      else s.(notes := s.notes + [note], lost := true, ha := Told(i, s.ha.state))
    case Signal => s.(msgEvent := true, ha := Told(s.ha.i, s.ha.state))
    case Mark => s.(peers := s.peers[s.ha.i := s.peers[s.ha.i].(state := 2)], ha := Idle)
    case Poll(timer) =>
      if s.control != Polling then s
      else if timer then s.(msgEvent := false)
      else if s.msgEvent then s.(msgEvent := false, control := Draining)
      else s
    case Drain =>
      if s.control != Draining then s
      else if s.queue == [] then s.(control := Polling)
      else
        var note := s.queue[0];
        s.(queue := s.queue[1..], received := s.received + [note], applied := s.applied[note.addr := note.state])
  }

  // Histories

  /** The states notified for one peer, in order. */
  ghost function Of(notes: seq<Note>, a: nat): seq<nat>
  {
    if |notes| == 0 then []
    else
      var n := notes[|notes| - 1];
      Of(notes[..|notes| - 1], a) + if n.addr == a then [n.state] else []
  }

  /** UP, DOWN, UP, ... */
  ghost predicate Alternating(states: seq<nat>)
  {
    forall i :: 0 <= i < |states| ==> states[i] == if i % 2 == 0 then 2 else 1
  }

  /** ... and the last one says what the peer is. */
  ghost predicate InStep(states: seq<nat>, state: nat)
  {
    Alternating(states) && (|states| % 2 == 1 <==> state == 2)
  }

  lemma OfAppend(notes: seq<Note>, n: Note, a: nat)
    ensures Of(notes + [n], a) == Of(notes, a) + if n.addr == a then [n.state] else []
  {
    assert (notes + [n])[..|notes|] == notes;
  }

  lemma InStepLast(states: seq<nat>, state: nat)
    requires InStep(states, state) && states != [] && state in {1, 2}
    ensures states[|states| - 1] == state
  {
  }

  lemma InStepNext(states: seq<nat>, state: nat, next: nat)
    requires InStep(states, state) && state in {1, 2} && next in {1, 2} && next != state
    ensures InStep(states + [next], next)
  {
  }

  // The invariant

  /** What the notifications so far say slot i is. In the middle of a change it is not
      what the table says: a DOWN is written before it is sent, an UP after. */
  ghost function Announced(ha: HaTask, peers: seq<Peer>, i: nat): nat
    requires i < |peers|
  {
    if Ahead(ha, i) then 2 else peers[i].state
  }

  ghost predicate Ahead(ha: HaTask, i: nat)
  {
    ha == ToSend(i, 1) || ha == ToSignal(i, 2) || ha == ToMark(i)
  }

  ghost predicate PeerOk(peers: seq<Peer>, ha: HaTask, notes: seq<Note>, missedUp: bool, i: nat)
    requires i < |peers|
  {
    && (forall j :: 0 <= j < i && peers[i].addr != 0 ==> peers[j].addr != peers[i].addr)
    && (if peers[i].addr == 0 then peers[i].state in {0, 2} else peers[i].state in {1, 2})
    && (peers[i].addr != 0 && !missedUp ==> InStep(Of(notes, peers[i].addr), Announced(ha, peers, i)))
  }

  ghost predicate Configured(peers: seq<Peer>, a: nat)
  {
    a != 0 && exists i :: 0 <= i < |peers| && peers[i].addr == a
  }

  /** A task in the middle of a change is at a configured slot, which is inactive. */
  ghost predicate TaskOk(peers: seq<Peer>, ha: HaTask)
  {
    ha != Idle ==>
      && ha.i < |peers| && peers[ha.i].addr != 0 && peers[ha.i].state == 1
      && (ha.ToSend? || ha.ToSignal? ==> ha.state in {1, 2})
  }

  /** Addresses are distinct, and each peer's notifications alternate, ending with what
      has been announced. */
  ghost predicate TableOk(peers: seq<Peer>, ha: HaTask, notes: seq<Note>, missedUp: bool)
  {
    && |peers| == MAX_PEERS && TaskOk(peers, ha)
    && (forall i :: 0 <= i < |peers| ==> PeerOk(peers, ha, notes, missedUp, i))
    && (forall a :: Of(notes, a) != [] ==> Configured(peers, a))
  }

  /** The control task has applied what it took, in order, and the rest is queued. */
  ghost predicate ControlOk(s: State)
  {
    (!s.lost ==> s.received + s.queue == s.notes) && forall a :: AppliedOk(s.applied, Of(s.received, a), a)
  }

  /** The last state taken for a is the one applied. */
  ghost predicate AppliedOk(applied: map<nat, nat>, states: seq<nat>, a: nat)
  {
    (a in applied <==> states != []) && (a in applied ==> applied[a] == states[|states| - 1])
  }

  ghost predicate Good(s: State)
  {
    TableOk(s.peers, s.ha, s.notes, s.missedUp) && ControlOk(s)
  }

  ghost predicate Initial(s: State)
  {
    && s.peers == seq(MAX_PEERS, _ => Peer(0, 0, 0)) && s.queue == s.notes == s.received == [] && !s.msgEvent
    && s.applied == map[] && s.ha == Idle && s.control == Polling && !s.missedUp && !s.lost
  }

  lemma InitialIsGood(s: State)
    requires Initial(s)
    ensures Good(s)
  {
  }

  // Every step keeps it

  lemma ConfiguredStill(peers: seq<Peer>, notes: seq<Note>, i: nat, p: Peer)
    requires forall a :: Of(notes, a) != [] ==> Configured(peers, a)
    requires i < |peers| && (peers[i].addr == 0 || p.addr == peers[i].addr)
    ensures forall a :: Of(notes, a) != [] ==> Configured(peers[i := p], a)
  {
    hide Of;
    forall a | Of(notes, a) != []
      ensures Configured(peers[i := p], a)
    {
      var j :| 0 <= j < |peers| && peers[j].addr == a;
      assert peers[i := p][j].addr == a;
    }
  }

  /** A slot keeps its address, and what is announced of it stays in step. */
  lemma SetKept(peers: seq<Peer>, ha: HaTask, ha': HaTask, notes: seq<Note>, missedUp: bool, i: nat, p: Peer)
    requires TableOk(peers, ha, notes, missedUp) && i < MAX_PEERS && p.addr == peers[i].addr
    requires if p.addr == 0 then p.state in {0, 2} else p.state in {1, 2}
    requires ha == Idle || ha.i == i
    requires TaskOk(peers[i := p], ha') && (ha' == Idle || ha'.i == i)
    requires p.addr != 0 && !missedUp ==> Announced(ha', peers[i := p], i) == Announced(ha, peers, i)
    ensures TableOk(peers[i := p], ha', notes, missedUp)
  {
    hide Of, InStep;
    var after := peers[i := p];
    forall j | 0 <= j < MAX_PEERS
      ensures PeerOk(after, ha', notes, missedUp, j)
    {
      assert PeerOk(peers, ha, notes, missedUp, j) && PeerOk(peers, ha, notes, missedUp, i);
    }
    ConfiguredStill(peers, notes, i, p);
  }

  /** A missed notification leaves nothing to be in step with. */
  lemma MissKept(peers: seq<Peer>, ha: HaTask, notes: seq<Note>, missedUp: bool)
    requires TableOk(peers, ha, notes, missedUp)
    ensures TableOk(peers, ha, notes, true)
  {
    hide Of, InStep;
    forall j | 0 <= j < MAX_PEERS
      ensures PeerOk(peers, ha, notes, true, j)
    {
      assert PeerOk(peers, ha, notes, missedUp, j);
    }
  }

  /** A new address has not been notified about: its sequence starts from nothing. */
  lemma AddKept(peers: seq<Peer>, notes: seq<Note>, missedUp: bool, i: nat, p: Peer)
    requires TableOk(peers, Idle, notes, missedUp) && i < MAX_PEERS && peers[i].addr == 0 && p.addr != 0 && p.state == 1
    requires forall j :: 0 <= j < MAX_PEERS ==> peers[j].addr != p.addr
    ensures TableOk(peers[i := p], Idle, notes, missedUp)
  {
    hide Of;
    var after := peers[i := p];
    assert Of(notes, p.addr) == [];
    forall j | 0 <= j < MAX_PEERS
      ensures PeerOk(after, Idle, notes, missedUp, j)
    {
      assert PeerOk(peers, Idle, notes, missedUp, j);
    }
    ConfiguredStill(peers, notes, i, p);
  }

  /** A notification keeps its peer's sequence alternating, and leaves the others' alone. */
  lemma SendKept(peers: seq<Peer>, ha: HaTask, ha': HaTask, notes: seq<Note>, missedUp: bool)
    requires TableOk(peers, ha, notes, missedUp) && ha.ToSend?
    requires ha' == ToSignal(ha.i, ha.state) || ha' == Told(ha.i, ha.state)
    ensures TableOk(peers, ha', notes + [Note(peers[ha.i].addr, ha.state)], missedUp)
  {
    var i, note := ha.i, Note(peers[ha.i].addr, ha.state);
    forall a
      ensures Of(notes + [note], a) == if note.addr == a then Of(notes, a) + [note.state] else Of(notes, a)
    {
      OfAppend(notes, note, a);
    }
    assert PeerOk(peers, ha, notes, missedUp, i);
    if !missedUp {
      InStepNext(Of(notes, note.addr), Announced(ha, peers, i), ha.state);
    }
    hide Of, InStep;
    forall j | 0 <= j < MAX_PEERS
      ensures PeerOk(peers, ha', notes + [note], missedUp, j)
    {
      assert PeerOk(peers, ha, notes, missedUp, j);
    }
    assert Configured(peers, note.addr);
  }

  lemma DrainKept(s: State)
    requires ControlOk(s)
    ensures ControlOk(Apply(s, Drain))
  {
    hide Of;
    if s.control == Draining && s.queue != [] {
      var note, w := s.queue[0], Apply(s, Drain);
      forall a
        ensures AppliedOk(w.applied, Of(w.received, a), a)
      {
        OfAppend(s.received, note, a);
        assert AppliedOk(s.applied, Of(s.received, a), a);
      }
      assert s.queue == [note] + s.queue[1..];
      assert s.received + s.queue == w.received + w.queue;
    }
  }

  /** Steps of the HA task keep the table part of the invariant. */
  lemma TableKept(s: State, step: Step)
    requires TableOk(s.peers, s.ha, s.notes, s.missedUp) && Enabled(s, step) && !step.Poll? && !step.Drain?
    ensures var w := Apply(s, step); TableOk(w.peers, w.ha, w.notes, w.missedUp)
  {
    hide Of, InStep, Seconds;
    match step
    case Configure(addr, now) =>
      var i := FindFree(s.peers);
      if FindPeer(s.peers, addr) == |s.peers| && i < |s.peers| {
        assert PeerOk(s.peers, s.ha, s.notes, s.missedUp, i);
        AddKept(s.peers, s.notes, s.missedUp, i, Peer(addr, 1, now));
      }
    case Hear(i, addr, now, allocOk) =>
      var p := s.peers[i];
      assert PeerOk(s.peers, s.ha, s.notes, s.missedUp, i);
      if p.addr == addr {
        if p.state != 1 {
          SetKept(s.peers, Idle, Idle, s.notes, s.missedUp, i, Peer(addr, 2, now));
        } else if allocOk {
          SetKept(s.peers, Idle, ToSend(i, 2), s.notes, s.missedUp, i, p.(last := now));
        } else {
          MissKept(s.peers, Idle, s.notes, s.missedUp);
          SetKept(s.peers, Idle, Idle, s.notes, true, i, Peer(addr, 2, now));
        }
      }
    case Expire(i, now, writable, allocOk) =>
      if Silent(s.peers[i], now, writable) && allocOk {
        SetKept(s.peers, Idle, ToSend(i, 1), s.notes, s.missedUp, i, s.peers[i].(state := 1));
      }
    case Send(ok) =>
      SendKept(s.peers, s.ha, Apply(s, step).ha, s.notes, s.missedUp);
    case Signal =>
      var i := s.ha.i;
      assert s.peers[i := s.peers[i]] == s.peers;
      SetKept(s.peers, s.ha, Told(i, s.ha.state), s.notes, s.missedUp, i, s.peers[i]);
    case Mark =>
      SetKept(s.peers, s.ha, Idle, s.notes, s.missedUp, s.ha.i, s.peers[s.ha.i].(state := 2));
  }

  lemma StepKept(s: State, step: Step)
    requires Good(s) && Enabled(s, step)
    ensures Good(Apply(s, step))
  {
    hide TableOk, Of;
    match step
    case Poll(_) =>
    case Drain => DrainKept(s);
    case Send(ok) =>
      TableKept(s, step);
      var note := Note(s.peers[s.ha.i].addr, s.ha.state);
      assert !s.lost ==> s.received + (s.queue + [note]) == s.notes + [note];
    case _ => TableKept(s, step);
  }

  // Runs

  ghost predicate IsRun(s: State, steps: seq<Step>)
    decreases |steps|
  {
    |steps| == 0 || (Enabled(s, steps[0]) && IsRun(Apply(s, steps[0]), steps[1..]))
  }

  ghost function Final(s: State, steps: seq<Step>): State
    requires IsRun(s, steps)
    decreases |steps|
  {
    if |steps| == 0 then s else Final(Apply(s, steps[0]), steps[1..])
  }

  lemma {:induction false} RunKept(s: State, steps: seq<Step>)
    requires Good(s) && IsRun(s, steps)
    ensures Good(Final(s, steps))
    decreases |steps|
  {
    hide Good, Enabled, Apply;
    if |steps| > 0 {
      StepKept(s, steps[0]);
      RunKept(Apply(s, steps[0]), steps[1..]);
    }
  }

  /** The steps lead from s to w. */
  ghost predicate Leads(s: State, steps: seq<Step>, w: State)
  {
    IsRun(s, steps) && Final(s, steps) == w
  }

  lemma {:induction false} LeadsThen(s: State, steps: seq<Step>, v: State, step: Step)
    requires Leads(s, steps, v) && Enabled(v, step)
    ensures Leads(s, steps + [step], Apply(v, step))
    decreases |steps|
  {
    hide Enabled, Apply;
    var all := steps + [step];
    if |steps| == 0 {
      var w, rest := Apply(v, step), all[1..];
      assert rest == [] && IsRun(w, rest) && Final(w, rest) == w;
    } else {
      assert all[1..] == steps[1..] + [step];
      LeadsThen(Apply(s, steps[0]), steps[1..], v, step);
    }
  }

  // What it means

  /** Unless an allocation failed, what is notified about any address is UP, DOWN, UP, ... */
  lemma Alternates(s: State, a: nat)
    requires Good(s) && !s.missedUp
    ensures forall i :: 0 <= i < |Of(s.notes, a)| ==> Of(s.notes, a)[i] == if i % 2 == 0 then 2 else 1
  {
    if Of(s.notes, a) != [] {
      var i :| 0 <= i < MAX_PEERS && s.peers[i].addr == a;
      assert PeerOk(s.peers, s.ha, s.notes, s.missedUp, i);
    }
  }

  /** Once a peer has been notified about, nothing was missed or lost and the control task's
      queue is empty, the control task has the peer's state, unless and only unless the HA
      task is just then in the middle of a change that it has written and not sent, or sent
      and not written. */
  lemma ControlKnows(s: State, i: nat)
    requires Good(s) && i < MAX_PEERS && s.peers[i].addr != 0
    requires !s.missedUp && !s.lost && s.queue == [] && Of(s.notes, s.peers[i].addr) != []
    ensures s.peers[i].addr in s.applied
    ensures s.applied[s.peers[i].addr] == s.peers[i].state <==> !Ahead(s.ha, i)
  {
    hide Of, InStep;
    assert s.received == s.notes && AppliedOk(s.applied, Of(s.received, s.peers[i].addr), s.peers[i].addr);
    assert PeerOk(s.peers, s.ha, s.notes, s.missedUp, i);
    InStepLast(Of(s.notes, s.peers[i].addr), Announced(s.ha, s.peers, i));
  }

  /** Messages are queued, no event is pending or on its way, and nobody is emptying the
      queue. */
  ghost predicate Stranded(s: State)
  {
    s.queue != [] && !s.msgEvent && s.control == Polling && !s.ha.ToSignal?
  }

  /** Messages get stranded exactly when the control task takes their event together with a
      timer event, and stay so exactly until the next message is sent. */
  lemma StrandedWhen(s: State, step: Step)
    requires Enabled(s, step)
    ensures Stranded(Apply(s, step)) <==>
      if Stranded(s) then step != Send(true)
      else step == Poll(true) && s.control == Polling && s.msgEvent && s.queue != [] && !s.ha.ToSignal?
  {
    hide FindFree, FindPeer, Silent;
  }

  /** So stranded messages are not seen to, however often the control task looks. */
  lemma {:induction false} StrandedUntilNext(s: State, steps: seq<Step>)
    requires IsRun(s, steps) && Stranded(s) && Send(true) !in steps
    ensures Stranded(Final(s, steps)) && s.queue == Final(s, steps).queue && s.applied == Final(s, steps).applied
    decreases |steps|
  {
    if |steps| > 0 {
      hide FindFree, FindPeer, Silent;
      assert steps[0] in steps && forall step :: step in steps[1..] ==> step in steps;
      StrandedWhen(s, steps[0]);
      StrandedUntilNext(Apply(s, steps[0]), steps[1..]);
    }
  }

  /** A new peer is heard of, and the control task happens to have a timer event when it
      looks: the HA task has the peer active and is done, the control task knows nothing. */
  lemma CanBeStranded(s: State, addr: nat, now: int) returns (steps: seq<Step>, w: State)
    requires Initial(s) && addr != 0
    ensures Leads(s, steps, w) && Stranded(w) && w.ha == Idle
    ensures |w.peers| == MAX_PEERS && w.peers[0] == Peer(addr, 2, now) && w.applied == map[]
  {
    assert FindPeer(s.peers, addr) == MAX_PEERS && FindFree(s.peers) == 0;
    hide FindPeer, FindFree, Silent, IsRun, Final;
    StaysPut(s);
    LeadsThen(s, [], s, Configure(addr, now));
    steps, w := [] + [Configure(addr, now)], Apply(s, Configure(addr, now));
    LeadsThen(s, steps, w, Hear(0, addr, now, true));
    steps, w := steps + [Hear(0, addr, now, true)], Apply(w, Hear(0, addr, now, true));
    LeadsThen(s, steps, w, Send(true));
    steps, w := steps + [Send(true)], Apply(w, Send(true));
    LeadsThen(s, steps, w, Signal);
    steps, w := steps + [Signal], Apply(w, Signal);
    LeadsThen(s, steps, w, Mark);
    steps, w := steps + [Mark], Apply(w, Mark);
    LeadsThen(s, steps, w, Poll(true));
    steps, w := steps + [Poll(true)], Apply(w, Poll(true));
  }

  lemma StaysPut(s: State)
    ensures Leads(s, [], s)
  {
  }
}
