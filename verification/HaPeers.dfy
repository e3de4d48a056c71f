/** The HA task's functions on its peer table, with the control task coming in wherever it
    can (dgwy_vlan_ha_task.c, dgwy_ctrl_task.c). Every operation is proved to be a run of
    the model. */
module HaPeers {
  import opened HaModel

  /** What the control task may do next; a move it cannot make where it is, it does not. */
  datatype Move = Polls(timer: bool) | Drains

  /** ... as steps. */
  ghost function Controls(moves: seq<Move>): (steps: seq<Step>)
    ensures |steps| == |moves|
    ensures forall j :: 0 <= j < |moves| ==> steps[j] == if moves[j].Polls? then Poll(moves[j].timer) else Drain
  {
    if |moves| == 0 then []
    else
      var m := moves[|moves| - 1];
      Controls(moves[..|moves| - 1]) + match m case Polls(timer) => [Poll(timer)] case Drains => [Drain]
  }

  lemma ControlsOn(moves: seq<Move>, i: nat)
    requires i < |moves|
    ensures Controls(moves[..i + 1]) == Controls(moves[..i]) + Controls([moves[i]])
  {
  }

  /** The steps of a notification, with the control task's before each of them. */
  ghost function Telling(value: nat, sendOk: bool, gap: seq<seq<Move>>): seq<Step>
    requires |gap| == 3
  {
    Controls(gap[0]) + [Send(sendOk)]
    + (if sendOk then Controls(gap[1]) + [Signal] else []) + (if value == 2 then Controls(gap[2]) + [Mark] else [])
  }

  /** The control task leaves the HA task and its table alone. */
  ghost predicate SameHa(s: State, w: State)
  {
    w.peers == s.peers && w.ha == s.ha && w.notes == s.notes && w.missedUp == s.missedUp && w.lost == s.lost
  }

  /** From s to w the HA task has tried to send exactly `notes`. */
  ghost predicate Tells(s: State, w: State, notes: seq<Note>, failed: bool)
  {
    w.notes == s.notes + notes && w.lost == (s.lost || failed)
  }

  /** ... `sent` are queued, and the control task has done nothing meanwhile. */
  ghost predicate Undisturbed(s: State, w: State, sent: seq<Note>)
  {
    && w.queue == s.queue + sent && w.msgEvent == (s.msgEvent || sent != [])
    && w.applied == s.applied && w.received == s.received && w.control == s.control
  }

  lemma TellsOn(s: State, v: State, w: State, a: seq<Note>, b: seq<Note>, f: bool, g: bool)
    requires Tells(s, v, a, f) && Tells(v, w, b, g)
    ensures Tells(s, w, a + b, f || g)
  {
  }

  lemma UndisturbedOn(s: State, v: State, w: State, a: seq<Note>, b: seq<Note>)
    requires Undisturbed(s, v, a) && Undisturbed(v, w, b)
    ensures Undisturbed(s, w, a + b)
  {
  }

  lemma NothingTold(s: State)
    ensures Tells(s, s, [], false) && Undisturbed(s, s, [])
  {
  }

  /** A notification is queued, signalled if that worked, and an UP then written down; the
      control task comes in before each of the three. */
  lemma TellingIs(value: nat, sendOk: bool, gap: seq<seq<Move>>)
    requires |gap| == 3
    ensures Telling(value, sendOk, gap) == Controls(gap[0]) + [Send(sendOk)]
      + (if sendOk then Controls(gap[1]) + [Signal] else []) + (if value == 2 then Controls(gap[2]) + [Mark] else [])
  {
  }

  /** What a message from addr makes of a slot. */
  function HeardSlot(p: Peer, addr: nat, now: int): Peer
  {
    if p.addr == addr then Peer(addr, 2, now) else p
  }

  /** ... and what it has the HA task say of the first n slots. */
  ghost function Ups(peers: seq<Peer>, addr: nat, n: nat): seq<Note>
    requires n <= |peers|
  {
    if n == 0 then []
    else Ups(peers, addr, n - 1) + if peers[n - 1].addr == addr && peers[n - 1].state == 1 then [Note(addr, 2)] else []
  }

  /** What a peer's turn in keep_alive_peers finds: the processor clock, whether its connection
      is up, and whether an allocation and a send succeed. */
  datatype Turn = Turn(now: int, writable: bool, allocOk: bool, sendOk: bool)

  /** Whether it has the HA task say that the peer is down. */
  predicate GoesDown(p: Peer, turn: Turn)
  {
    Silent(p, turn.now, turn.writable) && turn.allocOk
  }

  /** What it says of the first n slots ... */
  ghost function Downs(peers: seq<Peer>, turns: seq<Turn>, n: nat): seq<Note>
    requires n <= |peers| == |turns|
  {
    if n == 0 then []
    else Downs(peers, turns, n - 1) + if GoesDown(peers[n - 1], turns[n - 1]) then [Note(peers[n - 1].addr, 1)] else []
  }

  /** ... and what of that is sent. */
  ghost function SentDowns(peers: seq<Peer>, turns: seq<Turn>, n: nat): (sent: seq<Note>)
    requires n <= |peers| == |turns|
    ensures |sent| <= |Downs(peers, turns, n)|
  {
    if n == 0 then []
    else
      SentDowns(peers, turns, n - 1) +
      if GoesDown(peers[n - 1], turns[n - 1]) && turns[n - 1].sendOk then [Note(peers[n - 1].addr, 1)] else []
  }

  /** From s to w the HA task has dealt with a message from addr at the first n slots. */
  ghost predicate HeardTo(s: State, w: State, addr: nat, allocOk: bool, sendOk: bool, quiet: bool, n: nat)
  {
    n <= |s.peers| &&
    var ups := Ups(s.peers, addr, n); var notes := if allocOk then ups else [];
    && w.missedUp == (s.missedUp || (ups != [] && !allocOk))
    && Tells(s, w, notes, notes != [] && !sendOk)
    && (quiet ==> Undisturbed(s, w, if sendOk then notes else []))
  }

  lemma HeardNext(s: State, v: State, w: State, addr: nat, allocOk: bool, sendOk: bool, quiet: bool, n: nat)
    requires HeardTo(s, v, addr, allocOk, sendOk, quiet, n) && n < |s.peers| && n < |v.peers| && v.peers[n] == s.peers[n]
    requires var up := v.peers[n].addr == addr && v.peers[n].state == 1;
             var notes := if up && allocOk then [Note(addr, 2)] else [];
             && w.missedUp == (v.missedUp || (up && !allocOk))
             && Tells(v, w, notes, notes != [] && !sendOk)
             && (quiet ==> Undisturbed(v, w, if sendOk then notes else []))
    ensures HeardTo(s, w, addr, allocOk, sendOk, quiet, n + 1)
  {
    hide Tells, Undisturbed;
    var before := if allocOk then Ups(s.peers, addr, n) else [];
    var notes := if s.peers[n].addr == addr && s.peers[n].state == 1 && allocOk then [Note(addr, 2)] else [];
    TellsOn(s, v, w, before, notes, before != [] && !sendOk, notes != [] && !sendOk);
    if quiet {
      UndisturbedOn(s, v, w, if sendOk then before else [], if sendOk then notes else []);
    }
  }

  /** ... has given the first n peers their turn of time-outs. */
  ghost predicate TimedTo(s: State, w: State, turns: seq<Turn>, quiet: bool, n: nat)
  {
    n <= |s.peers| == |turns| &&
    var notes, sent := Downs(s.peers, turns, n), SentDowns(s.peers, turns, n);
    Tells(s, w, notes, |sent| < |notes|) && (quiet ==> Undisturbed(s, w, sent))
  }

  lemma TimedNext(s: State, v: State, w: State, turns: seq<Turn>, quiet: bool, n: nat)
    requires TimedTo(s, v, turns, quiet, n) && n < |s.peers| && n < |v.peers| && v.peers[n] == s.peers[n]
    requires var down := GoesDown(v.peers[n], turns[n]);
             var notes := if down then [Note(v.peers[n].addr, 1)] else [];
             && Tells(v, w, notes, down && !turns[n].sendOk)
             && (quiet ==> Undisturbed(v, w, if turns[n].sendOk then notes else []))
    ensures TimedTo(s, w, turns, quiet, n + 1)
  {
    hide Tells, Undisturbed, GoesDown;
    var notes := if GoesDown(s.peers[n], turns[n]) then [Note(s.peers[n].addr, 1)] else [];
    var sent := if turns[n].sendOk then notes else [];
    var before, sentBefore := Downs(s.peers, turns, n), SentDowns(s.peers, turns, n);
    TellsOn(s, v, w, before, notes, |sentBefore| < |before|, notes != [] && !turns[n].sendOk);
    if quiet {
      UndisturbedOn(s, v, w, sentBefore, sent);
    }
    assert Downs(s.peers, turns, n + 1) == before + notes && SentDowns(s.peers, turns, n + 1) == sentBefore + sent;
  }

  ghost predicate Quiet(gaps: seq<seq<seq<Move>>>)
  {
    forall g :: g in gaps ==> g == [[], [], []]
  }

  /** The states applied after the control task has taken the notes, in order. */
  ghost function AppliedAll(applied: map<nat, nat>, notes: seq<Note>): map<nat, nat>
    decreases |notes|
  {
    if |notes| == 0 then applied else AppliedAll(applied[notes[0].addr := notes[0].state], notes[1..])
  }

  /** Each address has the state of its last note ... */
  lemma {:induction false} AppliedLast(applied: map<nat, nat>, notes: seq<Note>, j: nat)
    requires j < |notes| && forall k :: j < k < |notes| ==> notes[k].addr != notes[j].addr
    ensures var r, a := AppliedAll(applied, notes), notes[j].addr; a in r && r[a] == notes[j].state
    decreases |notes|
  {
    var next, rest := applied[notes[0].addr := notes[0].state], notes[1..];
    if j == 0 {
      AppliedOthers(next, rest, notes[0].addr);
    } else {
      AppliedLast(next, rest, j - 1);
    }
  }

  /** ... and those without one what they had. */
  lemma {:induction false} AppliedOthers(applied: map<nat, nat>, notes: seq<Note>, a: nat)
    requires forall j :: 0 <= j < |notes| ==> notes[j].addr != a
    ensures var r := AppliedAll(applied, notes); (a in r <==> a in applied) && (a in r ==> r[a] == applied[a])
    decreases |notes|
  {
    if |notes| > 0 {
      AppliedOthers(applied[notes[0].addr := notes[0].state], notes[1..], a);
    }
  }

  class Gateway {
    const peers: array<Peer>
    var queue: seq<Note>
    var msgEvent: bool
    var applied: map<nat, nat>
    var draining: bool         // the control task is in its inner loop
    ghost var state: State

    ghost predicate Represents()
      reads this, peers
    {
      && peers[..] == state.peers && queue == state.queue && msgEvent == state.msgEvent && applied == state.applied
      && draining == state.control.Draining?
    }

    ghost predicate Valid()
      reads this, peers
    {
      Represents() && Good(state)
    }

    constructor ()
      ensures Valid() && fresh(peers) && peers.Length == 2 && Initial(state)
    {
      peers := new Peer[MAX_PEERS](i => Peer(0, 0, 0));
      queue, msgEvent, applied, draining := [], false, map[], false;
      state := State(seq(MAX_PEERS, _ => Peer(0, 0, 0)), [], false, map[], Idle, Polling, [], [], false, false);
      new;
      InitialIsGood(state);
      assert peers[..] == state.peers;
    }

    lemma Slots()
      requires Valid()
      ensures peers.Length == |state.peers| == MAX_PEERS && forall i :: 0 <= i < MAX_PEERS ==> peers[i] == state.peers[i]
    {
      assert |peers[..]| == MAX_PEERS;
      assert forall i :: 0 <= i < MAX_PEERS ==> peers[i] == peers[..][i];
    }

    /** update_peers_table; connecting to the peer is left out. It fails exactly when the
        peer is not in the table and no slot is free. */
    method AddPeer(peer: nat, now: int) returns (rc: int)
      requires Valid() && state.ha == Idle
      modifies peers, this`state
      ensures Valid() && state == Apply(old(state), Configure(peer, now))
      ensures var known, free := FindPeer(old(state).peers, peer) < MAX_PEERS, FindFree(old(state).peers) < MAX_PEERS;
              && rc == (if known || free then 0 else -1)
              && (known || !free ==> state == old(state))
              && (!known && free ==> state.peers == old(state).peers[FindFree(old(state).peers) := Peer(peer, 1, now)])
    {
      hide Good;
      Slots();
      StepKept(state, Configure(peer, now));
      var empty := -1;
      for i := 0 to MAX_PEERS
        invariant -1 <= empty < i && (empty >= 0 ==> peers[empty].state == 0)
        invariant forall j :: 0 <= j < i && (empty < 0 || j < empty) ==> peers[j].state != 0
        invariant forall j :: 0 <= j < i ==> peers[j].addr != peer
      {
        if peer == peers[i].addr {
          return 0;
        }
        if empty == -1 && peers[i].state == 0 {
          empty := i;
        }
      }
      if empty < 0 {
        return -1;
      }
      peers[empty] := Peer(peer, 1, now);
      assert peers[..] == state.peers[empty := Peer(peer, 1, now)];
      state := Apply(state, Configure(peer, now));
      rc := 0;
    }

    // The steps of a notification

    /** queue_send to the control task */
    method SendNote(i: nat, value: nat, ok: bool)
      requires Valid() && state.ha == ToSend(i, value)
      modifies this`queue, this`state
      ensures Valid() && i < |old(state).peers| && state == Apply(old(state), Send(ok))
      ensures var note := Note(old(state).peers[i].addr, value);
              && queue == old(queue) + (if ok then [note] else []) && state.notes == old(state).notes + [note]
              && state.lost == (old(state).lost || !ok)
    {
      hide Good;
      HaSlot(state);
      Slots();
      StepKept(state, Send(ok));
      if ok {
        queue := queue + [Note(peers[i].addr, value)];
      }
      state := Apply(state, Send(ok));
    }

    /** send_event to the control task */
    method RaiseEvent()
      requires Valid() && state.ha.ToSignal?
      modifies this`msgEvent, this`state
      ensures Valid() && state == Apply(old(state), Signal) && msgEvent
    {
      hide Good;
      StepKept(state, Signal);
      msgEvent := true;
      state := Apply(state, Signal);
    }

    /** The state an UP leaves behind. */
    method WriteState(i: nat)
      requires Valid() && state.ha == ToMark(i)
      modifies peers, this`state
      ensures Valid() && i < |old(state).peers| && state == Apply(old(state), Mark)
      ensures var p := old(state).peers[i]; state.peers == old(state).peers[i := Peer(p.addr, 2, p.last)]
    {
      hide Good;
      HaSlot(state);
      Slots();
      StepKept(state, Mark);
      peers[i] := peers[i].(state := 2);
      state := Apply(state, Mark);
      assert peers[..] == state.peers;
    }

    // The control task

    /** recv_event: it takes both event bits, but goes on to its messages only when there is
        no timer event. */
    method PollEvents(timer: bool)
      requires Valid() && !draining
      modifies this`msgEvent, this`draining, this`state
      ensures Valid() && state == Apply(old(state), Poll(timer))
      ensures draining <==> old(msgEvent) && !timer
      ensures !msgEvent && state == old(state).(msgEvent := false, control := if draining then Draining else Polling)
    {
      hide Good;
      StepKept(state, Poll(timer));
      state := Apply(state, Poll(timer));
      if timer {
        msgEvent := false;
      } else if msgEvent {
        msgEvent, draining := false, true;
      }
    }

    /** One queue_receive of the inner loop: the oldest message is applied. */
    method DrainOne()
      requires Valid() && draining
      modifies this`queue, this`applied, this`draining, this`state
      ensures Valid() && state == Apply(old(state), Drain)
      ensures if old(queue) == [] then state == old(state).(control := Polling)
              else queue == old(queue)[1..] && state.received == old(state).received + [old(queue)[0]]
                   && applied == old(applied)[old(queue)[0].addr := old(queue)[0].state]
    {
      hide Good;
      StepKept(state, Drain);
      state := Apply(state, Drain);
      if queue == [] {
        draining := false;
      } else {
        applied := applied[queue[0].addr := queue[0].state];
        queue := queue[1..];
      }
    }

    /** Anything the control task may do at one point. */
    method Others(moves: seq<Move>, ghost s: State, ghost steps: seq<Step>) returns (ghost steps': seq<Step>)
      requires Valid() && Leads(s, steps, state)
      modifies this
      ensures Valid() && Leads(s, steps', state) && SameHa(old(state), state)
      ensures steps' == steps + Controls(moves)
      ensures moves == [] ==> state == old(state)
    {
      hide Good, IsRun, Final, Controls;
      steps' := steps;
      for i := 0 to |moves|
        invariant Valid() && Leads(s, steps', state) && SameHa(old(state), state)
        invariant steps' == steps + Controls(moves[..i])
        invariant i == 0 ==> state == old(state)
      {
        ControlsOn(moves, i);
        match moves[i]
        case Polls(timer) =>
          LeadsThen(s, steps', state, Poll(timer));
          if !draining {
            PollEvents(timer);
          }
          steps' := steps' + [Poll(timer)];
        case Drains =>
          LeadsThen(s, steps', state, Drain);
          if draining {
            DrainOne();
          }
          steps' := steps' + [Drain];
      }
      assert moves[..|moves|] == moves;
    }

    /** The control task's turn when nobody comes in: its queue is emptied, in order, exactly
        when a message event came without a timer event; one that comes with a timer event is
        gone, and the queue is as it was. */
    method ControlPoll(timer: bool)
      requires Valid() && !draining
      modifies this
      ensures Valid() && !draining && !msgEvent && SameHa(old(state), state)
      ensures if old(msgEvent) && !timer
              then queue == [] && state.received == old(state).received + old(queue)
                   && applied == AppliedAll(old(applied), old(queue))
              else state == old(state).(msgEvent := false)
    {
      hide Good;
      PollEvents(timer);
      if draining {
        while queue != []
          invariant Valid() && draining && !msgEvent && SameHa(old(state), state)
          invariant state.received + queue == old(state).received + old(queue)
          invariant AppliedAll(applied, queue) == AppliedAll(old(applied), old(queue))
          decreases |queue|
        {
          assert queue == [queue[0]] + queue[1..];
          DrainOne();
        }
        DrainOne();
      }
    }
  
    // The HA task

    /** queue_send and send_event */
    method Deliver(i: nat, value: nat, sendOk: bool, gaps: seq<seq<Move>>, ghost s: State, ghost steps: seq<Step>)
      returns (ghost steps': seq<Step>)
      requires Valid() && state.ha == ToSend(i, value) && |gaps| == 3 && Leads(s, steps, state)
      modifies this
      ensures Valid() && state.ha == Told(i, value) && Leads(s, steps', state) && i < |old(state).peers|
      ensures state.missedUp == old(state).missedUp && state.peers == old(state).peers
      ensures var note := Note(state.peers[i].addr, value);
              && Tells(old(state), state, [note], !sendOk)
              && (gaps == [[], [], []] ==> Undisturbed(old(state), state, if sendOk then [note] else []))
      ensures steps' == steps + (Controls(gaps[0]) + [Send(sendOk)] + if sendOk then Controls(gaps[1]) + [Signal] else [])
    {
      hide Good, IsRun, Final, Controls;
      HaSlot(state);
      steps' := Others(gaps[0], s, steps);
      LeadsThen(s, steps', state, Send(sendOk));
      SendNote(i, value, sendOk);
      steps' := steps' + [Send(sendOk)];
      if sendOk {
        steps' := Others(gaps[1], s, steps');
        LeadsThen(s, steps', state, Signal);
        RaiseEvent();
        steps' := steps' + [Signal];
      }
    }

    /** From queue_send to the end of a notification. */
    method Notify(i: nat, value: nat, sendOk: bool, gaps: seq<seq<Move>>, ghost s: State, ghost steps: seq<Step>)
      returns (ghost steps': seq<Step>)
      requires Valid() && state.ha == ToSend(i, value) && |gaps| == 3 && Leads(s, steps, state)
      modifies this, peers
      ensures Valid() && state.ha == Idle && Leads(s, steps', state) && i < |old(state).peers|
      ensures state.missedUp == old(state).missedUp
      ensures var p := old(state).peers[i];
              && state.peers == old(state).peers[i := if value == 2 then p.(state := 2) else p]
              && Tells(old(state), state, [Note(p.addr, value)], !sendOk)
              && (gaps == [[], [], []] ==> Undisturbed(old(state), state, if sendOk then [Note(p.addr, value)] else []))
      ensures steps' == steps + Telling(value, sendOk, gaps)
    {
      hide Good, IsRun, Final, Controls;
      HaSlot(state);
      ghost var v := state;
      assert v.peers[i := v.peers[i]] == v.peers;
      ghost var sent := Controls(gaps[0]) + [Send(sendOk)] + if sendOk then Controls(gaps[1]) + [Signal] else [];
      steps' := Deliver(i, value, sendOk, gaps, s, steps);
      assert steps' == steps + sent;
      if value == 2 {
        steps' := Others(gaps[2], s, steps');
        LeadsThen(s, steps', state, Mark);
        WriteState(i);
        steps' := steps' + [Mark];
        assert steps' == steps + (sent + (Controls(gaps[2]) + [Mark]));
      } else {
        assert sent + [] == sent;
      }
    }

    /** What a message does to a slot before anything is told. */
    method Meet(i: nat, addr: nat, now: int, allocOk: bool) returns (tell: bool)
      requires Valid() && state.ha == Idle && i < MAX_PEERS
      modifies peers, this`state
      ensures Valid() && |old(state).peers| == MAX_PEERS && state == Apply(old(state), Hear(i, addr, now, allocOk))
      ensures var p := old(state).peers[i];
              && tell == (p.addr == addr && p.state == 1 && allocOk)
              && state.missedUp == (old(state).missedUp || (p.addr == addr && p.state == 1 && !allocOk))
              && state.peers == old(state).peers[i :=
                   if tell then Peer(addr, 1, now) else if p.addr == addr then Peer(addr, 2, now) else p]
              && Tells(old(state), state, [], false) && Undisturbed(old(state), state, [])
              && state.ha == if tell then ToSend(i, 2) else Idle
    {
      hide Good, FindPeer, FindFree, Silent;
      Slots();
      ghost var v, step := state, Hear(i, addr, now, allocOk);
      StepKept(v, step);
      assert v.peers[i := v.peers[i]] == v.peers;
      tell := false;
      if addr == peers[i].addr {
        if peers[i].state == 1 && allocOk {
          tell := true;
          peers[i] := peers[i].(last := now);
        } else {
          peers[i] := Peer(addr, 2, now);
        }
      }
      state := Apply(v, step);
      assert peers[..] == state.peers;
    }

    /** update_peer_clock at one slot */
    method HearSlot(i: nat, addr: nat, now: int, allocOk: bool, sendOk: bool, gaps: seq<seq<Move>>,
                    ghost s: State, ghost steps: seq<Step>)
      returns (ghost steps': seq<Step>)
      requires Valid() && state.ha == Idle && i < MAX_PEERS && |gaps| == 3 && Leads(s, steps, state)
      modifies this, peers
      ensures Valid() && state.ha == Idle && Leads(s, steps', state) && |old(state).peers| == MAX_PEERS
      ensures var p := old(state).peers[i];
              var up := p.addr == addr && p.state == 1;
              var notes := if up && allocOk then [Note(addr, 2)] else [];
              && state.peers == old(state).peers[i := HeardSlot(p, addr, now)]
              && state.missedUp == (old(state).missedUp || (up && !allocOk))
              && Tells(old(state), state, notes, notes != [] && !sendOk)
              && (gaps == [[], [], []] ==> Undisturbed(old(state), state, if sendOk then notes else []))
              && steps' == steps + ([Hear(i, addr, now, allocOk)] + if up && allocOk then Telling(2, sendOk, gaps) else [])
    {
      hide Good, IsRun, Final, Controls, Telling, Apply;
      Slots();
      ghost var v := state;
      LeadsThen(s, steps, v, Hear(i, addr, now, allocOk));
      steps' := steps + [Hear(i, addr, now, allocOk)];
      var tell := Meet(i, addr, now, allocOk);
      if tell {
        steps' := Notify(i, 2, sendOk, gaps, s, steps');
        assert v.peers[i := Peer(addr, 1, now)][i := Peer(addr, 2, now)] == v.peers[i := Peer(addr, 2, now)];
      }
    }

    /** update_peer_clock: exactly the slots with the address become active with the new
        time, and exactly those that were inactive are told of. */
    method Heard(addr: nat, now: int, allocOk: bool, sendOk: bool, gaps: seq<seq<seq<Move>>>)
      returns (ghost steps: seq<Step>)
      requires Valid() && state.ha == Idle && |gaps| == MAX_PEERS && forall g :: g in gaps ==> |g| == 3
      modifies this, peers
      ensures Valid() && state.ha == Idle && Leads(old(state), steps, state)
      ensures |state.peers| == |old(state).peers| == MAX_PEERS
      ensures forall i :: 0 <= i < MAX_PEERS ==> state.peers[i] == HeardSlot(old(state).peers[i], addr, now)
      ensures HeardTo(old(state), state, addr, allocOk, sendOk, Quiet(gaps), MAX_PEERS)
      ensures |old(state).peers| == |state.peers| == 2
      ensures forall i :: 0 <= i < 2 ==>
        var p := old(state).peers[i]; state.peers[i] == if p.addr == addr then Peer(addr, 2, now) else p
      ensures var p, q := old(state).peers[0], old(state).peers[1];
        var ups := (if p.addr == addr && p.state == 1 then [Note(addr, 2)] else [])
                   + (if q.addr == addr && q.state == 1 then [Note(addr, 2)] else []);
        && state.notes == old(state).notes + (if allocOk then ups else [])
        && state.missedUp == (old(state).missedUp || (ups != [] && !allocOk))
        && state.lost == (old(state).lost || (ups != [] && allocOk && !sendOk))
      ensures var p, q := old(state).peers[0], old(state).peers[1];
        steps ==
        ([Hear(0, addr, now, allocOk)]
         + if p.addr == addr && p.state == 1 && allocOk then Telling(2, sendOk, gaps[0]) else [])
        + ([Hear(1, addr, now, allocOk)]
           + if q.addr == addr && q.state == 1 && allocOk then Telling(2, sendOk, gaps[1]) else [])
    {
      hide Good, Leads, HeardTo, Tells, Undisturbed, Gateway.Represents, Telling;
      Slots();
      ghost var s, quiet := state, Quiet(gaps);
      StaysPut(s);
      NothingHeard(s, addr, allocOk, sendOk, quiet);
      steps := [];
      for i := 0 to MAX_PEERS
        invariant Valid() && state.ha == Idle && Leads(s, steps, state) && |state.peers| == MAX_PEERS
        invariant forall j :: 0 <= j < i ==> state.peers[j] == HeardSlot(s.peers[j], addr, now)
        invariant forall j :: i <= j < MAX_PEERS ==> state.peers[j] == s.peers[j]
        invariant HeardTo(s, state, addr, allocOk, sendOk, quiet, i)
        invariant steps == HeardSteps(s.peers, addr, now, allocOk, sendOk, gaps, i)
      {
        assert gaps[i] in gaps;
        ghost var v := state;
        steps := HearSlot(i, addr, now, allocOk, sendOk, gaps[i], s, steps);
        HeardNext(s, v, state, addr, allocOk, sendOk, quiet, i);
      }
      HeardBoth(s, state, addr, allocOk, sendOk, quiet);
      HeardStepsBoth(s.peers, addr, now, allocOk, sendOk, gaps);
    }

    /** What a turn does to a slot before anything is told. */
    method Judge(i: nat, turn: Turn) returns (tell: bool)
      requires Valid() && state.ha == Idle && i < MAX_PEERS
      modifies peers, this`state
      ensures Valid() && |old(state).peers| == MAX_PEERS
      ensures state == Apply(old(state), Expire(i, turn.now, turn.writable, turn.allocOk))
      ensures var p := old(state).peers[i];
              && tell == GoesDown(p, turn)
              && tell == (p.addr != 0 && turn.writable && p.state == 2 && turn.allocOk && turn.now - p.last >= 31_000_000)
              && state.missedUp == old(state).missedUp
              && state.peers == old(state).peers[i := if tell then Peer(p.addr, 1, p.last) else p]
              && Tells(old(state), state, [], false) && Undisturbed(old(state), state, [])
              && state.ha == if tell then ToSend(i, 1) else Idle
    {
      hide Good, FindPeer, FindFree;
      Slots();
      ghost var v, step := state, Expire(i, turn.now, turn.writable, turn.allocOk);
      StepKept(v, step);
      assert v.peers[i := v.peers[i]] == v.peers;
      tell := false;
      if peers[i].addr != 0 && turn.writable && peers[i].state == 2 {
        if Seconds(turn.now - peers[i].last) > TIMEOUT && turn.allocOk {
          tell := true;
          peers[i] := peers[i].(state := 1);
        }
      }
      state := Apply(v, step);
      assert peers[..] == state.peers;
    }

    /** The time-out part of keep_alive_peers at one slot */
    method ExpireSlot(i: nat, turn: Turn, gaps: seq<seq<Move>>, ghost s: State, ghost steps: seq<Step>)
      returns (ghost steps': seq<Step>)
      requires Valid() && state.ha == Idle && i < MAX_PEERS && |gaps| == 3 && Leads(s, steps, state)
      modifies this, peers
      ensures Valid() && state.ha == Idle && Leads(s, steps', state) && |old(state).peers| == MAX_PEERS
      ensures state.missedUp == old(state).missedUp
      ensures var p := old(state).peers[i];
              var down := GoesDown(p, turn);
              var notes := if down then [Note(p.addr, 1)] else [];
              && down == (p.addr != 0 && turn.writable && p.state == 2 && turn.allocOk && turn.now - p.last >= 31_000_000)
              && state.peers == old(state).peers[i := if down then p.(state := 1) else p]
              && Tells(old(state), state, notes, down && !turn.sendOk)
              && (gaps == [[], [], []] ==> Undisturbed(old(state), state, if turn.sendOk then notes else []))
              && steps' == steps + ([Expire(i, turn.now, turn.writable, turn.allocOk)]
                                    + if down then Telling(1, turn.sendOk, gaps) else [])
    {
      hide Good, IsRun, Final, GoesDown, Controls, Telling, Apply;
      Slots();
      ghost var v, step := state, Expire(i, turn.now, turn.writable, turn.allocOk);
      LeadsThen(s, steps, v, step);
      steps' := steps + [step];
      var tell := Judge(i, turn);
      if tell {
        steps' := Notify(i, 1, turn.sendOk, gaps, s, steps');
        ghost var p := v.peers[i].(state := 1);
        assert v.peers[i := p][i := p] == v.peers[i := p];
      }
    }

    /** The time-out part of keep_alive_peers: exactly the connected active peers silent for
        more than 30 seconds of the clock it reads become inactive and are told of, unless
        there is no memory to tell. */
    method TimeOut(turns: seq<Turn>, gaps: seq<seq<seq<Move>>>) returns (ghost steps: seq<Step>)
      requires Valid() && state.ha == Idle && |turns| == |gaps| == MAX_PEERS && forall g :: g in gaps ==> |g| == 3
      modifies this, peers
      ensures Valid() && state.ha == Idle && Leads(old(state), steps, state)
      ensures |state.peers| == |old(state).peers| == MAX_PEERS && state.missedUp == old(state).missedUp
      ensures forall i :: 0 <= i < MAX_PEERS ==>
        var p := old(state).peers[i]; state.peers[i] == if GoesDown(p, turns[i]) then p.(state := 1) else p
      ensures TimedTo(old(state), state, turns, Quiet(gaps), MAX_PEERS)
      ensures |old(state).peers| == |state.peers| == 2
      ensures forall i :: 0 <= i < 2 ==>
        var p := old(state).peers[i];
        var down := p.addr != 0 && turns[i].writable && p.state == 2 && turns[i].allocOk && turns[i].now - p.last >= 31_000_000;
        state.peers[i] == if down then Peer(p.addr, 1, p.last) else p
      ensures var p, q, t, u := old(state).peers[0], old(state).peers[1], turns[0], turns[1];
        var a := p.addr != 0 && t.writable && p.state == 2 && t.allocOk && t.now - p.last >= 31_000_000;
        var b := q.addr != 0 && u.writable && q.state == 2 && u.allocOk && u.now - q.last >= 31_000_000;
        && state.notes == old(state).notes + ((if a then [Note(p.addr, 1)] else []) + (if b then [Note(q.addr, 1)] else []))
        && state.lost == (old(state).lost || (a && !t.sendOk) || (b && !u.sendOk))
        && steps == ([Expire(0, t.now, t.writable, t.allocOk)] + if a then Telling(1, t.sendOk, gaps[0]) else [])
                  + ([Expire(1, u.now, u.writable, u.allocOk)] + if b then Telling(1, u.sendOk, gaps[1]) else [])
    {
      hide Good, Leads, GoesDown, TimedTo, Tells, Undisturbed, Gateway.Represents, Telling;
      Slots();
      ghost var s, quiet := state, Quiet(gaps);
      StaysPut(s);
      NothingTimed(s, turns, quiet);
      steps := [];
      for i := 0 to MAX_PEERS
        invariant Valid() && state.ha == Idle && Leads(s, steps, state) && |state.peers| == MAX_PEERS
        invariant forall j :: 0 <= j < i ==>
          state.peers[j] == if GoesDown(s.peers[j], turns[j]) then s.peers[j].(state := 1) else s.peers[j]
        invariant forall j :: i <= j < MAX_PEERS ==> state.peers[j] == s.peers[j]
        invariant state.missedUp == s.missedUp && TimedTo(s, state, turns, quiet, i)
        invariant steps == TimedSteps(s.peers, turns, gaps, i)
      {
        assert gaps[i] in gaps;
        ghost var v := state;
        steps := ExpireSlot(i, turns[i], gaps[i], s, steps);
        TimedNext(s, v, state, turns, quiet, i);
      }
      TimedBoth(s, state, turns, quiet);
      TimedStepsBoth(s.peers, turns, gaps);
      DownAfter(s.peers[0], turns[0]);
      DownAfter(s.peers[1], turns[1]);
    }
  }

  /** The steps of update_peer_clock at one slot. */
  ghost function MeetSteps(i: nat, p: Peer, addr: nat, now: int, allocOk: bool, sendOk: bool, gap: seq<seq<Move>>): seq<Step>
    requires |gap| == 3
  {
    [Hear(i, addr, now, allocOk)] + if p.addr == addr && p.state == 1 && allocOk then Telling(2, sendOk, gap) else []
  }

  /** ... at the first n slots. */
  ghost function HeardSteps(peers: seq<Peer>, addr: nat, now: int, allocOk: bool, sendOk: bool,
                            gaps: seq<seq<seq<Move>>>, n: nat): seq<Step>
    requires n <= |peers| == |gaps| && forall g :: g in gaps ==> |g| == 3
  {
    if n == 0 then []
    else
      HeardSteps(peers, addr, now, allocOk, sendOk, gaps, n - 1)
      + MeetSteps(n - 1, peers[n - 1], addr, now, allocOk, sendOk, gaps[n - 1])
  }

  lemma HeardBoth(s: State, w: State, addr: nat, allocOk: bool, sendOk: bool, quiet: bool)
    requires |s.peers| == 2 && HeardTo(s, w, addr, allocOk, sendOk, quiet, 2)
    ensures var p, q := s.peers[0], s.peers[1];
      var ups := (if p.addr == addr && p.state == 1 then [Note(addr, 2)] else [])
                 + (if q.addr == addr && q.state == 1 then [Note(addr, 2)] else []);
      && w.notes == s.notes + (if allocOk then ups else [])
      && w.missedUp == (s.missedUp || (ups != [] && !allocOk))
      && w.lost == (s.lost || (ups != [] && allocOk && !sendOk))
  {
    hide Undisturbed;
    assert Ups(s.peers, addr, 0) == [];
    assert Ups(s.peers, addr, 2) == Ups(s.peers, addr, 1) +
      if s.peers[1].addr == addr && s.peers[1].state == 1 then [Note(addr, 2)] else [];
  }

  lemma HeardStepsBoth(peers: seq<Peer>, addr: nat, now: int, allocOk: bool, sendOk: bool, gaps: seq<seq<seq<Move>>>)
    requires |peers| == |gaps| == 2 && (forall g :: g in gaps ==> |g| == 3)
    ensures HeardSteps(peers, addr, now, allocOk, sendOk, gaps, 2) ==
            MeetSteps(0, peers[0], addr, now, allocOk, sendOk, gaps[0])
            + MeetSteps(1, peers[1], addr, now, allocOk, sendOk, gaps[1])
  {
    hide MeetSteps;
    assert HeardSteps(peers, addr, now, allocOk, sendOk, gaps, 0) == [];
    assert HeardSteps(peers, addr, now, allocOk, sendOk, gaps, 2) == HeardSteps(peers, addr, now, allocOk, sendOk, gaps, 1)
      + MeetSteps(1, peers[1], addr, now, allocOk, sendOk, gaps[1]);
  }

  /** The steps of keep_alive_peers at one slot. */
  ghost function TurnSteps(i: nat, p: Peer, turn: Turn, gap: seq<seq<Move>>): seq<Step>
    requires |gap| == 3
  {
    [Expire(i, turn.now, turn.writable, turn.allocOk)] + if GoesDown(p, turn) then Telling(1, turn.sendOk, gap) else []
  }

  /** ... at the first n slots. */
  ghost function TimedSteps(peers: seq<Peer>, turns: seq<Turn>, gaps: seq<seq<seq<Move>>>, n: nat): seq<Step>
    requires n <= |peers| == |turns| == |gaps| && forall g :: g in gaps ==> |g| == 3
  {
    if n == 0 then []
    else
      TimedSteps(peers, turns, gaps, n - 1) + TurnSteps(n - 1, peers[n - 1], turns[n - 1], gaps[n - 1])
  }

  lemma TimedBoth(s: State, w: State, turns: seq<Turn>, quiet: bool)
    requires |s.peers| == |turns| == 2 && TimedTo(s, w, turns, quiet, 2)
    ensures var a, b := GoesDown(s.peers[0], turns[0]), GoesDown(s.peers[1], turns[1]);
      && w.notes == s.notes + ((if a then [Note(s.peers[0].addr, 1)] else []) + (if b then [Note(s.peers[1].addr, 1)] else []))
      && w.lost == (s.lost || (a && !turns[0].sendOk) || (b && !turns[1].sendOk))
  {
    hide Undisturbed, GoesDown;
    var a, b := GoesDown(s.peers[0], turns[0]), GoesDown(s.peers[1], turns[1]);
    assert Downs(s.peers, turns, 0) == [] && SentDowns(s.peers, turns, 0) == [];
    var downs, sent := Downs(s.peers, turns, 1), SentDowns(s.peers, turns, 1);
    assert Downs(s.peers, turns, 2) == downs + if b then [Note(s.peers[1].addr, 1)] else [];
    assert SentDowns(s.peers, turns, 2) == sent + if b && turns[1].sendOk then [Note(s.peers[1].addr, 1)] else [];
  }

  lemma TimedStepsBoth(peers: seq<Peer>, turns: seq<Turn>, gaps: seq<seq<seq<Move>>>)
    requires |peers| == |turns| == |gaps| == 2 && (forall g :: g in gaps ==> |g| == 3)
    ensures TimedSteps(peers, turns, gaps, 2) ==
            TurnSteps(0, peers[0], turns[0], gaps[0]) + TurnSteps(1, peers[1], turns[1], gaps[1])
  {
    hide TurnSteps;
    assert TimedSteps(peers, turns, gaps, 0) == [];
    assert TimedSteps(peers, turns, gaps, 2) ==
           TimedSteps(peers, turns, gaps, 1) + TurnSteps(1, peers[1], turns[1], gaps[1]);
  }

  /** More than 30 whole seconds are 31 or more. */
  lemma DownAfter(p: Peer, turn: Turn)
    ensures GoesDown(p, turn) <==>
      p.addr != 0 && turn.writable && p.state == 2 && turn.allocOk && turn.now - p.last >= 31_000_000
  {
  }

  lemma NothingHeard(s: State, addr: nat, allocOk: bool, sendOk: bool, quiet: bool)
    ensures HeardTo(s, s, addr, allocOk, sendOk, quiet, 0)
  {
    NothingTold(s);
  }

  lemma NothingTimed(s: State, turns: seq<Turn>, quiet: bool)
    requires |turns| == |s.peers|
    ensures TimedTo(s, s, turns, quiet, 0)
  {
    NothingTold(s);
  }

  lemma HaSlot(s: State)
    requires Good(s) && s.ha != Idle
    ensures s.ha.i < |s.peers| == MAX_PEERS
  {
  }

  /** On the code itself: a peer is heard of, and the control task's next turn has a timer
      event. */
  method MessageCanBeStranded(addr: nat, now: int) returns (g: Gateway)
    requires addr != 0
    ensures fresh(g) && g.Valid() && g.queue == [Note(addr, 2)] && !g.msgEvent && Stranded(g.state)
  {
    hide Good, IsRun, Final;
    g := new Gateway();
    assert FindPeer(g.state.peers, addr) == MAX_PEERS && FindFree(g.state.peers) == 0;
    var rc := g.AddPeer(addr, now);
    ghost var v := g.state.peers;
    assert Ups(v, addr, 0) == [] && Ups(v, addr, 1) == [Note(addr, 2)] && Ups(v, addr, 2) == [Note(addr, 2)];
    var quiet: seq<seq<Move>> := [[], [], []];
    ghost var steps := g.Heard(addr, now, true, true, [quiet, quiet]);
    g.ControlPoll(true);
  }
}
