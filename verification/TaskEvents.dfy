/** The per-task event bits of task.c: send_event, and one round of the loop of
    recv_event. A round ends with the events delivered, with an error, or asleep on the
    condition variable; the lock makes each round and each send one step. */
module TaskEvents {

  type Bits = set<nat>

  datatype Record = Sent(bits: Bits) | Delivered(bits: Bits)

  /** Where the receiving thread is. */
  datatype Receiver = Running | Asleep(interest: Bits) | Woken(interest: Bits)

  datatype Outcome = Got(bits: Bits) | Nothing | Waiting

  /** The bits sent since they were last delivered. */
  ghost function Pending(log: seq<Record>): Bits
  {
    if |log| == 0 then {}
    else
      var before := Pending(log[..|log| - 1]);
      match log[|log| - 1]
      case Sent(bits) => before + bits
      case Delivered(bits) => before - bits
  }

  /** Only pending bits are delivered. */
  ghost predicate Honest(log: seq<Record>)
  {
    forall i :: 0 <= i < |log| && log[i].Delivered? ==> log[i].bits <= Pending(log[..i])
  }

  /** The i-th record sends b, and b has not been delivered since. */
  ghost predicate Undelivered(log: seq<Record>, i: nat, b: nat)
    requires i < |log|
  {
    log[i].Sent? && b in log[i].bits && forall j :: i < j < |log| && log[j].Delivered? ==> b !in log[j].bits
  }

  /** A bit is pending exactly when some send of it is not followed by a delivery. */
  lemma {:induction false} PendingIffUndelivered(log: seq<Record>, b: nat)
    ensures b in Pending(log) <==> exists i :: 0 <= i < |log| && Undelivered(log, i, b)
  {
    var n := |log| - 1;
    if n >= 0 {
      var init := log[..n];
      PendingIffUndelivered(init, b);
      if log[n].Sent? && b in log[n].bits {
        assert Undelivered(log, n, b);
      }
      forall i | 0 <= i < n && (log[n].Sent? || b !in log[n].bits)
        ensures Undelivered(log, i, b) <==> Undelivered(init, i, b)
      {
        assert forall j :: i <= j < n ==> log[j] == init[j];
      }
    }
  }

  lemma Extend(log: seq<Record>, r: Record)
    requires Honest(log) && (r.Delivered? ==> r.bits <= Pending(log))
    ensures Honest(log + [r])
    ensures Pending(log + [r]) == if r.Sent? then Pending(log) + r.bits else Pending(log) - r.bits
  {
    var all := log + [r];
    assert all[..|log|] == log;
    assert forall i :: 0 <= i < |log| ==> all[..i] == log[..i];
  }

  class Task {
    var events: Bits
    ghost var receiver: Receiver
    ghost var log: seq<Record>

    /** No bit is lost or invented, and the receiver is not asleep, unsignalled, while a
        bit it wants is pending. */
    ghost predicate Valid()
      reads this
    {
      && events == Pending(log) && Honest(log)
      && (receiver.Asleep? ==> events * receiver.interest == {})
    }

    constructor ()
      ensures Valid() && log == [] && receiver == Running
    {
      events := {};
      receiver, log := Running, [];
    }

    /** send_event: the signal wakes the receiver if it sleeps, whatever it waits for. */
    method Send(event: Bits)
      requires Valid()
      modifies this
      ensures Valid() && log == old(log) + [Sent(event)] && events == old(events) + event
      ensures receiver == if old(receiver).Asleep? then Woken(old(receiver).interest) else old(receiver)
    {
      Extend(log, Sent(event));
      log := log + [Sent(event)];
      events := events + event;
      if receiver.Asleep? {
        receiver := Woken(receiver.interest);
      }
    }

    /** One round of recv_event, entered by the caller or after a wakeup. */
    method Receive(interest: Bits, wait: bool) returns (r: Outcome)
      requires Valid() && (receiver == Running || (wait && receiver == Woken(interest)))
      modifies this
      ensures Valid()
      ensures r == if old(events) * interest != {} then Got(old(events) * interest)
                   else if wait then Waiting else Nothing
      ensures events == old(events) - interest
      ensures log == old(log) + if r.Got? then [Delivered(r.bits)] else []
      ensures receiver == if r.Waiting? then Asleep(interest) else Running
    {
      var received := events * interest;
      events := events - received;
      if received != {} {
        Extend(log, Delivered(received));
        log := log + [Delivered(received)];
        receiver := Running;
        return Got(received);
      }
      if !wait {
        receiver := Running;
        return Nothing;
      }
      receiver := Asleep(interest);
      r := Waiting;
    }

    /** A wakeup nobody asked for. */
    ghost method Spurious()
      requires Valid() && receiver.Asleep?
      modifies this`receiver
      ensures Valid() && receiver == Woken(old(receiver).interest)
    {
      receiver := Woken(receiver.interest);
    }
  }

  datatype Step = Sends(bits: Bits) | Receives(interest: Bits, wait: bool) | Resumes | Disturbs

  /** The task without its event word: what was sent and delivered, and where the
      receiver is. */
  datatype State = State(log: seq<Record>, receiver: Receiver)

  /** A round of the receive loop over the bits sent and not delivered. */
  ghost function Round(s: State, interest: Bits, wait: bool): State
  {
    var wanted := Pending(s.log) * interest;
    if wanted != {} then State(s.log + [Delivered(wanted)], Running)
    else State(s.log, if wait then Asleep(interest) else Running)
  }

  /** A step that the receiver cannot take where it is does nothing. */
  ghost function After(s: State, step: Step): State
  {
    match step
    case Sends(bits) =>
      State(s.log + [Sent(bits)], if s.receiver.Asleep? then Woken(s.receiver.interest) else s.receiver)
    case Receives(want, wait) => if s.receiver == Running then Round(s, want, wait) else s
    case Resumes => if s.receiver.Woken? then Round(s, s.receiver.interest, true) else s
    case Disturbs => if s.receiver.Asleep? then s.(receiver := Woken(s.receiver.interest)) else s
  }

  ghost function Run(s: State, steps: seq<Step>): State
  {
    if |steps| == 0 then s else After(Run(s, steps[..|steps| - 1]), steps[|steps| - 1])
  }

  /** Every send is recorded and wakes a sleeping receiver; a receiver that is not asleep takes
      exactly the bits it wants of those sent and not delivered, and goes to sleep, if it
      waits, exactly when there are none. */
  lemma RunUnrolls(s: State, steps: seq<Step>, step: Step)
    ensures Run(s, []) == s
    ensures var a, b := Run(s, steps), Run(s, steps + [step]);
      step.Sends? ==>
        && b.log == a.log + [Sent(step.bits)]
        && b.receiver == if a.receiver.Asleep? then Woken(a.receiver.interest) else a.receiver
    ensures var a, b := Run(s, steps), Run(s, steps + [step]);
      var awake := (step.Receives? && a.receiver == Running) || (step.Resumes? && a.receiver.Woken?);
      awake ==>
        var want := if step.Receives? then step.interest else a.receiver.interest;
        var got := Pending(a.log) * want;
        && b.log == a.log + (if got == {} then [] else [Delivered(got)])
        && b.receiver == if got == {} && (step.Receives? ==> step.wait) then Asleep(want) else Running
    ensures var a, b := Run(s, steps), Run(s, steps + [step]);
      && (step.Disturbs? && a.receiver.Asleep? ==> b == State(a.log, Woken(a.receiver.interest)))
      && (step.Disturbs? && !a.receiver.Asleep? ==> b == a)
      && (step.Receives? && a.receiver != Running ==> b == a)
      && (step.Resumes? && !a.receiver.Woken? ==> b == a)
  {
    assert (steps + [step])[..|steps|] == steps;
  }

  /** In any interleaving of senders with one receiver, the event word stands for the
      bits sent and not delivered. */
  method Execute(task: Task, steps: seq<Step>)
    requires task.Valid() && task.receiver == Running
    modifies task
    ensures task.Valid()
    ensures State(task.log, task.receiver) == Run(State(old(task.log), Running), steps)
  {
    var interest, asleep, running := {}, false, true;
    for i := 0 to |steps|
      invariant task.Valid()
      invariant State(task.log, task.receiver) == Run(State(old(task.log), Running), steps[..i])
      invariant running <==> task.receiver == Running
      invariant asleep <==> task.receiver.Asleep?
      invariant !running ==> task.receiver.interest == interest
    {
      assert steps[..i + 1][..i] == steps[..i];
      match steps[i]
      case Sends(bits) =>
        task.Send(bits);
        asleep := false;
      case Receives(want, wait) =>
        if running {
          var r := task.Receive(want, wait);
          interest, asleep, running := want, r.Waiting?, !r.Waiting?;
        }
      case Resumes =>
        if !running && !asleep {
          var r := task.Receive(interest, true);
          asleep, running := r.Waiting?, !r.Waiting?;
        }
      case Disturbs =>
        if asleep {
          task.Spurious();
          asleep := false;
        }
    }
    assert steps[..|steps|] == steps;
  }
}
