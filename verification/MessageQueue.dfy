/** The ring-buffer message queue of queue.c (the branch without POSIX queues), at lock
    granularity: every send and every attempt to receive is one step. */
module MessageQueue {

  newtype Byte = x: int | 0 <= x < 256

  /** What an attempt to receive comes to; a waiting receiver is asleep on the condition
      variable. */
  datatype Received = Empty | Waiting | Message(data: seq<Byte>)

  class Queue {
    const msgLen: nat
    const msgNum: nat
    const buffer: array2<Byte>   // one row of msgLen bytes a message
    var writeIndex: nat
    var readIndex: nat
    var availNum: nat
    var asleep: nat      // receivers asleep on the condition variable
    var signalled: nat   // receivers signalled and not yet back under the lock

    ghost var sent: seq<seq<Byte>>   // every message accepted, in order
    ghost var taken: nat             // how many have been received

    /** A bounded FIFO: the messages sent and not taken lie in consecutive slots. */
    ghost predicate Ring()
      reads this`readIndex, this`writeIndex, this`availNum, this`sent, this`taken, buffer
    {
      && buffer.Length0 == msgNum && buffer.Length1 == msgLen
      && taken + availNum == |sent| && availNum <= msgNum
      && (msgNum > 0 ==> readIndex < msgNum && writeIndex == Around(readIndex + availNum, msgNum))
      && (forall k :: taken <= k < |sent| ==> Stored(k))
    }

    /** Message k is at the front of its slot. */
    ghost predicate Stored(k: nat)
      requires taken <= k < |sent| && k < taken + buffer.Length0 && readIndex < buffer.Length0
      reads this`readIndex, this`sent, this`taken, buffer
    {
      var slot := Around(readIndex + (k - taken), buffer.Length0);
      && slot < buffer.Length0 && |sent[k]| <= buffer.Length1
      && forall j :: 0 <= j < |sent[k]| ==> buffer[slot, j] == sent[k][j]
    }

    /** And no lost wakeup: while a receiver sleeps, every message has a signalled receiver
        on its way to it. */
    ghost predicate Valid()
      reads this, buffer
    {
      Ring() && (asleep > 0 ==> availNum <= signalled)
    }

    /** create_queue */
    constructor (msgLen: nat, msgNum: nat)
      ensures Valid() && fresh(buffer) && this.msgLen == msgLen && this.msgNum == msgNum
      ensures sent == [] && taken == asleep == signalled == 0
    {
      this.msgLen, this.msgNum := msgLen, msgNum;
      buffer := new Byte[msgNum, msgLen]((i, j) => 0);
      writeIndex, readIndex, availNum := 0, 0, 0;
      asleep, signalled := 0, 0;
      sent, taken := [], 0;
    }

    /** The index relation in the program's own terms. */
    lemma Indices()
      requires Valid() && msgNum > 0
      ensures writeIndex == (readIndex + availNum) % msgNum && availNum <= msgNum
    {
      AroundIsMod(readIndex + availNum, msgNum);
    }

    /** queue_send: the signal goes to a sleeper if there is one. */
    method Send(msg: seq<Byte>) returns (ok: bool)
      requires Valid()
      modifies this`writeIndex, this`availNum, this`asleep, this`signalled, this`sent, buffer
      ensures Valid() && (ok <==> |msg| <= msgLen && old(availNum) < msgNum)
      ensures sent == if ok then old(sent) + [msg] else old(sent)
      ensures var woken := if ok && old(asleep) > 0 then 1 else 0;
              asleep == old(asleep) - woken && signalled == old(signalled) + woken
    {
      hide Queue.Stored;
      if |msg| > msgLen || availNum >= msgNum {
        return false;
      }
      Put(msg);
      if asleep > 0 {
        asleep, signalled := asleep - 1, signalled + 1;
      }
      ok := true;
    }

    /** The ring part of queue_send. */
    method Put(msg: seq<Byte>)
      requires Ring() && |msg| <= msgLen && availNum < msgNum
      modifies this`writeIndex, this`availNum, this`sent, buffer
      ensures Ring() && sent == old(sent) + [msg] && availNum == old(availNum) + 1
    {
      AroundIsMod(writeIndex + 1, msgNum);
      forall j | 0 <= j < |msg| {
        buffer[writeIndex, j] := msg[j];
      }
      writeIndex := (writeIndex + 1) % msgNum;
      availNum := availNum + 1;
      sent := sent + [msg];
      forall k | taken <= k < |sent| - 1
        ensures Stored(k)
      {
        assert old(Stored(k));
      }
      assert Stored(|sent| - 1);
    }

    /** The end of queue_receive, where there is a message: the k-th call returns the first
        bytes of the k-th message. */
    method Take(len: nat) returns (r: Received)
      requires Ring() && availNum > 0
      modifies this`readIndex, this`availNum, this`taken
      ensures Ring() && taken == old(taken) + 1 && availNum == old(availNum) - 1
      ensures IsFront(r, len, msgLen, sent, old(taken))
    {
      var n := if len > msgLen then msgLen else len;
      assert Stored(taken);
      var data := Row(n);
      AroundIsMod(readIndex + 1, msgNum);
      readIndex := (readIndex + 1) % msgNum;
      availNum := availNum - 1;
      taken := taken + 1;
      r := Message(data);
      forall k | taken <= k < |sent|
        ensures Stored(k)
      {
        assert old(Stored(k));
      }
    }

    /** queue_receive with OSW_NO_WAIT */
    method Receive(len: nat) returns (r: Received)
      requires Valid()
      modifies this`readIndex, this`availNum, this`taken
      ensures Valid()
      ensures if old(availNum) > 0 then IsFront(r, len, msgLen, sent, old(taken)) && taken == old(taken) + 1
              else r == Empty && taken == old(taken)
    {
      hide Queue.Stored;
      if availNum == 0 {
        return Empty;
      }
      r := Take(len);
    }

    /** queue_receive with OSW_WAIT, or with a time-out, up to its first wait. */
    method Wait(len: nat) returns (r: Received)
      requires Valid()
      modifies this`readIndex, this`availNum, this`asleep, this`taken
      ensures Valid()
      ensures if old(availNum) > 0
              then IsFront(r, len, msgLen, sent, old(taken)) && taken == old(taken) + 1 && asleep == old(asleep)
              else r == Waiting && taken == old(taken) && asleep == old(asleep) + 1
    {
      hide Queue.Stored;
      if availNum == 0 {
        asleep := asleep + 1;
        return Waiting;
      }
      r := Take(len);
    }

    /** A signalled receiver that waits with OSW_WAIT is back under the lock: it looks again. */
    method Resume(len: nat) returns (r: Received)
      requires Valid() && signalled > 0
      modifies this`readIndex, this`availNum, this`asleep, this`signalled, this`taken
      ensures Valid() && signalled == old(signalled) - 1
      ensures if old(availNum) > 0
              then IsFront(r, len, msgLen, sent, old(taken)) && taken == old(taken) + 1 && asleep == old(asleep)
              else r == Waiting && taken == old(taken) && asleep == old(asleep) + 1
    {
      hide Queue.Stored;
      if availNum == 0 {
        asleep, signalled := asleep + 1, signalled - 1;
        return Waiting;
      }
      r := Take(len);
      signalled := signalled - 1;
    }

    /** A receiver wakes although nobody signalled it. */
    method Disturb()
      requires Valid() && asleep > 0
      modifies this`asleep, this`signalled
      ensures Valid() && asleep == old(asleep) - 1 && signalled == old(signalled) + 1
    {
      hide Queue.Stored;
      asleep, signalled := asleep - 1, signalled + 1;
    }

    /** A timed wait runs out. */
    method TimeOut() returns (r: Received)
      requires Valid() && asleep > 0
      modifies this`asleep
      ensures Valid() && r == Empty && asleep == old(asleep) - 1
    {
      hide Queue.Stored;
      asleep := asleep - 1;
      r := Empty;
    }

    /** A receiver whose timed wait ended before its time does not look again. The queue
        stays a queue if and only if there still is a message for it. */
    method TimedResume(len: nat) returns (r: Received)
      requires Valid() && signalled > 0 && msgNum > 0
      modifies this`readIndex, this`availNum, this`asleep, this`signalled, this`taken
      ensures asleep == old(asleep) && taken == old(taken) + 1
      ensures Valid() <==> old(availNum) > 0
      ensures old(availNum) > 0 ==> IsFront(r, len, msgLen, sent, old(taken)) && signalled == old(signalled) - 1
    {
      hide Queue.Stored;
      if availNum > 0 {
        r := Resume(len);
        return;
      }
      var data := Row(if len > msgLen then msgLen else len);
      readIndex := (readIndex + 1) % msgNum;
      availNum := 0xFFFF_FFFF;   // the unsigned count wraps
      signalled, taken := signalled - 1, taken + 1;
      r := Message(data);
    }

    /** memcpy out of the slot to be read */
    method Row(n: nat) returns (data: seq<Byte>)
      requires readIndex < buffer.Length0 && n <= buffer.Length1
      ensures |data| == n && forall j :: 0 <= j < n ==> data[j] == buffer[readIndex, j]
    {
      data := [];
      for j := 0 to n
        invariant |data| == j && forall i :: 0 <= i < j ==> data[i] == buffer[readIndex, i]
      {
        data := data + [buffer[readIndex, j]];
      }
    }
  }

  /** What a receiver gets: as many bytes as it asked for and a slot holds, and of message k
      as far as that goes. */
  ghost predicate IsFront(r: Received, len: nat, msgLen: nat, sent: seq<seq<Byte>>, k: nat)
  {
    && r.Message? && k < |sent| && |r.data| == (if len > msgLen then msgLen else len)
    && (len <= |sent[k]| ==> r.data == sent[k][..len])
  }

  /** An index that has run at most once round a ring of n slots. */
  function Around(x: nat, n: nat): nat
    requires x < 2 * n
  {
    if x < n then x else x - n
  }

  lemma AroundIsMod(x: nat, n: nat)
    requires x < 2 * n
    ensures x % n == Around(x, n)
  {
  }

  /** A message is signalled to a receiver in a timed wait, another one takes it, and the
      first then takes a message that is not there. */
  method TimedWaitCanFail(msg: seq<Byte>) returns (q: Queue)
    ensures fresh(q) && !q.Valid() && q.taken > |q.sent|
  {
    q := new Queue(|msg|, 1);
    var first := q.Wait(|msg|);
    var ok := q.Send(msg);
    var second := q.Receive(|msg|);
    assert q.signalled == 1 && q.availNum == 0 && q.taken == |q.sent| == 1;
    first := q.TimedResume(|msg|);
  }

  datatype Op = Sends(msg: seq<Byte>) | Receives(len: nat) | Waits(len: nat) | Resumes(len: nat) | Disturbs

  /** A bounded FIFO without a buffer: what it has accepted, how much of that is taken,
      the lengths asked for, and its receivers. */
  datatype Fifo = Fifo(sent: seq<seq<Byte>>, taken: nat, lens: seq<nat>, asleep: nat, signalled: nat)

  ghost function Step(f: Fifo, op: Op, msgLen: nat, msgNum: nat): Fifo
  {
    match op
    case Sends(msg) =>
      if |msg| > msgLen || |f.sent| - f.taken >= msgNum then f
      else if f.asleep == 0 then f.(sent := f.sent + [msg])
      else f.(sent := f.sent + [msg], asleep := f.asleep - 1, signalled := f.signalled + 1)
    case Receives(len) => if f.taken < |f.sent| then f.(taken := f.taken + 1, lens := f.lens + [len]) else f
    case Waits(len) =>
      if f.taken < |f.sent| then f.(taken := f.taken + 1, lens := f.lens + [len]) else f.(asleep := f.asleep + 1)
    case Resumes(len) =>
      if f.signalled == 0 then f
      else if f.taken < |f.sent| then f.(taken := f.taken + 1, lens := f.lens + [len], signalled := f.signalled - 1)
      else f.(asleep := f.asleep + 1, signalled := f.signalled - 1)
    case Disturbs => if f.asleep == 0 then f else f.(asleep := f.asleep - 1, signalled := f.signalled + 1)
  }

  ghost function Reference(f: Fifo, ops: seq<Op>, msgLen: nat, msgNum: nat): Fifo
  {
    if |ops| == 0 then f
    else Step(Reference(f, ops[..|ops| - 1], msgLen, msgNum), ops[|ops| - 1], msgLen, msgNum)
  }

  ghost function Contents(q: Queue, lens: seq<nat>): Fifo
    reads q
  {
    Fifo(q.sent, q.taken, lens, q.asleep, q.signalled)
  }

  /** The messages got since the first `from` were taken are the fronts of those sent. */
  ghost predicate Fronts(got: seq<seq<Byte>>, lens: seq<nat>, sent: seq<seq<Byte>>, from: nat)
  {
    && |lens| == |got| && from + |got| <= |sent|
    && forall i :: 0 <= i < |got| && lens[i] <= |sent[from + i]| ==> got[i] == sent[from + i][..lens[i]]
  }

  /** One operation; a receiver resumes only if it was signalled. A send is accepted if it fits
      and there is room, and then wakes one sleeper; a receiver gets a message if there is
      one, and otherwise goes away, or to sleep if it is one that waits. */
  method Perform(q: Queue, op: Op) returns (r: Received)
    requires q.Valid()
    modifies q, q.buffer
    ensures q.Valid() && old(q.sent) <= q.sent
    ensures r.Message? ==> op.Receives? || op.Waits? || op.Resumes?
    ensures r.Message? ==> IsFront(r, op.len, q.msgLen, q.sent, old(q.taken)) && q.taken == old(q.taken) + 1
    ensures !r.Message? ==> q.taken == old(q.taken)
    ensures var room, waiting := |old(q.sent)| - old(q.taken) < q.msgNum, old(q.taken) < |old(q.sent)|;
      match op
      case Sends(msg) =>
        var ok := |msg| <= q.msgLen && room;
        var woken := if ok && old(q.asleep) > 0 then 1 else 0;
        && q.sent == old(q.sent) + (if ok then [msg] else []) && r == Empty
        && q.asleep == old(q.asleep) - woken && q.signalled == old(q.signalled) + woken
      case Receives(_) =>
        && q.sent == old(q.sent) && q.asleep == old(q.asleep) && q.signalled == old(q.signalled)
        && (if waiting then r.Message? else r == Empty)
      case Waits(_) =>
        && q.sent == old(q.sent) && q.signalled == old(q.signalled)
        && (if waiting then r.Message? && q.asleep == old(q.asleep) else r == Waiting && q.asleep == old(q.asleep) + 1)
      case Resumes(_) =>
        && q.sent == old(q.sent)
        && (if old(q.signalled) == 0 then r == Empty && q.asleep == old(q.asleep) && q.signalled == 0
            else
              && q.signalled == old(q.signalled) - 1
              && if waiting then r.Message? && q.asleep == old(q.asleep) else r == Waiting && q.asleep == old(q.asleep) + 1)
      case Disturbs =>
        && q.sent == old(q.sent) && r == Empty
        && var moved := if old(q.asleep) > 0 then 1 else 0;
           q.asleep == old(q.asleep) - moved && q.signalled == old(q.signalled) + moved
    ensures Contents(q, if r.Message? then [op.len] else []) == Step(old(Contents(q, [])), op, q.msgLen, q.msgNum)
  {
    hide Queue.Stored;
    r := Empty;
    match op
    case Sends(msg) =>
      var ok := q.Send(msg);
    case Receives(len) =>
      r := q.Receive(len);
    case Waits(len) =>
      r := q.Wait(len);
    case Resumes(len) =>
      if q.signalled > 0 {
        r := q.Resume(len);
      }
    case Disturbs =>
      if q.asleep > 0 {
        q.Disturb();
      }
  }

  /** In every interleaving of senders with receivers that wait or do not, the ring accepts
      and hands out what the bounded FIFO does, the k-th message received is the front of the
      k-th one accepted, and no receiver sleeps while a message has nobody on the way to it. */
  method Execute(q: Queue, ops: seq<Op>) returns (ghost lens: seq<nat>, got: seq<seq<Byte>>)
    requires q.Valid()
    modifies q, q.buffer
    ensures q.Valid() && Contents(q, lens) == Reference(old(Contents(q, [])), ops, q.msgLen, q.msgNum)
    ensures old(q.sent) <= q.sent && q.taken == old(q.taken) + |got| && Fronts(got, lens, q.sent, old(q.taken))
    ensures q.asleep > 0 ==> |q.sent| - q.taken <= q.signalled
  {
    hide Queue.Ring, Step, Reference, IsFront, Fronts;
    ghost var f0, from := Contents(q, []), q.taken;
    lens, got := [], [];
    Available(q);
    NothingGot(f0, q.msgLen, q.msgNum, q.sent, from);
    for n := 0 to |ops|
      invariant q.Valid() && Contents(q, lens) == Reference(f0, ops[..n], q.msgLen, q.msgNum)
      invariant old(q.sent) <= q.sent && q.taken == from + |got| && Fronts(got, lens, q.sent, from)
    {
      ghost var f, sent := Contents(q, lens), q.sent;
      var r := Perform(q, ops[n]);
      StepLens(f, ops[n], q.msgLen, q.msgNum);
      ReferenceOn(f0, ops, n, q.msgLen, q.msgNum);
      FrontsGrow(got, lens, sent, q.sent, from);
      if r.Message? {
        FrontsOn(got, lens, q.sent, from, r, ops[n].len, q.msgLen);
        lens, got := lens + [ops[n].len], got + [r.data];
      }
    }
    assert ops[..|ops|] == ops;
    Available(q);
  }

  lemma Available(q: Queue)
    requires q.Valid()
    ensures q.taken + q.availNum == |q.sent|
  {
  }

  lemma NothingGot(f: Fifo, msgLen: nat, msgNum: nat, sent: seq<seq<Byte>>, from: nat)
    ensures Reference(f, [], msgLen, msgNum) == f
    ensures from <= |sent| ==> Fronts([], [], sent, from)
  {
  }

  lemma ReferenceOn(f: Fifo, ops: seq<Op>, n: nat, msgLen: nat, msgNum: nat)
    requires n < |ops|
    ensures Reference(f, ops[..n + 1], msgLen, msgNum) ==
            Step(Reference(f, ops[..n], msgLen, msgNum), ops[n], msgLen, msgNum)
  {
    assert ops[..n + 1][..n] == ops[..n];
  }

  lemma FrontsGrow(got: seq<seq<Byte>>, lens: seq<nat>, sent: seq<seq<Byte>>, more: seq<seq<Byte>>, from: nat)
    requires Fronts(got, lens, sent, from) && sent <= more
    ensures Fronts(got, lens, more, from)
  {
  }

  lemma FrontsOn(got: seq<seq<Byte>>, lens: seq<nat>, sent: seq<seq<Byte>>, from: nat, r: Received, len: nat, msgLen: nat)
    requires Fronts(got, lens, sent, from) && IsFront(r, len, msgLen, sent, from + |got|)
    ensures Fronts(got + [r.data], lens + [len], sent, from)
  {
  }

  /** The lengths asked for are only recorded. */
  lemma StepLens(f: Fifo, op: Op, msgLen: nat, msgNum: nat)
    ensures var g := Step(f.(lens := []), op, msgLen, msgNum);
            Step(f, op, msgLen, msgNum) == g.(lens := f.lens + g.lens)
  {
  }
}
