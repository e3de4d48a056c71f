/** The retransmission table of raw_proto_timer.c as a state machine over values.

    Each started packet gets a serial number, which tells packets with the same id
    apart. A step is what one thread does to one packet while it holds the lock, so
    every interleaving of starts, stops and scans is a sequence of steps.
 */
module RetransmitModel {
  import opened BackOff

  const BUCKETS: nat := 1000

  /** raw_proto_pkt_timer_s; `sends` counts the sendto calls made for the packet and
      `startedAt` is the time of its insertion. */
  datatype Entry = Entry(
    serial: nat, id: nat, context: int, owner: nat, max: int,
    count: nat, lastSent: int, sends: nat, startedAt: int)

  /** How a packet leaves the table: its context goes to a stop, or to the give-up callback. */
  datatype End = Returned(entry: Entry) | GaveUp(entry: Entry, at: int)

  datatype State = State(
    next: nat,                 // serial of the next packet
    now: int,                  // latest reading of the clock
    table: seq<seq<Entry>>,
    ended: seq<End>)

  datatype Fate = Keep | Resend | GiveUp

  /** What a scan that reads the clock at t does with e. */
  function FateOf(e: Entry, t: int): Fate
    requires e.count <= 30
  {
    if t - e.lastSent < Interval(e.count) then Keep
    else if e.count <= e.max then Resend
    else GiveUp
  }

  function Sent(e: Entry, t: int): Entry
  {
    e.(count := e.count + 1, lastSent := t, sends := e.sends + 1)
  }

  /** How often a packet may be resent; a negative limit is none. */
  function Limit(e: Entry): nat
  {
    if e.max > 0 then e.max else 0
  }

  /** No packet is visited once its transmit count is past 30: the back-off would shift
      an int out of range. */
  ghost predicate EntryOk(e: Entry)
  {
    && 1 <= e.count <= Limit(e) + 1 && e.count <= 31
    && e.sends == e.count - 1
    && e.lastSent >= e.startedAt + Wait(e.count)
  }

  /** A stop never returns a packet with id 0; one given up had its full number of sends. */
  ghost predicate EndOk(end: End)
  {
    && EntryOk(end.entry)
    && (end.Returned? ==> end.entry.id != 0)
    && (end.GaveUp? ==> end.entry.sends == Limit(end.entry) <= 29
                        && end.at >= end.entry.startedAt + Wait(Limit(end.entry) + 2))
  }

  // How often serial x occurs in a bucket, in the table and among the ended packets.

  ghost function InBucket(es: seq<Entry>, x: nat): nat
  {
    if |es| == 0 then 0 else One(es[0], x) + InBucket(es[1..], x)
  }

  ghost function One(e: Entry, x: nat): nat
  {
    if e.serial == x then 1 else 0
  }

  ghost function InTable(table: seq<seq<Entry>>, x: nat): nat
  {
    if |table| == 0 then 0 else InBucket(table[0], x) + InTable(table[1..], x)
  }

  ghost function InEnded(ended: seq<End>, x: nat): nat
  {
    if |ended| == 0 then 0 else InEnded(ended[..|ended| - 1], x) + One(ended[|ended| - 1].entry, x)
  }

  ghost predicate Filed(s: State)
  {
    && |s.table| == BUCKETS
    && (forall k, i :: 0 <= k < |s.table| && 0 <= i < |s.table[k]| ==>
          EntryOk(s.table[k][i]) && s.table[k][i].id % BUCKETS == k && s.table[k][i].lastSent <= s.now)
    && (forall j :: 0 <= j < |s.ended| ==> EndOk(s.ended[j]))
  }

  /** Every serial issued is in the table or has ended, once and not both. */
  ghost predicate Conserved(s: State)
  {
    forall x: nat :: InTable(s.table, x) + InEnded(s.ended, x) == if x < s.next then 1 else 0
  }

  ghost predicate Good(s: State)
  {
    Filed(s) && Conserved(s)
  }

  // Steps

  /** insert_raw_pkt: appended to its bucket with transmit count 1. */
  ghost predicate CanInsert(s: State, t: int)
  {
    |s.table| == BUCKETS && s.now <= t
  }

  ghost function Insert(s: State, id: nat, context: int, owner: nat, max: int, t: int): State
    requires CanInsert(s, t)
  {
    var k := id % BUCKETS;
    var e := Entry(s.next, id, context, owner, max, 1, t, 0, t);
    s.(next := s.next + 1, now := t, table := s.table[k := s.table[k] + [e]])
  }

  /** The position of the first packet with this id. */
  function Find(es: seq<Entry>, id: nat): (i: nat)
    ensures i <= |es| && (i < |es| ==> es[i].id == id)
    ensures forall j :: 0 <= j < i ==> es[j].id != id
  {
    if |es| == 0 || es[0].id == id then 0 else 1 + Find(es[1..], id)
  }

  function Cut<X>(xs: seq<X>, i: nat): seq<X>
    requires i < |xs|
  {
    xs[..i] + xs[i + 1..]
  }

  /** delete_raw_pkt */
  ghost function Delete(s: State, id: nat): State
    requires |s.table| == BUCKETS
  {
    var k := id % BUCKETS;
    var i := Find(s.table[k], id);
    if i == |s.table[k]| then s
    else s.(table := s.table[k := Cut(s.table[k], i)], ended := s.ended + [Returned(s.table[k][i])])
  }

  /** raw_pkt_retransmit at one packet, with its clock readings for the test and for
      the new time. */
  ghost predicate CanVisit(s: State, k: nat, i: nat, t: int, u: int)
  {
    k < |s.table| && i < |s.table[k]| && s.table[k][i].count <= 30 && s.now <= t <= u
  }

  ghost function Visit(s: State, k: nat, i: nat, t: int, u: int): State
    requires CanVisit(s, k, i, t, u)
  {
    var es, e := s.table[k], s.table[k][i];
    match FateOf(e, t)
    case Keep => s.(now := t)
    case Resend => s.(now := u, table := s.table[k := es[i := Sent(e, u)]])
    case GiveUp => s.(now := t, table := s.table[k := Cut(es, i)], ended := s.ended + [GaveUp(e, t)])
  }

  // Every step keeps the state good

  lemma {:induction false} InBucketAppend(xs: seq<Entry>, ys: seq<Entry>, x: nat)
    ensures InBucket(xs + ys, x) == InBucket(xs, x) + InBucket(ys, x)
  {
    if |xs| == 0 {
      assert xs + ys == ys;
    } else {
      assert (xs + ys)[1..] == xs[1..] + ys;
      InBucketAppend(xs[1..], ys, x);
    }
  }

  lemma {:induction false} InBucketCut(es: seq<Entry>, i: nat, x: nat)
    requires i < |es|
    ensures InBucket(es, x) == InBucket(Cut(es, i), x) + One(es[i], x)
  {
    if i == 0 {
      assert Cut(es, 0) == es[1..];
    } else {
      assert Cut(es, i) == [es[0]] + Cut(es[1..], i - 1);
      InBucketCut(es[1..], i - 1, x);
    }
  }

  lemma InBucketSame(es: seq<Entry>, i: nat, e: Entry, x: nat)
    requires i < |es| && e.serial == es[i].serial
    ensures InBucket(es[i := e], x) == InBucket(es, x)
  {
    InBucketCut(es, i, x);
    InBucketCut(es[i := e], i, x);
    assert Cut(es[i := e], i) == Cut(es, i);
  }

  lemma {:induction false} InTableUpdate(table: seq<seq<Entry>>, k: nat, es: seq<Entry>, x: nat)
    requires k < |table|
    ensures InTable(table[k := es], x) + InBucket(table[k], x) == InTable(table, x) + InBucket(es, x)
  {
    var after := table[k := es];
    if k == 0 {
      assert after[1..] == table[1..];
    } else {
      assert after[1..] == table[1..][k - 1 := es];
      InTableUpdate(table[1..], k - 1, es, x);
    }
  }

  lemma EndedExtends(ended: seq<End>, end: End, x: nat)
    ensures InEnded(ended + [end], x) == InEnded(ended, x) + One(end.entry, x)
  {
    assert (ended + [end])[..|ended|] == ended;
  }

  /** Moving a packet from the table to the ended ones conserves it. */
  lemma EndConserves(s: State, k: nat, i: nat, end: End)
    requires Conserved(s) && k < |s.table| && i < |s.table[k]| && end.entry == s.table[k][i]
    ensures Conserved(s.(table := s.table[k := Cut(s.table[k], i)], ended := s.ended + [end]))
  {
    var w := s.(table := s.table[k := Cut(s.table[k], i)], ended := s.ended + [end]);
    forall x: nat
      ensures InTable(w.table, x) + InEnded(w.ended, x) == if x < w.next then 1 else 0
    {
      InTableUpdate(s.table, k, Cut(s.table[k], i), x);
      InBucketCut(s.table[k], i, x);
      EndedExtends(s.ended, end, x);
    }
  }

  lemma InsertKept(s: State, id: nat, context: int, owner: nat, max: int, t: int)
    requires Good(s) && CanInsert(s, t)
    ensures Good(Insert(s, id, context, owner, max, t))
  {
    var k, w := id % BUCKETS, Insert(s, id, context, owner, max, t);
    var e := w.table[k][|s.table[k]|];
    forall x: nat
      ensures InTable(w.table, x) + InEnded(w.ended, x) == if x < w.next then 1 else 0
    {
      InTableUpdate(s.table, k, s.table[k] + [e], x);
      InBucketAppend(s.table[k], [e], x);
    }
  }

  lemma DeleteKept(s: State, id: nat)
    requires Good(s) && id != 0
    ensures Good(Delete(s, id))
  {
    var k := id % BUCKETS;
    var i := Find(s.table[k], id);
    hide Conserved;
    if i < |s.table[k]| {
      EndConserves(s, k, i, Returned(s.table[k][i]));
    }
  }

  lemma ResentOk(e: Entry, t: int, u: int)
    requires EntryOk(e) && e.count <= 30 && FateOf(e, t) == Resend && t <= u
    ensures EntryOk(Sent(e, u))
  {
    hide Interval, Wait;
    WaitStep(e.count);
  }

  lemma GaveUpOk(e: Entry, t: int)
    requires EntryOk(e) && e.count <= 30 && FateOf(e, t) == GiveUp
    ensures EndOk(GaveUp(e, t))
  {
    hide Interval, Wait;
    WaitStep(e.count);
  }

  lemma VisitKept(s: State, k: nat, i: nat, t: int, u: int)
    requires Good(s) && CanVisit(s, k, i, t, u)
    ensures Good(Visit(s, k, i, t, u))
  {
    var es, e, w := s.table[k], s.table[k][i], Visit(s, k, i, t, u);
    hide Interval, Wait;
    match FateOf(e, t)
    case Keep =>
    case Resend =>
      ResentOk(e, t, u);
      forall x: nat
        ensures InTable(w.table, x) == InTable(s.table, x)
      {
        InBucketSame(es, i, Sent(e, u), x);
        InTableUpdate(s.table, k, es[i := Sent(e, u)], x);
      }
    case GiveUp =>
      GaveUpOk(e, t);
      EndConserves(s, k, i, GaveUp(e, t));
  }

  // Runs

  datatype Step =
    | Inserting(id: nat, context: int, owner: nat, max: int, t: int)
    | Deleting(id: nat)
    | Visiting(bucket: nat, position: nat, t: int, u: int)

  ghost predicate Enabled(s: State, step: Step)
  {
    match step
    case Inserting(_, _, _, _, t) => CanInsert(s, t)
    case Deleting(id) => |s.table| == BUCKETS && id != 0
    case Visiting(k, i, t, u) => CanVisit(s, k, i, t, u)
  }

  ghost function Apply(s: State, step: Step): State
    requires Enabled(s, step)
  {
    match step
    case Inserting(id, context, owner, max, t) => Insert(s, id, context, owner, max, t)
    case Deleting(id) => Delete(s, id)
    case Visiting(k, i, t, u) => Visit(s, k, i, t, u)
  }

  lemma StepKept(s: State, step: Step)
    requires Good(s) && Enabled(s, step)
    ensures Good(Apply(s, step))
  {
    hide Good;
    match step
    case Inserting(id, context, owner, max, t) => InsertKept(s, id, context, owner, max, t);
    case Deleting(id) => DeleteKept(s, id);
    case Visiting(k, i, t, u) => VisitKept(s, k, i, t, u);
  }

  ghost predicate IsRun(s: State, steps: seq<Step>)
    decreases |steps|
  {
    |steps| == 0 || (Enabled(s, steps[0]) && IsRun(Apply(s, steps[0]), steps[1..]))
  }

  ghost function Final(s: State, steps: seq<Step>): State
    requires IsRun(s, steps)
    decreases |steps|
  {
    if |steps| == 0 then s else Final(Apply(s, steps[0]), steps[1..])
  }

  lemma {:induction false} RunKept(s: State, steps: seq<Step>)
    requires Good(s) && IsRun(s, steps)
    ensures Good(Final(s, steps))
    decreases |steps|
  {
    hide Good, Enabled, Apply;
    if |steps| > 0 {
      StepKept(s, steps[0]);
      RunKept(Apply(s, steps[0]), steps[1..]);
    }
  }

  /** The steps lead from s to w. */
  ghost predicate Leads(s: State, steps: seq<Step>, w: State)
  {
    IsRun(s, steps) && Final(s, steps) == w
  }

  lemma LeadsOne(s: State, step: Step)
    requires Enabled(s, step)
    ensures Leads(s, [step], Apply(s, step))
  {
    hide Enabled, Apply;
    var w, rest := Apply(s, step), [step][1..];
    assert rest == [] && IsRun(w, rest) && Final(w, rest) == w;
  }

  lemma {:induction false} LeadsOn(s: State, xs: seq<Step>, v: State, ys: seq<Step>, w: State)
    requires Leads(s, xs, v) && Leads(v, ys, w)
    ensures Leads(s, xs + ys, w)
    decreases |xs|
  {
    hide Enabled, Apply;
    if |xs| == 0 {
      assert xs + ys == ys;
    } else {
      assert (xs + ys)[1..] == xs[1..] + ys;
      LeadsOn(Apply(s, xs[0]), xs[1..], v, ys, w);
    }
  }

  lemma {:induction false} EmptyCounts(k: nat, x: nat)
    ensures InTable(seq(k, _ => []), x) == 0
  {
    if k > 0 {
      var table: seq<seq<Entry>> := seq(k, _ => []);
      var rest: seq<seq<Entry>> := seq(k - 1, _ => []);
      assert table[1..] == rest;
      EmptyCounts(k - 1, x);
    }
  }

  lemma EmptyIsGood(t: int)
    ensures Good(State(0, t, seq(BUCKETS, _ => []), []))
  {
    var table: seq<seq<Entry>> := seq(BUCKETS, _ => []);
    forall x: nat
      ensures InTable(table, x) == 0
    {
      EmptyCounts(BUCKETS, x);
    }
  }

  // What a good state means

  lemma {:induction false} EndedOccurs(ended: seq<End>, j: nat)
    requires j < |ended|
    ensures InEnded(ended, ended[j].entry.serial) >= 1
  {
    var n := |ended| - 1;
    if j < n {
      EndedOccurs(ended[..n], j);
    }
  }

  lemma {:induction false} EndedTwice(ended: seq<End>, i: nat, j: nat)
    requires i < j < |ended| && ended[i].entry.serial == ended[j].entry.serial
    ensures InEnded(ended, ended[j].entry.serial) >= 2
  {
    var n := |ended| - 1;
    if j < n {
      EndedTwice(ended[..n], i, j);
    } else {
      EndedOccurs(ended[..n], i);
    }
  }

  lemma {:induction false} PendingOccurs(table: seq<seq<Entry>>, k: nat, i: nat)
    requires k < |table| && i < |table[k]|
    ensures InTable(table, table[k][i].serial) >= 1
  {
    if k > 0 {
      PendingOccurs(table[1..], k - 1, i);
    } else {
      InBucketCut(table[0], i, table[0][i].serial);
    }
  }

  /** No packet has two outcomes, and none has an outcome while it is pending. */
  lemma OneOutcome(s: State, j: nat)
    requires Good(s) && j < |s.ended|
    ensures forall i :: 0 <= i < |s.ended| && i != j ==> s.ended[i].entry.serial != s.ended[j].entry.serial
    ensures forall k, i :: 0 <= k < |s.table| && 0 <= i < |s.table[k]| ==>
              s.table[k][i].serial != s.ended[j].entry.serial
    ensures s.ended[j].entry.serial < s.next
  {
    var x := s.ended[j].entry.serial;
    EndedOccurs(s.ended, j);
    forall i | 0 <= i < |s.ended| && i != j
      ensures s.ended[i].entry.serial != x
    {
      if s.ended[i].entry.serial == x {
        EndedTwice(s.ended, if i < j then i else j, if i < j then j else i);
      }
    }
    forall k, i | 0 <= k < |s.table| && 0 <= i < |s.table[k]|
      ensures s.table[k][i].serial != x
    {
      PendingOccurs(s.table, k, i);
    }
  }

  lemma {:induction false} OccursInBucket(es: seq<Entry>, x: nat) returns (i: nat)
    requires InBucket(es, x) > 0
    ensures i < |es| && es[i].serial == x
  {
    if es[0].serial == x {
      i := 0;
    } else {
      i := OccursInBucket(es[1..], x);
      i := i + 1;
    }
  }

  lemma {:induction false} OccursInTable(table: seq<seq<Entry>>, x: nat) returns (k: nat, i: nat)
    requires InTable(table, x) > 0
    ensures k < |table| && i < |table[k]| && table[k][i].serial == x
  {
    if InBucket(table[0], x) > 0 {
      k := 0;
      i := OccursInBucket(table[0], x);
    } else {
      k, i := OccursInTable(table[1..], x);
      k := k + 1;
    }
  }

  lemma {:induction false} OccursInEnded(ended: seq<End>, x: nat) returns (j: nat)
    requires InEnded(ended, x) > 0
    ensures j < |ended| && ended[j].entry.serial == x
  {
    var n := |ended| - 1;
    if ended[n].entry.serial == x {
      j := n;
    } else {
      j := OccursInEnded(ended[..n], x);
    }
  }

  /** No packet is lost: each one started is pending or has its outcome. */
  lemma PendingOrEnded(s: State, x: nat)
    requires Good(s) && x < s.next
    ensures (exists k, i :: 0 <= k < |s.table| && 0 <= i < |s.table[k]| && s.table[k][i].serial == x)
         || (exists j :: 0 <= j < |s.ended| && s.ended[j].entry.serial == x)
  {
    assert InTable(s.table, x) + InEnded(s.ended, x) == 1;
    if InTable(s.table, x) > 0 {
      var k, i := OccursInTable(s.table, x);
    } else {
      var j := OccursInEnded(s.ended, x);
    }
  }

  /** A stop finds nothing exactly when no packet with the id is pending anywhere. */
  lemma StopFindsPending(s: State, id: nat)
    requires Good(s)
    ensures Find(s.table[id % BUCKETS], id) == |s.table[id % BUCKETS]| <==>
            forall k, i :: 0 <= k < |s.table| && 0 <= i < |s.table[k]| ==> s.table[k][i].id != id
  {
    var k := id % BUCKETS;
    if Find(s.table[k], id) < |s.table[k]| {
      assert s.table[k][Find(s.table[k], id)].id == id;
    }
  }

  /** A packet given up with limit m was resent m times, and not before 2^(m+1) + m
      seconds; past m == 22 the float has lost the odd seconds. */
  lemma GiveUpTime(s: State, j: nat)
    requires Good(s) && j < |s.ended| && s.ended[j].GaveUp?
    ensures var e := s.ended[j].entry; var m := Limit(e);
            e.sends == m <= 29 && s.ended[j].at >= e.startedAt + Pow2(m + 1) + if m <= 22 then m else 22
  {
    hide Interval, Wait, Pow2, Conserved;
    WaitIsExponential(Limit(s.ended[j].entry) + 2);
  }

  /** A table with one packet. */
  ghost function Alone(k: nat, e: Entry): (table: seq<seq<Entry>>)
    requires k < BUCKETS
    ensures |table| == BUCKETS && table[k] == [e]
  {
    var empty: seq<seq<Entry>> := seq(BUCKETS, _ => []);
    empty[k := [e]]
  }

  lemma AloneStill(k: nat, e: Entry, f: Entry)
    requires k < BUCKETS
    ensures Alone(k, e)[k := [f]] == Alone(k, f)
  {
  }

  /** The only packet so far, started at time 0 and checked as early as it can be. */
  ghost function Eager(id: nat, context: int, owner: nat, max: int, c: nat): State
    requires 1 <= c <= 30
  {
    State(1, Wait(c), Alone(id % BUCKETS, Entry(0, id, context, owner, max, c, Wait(c), c - 1, 0)), [])
  }

  lemma EagerStep(id: nat, context: int, owner: nat, max: int, c: nat)
    requires 1 <= c <= 30
    ensures var s, k, t := Eager(id, context, owner, max, c), id % BUCKETS, Wait(c + 1);
            && CanVisit(s, k, 0, t, t)
            && (c <= max && c < 30 ==> Visit(s, k, 0, t, t) == Eager(id, context, owner, max, c + 1))
            && (c > max ==> Visit(s, k, 0, t, t).ended == [GaveUp(s.table[k][0], t)])
  {
    hide Interval, Wait, Alone;
    var s, k, t := Eager(id, context, owner, max, c), id % BUCKETS, Wait(c + 1);
    WaitStep(c);
    var e := s.table[k][0];
    assert FateOf(e, t) == if c <= max then Resend else GiveUp;
    AloneStill(k, e, Sent(e, t));
    assert [e][0 := Sent(e, t)] == [Sent(e, t)];
  }

  lemma {:induction false} EagerRun(id: nat, context: int, owner: nat, max: int, c: nat) returns (steps: seq<Step>)
    requires 1 <= c && (if max > 0 then c <= max + 1 else c == 1) && max <= 29
    ensures IsRun(Eager(id, context, owner, max, c), steps)
    ensures var s, m := Final(Eager(id, context, owner, max, c), steps), if max > 0 then max else 0;
            |s.ended| == 1 && s.ended[0].GaveUp? && s.ended[0].entry.context == context && s.ended[0].at == Wait(m + 2)
    decreases 30 - c
  {
    hide Interval, Wait, Visit, CanVisit;
    EagerStep(id, context, owner, max, c);
    var s := Eager(id, context, owner, max, c);
    assert s.table[id % BUCKETS][0].context == context;
    var step := Visiting(id % BUCKETS, 0, Wait(c + 1), Wait(c + 1));
    hide Eager;
    if c <= max {
      var rest := EagerRun(id, context, owner, max, c + 1);
      steps := [step] + rest;
      assert steps[1..] == rest;
    } else {
      steps := [step];
      assert IsRun(Apply(s, step), steps[1..]);
    }
  }

  /** The bound is met: some run gives a packet with limit m up at exactly that time. So
      2^(m+1) + m holds of all runs if and only if m <= 22. */
  lemma GiveUpCanBeThatEarly(id: nat, context: int, owner: nat, max: int) returns (steps: seq<Step>)
    requires max <= 29
    ensures IsRun(State(0, 0, seq(BUCKETS, _ => []), []), steps)
    ensures var s, m := Final(State(0, 0, seq(BUCKETS, _ => []), []), steps), if max > 0 then max else 0;
            && |s.ended| == 1 && s.ended[0].GaveUp? && s.ended[0].entry.context == context
            && s.ended[0].at == Pow2(m + 1) + if m <= 22 then m else 22
  {
    hide Pow2;
    var empty := State(0, 0, seq(BUCKETS, _ => []), []);
    var step, k := Inserting(id, context, owner, max, 0), id % BUCKETS;
    assert Wait(1) == 0;
    hide Interval, Wait;
    assert Enabled(empty, step) && empty.table[k] == [];
    assert empty.table[k] + [Entry(0, id, context, owner, max, 1, 0, 0, 0)] == [Entry(0, id, context, owner, max, 1, 0, 0, 0)];
    assert Insert(empty, id, context, owner, max, 0) == Eager(id, context, owner, max, 1);
    hide Eager, Insert;
    var rest := EagerRun(id, context, owner, max, 1);
    steps := [step] + rest;
    assert steps[1..] == rest;
    WaitIsExponential(if max > 0 then max + 2 else 2);
  }

  /** In every run from the empty table, whatever the interleaving: each packet started
      is pending or has ended, and has ended at most once. */
  lemma RunsHaveOneOutcome(t: int, steps: seq<Step>)
    requires IsRun(State(0, t, seq(BUCKETS, _ => []), []), steps)
    ensures var s := Final(State(0, t, seq(BUCKETS, _ => []), []), steps);
            && (forall i, j :: 0 <= i < j < |s.ended| ==> s.ended[i].entry.serial != s.ended[j].entry.serial)
            && (forall x :: 0 <= x < s.next ==> InTable(s.table, x) + InEnded(s.ended, x) == 1)
  {
    EmptyIsGood(t);
    RunKept(State(0, t, seq(BUCKETS, _ => []), []), steps);
    var s := Final(State(0, t, seq(BUCKETS, _ => []), []), steps);
    forall i, j | 0 <= i < j < |s.ended|
      ensures s.ended[i].entry.serial != s.ended[j].entry.serial
    {
      OneOutcome(s, j);
    }
  }

  // What becomes of a packet in a run

  ghost predicate Pending(s: State, e: Entry)
  {
    |s.table| == BUCKETS && e in s.table[e.id % BUCKETS]
  }

  /** f is what e has become: the same packet, untouched or sent again. */
  ghost predicate Later(e: Entry, f: Entry)
  {
    && f == e.(count := f.count, lastSent := f.lastSent, sends := f.sends)
    && (f == e || f.sends > e.sends)
  }

  /** Histories only grow. */
  ghost predicate Grows(s: State, w: State)
  {
    s.next <= w.next && s.now <= w.now && s.ended <= w.ended && |s.table| == |w.table|
  }

  /** e has left the table between s and w. */
  ghost predicate EndedSince(s: State, w: State, e: Entry)
  {
    exists j :: |s.ended| <= j < |w.ended| && Later(e, w.ended[j].entry)
  }

  /** e is still in the table at w, as f. */
  ghost predicate StillPending(w: State, e: Entry, f: Entry)
  {
    Pending(w, f) && Later(e, f)
  }

  lemma StepGrows(s: State, step: Step)
    requires Good(s) && Enabled(s, step)
    ensures Grows(s, Apply(s, step))
  {
    hide Interval;
  }

  lemma InCut(es: seq<Entry>, i: nat, e: Entry)
    requires i < |es| && e in es && e != es[i]
    ensures e in Cut(es, i)
  {
    var j :| 0 <= j < |es| && es[j] == e;
    assert e == Cut(es, i)[if j < i then j else j - 1];
  }

  /** One step: the packet stays as it is, is sent again, or ends. */
  lemma StepTracks(s: State, step: Step, e: Entry) returns (f: Entry, gone: bool)
    requires Good(s) && Enabled(s, step) && Pending(s, e)
    ensures if gone then EndedSince(s, Apply(s, step), e) else StillPending(Apply(s, step), e, f)
  {
    hide Interval, Wait, Conserved;
    var w := Apply(s, step);
    f, gone := e, false;
    match step
    case Inserting(_, _, _, _, _) =>
    case Deleting(id) =>
      var k := id % BUCKETS;
      var i := Find(s.table[k], id);
      if i < |s.table[k]| && k == e.id % BUCKETS {
        if e == s.table[k][i] {
          gone := true;
          assert Later(e, w.ended[|s.ended|].entry);
        } else {
          InCut(s.table[k], i, e);
        }
      }
    case Visiting(k, i, t, u) =>
      if k == e.id % BUCKETS {
        f, gone := VisitTracks(s, k, i, t, u, e);
      }
  }

  lemma VisitTracks(s: State, k: nat, i: nat, t: int, u: int, e: Entry) returns (f: Entry, gone: bool)
    requires |s.table| == BUCKETS && CanVisit(s, k, i, t, u) && k == e.id % BUCKETS && e in s.table[k]
    ensures if gone then EndedSince(s, Visit(s, k, i, t, u), e) else StillPending(Visit(s, k, i, t, u), e, f)
  {
    hide Interval;
    var es, w := s.table[k], Visit(s, k, i, t, u);
    f, gone := e, false;
    match FateOf(es[i], t)
    case Keep =>
    case Resend =>
      if e == es[i] {
        f := Sent(e, u);
        assert f == es[i := f][i];
      } else {
        var j :| 0 <= j < |es| && es[j] == e;
        assert es[i := Sent(es[i], u)][j] == e;
      }
    case GiveUp =>
      if e == es[i] {
        gone := true;
        assert Later(e, w.ended[|s.ended|].entry);
      } else {
        InCut(es, i, e);
      }
  }

  lemma {:induction false} RunGrows(s: State, steps: seq<Step>)
    requires Good(s) && IsRun(s, steps)
    ensures Grows(s, Final(s, steps))
    decreases |steps|
  {
    hide Good, Enabled, Apply;
    if |steps| > 0 {
      StepGrows(s, steps[0]);
      StepKept(s, steps[0]);
      RunGrows(Apply(s, steps[0]), steps[1..]);
    }
  }

  /** In every run a pending packet stays pending, or ends after the run began; all that
      is known of it stays the same, and its sends only grow. */
  lemma {:induction false} RunTracks(s: State, steps: seq<Step>, e: Entry) returns (f: Entry, gone: bool)
    requires Good(s) && IsRun(s, steps) && Pending(s, e)
    ensures if gone then EndedSince(s, Final(s, steps), e) else StillPending(Final(s, steps), e, f)
    decreases |steps|
  {
    hide Good, Enabled, Apply, Pending;
    f, gone := e, false;
    if |steps| > 0 {
      var v := Apply(s, steps[0]);
      var d;
      d, gone := StepTracks(s, steps[0], e);
      StepGrows(s, steps[0]);
      StepKept(s, steps[0]);
      if gone {
        RunGrows(v, steps[1..]);
        EndedStill(s, v, Final(s, steps), e);
      } else {
        f, gone := RunTracks(v, steps[1..], d);
        if gone {
          EndedEarlier(s, v, Final(s, steps), e, d);
        }
      }
    }
  }

  lemma EndedStill(s: State, v: State, w: State, e: Entry)
    requires EndedSince(s, v, e) && Grows(v, w)
    ensures EndedSince(s, w, e)
  {
    var j :| |s.ended| <= j < |v.ended| && Later(e, v.ended[j].entry);
    assert w.ended[j] == v.ended[j];
  }

  lemma EndedEarlier(s: State, v: State, w: State, e: Entry, d: Entry)
    requires Grows(s, v) && EndedSince(v, w, d) && Later(e, d)
    ensures EndedSince(s, w, e)
  {
    var j :| |v.ended| <= j < |w.ended| && Later(d, w.ended[j].entry);
    assert Later(e, w.ended[j].entry);
  }

  // A scan of one bucket. Every packet is compared with a fresh reading of the clock,
  // and one that is resent takes a second reading.

  ghost predicate Monotone(clock: nat -> int)
  {
    forall i: nat, j: nat :: i <= j ==> clock(i) <= clock(j)
  }

  ghost predicate Counted(es: seq<Entry>)
  {
    forall i :: 0 <= i < |es| ==> es[i].count <= 30
  }

  function Taken(e: Entry, t: int): nat
    requires e.count <= 30
  {
    if FateOf(e, t) == Resend then 2 else 1
  }

  function Kept(e: Entry, t: int, u: int): seq<Entry>
    requires e.count <= 30
  {
    match FateOf(e, t)
    case Keep => [e]
    case Resend => [Sent(e, u)]
    case GiveUp => []
  }

  /** The packets a scan keeps, in order, those due with one more transmission. */
  ghost function Scan(es: seq<Entry>, clock: nat -> int, r: nat): seq<Entry>
    requires Counted(es)
  {
    if |es| == 0 then []
    else Kept(es[0], clock(r), clock(r + 1)) + Scan(es[1..], clock, r + Taken(es[0], clock(r)))
  }

  /** Those it gives up, in order. */
  ghost function Dropped(es: seq<Entry>, clock: nat -> int, r: nat): seq<End>
    requires Counted(es)
  {
    if |es| == 0 then []
    else (if FateOf(es[0], clock(r)) == GiveUp then [GaveUp(es[0], clock(r))] else [])
         + Dropped(es[1..], clock, r + Taken(es[0], clock(r)))
  }

  /** The clock reading that comes next after it. */
  ghost function ReadUntil(es: seq<Entry>, clock: nat -> int, r: nat): nat
    requires Counted(es)
  {
    if |es| == 0 then r else ReadUntil(es[1..], clock, r + Taken(es[0], clock(r)))
  }

  ghost predicate PassReady(s: State, k: nat, i: nat, clock: nat -> int, r: nat)
  {
    && k < |s.table| && i <= |s.table[k]| && Monotone(clock) && s.now <= clock(r)
    && Counted(s.table[k][i..])
  }

  /** raw_pkt_retransmit on bucket k from position i on, one visit after the other. */
  ghost function Pass(s: State, k: nat, i: nat, clock: nat -> int, r: nat): State
    requires PassReady(s, k, i, clock, r)
    decreases |s.table[k]| - i
  {
    if i == |s.table[k]| then s
    else
      var e := s.table[k][i];
      PassOn(s, k, i, clock, r);
      Pass(Visit(s, k, i, clock(r), clock(r + 1)), k, if FateOf(e, clock(r)) == GiveUp then i else i + 1,
           clock, r + Taken(e, clock(r)))
  }

  lemma PassOn(s: State, k: nat, i: nat, clock: nat -> int, r: nat)
    requires PassReady(s, k, i, clock, r) && i < |s.table[k]|
    ensures s.table[k][i] == s.table[k][i..][0] && CanVisit(s, k, i, clock(r), clock(r + 1))
    ensures var e, w := s.table[k][i], Visit(s, k, i, clock(r), clock(r + 1));
            var j := if FateOf(e, clock(r)) == GiveUp then i else i + 1;
            && w.table == s.table[k := w.table[k]]
            && w.table[k][..j] == s.table[k][..i] + Kept(e, clock(r), clock(r + 1))
            && w.table[k][j..] == s.table[k][i + 1..] == s.table[k][i..][1..]
            && |w.table[k]| - j == |s.table[k]| - i - 1
            && w.ended == s.ended + (if FateOf(e, clock(r)) == GiveUp then [GaveUp(e, clock(r))] else [])
            && PassReady(w, k, j, clock, r + Taken(e, clock(r)))
  {
    hide Interval;
    assert s.table[k][i] == s.table[k][i..][0];
    assert s.table[k][i + 1..] == s.table[k][i..][1..];
    assert clock(r) <= clock(r + 1) <= clock(r + 2);
  }

  lemma PassUnfolds(s: State, k: nat, i: nat, clock: nat -> int, r: nat)
    requires PassReady(s, k, i, clock, r)
    ensures i == |s.table[k]| ==> Pass(s, k, i, clock, r) == s
    ensures i < |s.table[k]| ==>
      (PassOn(s, k, i, clock, r);
       var e := s.table[k][i];
       Pass(s, k, i, clock, r) ==
         Pass(Visit(s, k, i, clock(r), clock(r + 1)), k, if FateOf(e, clock(r)) == GiveUp then i else i + 1,
              clock, r + Taken(e, clock(r))))
  {
  }

  lemma ScanUnfolds(es: seq<Entry>, i: nat, clock: nat -> int, r: nat)
    requires i <= |es| && Counted(es[i..])
    ensures i == |es| ==> Scan(es[i..], clock, r) == [] && Dropped(es[i..], clock, r) == []
    ensures i < |es| ==>
      && es[i] == es[i..][0] && Counted(es[i + 1..])
      && Scan(es[i..], clock, r) ==
           Kept(es[i], clock(r), clock(r + 1)) + Scan(es[i + 1..], clock, r + Taken(es[i], clock(r)))
      && Dropped(es[i..], clock, r) ==
           (if FateOf(es[i], clock(r)) == GiveUp then [GaveUp(es[i], clock(r))] else [])
           + Dropped(es[i + 1..], clock, r + Taken(es[i], clock(r)))
  {
    hide FateOf;
    if i < |es| {
      assert es[i] == es[i..][0] && es[i + 1..] == es[i..][1..];
    }
  }

  lemma Glue(before: seq<seq<Entry>>, after: seq<seq<Entry>>, k: nat, done: seq<Entry>, front: seq<Entry>,
             kept: seq<Entry>, rest: seq<Entry>)
    requires k < |before| == |after| && after == before[k := after[k]] && done == front + kept
    ensures after[k := done + rest] == before[k := front + (kept + rest)]
  {
    assert done + rest == front + (kept + rest);
  }

  /** Unlinking while walking, at the head, in the middle or several in a row, amounts
      to filtering and mapping the bucket. */
  lemma {:induction false} PassIsScan(s: State, k: nat, i: nat, clock: nat -> int, r: nat)
    requires PassReady(s, k, i, clock, r)
    ensures var rest := s.table[k][i..];
            && Pass(s, k, i, clock, r).table == s.table[k := s.table[k][..i] + Scan(rest, clock, r)]
            && Pass(s, k, i, clock, r).ended == s.ended + Dropped(rest, clock, r)
    decreases |s.table[k]| - i
  {
    hide Visit, FateOf, Kept, Taken, Pass, Scan, Dropped, Monotone, Counted;
    var es := s.table[k];
    PassUnfolds(s, k, i, clock, r);
    ScanUnfolds(es, i, clock, r);
    if i == |es| {
      assert es[..i] + [] == es;
    } else {
      PassOn(s, k, i, clock, r);
      var e, w := es[i], Visit(s, k, i, clock(r), clock(r + 1));
      var j, q := if FateOf(e, clock(r)) == GiveUp then i else i + 1, r + Taken(e, clock(r));
      PassIsScan(w, k, j, clock, q);
      Glue(s.table, w.table, k, w.table[k][..j], es[..i], Kept(e, clock(r), clock(r + 1)), Scan(es[i + 1..], clock, q));
    }
  }

  // A scan of the whole table, undisturbed

  ghost predicate AllCounted(table: seq<seq<Entry>>)
  {
    forall k :: 0 <= k < |table| ==> Counted(table[k])
  }

  /** The clock reading at which the scan enters bucket k. */
  ghost function ReadAt(table: seq<seq<Entry>>, clock: nat -> int, r: nat, k: nat): nat
    requires AllCounted(table) && k <= |table|
  {
    if k == 0 then r else ReadUntil(table[k - 1], clock, ReadAt(table, clock, r, k - 1))
  }

  /** What it has given up by then. */
  ghost function DroppedBy(table: seq<seq<Entry>>, clock: nat -> int, r: nat, k: nat): seq<End>
    requires AllCounted(table) && k <= |table|
  {
    if k == 0 then []
    else DroppedBy(table, clock, r, k - 1) + Dropped(table[k - 1], clock, ReadAt(table, clock, r, k - 1))
  }

  // What a scan leaves, whatever else happens meanwhile

  ghost predicate Due(e: Entry, t: int)
  {
    e.count <= 30 && t - e.lastSent >= Interval(e.count)
  }

  /** No packet of es has been due since before time t. */
  ghost predicate Settled(es: seq<Entry>, t: int)
  {
    forall i :: 0 <= i < |es| ==> SettledOne(es[i], t)
  }

  ghost predicate SettledOne(e: Entry, t: int)
  {
    e.lastSent >= t || (e.count <= 30 && !Due(e, t))
  }

  /** A visit settles its packet for any time up to its own. */
  lemma VisitSettles(s: State, k: nat, i: nat, t: int, u: int, from: int)
    requires CanVisit(s, k, i, t, u) && from <= t && Settled(s.table[k][..i], from)
    ensures var w := Visit(s, k, i, t, u);
            && Settled(w.table[k][..if FateOf(s.table[k][i], t) == GiveUp then i else i + 1], from)
            && forall j :: 0 <= j < |s.table| && j != k ==> w.table[j] == s.table[j]
  {
    hide SettledOne;
    var es, w := s.table[k], Visit(s, k, i, t, u);
    forall j | 0 <= j < i
      ensures SettledOne(w.table[k][j], from)
    {
      assert w.table[k][j] == es[..i][j];
    }
    if FateOf(es[i], t) != GiveUp {
      VisitedIsSettled(es[i], t, u, from);
      assert w.table[k][i] == if FateOf(es[i], t) == Keep then es[i] else Sent(es[i], u);
    }
  }

  lemma VisitedIsSettled(e: Entry, t: int, u: int, from: int)
    requires e.count <= 30 && from <= t <= u && FateOf(e, t) != GiveUp
    ensures SettledOne(if FateOf(e, t) == Keep then e else Sent(e, u), from)
  {
    hide Interval;
  }

  /** What starts and stops leave of a bucket: settled and countable if it was. */
  ghost predicate Stays(before: seq<seq<Entry>>, after: seq<seq<Entry>>, from: int)
  {
    && |before| == |after|
    && (forall k :: 0 <= k < |before| && Settled(before[k], from) ==> Settled(after[k], from))
    && (forall k :: 0 <= k < |before| && Counted(before[k]) ==> Counted(after[k]))
  }

  /** Fresh packets may have been added at the end. */
  ghost predicate Appended(before: seq<Entry>, after: seq<Entry>)
  {
    before <= after && Counted(after[|before|..])
  }

  lemma StaysOn(a: seq<seq<Entry>>, b: seq<seq<Entry>>, c: seq<seq<Entry>>, from: int)
    requires Stays(a, b, from) && Stays(b, c, from)
    ensures Stays(a, c, from)
  {
    hide Settled, Counted;
  }

  lemma AppendedOn(a: seq<Entry>, b: seq<Entry>, c: seq<Entry>)
    requires Appended(a, b) && Appended(b, c)
    ensures Appended(a, c)
  {
    forall i | 0 <= i < |c| - |a|
      ensures c[|a|..][i].count <= 30
    {
      if i < |b| - |a| {
        assert c[|a|..][i] == b[|a|..][i];
      } else {
        assert c[|a|..][i] == c[|b|..][i - (|b| - |a|)];
      }
    }
  }

  lemma InsertStays(s: State, id: nat, context: int, owner: nat, max: int, t: int, from: int)
    requires CanInsert(s, t) && from <= t
    ensures var w := Insert(s, id, context, owner, max, t);
            && Stays(s.table, w.table, from)
            && forall k :: 0 <= k < BUCKETS ==> Appended(s.table[k], w.table[k])
  {
    hide Interval;
  }

  lemma DeleteStays(s: State, id: nat, from: int)
    requires |s.table| == BUCKETS
    ensures Stays(s.table, Delete(s, id).table, from)
    ensures forall k :: 0 <= k < BUCKETS && k != id % BUCKETS ==> Delete(s, id).table[k] == s.table[k]
  {
    hide SettledOne;
  }

  /** e was sent again between s and w, or has ended since. */
  ghost predicate DealtWith(s: State, w: State, e: Entry)
  {
    EndedSince(s, w, e) || exists f :: StillPending(w, e, f) && f.sends > e.sends
  }

  /** A run that leaves a packet's bucket settled has dealt with it if it was due. */
  lemma DueIsDealtWith(s: State, steps: seq<Step>, w: State, from: int, e: Entry)
    requires Good(s) && Leads(s, steps, w) && Pending(s, e) && e.count >= 1 && Due(e, from)
    requires |w.table| == BUCKETS && Settled(w.table[e.id % BUCKETS], from)
    ensures DealtWith(s, w, e)
  {
    var f, gone := RunTracks(s, steps, e);
    if !gone && f.sends == e.sends {
      assert f == e && SettledOne(e, from);
      IntervalIsPositive(e.count);
    }
  }
}
