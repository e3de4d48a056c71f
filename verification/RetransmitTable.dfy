/** The heap side of raw_proto_timer.c: singly linked buckets, the walk of an insertion
    to the tail, the unlinking of a deletion, and a scan that unlinks as it walks and
    drops the lock around each give-up callback.
 */
module RetransmitTable {
  import opened Seqs
  import opened BackOff
  import opened RetransmitModel

  class Packet {
    var entry: Entry
    var next: Packet?
    ghost var owner: Bucket?

    constructor (entry: Entry)
      ensures this.entry == entry && next == null && owner == null
    {
      this.entry, next, owner := entry, null, null;
    }
  }

  ghost function At(xs: seq<Packet>, i: nat): Packet?
  {
    if i < |xs| then xs[i] else null
  }

  /** HashTable_s */
  class Bucket {
    const index: nat
    var first: Packet?
    ghost var chain: seq<Packet>
    ghost var members: set<Packet>

    constructor (index: nat)
      ensures this.index == index && Holds([]) && members == {}
    {
      this.index := index;
      first, chain, members := null, [], {};
    }

    ghost predicate Linked()
      reads this, members`next, members`owner
    {
      && (forall n :: n in chain ==> n in members)
      && (forall n :: n in members ==> n in chain && n.owner == this)
      && Distinct(chain)
      && first == At(chain, 0)
      && (|chain| > 0 ==> chain[|chain| - 1].next == null)
      && (forall i, j :: 0 <= i < j < |chain| && j < i + 2 ==> chain[i].next == chain[j])
    }

    /** The list is well formed and its packets are es, in order. */
    ghost predicate Holds(es: seq<Entry>)
      reads this, members
    {
      Linked() && |es| == |chain| && forall i :: 0 <= i < |chain| ==> chain[i].entry == es[i]
    }

    lemma NextInChain(i: nat)
      requires Linked() && i < |chain|
      ensures chain[i].next == At(chain, i + 1)
    {
    }

    /** The walk of insert_raw_pkt. */
    method Last() returns (curr: Packet)
      requires Linked() && first != null
      ensures |chain| > 0 && curr == chain[|chain| - 1]
    {
      curr := first;
      ghost var p := 0;
      while curr.next != null
        invariant p < |chain| && curr == chain[p]
        decreases |chain| - p
      {
        NextInChain(p);
        curr := curr.next;
        p := p + 1;
      }
      NextInChain(p);
    }

    /** The end of insert_raw_pkt: the new node goes after the last one. */
    method Append(node: Packet, ghost es: seq<Entry>)
      requires Holds(es) && node.owner == null
      modifies this, members`next, node`next, node`owner
      ensures Holds(es + [node.entry]) && chain == old(chain) + [node] && members == old(members) + {node}
      ensures node.owner == this
    {
      if first == null {
        first := node;
      } else {
        var curr := Last();
        curr.next := node;
      }
      node.next := null;
      node.owner := this;
      chain := chain + [node];
      members := members + {node};
    }
  
    /** Unlinking the i-th node, whose predecessor is prev; at the head the scan lets
        prev be the node itself, and the first assignment does nothing. */
    method Unlink(prev: Packet, node: Packet, ghost i: nat, ghost es: seq<Entry>)
      requires Holds(es) && i < |chain| && node == chain[i]
      requires prev == if i == 0 then node else chain[i - 1]
      modifies this, members`next, members`owner
      ensures Holds(Cut(es, i)) && chain == Cut(old(chain), i) && members == old(members) - {node}
      ensures node.owner == null && node.next == old(node.next)
    {
      hide Cut;
      NextInChain(i);
      ghost var xs, ms := chain, members;
      prev.next := node.next;
      if node == first {
        first := node.next;
      }
      node.owner := null;
      chain := Cut(xs, i);
      members := members - {node};
      CutHolds(xs, i, es, ms);
    }

    lemma CutHolds(xs: seq<Packet>, i: nat, es: seq<Entry>, ms: set<Packet>)
      requires i < |xs| == |es| && Distinct(xs) && chain == Cut(xs, i) && members == ms - {xs[i]}
      requires forall n :: n in xs <==> n in ms
      requires forall n :: n in ms && n != xs[i] ==> n.owner == this
      requires forall j :: 0 <= j < |xs| ==> xs[j].entry == es[j]
      requires first == (if i == 0 then At(xs, 1) else xs[0])
      requires forall a, b :: 0 <= a < b < |xs| && b < a + 2 && a != i && b != i ==> xs[a].next == xs[b]
      requires i + 1 < |xs| ==> xs[|xs| - 1].next == null
      requires i > 0 ==> xs[i - 1].next == At(xs, i + 1)
      ensures Holds(Cut(es, i))
    {
      hide Distinct;
      CutChain(xs, i);
      CutMembers(xs, i);
      assert Linked();
      forall j | 0 <= j < |chain|
        ensures chain[j].entry == Cut(es, i)[j]
      {
        assert chain[j] == if j < i then xs[j] else xs[j + 1];
      }
    }

    static lemma CutMembers(xs: seq<Packet>, i: nat)
      requires i < |xs| && Distinct(xs)
      ensures forall n :: n in Cut(xs, i) <==> n in xs && n != xs[i]
    {
      forall j | 0 <= j < |xs| && j != i
        ensures xs[j] in Cut(xs, i)
      {
        assert xs[j] == Cut(xs, i)[if j < i then j else j - 1];
      }
    }

    lemma CutChain(xs: seq<Packet>, i: nat)
      requires i < |xs| && Distinct(xs) && chain == Cut(xs, i)
      requires forall a, b :: 0 <= a < b < |xs| && b < a + 2 && a != i && b != i ==> xs[a].next == xs[b]
      requires i + 1 < |xs| ==> xs[|xs| - 1].next == null
      requires i > 0 ==> xs[i - 1].next == At(xs, i + 1)
      ensures Distinct(chain) && xs[i] !in chain
      ensures |chain| > 0 ==> chain[|chain| - 1].next == null
      ensures forall a, b :: 0 <= a < b < |chain| && b < a + 2 ==> chain[a].next == chain[b]
    {
      forall a, b | 0 <= a < b < |chain| && b < a + 2
        ensures chain[a].next == chain[b]
      {
        if b < i {
          assert chain[a] == xs[a] && chain[b] == xs[b];
        } else if a >= i {
          assert chain[a] == xs[a + 1] && chain[b] == xs[b + 1];
        } else {
          assert chain[a] == xs[i - 1] && chain[b] == xs[i + 1];
        }
      }
    }
  
    /** delete_raw_pkt on its bucket: the first packet with the id, if there is one. */
    method Delete(id: nat, ghost es: seq<Entry>) returns (found: Packet?)
      requires Holds(es)
      modifies this, members`next, members`owner
      ensures found == null ==> Find(es, id) == |es| && Holds(es) && members == old(members)
      ensures found != null ==> Find(es, id) < |es| && found.entry == es[Find(es, id)] && found.owner == null
      ensures found != null ==> Holds(Cut(es, Find(es, id))) && members == old(members) - {found}
      ensures forall n :: n in members ==> n.owner == this
    {
      found := null;
      if first != null {
        if first.entry.id == id {
          found := first;
          Unlink(first, first, 0, es);
        } else {
          var prev, node := first, first.next;
          ghost var p := 1;
          NextInChain(0);
          while node != null
            invariant Holds(es) && members == old(members)
            invariant 0 < p <= |chain| && node == At(chain, p) && prev == chain[p - 1]
            invariant forall j :: 0 <= j < p ==> es[j].id != id
            decreases |chain| - p
          {
            if node.entry.id == id {
              found := node;
              Unlink(prev, node, p, es);
              return;
            }
            NextInChain(p);
            prev := node;
            node := node.next;
            p := p + 1;
          }
        }
      }
    }

    /** A due packet is sent again. */
    method Resend(node: Packet, t: int, ghost i: nat, ghost es: seq<Entry>)
      requires Holds(es) && i < |chain| && node == chain[i]
      modifies node`entry
      ensures Holds(es[i := Sent(es[i], t)])
    {
      node.entry := Sent(node.entry, t);
    }
  }

  /** What other threads may do to the table. */
  datatype Action = Starts(id: nat, context: int, owner: nat, max: int) | Stops(id: nat)

  /** How many packets the actions start, each with one reading of the clock. */
  ghost function Started(actions: seq<Action>): nat
  {
    if |actions| == 0 then 0
    else
      var a := actions[|actions| - 1];
      Started(actions[..|actions| - 1]) + if a.Starts? && 1 <= a.owner <= 4 then 1 else 0
  }

  /** The step an action takes, if any: an invalid owner or id is refused, and nothing is
      stopped in bucket k. */
  ghost function StepOf(a: Action, k: nat, t: int): seq<Step>
  {
    match a
    case Starts(id, context, owner, max) => if 1 <= owner <= 4 then [Inserting(id, context, owner, max, t)] else []
    case Stops(id) => if id != 0 && id % BUCKETS != k then [Deleting(id)] else []
  }

  ghost function StepsOf(actions: seq<Action>, k: nat, clock: nat -> int, r: nat): seq<Step>
  {
    if |actions| == 0 then []
    else
      var init := actions[..|actions| - 1];
      StepsOf(init, k, clock, r) + StepOf(actions[|actions| - 1], k, clock(r + Started(init)))
  }

  /** Those actions that take a step, in order. */
  ghost function Effective(actions: seq<Action>, k: nat): seq<Action>
  {
    if |actions| == 0 then []
    else
      var a := actions[|actions| - 1];
      Effective(actions[..|actions| - 1], k) +
      if Takes(a, k) then [a] else []
  }

  /** What the steps contain of other threads' actions, in order. */
  ghost function Foreign(steps: seq<Step>): seq<Action>
  {
    if |steps| == 0 then []
    else
      Foreign(steps[..|steps| - 1]) +
      match steps[|steps| - 1]
      case Inserting(id, context, owner, max, _) => [Starts(id, context, owner, max)]
      case Deleting(id) => [Stops(id)]
      case Visiting(_, _, _, _) => []
  }

  lemma {:induction false} ForeignJoin(xs: seq<Step>, ys: seq<Step>)
    ensures Foreign(xs + ys) == Foreign(xs) + Foreign(ys)
  {
    if |ys| == 0 {
      assert xs + ys == xs;
    } else {
      var n, all := |ys| - 1, xs + ys;
      ForeignJoin(xs, ys[..n]);
      assert all[..|all| - 1] == xs + ys[..n] && all[|all| - 1] == ys[n];
    }
  }

  /** Whether an action takes a step. */
  ghost predicate Takes(a: Action, k: nat)
  {
    (a.Starts? && 1 <= a.owner <= 4) || (a.Stops? && a.id != 0 && a.id % BUCKETS != k)
  }

  lemma StepIsAction(a: Action, k: nat, t: int)
    ensures Foreign(StepOf(a, k, t)) == if Takes(a, k) then [a] else []
    ensures Takes(a, k) <==> (a.Starts? && 1 <= a.owner <= 4) || (a.Stops? && a.id != 0 && a.id % 1000 != k)
    ensures forall step :: step in StepOf(a, k, t) ==> !step.Visiting?
  {
    var step := StepOf(a, k, t);
    if |step| == 1 {
      assert step[..0] == [];
    }
  }

  /** Each action is taken once, in order. */
  lemma {:induction false} StepsAreActions(actions: seq<Action>, k: nat, clock: nat -> int, r: nat)
    ensures Foreign(StepsOf(actions, k, clock, r)) == Effective(actions, k)
    ensures forall step :: step in StepsOf(actions, k, clock, r) ==> !step.Visiting?
  {
    hide Foreign, StepOf, Takes;
    if |actions| == 0 {
      NoForeign();
    } else {
      var n := |actions| - 1;
      var init, t := actions[..n], clock(r + Started(actions[..n]));
      StepsAreActions(init, k, clock, r);
      StepIsAction(actions[n], k, t);
      ForeignJoin(StepsOf(init, k, clock, r), StepOf(actions[n], k, t));
    }
  }

  /** The actions of the first n windows of a scan of bucket k. */
  ghost function InWindows(windows: seq<seq<Action>>, k: nat, n: nat): seq<Action>
    requires n <= |windows|
  {
    if n == 0 then [] else InWindows(windows, k, n - 1) + Effective(windows[n - 1], k)
  }

  /** How many packets have been given up. */
  ghost function GaveUps(ended: seq<End>): nat
  {
    if |ended| == 0 then 0
    else GaveUps(ended[..|ended| - 1]) + if ended[|ended| - 1].GaveUp? then 1 else 0
  }

  lemma GaveUpsExtend(ended: seq<End>, end: End)
    ensures GaveUps(ended + [end]) == GaveUps(ended) + if end.GaveUp? then 1 else 0
  {
    assert (ended + [end])[..|ended|] == ended;
  }

  lemma VisitGivesUp(s: State, k: nat, i: nat, t: int, u: int)
    requires CanVisit(s, k, i, t, u)
    ensures GaveUps(Visit(s, k, i, t, u).ended) ==
            GaveUps(s.ended) + if FateOf(s.table[k][i], t) == GiveUp then 1 else 0
  {
    hide Interval;
    GaveUpsExtend(s.ended, GaveUp(s.table[k][i], t));
  }

  /** Only scans give up. */
  lemma {:induction false} OthersGiveNothingUp(s: State, steps: seq<Step>)
    requires IsRun(s, steps) && forall step :: step in steps ==> !step.Visiting?
    ensures GaveUps(Final(s, steps).ended) == GaveUps(s.ended)
    decreases |steps|
  {
    if |steps| > 0 {
      hide GaveUps;
      assert steps[0] in steps && forall step :: step in steps[1..] ==> step in steps;
      OtherGivesNothingUp(s, steps[0]);
      OthersGiveNothingUp(Apply(s, steps[0]), steps[1..]);
    }
  }

  lemma OtherGivesNothingUp(s: State, step: Step)
    requires Enabled(s, step) && !step.Visiting?
    ensures GaveUps(Apply(s, step).ended) == GaveUps(s.ended)
  {
    if step.Deleting? {
      var k := step.id % BUCKETS;
      var i := Find(s.table[k], step.id);
      if i < |s.table[k]| {
        GaveUpsExtend(s.ended, Returned(s.table[k][i]));
      }
    }
  }

  /** The windows that open while n packets are given up. */
  function Opened(windows: seq<seq<Action>>, n: nat): nat
  {
    if n < |windows| then n else |windows|
  }

  class Table {
    const buckets: seq<Bucket>
    const clock: nat -> int        // the readings of time(NULL), in order
    var readings: nat
    var issued: nat                // packets started so far, for their serials
    ghost var nodes: set<Packet>
    ghost var state: State

    /** The buckets hold the packets of the table. */
    ghost predicate Stores(table: seq<seq<Entry>>)
      reads this`nodes, buckets, nodes
    {
      && |buckets| == BUCKETS == |table|
      && (forall b :: b in buckets ==> b.members <= nodes)
      && (forall k :: 0 <= k < BUCKETS ==> buckets[k].index == k && buckets[k].Holds(table[k]))
      && (forall n :: n in nodes && n.owner != null ==> n.owner in buckets && n in n.owner.members)
    }

    ghost predicate Valid()
      reads this, buckets, nodes
    {
      && |buckets| == BUCKETS == |state.table|
      && Stores(state.table) && Good(state)
      && issued == state.next && state.now <= clock(readings) && Monotone(clock)
    }

    constructor (clock: nat -> int)
      requires Monotone(clock)
      ensures Valid() && this.clock == clock && state == State(0, clock(0), seq(BUCKETS, _ => []), [])
      ensures fresh(buckets) && fresh(nodes)
    {
      var bs: seq<Bucket> := [];
      for k := 0 to BUCKETS
        invariant |bs| == k && fresh(bs)
        invariant forall j :: 0 <= j < k ==> bs[j].index == j && bs[j].members == {} && bs[j].Holds([])
      {
        var b := new Bucket(k);
        bs := bs + [b];
      }
      buckets, this.clock, readings, issued, nodes := bs, clock, 0, 0, {};
      state := State(0, clock(0), seq(BUCKETS, _ => []), []);
      EmptyIsGood(clock(0));
    }

    /** So in every table the methods can reach, each packet started is pending or has
        ended, and has ended at most once. */
    lemma Outcomes(x: nat)
      requires Valid()
      ensures x < issued ==> InTable(state.table, x) + InEnded(state.ended, x) == 1
      ensures forall i, j :: 0 <= i < j < |state.ended| ==> state.ended[i].entry.serial != state.ended[j].entry.serial
    {
      forall i, j | 0 <= i < j < |state.ended|
        ensures state.ended[i].entry.serial != state.ended[j].entry.serial
      {
        OneOutcome(state, j);
      }
    }

    method Put(node: Packet, k: nat, ghost table: seq<seq<Entry>>)
      requires Stores(table) && k < BUCKETS && node !in nodes && node.owner == null
      modifies this`nodes, buckets[k], nodes, node
      ensures Stores(table[k := table[k] + [node.entry]]) && nodes == old(nodes) + {node}
      ensures node.entry == old(node.entry)
      ensures forall j :: 0 <= j < BUCKETS ==> buckets[j].chain == old(buckets[j].chain) + if j == k then [node] else []
    {
      hide Bucket.Holds;
      Apart(k, table);
      buckets[k].Append(node, table[k]);
      nodes := nodes + {node};
      forall j | 0 <= j < BUCKETS
        ensures buckets[j].Holds(table[k := table[k] + [node.entry]][j])
      {
        assert j != k ==> old(buckets[j].Holds(table[j]));
      }
    }

    lemma Apart(k: nat, table: seq<seq<Entry>>)
      requires Stores(table) && k < BUCKETS
      ensures forall j :: 0 <= j < BUCKETS && j != k ==> buckets[j] != buckets[k] && buckets[j].members !! buckets[k].members
      ensures forall n :: n in buckets[k].members ==> n.owner == buckets[k]
    {
      forall j | 0 <= j < BUCKETS && j != k
        ensures buckets[j] != buckets[k] && buckets[j].members !! buckets[k].members
      {
        assert buckets[j].Holds(table[j]) && buckets[k].Holds(table[k]);
      }
    }

    method Take(id: nat, ghost table: seq<seq<Entry>>) returns (found: Packet?)
      requires Stores(table)
      modifies buckets[id % BUCKETS], nodes`next, nodes`owner
      ensures var k := id % BUCKETS; var i := Find(table[k], id);
              if i == |table[k]| then found == null && Stores(table)
              else found != null && found.entry == table[k][i] && Stores(table[k := Cut(table[k], i)])
      ensures forall b :: b in buckets && b.index != id % BUCKETS ==> b.chain == old(b.chain)
    {
      hide Find, Bucket.Holds;
      var k := id % BUCKETS;
      Apart(k, table);
      found := buckets[k].Delete(id, table[k]);
      forall j | 0 <= j < BUCKETS && j != k
        ensures buckets[j].Holds(table[j]) && buckets[j].chain == old(buckets[j].chain)
      {
        assert old(buckets[j].Holds(table[j]));
      }
    }

    /** raw_proto_timer_start */
    method Start(id: nat, context: int, owner: nat, max: int) returns (rc: int)
      requires Valid()
      modifies this, buckets, nodes
      ensures Valid() && fresh(nodes - old(nodes))
      ensures rc == if 1 <= owner <= 4 then 0 else -1
      ensures rc != 0 ==> state == old(state) && readings == old(readings)
      ensures rc == 0 ==> readings == old(readings) + 1
      ensures rc == 0 ==> state == Insert(old(state), id, context, owner, max, clock(old(readings)))
      ensures rc == 0 ==>
        var t, k := clock(old(readings)), id % 1000;
        && issued == old(issued) + 1 && state.now == t && state.ended == old(state).ended
        && |state.table| == |old(state).table| == 1000
        && state.table[k] == old(state).table[k]
             + [Entry(serial := old(issued), id := id, context := context, owner := owner, max := max,
                      count := 1, lastSent := t, sends := 0, startedAt := t)]
        && forall j :: 0 <= j < 1000 && j != k ==> state.table[j] == old(state).table[j]
      ensures forall j :: 0 <= j < BUCKETS ==> old(buckets[j].chain) <= buckets[j].chain
    {
      hide Good, Stores;
      if !(1 <= owner <= 4) {
        return -1;
      }
      var t := clock(readings);
      ghost var s := state;
      InsertKept(s, id, context, owner, max, t);
      var node := new Packet(Entry(issued, id, context, owner, max, 1, t, 0, t));
      Put(node, id % BUCKETS, s.table);
      readings, issued := readings + 1, issued + 1;
      state := Insert(s, id, context, owner, max, t);
      rc := 0;
    }

    /** raw_proto_timer_stop: the context of the packet stopped, or NULL. */
    method Stop(id: nat) returns (valid: bool, context: int, owner: nat)
      requires Valid()
      modifies this, buckets, nodes
      ensures Valid() && nodes == old(nodes) && readings == old(readings)
      ensures valid <==> id != 0
      ensures state == if valid then Delete(old(state), id) else old(state)
      ensures var k := id % 1000; var es := old(state).table[k];
        if valid && exists i :: 0 <= i < |es| && es[i].id == id then
          exists i :: 0 <= i < |es| && es[i].id == id && (forall j :: 0 <= j < i ==> es[j].id != id)
            && context == es[i].context && owner == es[i].owner
            && state == old(state).(table := old(state).table[k := es[..i] + es[i + 1..]],
                                    ended := old(state).ended + [Returned(es[i])])
        else context == 0 && owner == 1 && state == old(state)
      ensures forall b :: b in buckets && b.index != id % BUCKETS ==> b.chain == old(b.chain)
    {
      hide Good, Stores, Find;
      valid, context, owner := id != 0, 0, 1;
      if valid {
        ghost var s := state;
        DeleteKept(s, id);
        var found := Take(id, s.table);
        if found != null {
          context, owner := found.entry.context, found.entry.owner;
        }
        state := Delete(s, id);
      }
    }

    method SendAgain(node: Packet, t: int, k: nat, ghost i: nat, ghost table: seq<seq<Entry>>)
      requires Stores(table) && k < BUCKETS && i < |buckets[k].chain| && node == buckets[k].chain[i]
      modifies node`entry
      ensures i < |table[k]| && Stores(table[k := table[k][i := Sent(table[k][i], t)]])
    {
      buckets[k].Resend(node, t, i, table[k]);
    }

    method Drop(prev: Packet, node: Packet, k: nat, ghost i: nat, ghost table: seq<seq<Entry>>)
      requires Stores(table) && k < BUCKETS && i < |buckets[k].chain| && node == buckets[k].chain[i]
      requires prev == if i == 0 then node else buckets[k].chain[i - 1]
      modifies buckets[k], nodes`next, nodes`owner
      ensures i < |table[k]| && Stores(table[k := Cut(table[k], i)])
      ensures buckets[k].chain == Cut(old(buckets[k].chain), i)
    {
      buckets[k].Unlink(prev, node, i, table[k]);
    }

    lemma Reading(node: Packet, k: nat, i: nat, table: seq<seq<Entry>>)
      requires Stores(table) && k < BUCKETS && i < |buckets[k].chain| && node == buckets[k].chain[i]
      ensures i < |table[k]| && node.entry == table[k][i] && node in nodes
      ensures node.next == At(buckets[k].chain, i + 1) && (node == buckets[k].first <==> i == 0)
    {
      assert buckets[k].Holds(table[k]) && buckets[k] in buckets;
      assert node in buckets[k].chain;
      buckets[k].NextInChain(i);
    }

    /** The scan stands at curr, the p-th packet of bucket k; at the head prev is curr. */
    ghost predicate Standing(k: nat, prev: Packet?, curr: Packet?, p: nat)
      requires k < |buckets|
      reads buckets
    {
      curr != null ==>
        && p < |buckets[k].chain| && curr == buckets[k].chain[p]
        && prev == if p == 0 then curr else buckets[k].chain[p - 1]
    }

    /** One turn of the loop of raw_pkt_retransmit. */
    method VisitNode(k: nat, prev: Packet?, curr: Packet, ghost p: nat) returns (prev': Packet?, curr': Packet?, gaveUp: bool)
      requires Valid() && k < BUCKETS && Standing(k, prev, curr, p)
      requires p < |state.table[k]| ==> state.table[k][p].count <= 30
      modifies this, buckets, nodes
      ensures Valid() && nodes == old(nodes)
      ensures Standing(k, prev', curr', if gaveUp then p else p + 1)
      ensures curr' == At(buckets[k].chain, if gaveUp then p else p + 1)
      ensures CanVisit(old(state), k, p, clock(old(readings)), clock(old(readings) + 1))
      ensures state == Visit(old(state), k, p, clock(old(readings)), clock(old(readings) + 1))
      ensures readings == old(readings) + Taken(old(state).table[k][p], clock(old(readings)))
      ensures gaveUp <==> FateOf(old(state).table[k][p], clock(old(readings))) == GiveUp
      ensures |buckets[k].chain| == |old(buckets[k].chain)| - if gaveUp then 1 else 0
      ensures var s, t, u := old(state), clock(old(readings)), clock(old(readings) + 1);
        var es, e := s.table[k], s.table[k][p];
        if t - e.lastSent < Interval(e.count) then
          !gaveUp && readings == old(readings) + 1 && state == s.(now := t)
        else if e.count <= e.max then
          && !gaveUp && readings == old(readings) + 2
          && state == s.(now := u, table := s.table[k := es[p :=
               Entry(serial := e.serial, id := e.id, context := e.context, owner := e.owner, max := e.max,
                     count := e.count + 1, lastSent := u, sends := e.sends + 1, startedAt := e.startedAt)]])
        else
          && gaveUp && readings == old(readings) + 1
          && state == s.(now := t, table := s.table[k := es[..p] + es[p + 1..]], ended := s.ended + [GaveUp(e, t)])
    {
      hide Good, Stores, Interval;
      ghost var s := state;
      Reading(curr, k, p, s.table);
      var t := clock(readings);
      VisitKept(s, k, p, t, clock(readings + 1));
      var e := curr.entry;
      gaveUp := false;
      if t - e.lastSent >= Interval(e.count) {
        if e.count <= e.max {
          var u := clock(readings + 1);
          readings := readings + 2;
          SendAgain(curr, u, k, p, s.table);
          prev', curr' := curr, curr.next;
        } else {
          readings := readings + 1;
          var head := buckets[k].first;
          curr' := curr.next;
          Drop(prev, curr, k, p, s.table);
          prev' := if curr == head then curr' else prev;
          gaveUp := true;
        }
      } else {
        readings := readings + 1;
        prev', curr' := curr, curr.next;
      }
      state := Visit(s, k, p, t, clock(old(readings) + 1));
    }

    /** One action of another thread. */
    method Act(a: Action, k: nat, ghost from: int)
      requires Valid() && from <= clock(readings)
      modifies this, buckets, nodes
      ensures Valid() && fresh(nodes - old(nodes)) && readings == old(readings) + Started([a])
      ensures Leads(old(state), StepOf(a, k, clock(old(readings))), state)
      ensures k < BUCKETS ==> old(buckets[k].chain) <= buckets[k].chain && Appended(old(state.table[k]), state.table[k])
      ensures Stays(old(state.table), state.table, from)
    {
      hide Good, Stores, Find, Insert, Delete, Settled, Counted, IsRun, Final, Appended;
      StoresIndexed(k);
      NothingYet(state, k, from);
      assert [a][..0] == [];
      match a
      case Starts(id, context, owner, max) =>
        InsertStays(state, id, context, owner, max, clock(readings), from);
        LeadsOne(state, Inserting(id, context, owner, max, clock(readings)));
        var rc := Start(id, context, owner, max);
      case Stops(id) =>
        if id % BUCKETS != k && id != 0 {
          DeleteStays(state, id, from);
          LeadsOne(state, Deleting(id));
          var valid, context, owner := Stop(id);
        }
    }

    lemma NothingYet(s: State, k: nat, from: int)
      ensures Leads(s, [], s) && Stays(s.table, s.table, from)
      ensures k < |s.table| ==> Appended(s.table[k], s.table[k])
    {
    }

    /** What other threads, and the callback, do to the table while a scan is outside
        its lock, in order; in the middle of bucket k they stop no packet of that bucket. */
    method Interfere(actions: seq<Action>, k: nat, ghost from: int)
      requires Valid() && from <= clock(readings)
      modifies this, buckets, nodes
      ensures Valid() && fresh(nodes - old(nodes)) && readings == old(readings) + Started(actions)
      ensures Leads(old(state), StepsOf(actions, k, clock, old(readings)), state)
      ensures k < BUCKETS ==> old(buckets[k].chain) <= buckets[k].chain && Appended(old(state.table[k]), state.table[k])
      ensures Stays(old(state.table), state.table, from)
    {
      hide Good, Stores, Leads, Stays, Appended, StepOf, Monotone;
      NothingYet(state, k, from);
      ghost var s, r := state, readings;
      for i := 0 to |actions|
        invariant Valid() && fresh(nodes - old(nodes)) && readings == r + Started(actions[..i])
        invariant Leads(s, StepsOf(actions[..i], k, clock, r), state) && Stays(s.table, state.table, from)
        invariant k < BUCKETS ==> old(buckets[k].chain) <= buckets[k].chain && Appended(s.table[k], state.table[k])
      {
        assert actions[..i + 1][..i] == actions[..i] && [actions[i]][..0] == [];
        ghost var v, q := state, readings;
        From(r, q);
        Act(actions[i], k, from);
        LeadsOn(s, StepsOf(actions[..i], k, clock, r), v, StepOf(actions[i], k, clock(q)), state);
        StaysOn(s.table, v.table, state.table, from);
        if k < BUCKETS {
          AppendedOn(s.table[k], v.table[k], state.table[k]);
        }
      }
      assert actions[..|actions|] == actions;
    }

    lemma StoresIndexed(k: nat)
      requires Valid()
      ensures k < BUCKETS ==> buckets[k].index == k && |state.table[k]| == |buckets[k].chain|
    {
    }

    /** A scan of bucket k that began in s, at reading r, has come to curr: what it has
        passed is settled, what it has before it can be visited, and while nobody
        interferes it is the pass of the model. */
    ghost predicate Scanning(k: nat, prev: Packet?, curr: Packet?, p: nat, s: State, r: nat, from: int, quiet: bool)
      requires k < |buckets| && |state.table| == |s.table| == |buckets|
      reads this, buckets
    {
      && Standing(k, prev, curr, p) && r <= readings && p <= |state.table[k]|
      && Settled(state.table[k][..p], from) && (curr == null ==> Settled(state.table[k], from))
      && Counted(state.table[k][p..])
      && (forall j :: 0 <= j < |buckets| && j != k && Settled(s.table[j], from) ==> Settled(state.table[j], from))
      && (forall j :: 0 <= j < |buckets| && j != k && Counted(s.table[j]) ==> Counted(state.table[j]))
      && (quiet ==> curr == At(buckets[k].chain, p) && SamePass(s, r, state, k, p, clock, readings))
    }

    method ScanStep(k: nat, prev: Packet?, curr: Packet, ghost p: nat,
                    ghost s: State, ghost r: nat, ghost from: int, ghost quiet: bool)
      returns (prev': Packet?, curr': Packet?, gaveUp: bool, ghost step: Step)
      requires Valid() && k < BUCKETS && |s.table| == BUCKETS && from <= clock(r)
      requires Scanning(k, prev, curr, p, s, r, from, quiet)
      modifies this, buckets, nodes
      ensures Valid() && nodes == old(nodes)
      ensures Scanning(k, prev', curr', if gaveUp then p else p + 1, s, r, from, quiet)
      ensures |buckets[k].chain| == |old(buckets[k].chain)| - if gaveUp then 1 else 0
      ensures step.Visiting? && step.bucket == k && Leads(old(state), [step], state)
      ensures GaveUps(state.ended) == GaveUps(old(state).ended) + if gaveUp then 1 else 0
    {
      hide Good, Stores, Visit, Pass, FateOf, Taken, Settled, Monotone, SamePass, Standing, IsRun, Final;
      StoresIndexed(k);
      From(r, readings);
      ghost var v, q := state, readings;
      assert p < |buckets[k].chain| by {
        StandingInside(k, prev, curr, p);
      }
      assert v.table[k][p] == v.table[k][p..][0];
      prev', curr', gaveUp := VisitNode(k, prev, curr, p);
      step := Visiting(k, p, clock(q), clock(q + 1));
      LeadsOne(v, step);
      VisitSettles(v, k, p, clock(q), clock(q + 1), from);
      VisitRest(v, k, p, clock(q), clock(q + 1));
      VisitGivesUp(v, k, p, clock(q), clock(q + 1));
      if quiet {
        PassStep(s, r, v, k, p, clock, q);
      }
      StoresIndexed(k);
      ghost var p' := if gaveUp then p else p + 1;
      assert |state.table[k]| == p' ==> state.table[k][..p'] == state.table[k];
    }

    lemma StandingInside(k: nat, prev: Packet?, curr: Packet, p: nat)
      requires k < |buckets| && Standing(k, prev, curr, p)
      ensures p < |buckets[k].chain|
    {
    }

    /** A give-up callback, with the lock released. */
    method ScanWindow(actions: seq<Action>, k: nat, ghost prev: Packet?, ghost curr: Packet?, ghost p: nat,
                      ghost s: State, ghost r: nat, ghost from: int)
      requires Valid() && k < BUCKETS && |s.table| == BUCKETS && from <= clock(r)
      requires Scanning(k, prev, curr, p, s, r, from, false)
      modifies this, buckets, nodes
      ensures Valid() && fresh(nodes - old(nodes)) && Scanning(k, prev, curr, p, s, r, from, false)
      ensures Leads(old(state), StepsOf(actions, k, clock, old(readings)), state)
      ensures GaveUps(state.ended) == GaveUps(old(state).ended)
    {
      hide Good, Stores, Settled, Monotone, Counted, StepsOf, GaveUps, IsRun, Final;
      From(r, readings);
      ghost var es, v, q := state.table[k], state, readings;
      Interfere(actions, k, from);
      StepsAreActions(actions, k, clock, q);
      OthersGiveNothingUp(v, StepsOf(actions, k, clock, q));
      CountedOn(es, state.table[k], p);
      assert state.table[k][..p] == es[..p];
    }

    /** raw_pkt_retransmit on one bucket. windows[w] is what happens during the w-th
        give-up callback. Whatever it is, the scan is a run of visits to this bucket and of
        what its windows contain, each action once and in order, and leaves no packet that
        was due when it began; undisturbed, it filters and maps the bucket. */
    method ScanBucket(k: nat, windows: seq<seq<Action>>, ghost from: int)
      returns (ghost steps: seq<Step>, ghost gaveUps: nat)
      requires Valid() && k < BUCKETS && from <= clock(readings) && Counted(state.table[k])
      modifies this, buckets, nodes
      ensures Valid() && fresh(nodes - old(nodes)) && old(readings) <= readings
      ensures Leads(old(state), steps, state) && forall step :: step in steps && step.Visiting? ==> step.bucket == k
      ensures GaveUps(state.ended) == GaveUps(old(state).ended) + gaveUps
      ensures Foreign(steps) == InWindows(windows, k, Opened(windows, gaveUps))
      ensures Settled(state.table[k], from)
      ensures forall j :: 0 <= j < BUCKETS && Settled(old(state).table[j], from) ==> Settled(state.table[j], from)
      ensures forall j :: 0 <= j < BUCKETS && j != k && Counted(old(state).table[j]) ==> Counted(state.table[j])
      ensures windows == [] ==>
        var es := old(state).table[k];
        && readings == ReadUntil(es, clock, old(readings))
        && state.table == old(state).table[k := Scan(es, clock, old(readings))]
        && state.ended == old(state).ended + Dropped(es, clock, old(readings))
    {
      hide Good, Stores, Scan, Dropped, ReadUntil, Settled, Counted, Monotone, SamePass, Standing, Leads, GaveUps,
           Foreign, StepsOf, Scanning;
      ghost var s, r, quiet := state, readings, windows == [];
      var curr := buckets[k].first;
      var prev := curr;
      ghost var p := 0;
      var w := 0;
      steps, gaveUps := [], 0;
      NoForeign();
      NothingYet(s, k, from);
      ScanStarts(k, from, quiet);
      while curr != null
        invariant Valid() && fresh(nodes - old(nodes)) && w == Opened(windows, gaveUps)
        invariant Scanning(k, prev, curr, p, s, r, from, quiet)
        invariant Leads(s, steps, state) && forall step :: step in steps && step.Visiting? ==> step.bucket == k
        invariant GaveUps(state.ended) == GaveUps(s.ended) + gaveUps && Foreign(steps) == InWindows(windows, k, w)
        decreases |windows| - w, if curr == null then 0 else 1 + |buckets[k].chain| - p
      {
        ScanInside(k, prev, curr, p, s, r, from, quiet);
        ghost var v := state;
        var gaveUp;
        ghost var step;
        prev, curr, gaveUp, step := ScanStep(k, prev, curr, p, s, r, from, quiet);
        LeadsOn(s, steps, v, [step], state);
        VisitIsOwn(steps, step);
        steps := steps + [step];
        if !gaveUp {
          p := p + 1;
        } else {
          gaveUps := gaveUps + 1;
          if w < |windows| {
            ghost var u, q := state, readings;
            ScanWindow(windows[w], k, prev, curr, p, s, r, from);
            ghost var more := StepsOf(windows[w], k, clock, q);
            LeadsOn(s, steps, u, more, state);
            StepsAreActions(windows[w], k, clock, q);
            ForeignJoin(steps, more);
            steps := steps + more;
            w := w + 1;
          }
        }
      }
      ScanEnds(k, prev, p, s, r, from, quiet);
    }

    lemma ScanStarts(k: nat, from: int, quiet: bool)
      requires Valid() && k < BUCKETS && Counted(state.table[k])
      ensures Scanning(k, buckets[k].first, buckets[k].first, 0, state, readings, from, quiet)
    {
      hide Good, Stores, ReadUntil, Counted, Settled, SamePass;
      StandingAtHead(k);
      StoresIndexed(k);
      PassBegins(state, k, clock, readings, from);
    }

    lemma ScanInside(k: nat, prev: Packet?, curr: Packet, p: nat, s: State, r: nat, from: int, quiet: bool)
      requires k < |buckets| && |state.table| == |s.table| == |buckets| && Scanning(k, prev, curr, p, s, r, from, quiet)
      ensures p < |buckets[k].chain|
    {
    }

    lemma ScanEnds(k: nat, prev: Packet?, p: nat, s: State, r: nat, from: int, quiet: bool)
      requires Valid() && k < BUCKETS && |s.table| == BUCKETS && Counted(s.table[k])
      requires Scanning(k, prev, null, p, s, r, from, quiet)
      ensures r <= readings && Settled(state.table[k], from)
      ensures forall j :: 0 <= j < BUCKETS && Settled(s.table[j], from) ==> Settled(state.table[j], from)
      ensures forall j :: 0 <= j < BUCKETS && j != k && Counted(s.table[j]) ==> Counted(state.table[j])
      ensures quiet ==>
        && readings == ReadUntil(s.table[k], clock, r)
        && state.table == s.table[k := Scan(s.table[k], clock, r)]
        && state.ended == s.ended + Dropped(s.table[k], clock, r)
    {
      hide Good, Stores, Scan, Dropped, ReadUntil, Settled, Counted, Monotone, SamePass;
      if quiet {
        StoresIndexed(k);
        PassEnd(s, r, state, k, p, clock, readings);
      }
    }

    lemma StandingAtHead(k: nat)
      requires Valid() && k < BUCKETS
      ensures Standing(k, buckets[k].first, buckets[k].first, 0) && buckets[k].first == At(buckets[k].chain, 0)
    {
    }

    /** One turn of the outer loop of raw_pkt_retransmit. */
    method ScanNext(k: nat, actions: seq<Action>, windows: seq<seq<Action>>, ghost from: int)
      returns (ghost steps: seq<Step>, ghost gaveUps: nat)
      requires Valid() && k < BUCKETS && from <= clock(readings) && Swept(state.table, k, from)
      modifies this, buckets, nodes
      ensures Valid() && fresh(nodes - old(nodes)) && old(readings) <= readings && Swept(state.table, k + 1, from)
      ensures Leads(old(state), steps, state) && GaveUps(state.ended) == GaveUps(old(state).ended) + gaveUps
      ensures Foreign(steps) == Effective(actions, BUCKETS) + InWindows(windows, k, Opened(windows, gaveUps))
      ensures actions == [] && windows == [] ==>
        var es := old(state).table[k];
        && readings == ReadUntil(es, clock, old(readings))
        && state.table == old(state).table[k := Scan(es, clock, old(readings))]
        && state.ended == old(state).ended + Dropped(es, clock, old(readings))
    {
      hide Good, Stores, Scan, Dropped, ReadUntil, Settled, Counted, Monotone, IsRun, Final, Foreign, Effective, GaveUps;
      ghost var s, r := state, readings;
      NothingYet(s, BUCKETS, from);
      if actions != [] {
        Interfere(actions, BUCKETS, from);
        From(r, readings);
      }
      ghost var v := state;
      steps := StepsOf(actions, BUCKETS, clock, r);
      StepsAreActions(actions, BUCKETS, clock, r);
      assert Leads(s, steps, v);
      OthersGiveNothingUp(s, steps);
      ghost var scan;
      scan, gaveUps := ScanBucket(k, windows, from);
      LeadsOn(s, steps, v, scan, state);
      ForeignJoin(steps, scan);
      steps := steps + scan;
    }

    /** raw_pkt_retransmit. Other threads come in before each bucket and during each
        give-up callback. The scan is a run of visits and of what they do, each action once
        and in order, so each packet keeps its one outcome; and every packet that was due
        when the scan began has been sent again, given up or stopped when it ends. */
    method ScanTable(before: nat -> seq<Action>, windows: nat -> seq<seq<Action>>)
      returns (ghost steps: seq<Step>, ghost gaveUps: seq<nat>)
      requires Valid() && AllCounted(state.table)
      modifies this, buckets, nodes
      ensures Valid() && fresh(nodes - old(nodes))
      ensures Leads(old(state), steps, state) && Grows(old(state), state)
      ensures |gaveUps| == BUCKETS && GaveUps(state.ended) == GaveUps(old(state).ended) + Total(gaveUps)
      ensures Foreign(steps) == Actions(before, windows, gaveUps)
      ensures forall e :: Pending(old(state), e) && clock(old(readings)) - e.lastSent >= Interval(e.count) ==>
                DealtWith(old(state), state, e)
      ensures (forall k :: before(k) == [] && windows(k) == []) ==>
        ScannedTo(old(state), old(readings), state, readings, clock, BUCKETS)
    {
      hide Good, Stores, Scan, Dropped, ReadUntil, Monotone, ScannedTo, Leads, Swept, Foreign, Actions, Total, GaveUps;
      ghost var s, r, from := state, readings, clock(readings);
      ghost var quiet := forall k :: before(k) == [] && windows(k) == [];
      steps, gaveUps := [], [];
      NoForeign();
      NothingYet(s, BUCKETS, from);
      ScanBegins(s, r, clock, from);
      NoActions(before, windows);
      for k := 0 to BUCKETS
        invariant Valid() && fresh(nodes - old(nodes)) && r <= readings && Swept(state.table, k, from)
        invariant Leads(s, steps, state) && |gaveUps| == k && Foreign(steps) == Actions(before, windows, gaveUps)
        invariant GaveUps(state.ended) == GaveUps(s.ended) + Total(gaveUps)
        invariant quiet ==> ScannedTo(s, r, state, readings, clock, k)
      {
        From(r, readings);
        ghost var v, q := state, readings;
        ghost var more, n := ScanNext(k, before(k), windows(k), from);
        LeadsOn(s, steps, v, more, state);
        ForeignJoin(steps, more);
        ActionsOn(before, windows, gaveUps, n);
        steps, gaveUps := steps + more, gaveUps + [n];
        if quiet {
          ScanGoesOn(s, r, v, q, state, readings, clock, k);
        }
      }
      AllDealtWith(s, steps, state, from);
      PendingIsCounted(s);
    }

    lemma From(r: nat, q: nat)
      requires Valid() && r <= q
      ensures clock(r) <= clock(q)
    {
    }
  }

  lemma NoForeign()
    ensures Foreign([]) == []
  {
  }

  lemma VisitIsOwn(steps: seq<Step>, step: Step)
    requires step.Visiting?
    ensures Foreign(steps + [step]) == Foreign(steps)
  {
    assert (steps + [step])[..|steps|] == steps;
  }

  /** What the other threads do while the first |gaveUps| buckets are scanned, in order, where
      gaveUps[k] packets are given up in bucket k and each of them opens a window. */
  ghost function Actions(before: nat -> seq<Action>, windows: nat -> seq<seq<Action>>, gaveUps: seq<nat>): seq<Action>
  {
    if |gaveUps| == 0 then []
    else
      var k := |gaveUps| - 1;
      Actions(before, windows, gaveUps[..k])
      + (Effective(before(k), BUCKETS) + InWindows(windows(k), k, Opened(windows(k), gaveUps[k])))
  }

  ghost function Total(ns: seq<nat>): nat
  {
    if |ns| == 0 then 0 else Total(ns[..|ns| - 1]) + ns[|ns| - 1]
  }

  lemma NoActions(before: nat -> seq<Action>, windows: nat -> seq<seq<Action>>)
    ensures Actions(before, windows, []) == [] && Total([]) == 0
  {
  }

  /** What a scan lets in: before each bucket what that bucket's turn brings, and then one window
      for each packet given up in it, while there are windows. */
  lemma ActionsOn(before: nat -> seq<Action>, windows: nat -> seq<seq<Action>>, gaveUps: seq<nat>, n: nat)
    ensures var k, more := |gaveUps|, gaveUps + [n];
            && Total(more) == Total(gaveUps) + n
            && Actions(before, windows, more) == Actions(before, windows, gaveUps)
                 + (Effective(before(k), 1000) + InWindows(windows(k), k, if n < |windows(k)| then n else |windows(k)|))
  {
    hide Effective, InWindows;
    assert (gaveUps + [n])[..|gaveUps|] == gaveUps;
  }

  /** The buckets before k are settled, and the others can be scanned. */
  ghost predicate Swept(table: seq<seq<Entry>>, k: nat, from: int)
  {
    && (forall j :: 0 <= j < k && j < |table| ==> Settled(table[j], from))
    && (forall j :: k <= j < |table| ==> Counted(table[j]))
  }

  lemma AllDealtWith(s: State, steps: seq<Step>, w: State, from: int)
    requires Good(s) && Leads(s, steps, w) && |w.table| == BUCKETS
    requires Swept(w.table, BUCKETS, from)
    ensures Grows(s, w)
    ensures forall e :: Pending(s, e) && Due(e, from) ==> DealtWith(s, w, e)
  {
    RunGrows(s, steps);
    forall e | Pending(s, e) && Due(e, from)
      ensures DealtWith(s, w, e)
    {
      assert e.count >= 1 by {
        hide Conserved, Interval, Wait;
      }
      DueIsDealtWith(s, steps, w, from, e);
    }
  }

  lemma PendingIsCounted(s: State)
    requires AllCounted(s.table)
    ensures forall e :: Pending(s, e) ==> e.count <= 30
  {
  }

  /** An undisturbed scan of s has reached bucket k: the buckets before it are scanned,
      each from the clock reading at which the one before it was done. */
  ghost predicate ScannedTo(s: State, r: nat, v: State, q: nat, clock: nat -> int, k: nat)
  {
    && AllCounted(s.table) && k <= |s.table| == |v.table|
    && q == ReadAt(s.table, clock, r, k) && v.ended == s.ended + DroppedBy(s.table, clock, r, k)
    && (forall j :: k <= j < |s.table| ==> v.table[j] == s.table[j])
    && (forall j :: 0 <= j < k ==> v.table[j] == Scan(s.table[j], clock, ReadAt(s.table, clock, r, j)))
  }

  lemma ScanBegins(s: State, r: nat, clock: nat -> int, from: int)
    requires AllCounted(s.table)
    ensures ScannedTo(s, r, s, r, clock, 0) && Swept(s.table, 0, from)
  {
  }

  lemma ScanGoesOn(s: State, r: nat, v: State, q: nat, v': State, q': nat, clock: nat -> int, k: nat)
    requires ScannedTo(s, r, v, q, clock, k) && k < |s.table|
    requires v'.table == v.table[k := Scan(v.table[k], clock, q)] && v'.ended == v.ended + Dropped(v.table[k], clock, q)
    requires q' == ReadUntil(v.table[k], clock, q)
    ensures ScannedTo(s, r, v', q', clock, k + 1)
  {
    hide Scan, Dropped, ReadUntil;
  }

  /** The pass that began in s has reached v at position p. */
  ghost predicate SamePass(s: State, r: nat, v: State, k: nat, p: nat, clock: nat -> int, q: nat)
  {
    && PassReady(s, k, 0, clock, r) && PassReady(v, k, p, clock, q)
    && Pass(v, k, p, clock, q) == Pass(s, k, 0, clock, r)
    && ReadUntil(v.table[k][p..], clock, q) == ReadUntil(s.table[k][0..], clock, r)
  }

  lemma PassBegins(s: State, k: nat, clock: nat -> int, r: nat, from: int)
    requires k < |s.table| && Counted(s.table[k]) && Monotone(clock) && s.now <= clock(r)
    ensures Counted(s.table[k][0..]) && SamePass(s, r, s, k, 0, clock, r) && Settled(s.table[k][..0], from)
    ensures s.table[k] == [] ==> Settled(s.table[k], from)
  {
    assert s.table[k][0..] == s.table[k];
  }

  lemma VisitRest(v: State, k: nat, p: nat, t: int, u: int)
    requires CanVisit(v, k, p, t, u) && Counted(v.table[k][p..])
    ensures Counted(Visit(v, k, p, t, u).table[k][if FateOf(v.table[k][p], t) == GiveUp then p else p + 1..])
  {
    hide Interval;
    var es, w, p' := v.table[k], Visit(v, k, p, t, u), if FateOf(v.table[k][p], t) == GiveUp then p else p + 1;
    assert w.table[k][p'..] == es[p..][1..];
  }

  lemma CountedOn(before: seq<Entry>, after: seq<Entry>, p: nat)
    requires p <= |before| && Appended(before, after) && Counted(before[p..])
    ensures Counted(after[p..])
  {
    forall i | 0 <= i < |after| - p
      ensures after[p..][i].count <= 30
    {
      if i < |before| - p {
        assert after[p..][i] == before[p..][i];
      } else {
        assert after[p..][i] == after[|before|..][i - (|before| - p)];
      }
    }
  }

  lemma PassStep(s: State, r: nat, v: State, k: nat, p: nat, clock: nat -> int, q: nat)
    requires SamePass(s, r, v, k, p, clock, q) && p < |v.table[k]|
    ensures (PassOn(v, k, p, clock, q);
             var e := v.table[k][p];
             SamePass(s, r, Visit(v, k, p, clock(q), clock(q + 1)), k,
                      if FateOf(e, clock(q)) == GiveUp then p else p + 1, clock, q + Taken(e, clock(q))))
  {
    hide Visit, FateOf, Taken, Pass, Monotone, Counted;
    PassOn(v, k, p, clock, q);
    PassUnfolds(v, k, p, clock, q);
  }

  lemma PassEnd(s: State, r: nat, v: State, k: nat, p: nat, clock: nat -> int, q: nat)
    requires SamePass(s, r, v, k, p, clock, q) && p == |v.table[k]| && Counted(s.table[k])
    ensures q == ReadUntil(s.table[k], clock, r)
    ensures v.table == s.table[k := Scan(s.table[k], clock, r)] && v.ended == s.ended + Dropped(s.table[k], clock, r)
  {
    assert s.table[k][0..] == s.table[k];
    hide FateOf, Taken, Pass, Monotone, Scan, Dropped, Counted;
    PassUnfolds(v, k, p, clock, q);
    PassIsScan(s, k, 0, clock, r);
    assert s.table[k][..0] + Scan(s.table[k], clock, r) == Scan(s.table[k], clock, r);
  }
}
