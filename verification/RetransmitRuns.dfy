/** Whole runs of the retransmission table, in terms of the packets and the calls alone.
 */
module RetransmitRuns {
  import opened BackOff
  import opened RetransmitModel
  import opened RetransmitTable

  // The steps of a run, one after the other

  lemma RunUnrolls(s: State, step: Step, rest: seq<Step>, w: State)
    ensures Leads(s, [], w) <==> s == w
    ensures Leads(s, [step] + rest, w) <==> Enabled(s, step) && Leads(Apply(s, step), rest, w)
  {
    hide Enabled, Apply;
    assert ([step] + rest)[1..] == rest;
  }

  lemma StepEffect(s: State, step: Step)
    requires |s.table| == 1000 && Enabled(s, step)
    ensures var w := Apply(s, step);
      match step
      case Inserting(id, context, owner, max, t) =>
        var k := id % 1000;
        && s.now <= t
        && w == State(next := s.next + 1, now := t, ended := s.ended, table := s.table[k := s.table[k]
             + [Entry(serial := s.next, id := id, context := context, owner := owner, max := max,
                      count := 1, lastSent := t, sends := 0, startedAt := t)]])
      case Deleting(id) =>
        var k := id % 1000; var es := s.table[k];
        if exists i :: 0 <= i < |es| && es[i].id == id then
          exists i :: 0 <= i < |es| && es[i].id == id && (forall j :: 0 <= j < i ==> es[j].id != id)
            && w == s.(table := s.table[k := es[..i] + es[i + 1..]], ended := s.ended + [Returned(es[i])])
        else w == s
      case Visiting(k, i, t, u) =>
        && k < 1000 && i < |s.table[k]| && s.now <= t <= u
        && var es, e := s.table[k], s.table[k][i];
           if t - e.lastSent < Interval(e.count) then w == s.(now := t)
           else if e.count <= e.max then
             w == s.(now := u, table := s.table[k := es[i :=
               e.(count := e.count + 1, lastSent := u, sends := e.sends + 1)]])
           else
             w == s.(now := t, table := s.table[k := es[..i] + es[i + 1..]], ended := s.ended + [GaveUp(e, t)])
  {
    hide Interval;
    if step.Deleting? {
      var es := s.table[step.id % 1000];
      var i := Find(es, step.id);
      assert i < |es| ==> es[i].id == step.id;
    }
  }

  // What a packet carries

  /** The insertions among the steps, in order. */
  ghost function Inserts(steps: seq<Step>): seq<Step>
  {
    if |steps| == 0 then []
    else (if steps[0].Inserting? then [steps[0]] else []) + Inserts(steps[1..])
  }

  /** The packet is the one that the insertion of its serial number brought. */
  ghost predicate Carries(e: Entry, inserts: seq<Step>)
  {
    && e.serial < |inserts| && inserts[e.serial].Inserting?
    && e.id == inserts[e.serial].id && e.context == inserts[e.serial].context
    && e.owner == inserts[e.serial].owner && e.max == inserts[e.serial].max
    && e.startedAt == inserts[e.serial].t
  }

  ghost predicate AllCarry(s: State, inserts: seq<Step>)
  {
    && s.next == |inserts|
    && (forall k, i :: 0 <= k < |s.table| && 0 <= i < |s.table[k]| ==> Carries(s.table[k][i], inserts))
    && (forall j :: 0 <= j < |s.ended| ==> Carries(s.ended[j].entry, inserts))
  }

  lemma StepCarries(s: State, inserts: seq<Step>, step: Step)
    requires Enabled(s, step) && AllCarry(s, inserts)
    ensures AllCarry(Apply(s, step), inserts + if step.Inserting? then [step] else [])
  {
    hide Interval;
  }

  lemma {:induction false} RunCarries(s: State, inserts: seq<Step>, steps: seq<Step>)
    requires IsRun(s, steps) && AllCarry(s, inserts)
    ensures AllCarry(Final(s, steps), inserts + Inserts(steps))
    decreases |steps|
  {
    hide Enabled, Apply, AllCarry;
    if |steps| == 0 {
      assert inserts + Inserts(steps) == inserts;
    } else {
      var now := if steps[0].Inserting? then [steps[0]] else [];
      StepCarries(s, inserts, steps[0]);
      RunCarries(Apply(s, steps[0]), inserts + now, steps[1..]);
      assert inserts + now + Inserts(steps[1..]) == inserts + Inserts(steps);
    }
  }

  /** In every run from the empty table, each packet that is pending or has ended has the id,
      the context, the owner and the limit of the insertion that issued its serial number,
      and there is one serial number for each insertion. */
  lemma RunsKeepPackets(t: int, steps: seq<Step>)
    requires IsRun(State(0, t, seq(1000, _ => []), []), steps)
    ensures var w, inserts := Final(State(0, t, seq(1000, _ => []), []), steps), Inserts(steps);
      && w.next == |inserts|
      && (forall k, i :: 0 <= k < |w.table| && 0 <= i < |w.table[k]| ==> Carries(w.table[k][i], inserts))
      && (forall j :: 0 <= j < |w.ended| ==> Carries(w.ended[j].entry, inserts))
  {
    var s := State(0, t, seq(1000, _ => []), []);
    RunCarries(s, [], steps);
    assert [] + Inserts(steps) == Inserts(steps);
  }

  lemma InsertsUnrolls(step: Step, rest: seq<Step>)
    ensures Inserts([]) == []
    ensures Inserts([step] + rest) == if step.Inserting? then [step] + Inserts(rest) else Inserts(rest)
  {
    assert ([step] + rest)[1..] == rest;
  }

  /** A packet started under an id that nobody else uses is the one that a stop returns. */
  method StartThenStop(table: Table, id: nat, context: int, owner: nat, max: int)
    returns (valid: bool, context': int, owner': nat)
    requires table.Valid() && id != 0 && 1 <= owner <= 4
    requires forall k, i :: 0 <= k < |table.state.table| && 0 <= i < |table.state.table[k]| ==>
               table.state.table[k][i].id != id
    modifies table, table.buckets, table.nodes
    ensures table.Valid() && fresh(table.nodes - old(table.nodes))
    ensures valid && context' == context && owner' == owner
    ensures table.state.table == old(table.state).table
    ensures |table.state.ended| == |old(table.state).ended| + 1
    ensures old(table.state).ended == table.state.ended[..|old(table.state).ended|]
    ensures var end := table.state.ended[|old(table.state).ended|];
            && end.Returned? && end.entry.id == id && end.entry.context == context && end.entry.owner == owner
            && end.entry.max == max && end.entry.serial == old(table.issued)
  {
    hide Good, Table.Stores, Table.Valid, Find, Insert, Delete;
    ghost var k := id % 1000;
    ghost var before: seq<seq<Entry>> := table.state.table;
    Sized(table);
    var rc := table.Start(id, context, owner, max);
    ghost var middle: seq<seq<Entry>> := table.state.table;
    ghost var e := middle[k][|before[k]|];
    assert e in middle[k] && e.id == id;
    valid, context', owner' := table.Stop(id);
    ghost var i :| 0 <= i < |middle[k]| && middle[k][i].id == id && (forall j :: 0 <= j < i ==> middle[k][j].id != id)
                && context' == middle[k][i].context && owner' == middle[k][i].owner
                && table.state.table == middle[k := middle[k][..i] + middle[k][i + 1..]]
                && table.state.ended == old(table.state).ended + [Returned(middle[k][i])];
    LastOne(before[k], e, id, i);
    assert table.state.table == before;
  }

  lemma Sized(table: Table)
    requires table.Valid()
    ensures |table.state.table| == 1000
  {
  }

  /** The only packet with the id is the last one. */
  lemma LastOne(es: seq<Entry>, e: Entry, id: nat, i: nat)
    requires i <= |es| && (es + [e])[i].id == id && forall j :: 0 <= j < |es| ==> es[j].id != id
    ensures (es + [e])[i] == e && (es + [e])[..i] + (es + [e])[i + 1..] == es
  {
  }

  /** To be dealt with is to be among the packets ended since, or to be pending with more
      transmissions than before; either way as the packet that was started. */
  lemma DealtWithMeans(s: State, w: State, e: Entry)
    requires DealtWith(s, w, e) && |w.table| == 1000
    ensures
      || (exists j :: |s.ended| <= j < |w.ended| && Same(w.ended[j].entry, e))
      || (exists i :: 0 <= i < |w.table[e.id % 1000]| && Same(w.table[e.id % 1000][i], e)
                      && w.table[e.id % 1000][i].sends > e.sends)
  {
    if !EndedSince(s, w, e) {
      var f :| StillPending(w, e, f) && f.sends > e.sends;
      var i :| 0 <= i < |w.table[e.id % 1000]| && w.table[e.id % 1000][i] == f;
      assert Same(w.table[e.id % 1000][i], e);
    } else {
      var j :| |s.ended| <= j < |w.ended| && Later(e, w.ended[j].entry);
      assert Same(w.ended[j].entry, e);
    }
  }

  /** The same packet, however often it has been sent. */
  ghost predicate Same(f: Entry, e: Entry)
  {
    && f.serial == e.serial && f.id == e.id && f.context == e.context && f.owner == e.owner && f.max == e.max
    && f.startedAt == e.startedAt
  }

  // What other threads do

  lemma ForeignUnrolls(steps: seq<Step>, step: Step)
    ensures Foreign([]) == []
    ensures Foreign(steps + [step]) == Foreign(steps) +
      match step
      case Inserting(id, context, owner, max, _) => [Starts(id := id, context := context, owner := owner, max := max)]
      case Deleting(id) => [Stops(id)]
      case Visiting(_, _, _, _) => []
  {
    assert (steps + [step])[..|steps|] == steps;
  }

  /** Every start with a known owner takes effect, and every stop of an id other than 0 that is
      not of the bucket being scanned; nothing else does. */
  lemma EffectiveUnrolls(actions: seq<Action>, a: Action, k: nat)
    ensures Effective([], k) == []
    ensures Effective(actions + [a], k) == Effective(actions, k) +
      if (a.Starts? && 1 <= a.owner <= 4) || (a.Stops? && a.id != 0 && a.id % 1000 != k) then [a] else []
  {
    assert (actions + [a])[..|actions|] == actions;
  }

  lemma WindowsUnroll(windows: seq<seq<Action>>, k: nat, n: nat)
    requires n < |windows|
    ensures InWindows(windows, k, 0) == []
    ensures InWindows(windows, k, n + 1) == InWindows(windows, k, n) + Effective(windows[n], k)
  {
  }
}
