/** What a walk of the wheel does to the timers it finds: it deals with each of them
    once, in list order, whatever the callbacks on the way start and stop. */
module WheelWalks {
  import opened Seqs
  import opened WheelMath
  import opened TimerLog
  import opened WheelModel
  import opened TimerWheel
  import opened WheelScripts

  /** xs is ys with some elements left out. */
  ghost predicate Subseq<X>(xs: seq<X>, ys: seq<X>)
  {
    |xs| == 0 || (|ys| > 0 && ((xs[0] == ys[0] && Subseq(xs[1..], ys[1..])) || Subseq(xs, ys[1..])))
  }

  lemma {:induction false} SubseqTrans<X>(xs: seq<X>, ys: seq<X>, zs: seq<X>)
    requires Subseq(xs, ys) && Subseq(ys, zs)
    ensures Subseq(xs, zs)
    decreases |zs|
  {
    if |xs| > 0 {
      if Subseq(ys, zs[1..]) {
        SubseqTrans(xs, ys, zs[1..]);
      } else if Subseq(xs, ys[1..]) {
        SubseqTrans(xs, ys[1..], zs[1..]);
      } else {
        SubseqTrans(xs[1..], ys[1..], zs[1..]);
      }
    }
  }

  lemma {:induction false} SubseqSame<X>(xs: seq<X>)
    ensures Subseq(xs, xs)
  {
    if |xs| > 0 {
      SubseqSame(xs[1..]);
    }
  }

  lemma {:induction false} SubseqWithout<X>(xs: seq<X>, x: X)
    ensures Subseq(Without(xs, x), xs)
  {
    if |xs| > 0 {
      SubseqWithout(xs[1..], x);
      assert ([xs[0]] + Without(xs[1..], x))[1..] == Without(xs[1..], x);
    }
  }

  /** Nothing is in it twice if nothing was. */
  lemma {:induction false} SubseqDistinct<X>(xs: seq<X>, ys: seq<X>)
    requires Subseq(xs, ys) && Distinct(ys)
    ensures Distinct(xs) && forall x :: x in xs ==> x in ys
    decreases |ys|
  {
    if |xs| > 0 {
      assert forall x :: x in ys[1..] ==> x in ys;
      if Subseq(xs, ys[1..]) {
        SubseqDistinct(xs, ys[1..]);
      } else {
        SubseqDistinct(xs[1..], ys[1..]);
        assert xs[0] !in ys[1..];
        forall j | 1 <= j < |xs|
          ensures xs[j] != xs[0] && xs[j] in ys
        {
          assert xs[j] == xs[1..][j - 1];
        }
        forall i, j | 1 <= i < j < |xs|
          ensures xs[i] != xs[j]
        {
          assert xs[i] == xs[1..][i - 1] && xs[j] == xs[1..][j - 1];
        }
      }
    }
  }

  /** The timers fired from position a of the log on, in order. */
  ghost function Firings(log: seq<Event<Timer>>, a: nat): seq<Timer>
  {
    if |log| <= a then []
    else
      var n := |log| - 1;
      Firings(log[..n], a) + if log[n].Fired? then [log[n].timer] else []
  }

  lemma {:induction false} FiringsSplit(log: seq<Event<Timer>>, a: nat, b: nat)
    requires a <= b <= |log|
    ensures Firings(log, a) == Firings(log[..b], a) + Firings(log, b)
  {
    if b == |log| {
      assert log[..b] == log;
    } else {
      var n := |log| - 1;
      FiringsSplit(log[..n], a, b);
      assert log[..n][..b] == log[..b];
    }
  }

  lemma FiringsExtend(log: seq<Event<Timer>>, ev: Event<Timer>, a: nat)
    requires a <= |log|
    ensures Firings(log + [ev], a) == Firings(log, a) + if ev.Fired? then [ev.timer] else []
  {
    assert (log + [ev])[..|log|] == log;
  }

  // A callback

  lemma TryKept(v: View<Timer>, s: Step<Timer>)
    requires Good(v)
    ensures Good(Try(v, s))
  {
    hide Good;
    if Enabled(v, s) {
      StepKept(v, s);
    }
  }

  /** A callback logs starts and stops only, and may take timers out of the walk. */
  lemma {:induction false} ActedIs(v: View<Timer>, actions: seq<Action>)
    requires Good(v)
    ensures var w := Acted(v, actions);
            && Good(w) && v.log <= w.log && w.now == v.now
            && Firings(w.log, |v.log|) == [] && Subseq(w.pending, v.pending)
  {
    hide Good;
    if |actions| == 0 {
      SubseqSame(v.pending);
    } else {
      var n := |actions| - 1;
      ActedIs(v, actions[..n]);
      var u := Acted(v, actions[..n]);
      match actions[n]
      case Begins(t, ahead) =>
        TryKept(u, Start(t, ahead));
        FiringsExtend(u.log, Started(t, u.now + ahead), |v.log|);
      case Ends(t) =>
        TryKept(u, Stop(t));
        FiringsExtend(u.log, Stopped(t), |v.log|);
        SubseqWithout(u.pending, t);
        SubseqTrans(Without(u.pending, t), u.pending, v.pending);
    }
  }

  /** t is armed for the same tick, and has been re-inserted k times more. */
  ghost predicate Moved(v: View<Timer>, w: View<Timer>, t: Timer, k: nat)
  {
    && t in v.due && t in v.moves && t in w.due && t in w.moves
    && w.due[t] == v.due[t] && w.moves[t] == v.moves[t] + k
  }

  /** The first thing logged about t from position a on is that it was stopped, or that
      it fired in tick n. */
  ghost predicate Ended(log: seq<Event<Timer>>, a: nat, t: Timer, n: nat)
  {
    exists i :: a <= i < |log| && Quiet(log, t, a, i) && (log[i] == Stopped(t) || log[i] == Fired(t, n))
  }

  lemma EndedStill(log: seq<Event<Timer>>, more: seq<Event<Timer>>, a: nat, t: Timer, n: nat)
    requires Ended(log, a, t, n) && log <= more
    ensures Ended(more, a, t, n)
  {
    var i :| a <= i < |log| && Quiet(log, t, a, i) && (log[i] == Stopped(t) || log[i] == Fired(t, n));
    assert forall k :: a <= k <= i ==> more[k] == log[k];
  }

  lemma EndedLater(log: seq<Event<Timer>>, a: nat, b: nat, t: Timer, n: nat)
    requires a <= b <= |log| && Quiet(log, t, a, b) && Ended(log, b, t, n)
    ensures Ended(log, a, t, n)
  {
    var i :| b <= i < |log| && Quiet(log, t, b, i) && (log[i] == Stopped(t) || log[i] == Fired(t, n));
    assert Quiet(log, t, a, i);
  }

  /** An armed timer is left alone by a callback, or the first thing it does is stop it. */
  lemma {:induction false} ActedTracks(v: View<Timer>, actions: seq<Action>, t: Timer)
    requires Good(v) && t in v.due
    ensures var w := Acted(v, actions);
            && (Ended(w.log, |v.log|, t, v.now)
                || (Quiet(w.log, t, |v.log|, |w.log|) && Moved(v, w, t, 0) && (t in w.pending <==> t in v.pending)))
  {
    hide Scheduled, Budget, SlotFor, LevelFor, LevelOf, Walks, Distinct, Logged;
    if |actions| > 0 {
      var n := |actions| - 1;
      ActedTracks(v, actions[..n], t);
      ActedIs(v, actions[..n]);
      ActedIs(v, actions);
      var u, w := Acted(v, actions[..n]), Acted(v, actions);
      assert u.log <= w.log;
      if Ended(u.log, |v.log|, t, v.now) {
        EndedStill(u.log, w.log, |v.log|, t, v.now);
      } else {
        ActTracks(v, u, actions[n], t);
        assert w == ActedBy(u, actions[n]);
      }
    }
  }

  lemma ActTracks(v: View<Timer>, u: View<Timer>, a: Action, t: Timer)
    requires v.log <= u.log && Quiet(u.log, t, |v.log|, |u.log|) && Moved(v, u, t, 0) && (t in u.pending <==> t in v.pending)
    ensures var w := ActedBy(u, a);
            && (Ended(w.log, |v.log|, t, v.now)
                || (Quiet(w.log, t, |v.log|, |w.log|) && Moved(v, w, t, 0) && (t in w.pending <==> t in v.pending)))
  {
    hide SlotFor, LevelFor, Walks, Distinct;
    var w := ActedBy(u, a);
    if a == Ends(t) && Enabled(u, Stop(t)) {
      assert w.log[|u.log|] == Stopped(t) && Quiet(w.log, t, |v.log|, |u.log|);
    }
  }

  // One timer of a walk

  lemma FiredIs(v: View<Timer>, actions: seq<Action>)
    requires Good(v) && Enabled(v, Fire)
    ensures var w := Acted(Apply(v, Fire), actions);
            && Good(w) && v.log <= w.log && w.now == v.now && Subseq(w.pending, v.pending[1..])
            && Firings(w.log, |v.log|) == [v.pending[0]]
  {
    hide Good, Acted;
    var u := Apply(v, Fire);
    StepKept(v, Fire);
    ActedIs(u, actions);
    var w := Acted(u, actions);
    FiringsExtend(v.log, Fired(v.pending[0], v.now), |v.log|);
    FiringsSplit(w.log, |v.log|, |u.log|);
    assert w.log[..|u.log|] == u.log;
  }

  lemma HandledIs(v: View<Timer>, actions: seq<Action>)
    requires Good(v) && v.pending != []
    ensures var w := Handled(v, actions);
            && Good(w) && v.log <= w.log && w.now == v.now && Subseq(w.pending, v.pending[1..])
            && Subseq(Firings(w.log, |v.log|), [v.pending[0]])
  {
    hide Good, Acted;
    CanHandle(v);
    if Enabled(v, Fire) {
      FiredIs(v, actions);
      SubseqSame([v.pending[0]]);
    } else {
      StepKept(v, Move);
      SubseqSame(v.pending[1..]);
    }
  }

  /** A callback leaves a timer other than its own alone, or first stops it. */
  lemma FiredTracks(v: View<Timer>, actions: seq<Action>, t: Timer)
    requires Good(v) && Enabled(v, Fire) && t in v.due && t != v.pending[0]
    ensures var w := Acted(Apply(v, Fire), actions);
            && (Ended(w.log, |v.log|, t, v.now)
                || (Quiet(w.log, t, |v.log|, |w.log|) && Moved(v, w, t, 0) && (t in w.pending <==> t in v.pending)))
  {
    hide Good, Acted, Ended;
    KeysOf(v, t);
    var u := Apply(v, Fire);
    StepKept(v, Fire);
    ActedIs(u, actions);
    ActedTracks(u, actions, t);
    var w := Acted(u, actions);
    assert w.log[..|u.log|] == u.log;
    assert w.log[|v.log|] == u.log[|v.log|];
    if Ended(w.log, |u.log|, t, v.now) {
      EndedLater(w.log, |v.log|, |u.log|, t, v.now);
    }
  }

  lemma FiredFirst(v: View<Timer>, actions: seq<Action>)
    requires Good(v) && Enabled(v, Fire)
    ensures Ended(Acted(Apply(v, Fire), actions).log, |v.log|, v.pending[0], v.now)
  {
    hide Good, Acted;
    StepKept(v, Fire);
    ActedIs(Apply(v, Fire), actions);
    var w := Acted(Apply(v, Fire), actions);
    assert w.log[|v.log|] == Fired(v.pending[0], v.now) && Quiet(w.log, v.pending[0], |v.log|, |v.log|);
  }

  lemma MoveTracks(v: View<Timer>, t: Timer)
    requires Good(v) && Enabled(v, Move) && t in v.due
    ensures var w, first := Apply(v, Move), t == v.pending[0];
            && Moved(v, w, t, if first then 1 else 0) && w.log == v.log
            && (first ==> t !in w.pending) && (!first ==> (t in w.pending <==> t in v.pending))
  {
    hide Good, SlotFor, LevelFor;
    KeysOf(v, t);
    PendingTail(v);
  }

  /** The timer the walk has come to fires or moves; any other armed one is left alone,
      unless the callback stops it. */
  lemma HandledTracks(v: View<Timer>, actions: seq<Action>, t: Timer)
    requires Good(v) && v.pending != [] && t in v.due
    ensures var w, first := Handled(v, actions), t == v.pending[0];
            && (Ended(w.log, |v.log|, t, v.now)
                || (Quiet(w.log, t, |v.log|, |w.log|) && Moved(v, w, t, if first then 1 else 0)
                    && (first ==> t !in w.pending) && (!first ==> (t in w.pending <==> t in v.pending))))
  {
    hide Good, Acted, Apply, Ended, Moved;
    CanHandle(v);
    if Enabled(v, Fire) {
      if t == v.pending[0] {
        FiredFirst(v, actions);
      } else {
        FiredTracks(v, actions, t);
      }
    } else {
      MoveTracks(v, t);
    }
  }

  lemma KeysOf(v: View<Timer>, t: Timer)
    requires Good(v) && t in v.due
    ensures t in v.place && t in v.moves && t in v.delay
  {
  }

  // The whole walk

  /** The timers that fire in a walk are among those it found, each once, in list order. */
  lemma {:induction false} WalkInOrder(v: View<Timer>, callbacks: Timer -> seq<Action>)
    requires Good(v)
    ensures var w := WalkedOut(v, callbacks);
            && Good(w) && v.log <= w.log && w.now == v.now && w.pending == []
            && Subseq(Firings(w.log, |v.log|), v.pending) && Distinct(Firings(w.log, |v.log|))
    decreases |v.pending|
  {
    hide Good, Handled;
    PendingDistinct(v);
    if v.pending != [] {
      var u := Handled(v, callbacks(v.pending[0]));
      HandledIs(v, callbacks(v.pending[0]));
      WalkInOrder(u, callbacks);
      var w := WalkedOut(u, callbacks);
      var now, later := Firings(u.log, |v.log|), Firings(w.log, |u.log|);
      FiringsSplit(w.log, |v.log|, |u.log|);
      assert w.log[..|u.log|] == u.log;
      SubseqTrans(later, u.pending, v.pending[1..]);
      Joined(now, later, v.pending);
    }
    SubseqDistinct(Firings(WalkedOut(v, callbacks).log, |v.log|), v.pending);
  }

  lemma PendingDistinct(v: View<Timer>)
    requires Good(v)
    ensures Distinct(v.pending)
  {
  }

  lemma Joined<X>(first: seq<X>, rest: seq<X>, xs: seq<X>)
    requires xs != [] && Subseq(first, [xs[0]]) && Subseq(rest, xs[1..])
    ensures Subseq(first + rest, xs)
  {
    assert [xs[0]][1..] == [];
    if |first| == 0 {
      assert first + rest == rest;
    } else {
      assert first == [xs[0]];
      assert (first + rest)[1..] == rest;
    }
  }

  /** An armed timer that a walk has not in front of it keeps its moves, and one that it
      has gets exactly one more, unless it fires or a callback stops it first. */
  lemma {:induction false} WalkHandlesOnce(v: View<Timer>, callbacks: Timer -> seq<Action>, t: Timer)
    requires Good(v) && t in v.due
    ensures var w := WalkedOut(v, callbacks);
            && (Ended(w.log, |v.log|, t, v.now)
                || (Quiet(w.log, t, |v.log|, |w.log|) && Moved(v, w, t, if t in v.pending then 1 else 0)))
    decreases |v.pending|
  {
    hide Good, Handled, Ended;
    KeysOf(v, t);
    if v.pending != [] {
      var a := callbacks(v.pending[0]);
      var u, w := Handled(v, a), WalkedOut(v, callbacks);
      HandledIs(v, a);
      HandledTracks(v, a, t);
      WalkInOrder(u, callbacks);
      if Ended(u.log, |v.log|, t, v.now) {
        EndedStill(u.log, w.log, |v.log|, t, v.now);
      } else {
        WalkHandlesOnce(u, callbacks, t);
        assert forall k :: |v.log| <= k < |u.log| ==> w.log[k] == u.log[k];
        if Ended(w.log, |u.log|, t, v.now) {
          EndedLater(w.log, |v.log|, |u.log|, t, v.now);
        }
      }
    }
  }

  // Whole runs

  /** The history of v is the beginning of that of w. */
  ghost predicate Grown(v: View<Timer>, w: View<Timer>)
  {
    v.log <= w.log && v.times <= w.times
  }

  lemma {:induction false} ActedGrows(v: View<Timer>, actions: seq<Action>)
    ensures Grown(v, Acted(v, actions))
  {
    hide SlotFor, LevelFor, Walks, Distinct, Without;
    if |actions| > 0 {
      ActedGrows(v, actions[..|actions| - 1]);
    }
  }

  lemma {:induction false} WalkedGrows(v: View<Timer>, callbacks: Timer -> seq<Action>)
    ensures Grown(v, WalkedOut(v, callbacks))
    decreases |v.pending|
  {
    hide SlotFor, LevelFor, Walks, Distinct, Without, Acted;
    if v.pending != [] {
      var a := callbacks(v.pending[0]);
      if Enabled(v, Fire) {
        ActedGrows(Apply(v, Fire), a);
      }
      assert Grown(v, Handled(v, a));
      WalkedGrows(Handled(v, a), callbacks);
    }
  }

  lemma {:induction false} CascadedGrows(v: View<Timer>, callbacks: Timer -> seq<Action>, chains: seq<seq<Timer>>)
    ensures Grown(v, Cascaded(v, callbacks, chains))
    decreases |chains|
  {
    hide SlotFor, LevelFor, Walks, Distinct, WalkedOut;
    if |chains| > 0 && Enabled(v, Begin(chains[0])) {
      var u := Apply(v, Begin(chains[0]));
      WalkedGrows(u, callbacks);
      CascadedGrows(WalkedOut(u, callbacks), callbacks, chains[1..]);
    }
  }

  lemma {:induction false} ExecutedGrows(v: View<Timer>, script: seq<Command>, walks: seq<seq<seq<Timer>>>)
    requires |walks| == |script|
    ensures Grown(v, Executed(v, script, walks))
  {
    hide Performed;
    if |script| > 0 {
      var n := |script| - 1;
      ExecutedGrows(v, script[..n], walks[..n]);
      PerformedGrows(Executed(v, script[..n], walks[..n]), script[n], walks[n]);
    }
  }

  lemma PerformedGrows(v: View<Timer>, c: Command, chains: seq<seq<Timer>>)
    ensures Grown(v, Performed(v, c, chains))
  {
    hide SlotFor, LevelFor, Walks, Distinct, Without, Cascaded;
    if c.Processes? {
      CascadedGrows(v, c.callbacks, chains);
    }
  }

  // Runs in which nothing is stopped

  function NoActions(t: Timer): seq<Action>
  {
    []
  }

  ghost predicate Stopless(script: seq<Command>)
  {
    forall c :: c in script ==> !c.Disarms? && (c.Processes? ==> c.callbacks == NoActions)
  }

  /** Nothing is stopped from position a on. */
  ghost predicate NoStops(log: seq<Event<Timer>>, a: nat)
  {
    forall j :: a <= j < |log| ==> !log[j].Stopped?
  }

  lemma {:induction false} WalkedStopless(v: View<Timer>, a: nat)
    requires NoStops(v.log, a)
    ensures NoStops(WalkedOut(v, NoActions).log, a)
    decreases |v.pending|
  {
    hide SlotFor, LevelFor, Walks, Distinct, Without;
    if v.pending != [] {
      assert NoStops(Handled(v, NoActions(v.pending[0])).log, a);
      WalkedStopless(Handled(v, NoActions(v.pending[0])), a);
    }
  }

  lemma {:induction false} CascadedStopless(v: View<Timer>, chains: seq<seq<Timer>>, a: nat)
    requires NoStops(v.log, a)
    ensures NoStops(Cascaded(v, NoActions, chains).log, a)
    decreases |chains|
  {
    hide SlotFor, LevelFor, Walks, Distinct, WalkedOut;
    if |chains| > 0 && Enabled(v, Begin(chains[0])) {
      var u := Apply(v, Begin(chains[0]));
      WalkedStopless(u, a);
      CascadedStopless(WalkedOut(u, NoActions), chains[1..], a);
    }
  }

  lemma {:induction false} ExecutedStopless(v: View<Timer>, script: seq<Command>, walks: seq<seq<seq<Timer>>>)
    requires |walks| == |script| && Stopless(script)
    ensures NoStops(Executed(v, script, walks).log, |v.log|)
  {
    hide Performed;
    if |script| > 0 {
      var n := |script| - 1;
      assert script[n] in script && forall c :: c in script[..n] ==> c in script;
      ExecutedStopless(v, script[..n], walks[..n]);
      PerformedStopless(Executed(v, script[..n], walks[..n]), script[n], walks[n], |v.log|);
    }
  }

  lemma PerformedStopless(v: View<Timer>, c: Command, chains: seq<seq<Timer>>, a: nat)
    requires NoStops(v.log, a) && !c.Disarms? && (c.Processes? ==> c.callbacks == NoActions)
    ensures NoStops(Performed(v, c, chains).log, a)
  {
    hide SlotFor, LevelFor, Walks, Distinct, Without, Cascaded;
    if c.Processes? {
      CascadedStopless(v, chains, a);
    }
  }
}
