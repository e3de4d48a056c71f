/** What is done to the timing wheel from outside: callbacks and commands, what they make of
    the value model, and what they leave in the log. */
module WheelScripts {
  import opened Seqs
  import opened HList
  import opened WheelMath
  import opened TimerLog
  import opened WheelModel

  /** A timer is a list node whose item is its `expires` word. */
  type Timer = Node<nat>

  /** What a callback may do to the wheel. */
  datatype Action = Begins(timer: Timer, ahead: nat) | Ends(timer: Timer)

  /** What happens to the wheel from outside. */
  datatype Command =
    | Arms(timer: Timer, ahead: nat)
    | Disarms(timer: Timer)
    | Processes(callbacks: Timer -> seq<Action>)
    | Increments
  {
    ghost predicate Orderly(timers: set<Timer>)
    {
      match this
      case Arms(t, _) => t in timers
      case Disarms(t) => t in timers
      case Processes(callbacks) => forall t :: t in timers ==> Known(callbacks(t), timers)
      case Increments => true
    }
  }

  ghost predicate Known(actions: seq<Action>, timers: set<Timer>)
  {
    forall a :: a in actions ==> a.timer in timers
  }

  /** The pointer at the front of what a walk has left. */
  ghost function Front(pending: seq<Timer>): Link<nat>
  {
    if pending == [] then Null else To(pending[0])
  }

  lemma BackIn<K, V>(m: map<K, V>, k: K, v: V)
    ensures (m - {k})[k := v] == m[k := v]
    ensures k in m && m[k] == v ==> m[k := v] == m
  {
  }

  ghost function Try(v: View<Timer>, s: Step<Timer>): (w: View<Timer>)
  {
    if Enabled(v, s) then Apply(v, s) else v
  }

  /** What a callback does: every start and stop within the discipline, in order. */
  ghost function Acted(v: View<Timer>, actions: seq<Action>): (w: View<Timer>)
    ensures |w.pending| <= |v.pending|
  {
    if |actions| == 0 then v else ActedBy(Acted(v, actions[..|actions| - 1]), actions[|actions| - 1])
  }

  ghost function ActedBy(v: View<Timer>, a: Action): (w: View<Timer>)
    ensures |w.pending| <= |v.pending|
  {
    match a
    case Begins(t, ahead) => Try(v, Start(t, ahead))
    case Ends(t) => WithoutFront(v.pending, t); Try(v, Stop(t))
  }

  /** One timer of a walk: its callback follows its expiry at once; otherwise it moves.
      In a good view it does one or the other. */
  ghost function Handled(v: View<Timer>, actions: seq<Action>): (w: View<Timer>)
    requires v.pending != []
    ensures |w.pending| < |v.pending|
  {
    if Enabled(v, Fire) then Acted(Apply(v, Fire), actions)
    else if Enabled(v, Move) then Apply(v, Move)
    else v.(pending := v.pending[1..])
  }

  /** A walk, from its present timer to its end. */
  ghost function WalkedOut(v: View<Timer>, callbacks: Timer -> seq<Action>): View<Timer>
    decreases |v.pending|
  {
    if v.pending == [] then v else WalkedOut(Handled(v, callbacks(v.pending[0])), callbacks)
  }

  /** One walk per chain, level after level, and no further. */
  ghost function Cascaded(v: View<Timer>, callbacks: Timer -> seq<Action>, chains: seq<seq<Timer>>): View<Timer>
    decreases |chains|
  {
    if |chains| == 0 then Try(v, Skip)
    else if !Enabled(v, Begin(chains[0])) then v
    else Cascaded(WalkedOut(Apply(v, Begin(chains[0])), callbacks), callbacks, chains[1..])
  }

  /** A whole command; `chains` are the lists that its walks found. */
  ghost function Performed(v: View<Timer>, c: Command, chains: seq<seq<Timer>>): View<Timer>
  {
    match c
    case Arms(t, ahead) => Try(v, Start(t, ahead))
    case Disarms(t) => Try(v, Stop(t))
    case Processes(callbacks) => if v.done then v else Try(Cascaded(v, callbacks, chains), Finish)
    case Increments => Try(v, Tick)
  }

  ghost function Executed(v: View<Timer>, script: seq<Command>, walks: seq<seq<seq<Timer>>>): View<Timer>
    requires |walks| == |script|
    decreases |script|
  {
    if |script| == 0 then v
    else
      var n := |script| - 1;
      Performed(Executed(v, script[..n], walks[..n]), script[n], walks[n])
  }

  /** Every tick begun is walked to its end. */
  ghost predicate Complete(v: View<Timer>, script: seq<Command>, walks: seq<seq<seq<Timer>>>)
    requires |walks| == |script|
    decreases |script|
  {
    |script| == 0 ||
    var n := |script| - 1;
    && Complete(v, script[..n], walks[..n])
    && (script[n].Processes? ==> Executed(v, script, walks).done)
  }

  /** Whether the walks of the present tick are over after the command. */
  ghost function NowDone(done: bool, c: Command): bool
  {
    if c.Processes? then true else if c.Increments? then false else done
  }

  ghost function Done(done: bool, script: seq<Command>): bool
  {
    if |script| == 0 then done else NowDone(Done(done, script[..|script| - 1]), script[|script| - 1])
  }

  /** The increments taken: one for each Increments that finds the walks over. */
  ghost function Turns(done: bool, script: seq<Command>): nat
  {
    if |script| == 0 then 0
    else
      var n := |script| - 1;
      Turns(done, script[..n]) + if script[n].Increments? && Done(done, script[..n]) then 1 else 0
  }

  // What the log shows of a callback, of a walk and of a command, in terms of the log alone

  type Log = seq<Event<Timer>>

  /** The entries [a..b) are what one action of a callback in tick n leaves: a start of a timer
      that is not armed, for a later tick; a stop of one that is, unless the walk is to go to
      it next; and otherwise nothing. */
  ghost predicate Acts(log: Log, a: nat, b: nat, action: Action, saved: Link<nat>, n: nat)
  {
    && a <= b <= |log|
    && match action
       case Begins(x, d) =>
         if x !in Armed(log[..a]) && 1 <= d < WORD then b == a + 1 && log[a] == Started(x, n + d) else b == a
       case Ends(x) =>
         if x in Armed(log[..a]) && saved != To(x) then b == a + 1 && log[a] == Stopped(x) else b == a
  }

  /** From marks[0] on, the log holds what the actions leave, one after the other. */
  ghost predicate Traced(log: Log, marks: seq<nat>, actions: seq<Action>, saved: Link<nat>, n: nat)
  {
    && |marks| == |actions| + 1
    && forall i :: 0 <= i < |actions| ==> Acts(log, marks[i], marks[i + 1], actions[i], saved, n)
  }

  /** Read out: one start for each Begins that finds its timer unarmed, one stop for each Ends
      that finds it armed and not next in the walk, in the order of the actions, and no more. */
  lemma TracedIs(log: Log, marks: seq<nat>, actions: seq<Action>, saved: Link<nat>, n: nat, i: nat)
    requires Traced(log, marks, actions, saved, n) && i < |actions|
    ensures |marks| == |actions| + 1 && marks[i] <= marks[i + 1] <= |log|
    ensures log[marks[i]..marks[i + 1]] ==
      match actions[i]
      case Begins(x, d) => if x !in Armed(log[..marks[i]]) && 1 <= d < WORD then [Started(x, n + d)] else []
      case Ends(x) => if x in Armed(log[..marks[i]]) && saved != To(x) then [Stopped(x)] else []
  {
    hide Armed;
    assert Acts(log, marks[i], marks[i + 1], actions[i], saved, n);
  }

  /** The expiry at j is followed by what its callback does, and by nothing else up to the next
      expiry or the end of the tick. */
  ghost predicate CalledBack(log: Log, j: nat, actions: seq<Action>, saved: Link<nat>)
    requires j < |log| && log[j].Fired?
  {
    exists marks: seq<nat> :: Traced(log, marks, actions, saved, log[j].tick) && Bounds(log, marks, j)
  }

  ghost predicate Bounds(log: Log, marks: seq<nat>, j: nat)
  {
    && |marks| > 0 && marks[0] == j + 1
    && var end := marks[|marks| - 1]; end == |log| || (end < |log| && (log[end].Fired? || log[end].Ticked?))
  }

  ghost predicate StoppedSince(log: Log, a: nat, x: Timer)
  {
    exists j :: a <= j < |log| && log[j] == Stopped(x)
  }

  /** Those of xs that have not been stopped since position a. */
  ghost function Unstopped(xs: seq<Timer>, log: Log, a: nat): seq<Timer>
  {
    if |xs| == 0 then []
    else (if StoppedSince(log, a, xs[0]) then [] else [xs[0]]) + Unstopped(xs[1..], log, a)
  }

  /** In a walk over chain that began at position a, the expiry at j is of a timer of the chain
      and is followed by its callback, which spares the next timer that is still to be walked. */
  ghost predicate Answered(log: Log, a: nat, j: nat, chain: seq<Timer>, callbacks: Timer -> seq<Action>)
    requires j < |log| && log[j].Fired?
  {
    exists k :: 0 <= k < |chain| && chain[k] == log[j].timer
                && CalledBack(log, j, callbacks(chain[k]), Front(Unstopped(chain[k + 1..], log[..j], a)))
  }

  /** A walk has logged expiries and their callbacks, and nothing else. */
  ghost predicate WalkLog(log: Log, a: nat, chain: seq<Timer>, callbacks: Timer -> seq<Action>)
  {
    && a <= |log| && (a < |log| ==> log[a].Fired?)
    && forall j :: a <= j < |log| && log[j].Fired? ==> Answered(log, a, j, chain, callbacks)
  }

  lemma ActsStill(log: Log, more: Log, a: nat, b: nat, action: Action, saved: Link<nat>, n: nat)
    requires Acts(log, a, b, action, saved, n) && log <= more
    ensures Acts(more, a, b, action, saved, n)
  {
    hide Armed;
    assert more[..a] == log[..a];
  }

  lemma TracedStill(log: Log, more: Log, marks: seq<nat>, actions: seq<Action>, saved: Link<nat>, n: nat)
    requires Traced(log, marks, actions, saved, n) && log <= more
    ensures Traced(more, marks, actions, saved, n)
  {
    hide Acts;
    forall i | 0 <= i < |actions|
      ensures Acts(more, marks[i], marks[i + 1], actions[i], saved, n)
    {
      ActsStill(log, more, marks[i], marks[i + 1], actions[i], saved, n);
    }
  }

  /** One more action. */
  lemma TracedOn(log: Log, more: Log, marks: seq<nat>, actions: seq<Action>, i: nat, saved: Link<nat>, n: nat)
    requires i < |actions| && Traced(log, marks, actions[..i], saved, n) && log <= more
    requires marks[i] == |log| && Acts(more, |log|, |more|, actions[i], saved, n)
    ensures Traced(more, marks + [|more|], actions[..i + 1], saved, n)
  {
    hide Acts;
    TracedStill(log, more, marks, actions[..i], saved, n);
    var all := marks + [|more|];
    forall k | 0 <= k < i + 1
      ensures Acts(more, all[k], all[k + 1], actions[..i + 1][k], saved, n)
    {
      assert k < i ==> actions[..i + 1][k] == actions[..i][k];
    }
  }

  lemma {:induction false} UnstoppedNone(xs: seq<Timer>, log: Log, a: nat)
    requires forall j :: a <= j < |log| ==> !log[j].Stopped?
    ensures Unstopped(xs, log, a) == xs
  {
    if |xs| > 0 {
      UnstoppedNone(xs[1..], log, a);
    }
  }

  /** Only stops matter. */
  lemma {:induction false} UnstoppedSame(xs: seq<Timer>, log: Log, ev: Event<Timer>, a: nat)
    requires a <= |log| && !ev.Stopped?
    ensures Unstopped(xs, log + [ev], a) == Unstopped(xs, log, a)
  {
    if |xs| > 0 {
      UnstoppedSame(xs[1..], log, ev, a);
      assert StoppedSince(log + [ev], a, xs[0]) <==> StoppedSince(log, a, xs[0]) by {
        StoppedSplit(log, log + [ev], a, xs[0]);
      }
    }
  }

  lemma {:induction false} UnstoppedStop(xs: seq<Timer>, log: Log, a: nat, t: Timer)
    requires a <= |log|
    ensures Unstopped(xs, log + [Stopped(t)], a) == Without(Unstopped(xs, log, a), t)
  {
    if |xs| > 0 {
      UnstoppedStop(xs[1..], log, a, t);
      var more := log + [Stopped(t)];
      StoppedSplit(log, more, a, xs[0]);
      assert StoppedSince(more, |log|, xs[0]) <==> xs[0] == t by {
        assert more[|log|] == Stopped(t);
      }
      WithoutHead(xs[0], Unstopped(xs[1..], log, a), t);
    }
  }

  lemma WithoutHead(x: Timer, xs: seq<Timer>, t: Timer)
    ensures Without([x] + xs, t) == (if x == t then [] else [x]) + Without(xs, t)
    ensures Without([] + xs, t) == Without(xs, t)
  {
    assert ([x] + xs)[1..] == xs && [] + xs == xs;
  }

  lemma StoppedSplit(log: Log, more: Log, a: nat, x: Timer)
    requires a <= |log| && log <= more
    ensures StoppedSince(more, a, x) <==> StoppedSince(log, a, x) || StoppedSince(more, |log|, x)
  {
    if StoppedSince(log, a, x) {
      var j :| a <= j < |log| && log[j] == Stopped(x);
      assert more[j] == Stopped(x);
    }
    if j :| a <= j < |more| && more[j] == Stopped(x) {
      assert j < |log| ==> log[j] == Stopped(x);
    }
  }

  lemma {:induction false} UnstoppedOn(xs: seq<Timer>, log: Log, more: Log, a: nat)
    requires a <= |log| && log <= more
    ensures Unstopped(Unstopped(xs, log, a), more, |log|) == Unstopped(xs, more, a)
  {
    if |xs| > 0 {
      var rest := Unstopped(xs[1..], log, a);
      UnstoppedOn(xs[1..], log, more, a);
      StoppedSplit(log, more, a, xs[0]);
      if StoppedSince(log, a, xs[0]) {
        assert Unstopped(xs, log, a) == rest;
      } else {
        assert Unstopped(xs, log, a) == [xs[0]] + rest && ([xs[0]] + rest)[1..] == rest;
      }
    }
  }

  /** The first of xs that is not stopped. */
  lemma {:induction false} FirstUnstopped(xs: seq<Timer>, log: Log, a: nat) returns (k: nat)
    requires Unstopped(xs, log, a) != []
    ensures k < |xs| && Unstopped(xs, log, a)[0] == xs[k] && Unstopped(xs, log, a)[1..] == Unstopped(xs[k + 1..], log, a)
  {
    if StoppedSince(log, a, xs[0]) {
      k := FirstUnstopped(xs[1..], log, a);
      assert xs[1..][k + 1..] == xs[k + 2..];
      k := k + 1;
    } else {
      k := 0;
    }
  }

  /** What one action does to a view is what the log says it does, and the walk in progress
      loses the timers stopped. */
  lemma ActedByIs(v: View<Timer>, a: Action)
    requires Good(v) && v.floor > 0
    ensures var w := ActedBy(v, a);
            && v.log <= w.log && Acts(w.log, |v.log|, |w.log|, a, Front(v.pending), v.now)
            && w.pending == Unstopped(v.pending, w.log, |v.log|) && Front(w.pending) == Front(v.pending)
  {
    hide Good, SlotFor, LevelFor, Walks, Distinct, Without, Unstopped, Armed;
    var w := ActedBy(v, a);
    DueIsArmed(v);
    assert w.log[..|v.log|] == v.log;
    UnstoppedNone(v.pending, v.log, |v.log|);
    match a
    case Begins(t, d) =>
      UnstoppedSame(v.pending, v.log, Started(t, v.now + d), |v.log|);
    case Ends(t) =>
      WithoutFront(v.pending, t);
      UnstoppedStop(v.pending, v.log, |v.log|, t);
  }

  lemma DueIsArmed(v: View<Timer>)
    requires Good(v)
    ensures v.due == Armed(v.log)
  {
  }

  lemma {:induction false} TracedNoFired(log: Log, marks: seq<nat>, actions: seq<Action>, saved: Link<nat>, n: nat, j: nat)
    requires Traced(log, marks, actions, saved, n) && marks[0] <= j < marks[|actions|]
    ensures j < |log| && !log[j].Fired?
    decreases |actions|
  {
    hide Armed;
    var i := |actions| - 1;
    if |actions| > 0 {
      assert Acts(log, marks[i], marks[i + 1], actions[i], saved, n);
      if j < marks[i] {
        forall k | 0 <= k < i
          ensures Acts(log, marks[..i + 1][k], marks[..i + 1][k + 1], actions[..i][k], saved, n)
        {
          assert Acts(log, marks[k], marks[k + 1], actions[k], saved, n);
        }
        TracedNoFired(log, marks[..i + 1], actions[..i], saved, n, j);
      }
    }
  }

  lemma AnsweredStill(log: Log, more: Log, a: nat, j: nat, chain: seq<Timer>, callbacks: Timer -> seq<Action>)
    requires j < |log| && log[j].Fired? && Answered(log, a, j, chain, callbacks) && log <= more
    requires |log| < |more| ==> more[|log|].Fired? || more[|log|].Ticked?
    ensures Answered(more, a, j, chain, callbacks)
  {
    hide Traced, Unstopped;
    var k :| 0 <= k < |chain| && chain[k] == log[j].timer
             && CalledBack(log, j, callbacks(chain[k]), Front(Unstopped(chain[k + 1..], log[..j], a)));
    var saved := Front(Unstopped(chain[k + 1..], log[..j], a));
    var marks: seq<nat> :| Traced(log, marks, callbacks(chain[k]), saved, log[j].tick) && Bounds(log, marks, j);
    TracedStill(log, more, marks, callbacks(chain[k]), saved, log[j].tick);
    assert more[..j] == log[..j] && Bounds(more, marks, j);
    assert CalledBack(more, j, callbacks(chain[k]), saved);
  }

  /** A walk goes on: it has come to its k-th timer, and that has fired. */
  lemma WalkedOn(log: Log, more: Log, a: nat, chain: seq<Timer>, callbacks: Timer -> seq<Action>, k: nat, n: nat,
                 marks: seq<nat>)
    requires WalkLog(log, a, chain, callbacks) && k < |chain| && log + [Fired(chain[k], n)] <= more
    requires Traced(more, marks, callbacks(chain[k]), Front(Unstopped(chain[k + 1..], log, a)), n)
    requires marks[0] == |log| + 1 && marks[|marks| - 1] == |more|
    ensures WalkLog(more, a, chain, callbacks)
  {
    hide Traced, Unstopped, Answered;
    assert more[|log|] == Fired(chain[k], n) && more[..|log|] == log;
    var saved := Front(Unstopped(chain[k + 1..], log, a));
    assert |marks| == |callbacks(chain[k])| + 1 by {
      TracedLength(more, marks, callbacks(chain[k]), saved, n);
    }
    forall j | a <= j < |more| && more[j].Fired?
      ensures Answered(more, a, j, chain, callbacks)
    {
      if j < |log| {
        assert log[j] == more[j];
        AnsweredStill(log, more, a, j, chain, callbacks);
      } else if j == |log| {
        AnsweredNow(more, a, j, chain, callbacks, k, marks);
      } else {
        TracedNoFired(more, marks, callbacks(chain[k]), saved, n, j);
      }
    }
  }

  lemma NothingTraced(log: Log, pending: seq<Timer>, saved: Link<nat>, n: nat)
    ensures Traced(log, [|log|], [], saved, n) && Unstopped(pending, log, |log|) == pending
  {
    UnstoppedNone(pending, log, |log|);
  }

  lemma UnstoppedAfterFire(xs: seq<Timer>, log: Log, ev: Event<Timer>, more: Log)
    requires !ev.Stopped? && log + [ev] <= more
    ensures Unstopped(xs, more, |log|) == Unstopped(xs, more, |log + [ev]|)
  {
    hide Unstopped;
    UnstoppedOn(xs, log + [ev], more, |log|);
    UnstoppedNone(xs, log + [ev], |log|);
  }

  lemma WalkBegins(log: Log, chain: seq<Timer>, callbacks: Timer -> seq<Action>)
    ensures WalkLog(log, |log|, chain, callbacks) && Unstopped(chain[0..], log, |log|) == chain
  {
    assert chain[0..] == chain;
    UnstoppedNone(chain, log, |log|);
  }

  lemma WalkedAt(log: Log, a: nat, chain: seq<Timer>, callbacks: Timer -> seq<Action>)
    requires WalkLog(log, a, chain, callbacks)
    ensures a <= |log|
  {
  }

  lemma TracedLength(log: Log, marks: seq<nat>, actions: seq<Action>, saved: Link<nat>, n: nat)
    requires Traced(log, marks, actions, saved, n)
    ensures |marks| == |actions| + 1
  {
  }

  lemma AnsweredNow(log: Log, a: nat, j: nat, chain: seq<Timer>, callbacks: Timer -> seq<Action>, k: nat, marks: seq<nat>)
    requires j < |log| && k < |chain| && log[j].Fired? && log[j].timer == chain[k]
    requires Traced(log, marks, callbacks(chain[k]), Front(Unstopped(chain[k + 1..], log[..j], a)), log[j].tick)
    requires |marks| > 0 && marks[0] == j + 1 && marks[|marks| - 1] == |log|
    ensures Answered(log, a, j, chain, callbacks)
  {
    hide Traced, Unstopped;
    assert Bounds(log, marks, j);
    assert CalledBack(log, j, callbacks(chain[k]), Front(Unstopped(chain[k + 1..], log[..j], a)));
  }

  /** From position a on the log holds walks over the chains, and nothing else. */
  ghost predicate Ticking(log: Log, a: nat, chains: seq<seq<Timer>>, callbacks: Timer -> seq<Action>)
  {
    && a <= |log| && (a < |log| ==> log[a].Fired?)
    && forall j :: a <= j < |log| && log[j].Fired? ==> InTick(log, a, j, chains, callbacks)
  }

  /** One walk, and then the walks of the levels above. */
  lemma TickingOn(log: Log, more: Log, a: nat, chain: seq<Timer>, rest: seq<seq<Timer>>, callbacks: Timer -> seq<Action>)
    requires WalkLog(log, a, chain, callbacks) && log <= more && Ticking(more, |log|, rest, callbacks)
    ensures Ticking(more, a, [chain] + rest, callbacks)
  {
    hide Answered;
    var chains := [chain] + rest;
    assert a < |log| ==> more[a] == log[a];
    forall j | a <= j < |more| && more[j].Fired?
      ensures InTick(more, a, j, chains, callbacks)
    {
      if j < |log| {
        assert more[j] == log[j];
        AnsweredStill(log, more, a, j, chain, callbacks);
        assert chains[0] == chain;
      } else {
        assert InTick(more, |log|, j, rest, callbacks);
        var b, l :| |log| <= b <= j && 0 <= l < |rest| && Answered(more, b, j, rest[l], callbacks);
        assert chains[l + 1] == rest[l];
      }
    }
  }

  lemma NoWalk(log: Log, callbacks: Timer -> seq<Action>)
    ensures Ticking(log, |log|, [], callbacks)
  {
  }

  lemma TickingDone(log: Log, a: nat, n: nat, chains: seq<seq<Timer>>, callbacks: Timer -> seq<Action>)
    requires Ticking(log, a, chains, callbacks)
    ensures Processed(log + [Ticked(n)], a, n, chains, callbacks)
  {
    hide Answered;
    var more := log + [Ticked(n)];
    forall j | a <= j < |more| && more[j].Fired?
      ensures InTick(more, a, j, chains, callbacks)
    {
      assert more[j] == log[j] && InTick(log, a, j, chains, callbacks);
      var b, l :| a <= b <= j && 0 <= l < |chains| && Answered(log, b, j, chains[l], callbacks);
      AnsweredStill(log, more, b, j, chains[l], callbacks);
    }
  }

  /** Where a script has got to: the length of the log, the tick, and whether its walks are
      over. */
  datatype Mark = Mark(at: nat, now: nat, done: bool)

  /** In the log, command c takes the wheel from m to w. A start is taken exactly if the timer
      is not armed and the delay fits a word and is not 0 once the walks are over; a stop
      exactly if the timer is armed; a tick exactly if its walks are still to come, and then
      every expiry in it is followed by its callback and the tick is logged last; an increment
      exactly if they are over. */
  ghost predicate Took(log: Log, m: Mark, w: Mark, c: Command, chains: seq<seq<Timer>>)
  {
    && m.at <= w.at <= |log|
    && match c
       case Arms(t, d) =>
         && w.now == m.now && w.done == m.done
         && (if t !in Armed(log[..m.at]) && d < WORD && (d >= 1 || !m.done)
             then w.at == m.at + 1 && log[m.at] == Started(t, m.now + d) else w.at == m.at)
       case Disarms(t) =>
         && w.now == m.now && w.done == m.done
         && (if t in Armed(log[..m.at]) then w.at == m.at + 1 && log[m.at] == Stopped(t) else w.at == m.at)
       case Processes(callbacks) =>
         && w.now == m.now && w.done
         && (if m.done then w.at == m.at else Processed(log[..w.at], m.at, m.now, chains, callbacks))
       case Increments =>
         w.at == m.at && !w.done && w.now == m.now + if m.done then 1 else 0
  }

  /** From position a to its end the log is that of tick n. */
  ghost predicate Processed(log: Log, a: nat, n: nat, chains: seq<seq<Timer>>, callbacks: Timer -> seq<Action>)
  {
    && a < |log| && log[|log| - 1] == Ticked(n) && (log[a].Fired? || a == |log| - 1)
    && forall j :: a <= j < |log| && log[j].Fired? ==> InTick(log, a, j, chains, callbacks)
  }

  /** The expiry at j belongs to a walk over one of the chains. */
  ghost predicate InTick(log: Log, a: nat, j: nat, chains: seq<seq<Timer>>, callbacks: Timer -> seq<Action>)
    requires j < |log| && log[j].Fired?
  {
    exists b, l :: a <= b <= j && 0 <= l < |chains| && Answered(log, b, j, chains[l], callbacks)
  }

  lemma TookStill(log: Log, more: Log, m: Mark, w: Mark, c: Command, chains: seq<seq<Timer>>)
    requires Took(log, m, w, c, chains) && log <= more
    ensures Took(more, m, w, c, chains)
  {
    hide Armed, Processed;
    assert more[..m.at] == log[..m.at] && more[..w.at] == log[..w.at];
  }

  /** In the log, the commands have been taken one after the other. */
  ghost predicate Scripted(log: Log, marks: seq<Mark>, script: seq<Command>, walks: seq<seq<seq<Timer>>>)
  {
    && |walks| == |script| && |marks| == |script| + 1
    && forall i :: 0 <= i < |script| ==> Took(log, marks[i], marks[i + 1], script[i], walks[i])
  }

  /** Read out for the commands of other threads, in the order of the script. */
  lemma ScriptedIs(log: Log, marks: seq<Mark>, script: seq<Command>, walks: seq<seq<seq<Timer>>>, i: nat)
    requires Scripted(log, marks, script, walks) && i < |script|
    ensures |marks| == |script| + 1 && marks[i].at <= marks[i + 1].at <= |log|
    ensures var c, m, w := script[i], marks[i], marks[i + 1];
      && (c.Arms? ==>
            log[m.at..w.at] == if c.timer !in Armed(log[..m.at]) && c.ahead < WORD && (c.ahead >= 1 || !m.done)
                               then [Started(c.timer, m.now + c.ahead)] else [])
      && (c.Disarms? ==> log[m.at..w.at] == if c.timer in Armed(log[..m.at]) then [Stopped(c.timer)] else [])
      && (c.Arms? || c.Disarms? ==> w.now == m.now && w.done == m.done)
      && (c.Processes? ==> w.now == m.now && w.done && if m.done then w.at == m.at else log[w.at - 1] == Ticked(m.now))
      && (c.Increments? ==> w.at == m.at && !w.done && w.now == m.now + if m.done then 1 else 0)
  {
    hide Armed, InTick;
    assert Took(log, marks[i], marks[i + 1], script[i], walks[i]);
  }

  lemma ScriptedNone(log: Log, m: Mark)
    ensures Scripted(log, [m], [], [])
  {
  }

  lemma ScriptedStill(log: Log, more: Log, marks: seq<Mark>, script: seq<Command>, walks: seq<seq<seq<Timer>>>)
    requires Scripted(log, marks, script, walks) && log <= more
    ensures Scripted(more, marks, script, walks)
  {
    hide Took;
    forall i | 0 <= i < |script|
      ensures Took(more, marks[i], marks[i + 1], script[i], walks[i])
    {
      TookStill(log, more, marks[i], marks[i + 1], script[i], walks[i]);
    }
  }

  /** Scripts one after the other. */
  lemma ScriptedOn(log: Log, marks: seq<Mark>, script: seq<Command>, walks: seq<seq<seq<Timer>>>,
                   more: Log, marks': seq<Mark>, script': seq<Command>, walks': seq<seq<seq<Timer>>>)
    requires Scripted(log, marks, script, walks) && log <= more && Scripted(more, marks', script', walks')
    requires marks[|script|] == marks'[0]
    ensures Scripted(more, marks + marks'[1..], script + script', walks + walks')
  {
    hide Took;
    ScriptedStill(log, more, marks, script, walks);
    var ms, c, w, n := marks + marks'[1..], script + script', walks + walks', |script|;
    forall i | 0 <= i < |c|
      ensures Took(more, ms[i], ms[i + 1], c[i], w[i])
    {
      if i >= n {
        assert ms[i] == marks'[i - n] && ms[i + 1] == marks'[i - n + 1] && c[i] == script'[i - n] && w[i] == walks'[i - n];
      }
    }
  }
}
