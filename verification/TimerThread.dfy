/** timer_main: the wheel driven by the wall clock. */
module TimerThread {
  import opened WheelMath
  import opened TimerLog
  import opened WheelModel
  import opened TimerWheel
  import opened WheelScripts
  import opened TimerHistory
  import opened WheelWalks
  import TickClock

  /** The delay start_timer computes, in unsigned int arithmetic. */
  function TicksFor(sec: nat, msec: nat): (ticks: nat)
    ensures ticks < 0x400_0000 < WORD
  {
    (sec * 1000 + msec) % 0x1_0000_0000 / 100
  }

  /** It is the delay asked for exactly when the milliseconds fit in 32 bits. */
  lemma TicksForWraps(sec: nat, msec: nat)
    ensures TicksFor(sec, msec + 0x1_0000_0000) == TicksFor(sec, msec)
  {
    assert sec * 1000 + (msec + 0x1_0000_0000) == (sec * 1000 + msec) + 0x1_0000_0000;
  }

  lemma TicksForIsExact(sec: nat, msec: nat)
    ensures TicksFor(sec, msec) == (sec * 1000 + msec) / 100 <==> sec * 1000 + msec < 0x1_0000_0000
  {
    var ms := sec * 1000 + msec;
    if ms >= 0x1_0000_0000 {
      assert ms % 0x1_0000_0000 <= ms - 0x1_0000_0000;
      assert ms % 0x1_0000_0000 / 100 <= (ms - 0x1_0000_0000) / 100 < ms / 100;
    }
  }

  /** start_timer, from any thread: between ticks, from a callback in the middle of a
      walk, or between the unlock and the increment. */
  method StartTimerOn(wheel: Wheel, t: Timer, sec: nat, msec: nat)
    requires wheel.Valid() && t in wheel.lists.nodes && t !in wheel.view.due
    requires wheel.view.floor == 0 || TicksFor(sec, msec) >= 1
    modifies wheel`view, wheel.lists.heads, wheel.lists.nodes
    ensures wheel.Valid() && Enabled(old(wheel.view), Start(t, TicksFor(sec, msec)))
    ensures wheel.view == Apply(old(wheel.view), Start(t, TicksFor(sec, msec)))
  {
    hide Good, Wheel.Stored, Wheel.OnTrack, TicksFor;
    wheel.StartTimer(t, TicksFor(sec, msec));
  }

  /** Commands of threads other than the timer's. */
  ghost predicate Foreign(script: seq<Command>)
  {
    forall c :: c in script ==> c.Arms? || c.Disarms?
  }

  /** Whatever has fired did so before tick n. */
  ghost predicate FiredBefore(log: seq<Event<Timer>>, n: nat)
  {
    forall j :: 0 <= j < |log| && log[j].Fired? ==> log[j].tick < n
  }

  /** What fires while tick n is processed fires in tick n. */
  lemma FiredInTick(log: seq<Event<Timer>>, n: nat)
    requires Sound(log) && |log| > 0 && log[|log| - 1] == Ticked(n)
    ensures FiredBefore(log, n + 1)
  {
    hide Armed;
    var m := |log| - 1;
    SoundAt(log, m);
    forall j | 0 <= j < |log| && log[j].Fired?
      ensures log[j].tick < n + 1
    {
      SoundAt(log, j);
      ClockGrows(log[..m], j);
      assert log[..m][..j] == log[..j];
    }
  }

  lemma {:induction false} ExecutedOn(v: View<Timer>, a: seq<Command>, wa: seq<seq<seq<Timer>>>,
                                      b: seq<Command>, wb: seq<seq<seq<Timer>>>)
    requires |wa| == |a| && |wb| == |b|
    ensures Executed(v, a + b, wa + wb) == Executed(Executed(v, a, wa), b, wb)
    decreases |b|
  {
    hide Performed;
    var c, w := a + b, wa + wb;
    if |b| == 0 {
      assert c == a && w == wa;
    } else {
      var n := |b| - 1;
      ExecutedOn(v, a, wa, b[..n], wb[..n]);
      assert c[..|c| - 1] == a + b[..n] && w[..|c| - 1] == wa + wb[..n];
      assert c[|c| - 1] == b[n] && w[|c| - 1] == wb[n];
    }
  }

  lemma ExecutedOne(v: View<Timer>, c: Command, chains: seq<seq<Timer>>)
    ensures Executed(v, [c], [chains]) == Performed(v, c, chains)
  {
    hide Performed;
    assert [c][..0] == [] && [chains][..0] == [];
  }

  /** What happens to the wheel in the first n ticks of a cycle of the main loop. */
  ghost function CycleScript(n: nat, callbacks: nat -> (Timer -> seq<Action>),
                             before: nat -> seq<Command>, between: nat -> seq<Command>): seq<Command>
  {
    if n == 0 then []
    else
      CycleScript(n - 1, callbacks, before, between)
      + (before(n - 1) + [Processes(callbacks(n - 1))] + between(n - 1) + [Increments])
  }

  /** Tick after tick: what other threads do before it, its processing, what they do before its
      increment, and the increment. */
  lemma CycleUnrolls(n: nat, callbacks: nat -> (Timer -> seq<Action>),
                     before: nat -> seq<Command>, between: nat -> seq<Command>)
    ensures CycleScript(0, callbacks, before, between) == []
    ensures CycleScript(n + 1, callbacks, before, between) ==
            CycleScript(n, callbacks, before, between) + (before(n) + [Processes(callbacks(n))] + between(n) + [Increments])
  {
  }

  /** Other threads neither finish a tick nor begin one, and nothing fires in what they do. */
  lemma {:induction false} ForeignMarks(log: Log, marks: seq<Mark>, script: seq<Command>, walks: seq<seq<seq<Timer>>>,
                                        i: nat, j: nat, n: nat)
    requires Scripted(log, marks, script, walks) && i <= j <= |script| && Foreign(script[i..j])
    requires marks[i].at <= |log| && FiredBefore(log[..marks[i].at], n)
    ensures marks[j].now == marks[i].now && marks[j].done == marks[i].done
    ensures marks[j].at <= |log| && FiredBefore(log[..marks[j].at], n)
    decreases j
  {
    hide Armed, Processed;
    if i < j {
      assert forall c :: c in script[i..j - 1] ==> c in script[i..j];
      ForeignMarks(log, marks, script, walks, i, j - 1, n);
      assert script[i..j][j - 1 - i] == script[j - 1];
      assert Took(log, marks[j - 1], marks[j], script[j - 1], walks[j - 1]);
      FiredStill(log, marks[j - 1].at, marks[j].at, n);
    }
  }

  lemma FiredStill(log: Log, a: nat, b: nat, n: nat)
    requires a <= b <= |log| && b <= a + 1 && FiredBefore(log[..a], n) && (a < b ==> !log[a].Fired?)
    ensures FiredBefore(log[..b], n)
  {
    forall j | 0 <= j < b && log[..b][j].Fired?
      ensures log[..b][j].tick < n
    {
      assert log[..b][j] == log[j] && (j < a ==> log[..a][j] == log[j]);
    }
  }

  /** After a tick the counter has moved by one, and what has fired did so before. */
  lemma TurnMarks(log: Log, marks: seq<Mark>, callbacks: Timer -> seq<Action>, before: seq<Command>, between: seq<Command>,
                  walks: seq<seq<seq<Timer>>>, n: nat)
    requires Foreign(before) && Foreign(between) && Sound(log)
    requires var script := before + [Processes(callbacks)] + between + [Increments];
             && Scripted(log, marks, script, walks) && marks[|script|].at == |log|
    requires marks[0].now == n && !marks[0].done && marks[0].at <= |log| && FiredBefore(log[..marks[0].at], n)
    ensures marks[|marks| - 1].now == n + 1 && !marks[|marks| - 1].done && FiredBefore(log, n + 1)
  {
    hide FiredBefore, Foreign, Sound;
    var script, p := before + [Processes(callbacks)] + between + [Increments], |before|;
    var q := p + 1 + |between|;
    assert script[0..p] == before && script[p + 1..q] == between;
    ForeignMarks(log, marks, script, walks, 0, p, n);
    assert script[p] == Processes(callbacks) && Took(log, marks[p], marks[p + 1], script[p], walks[p]);
    var tick := log[..marks[p + 1].at];
    assert tick[|tick| - 1] == Ticked(n) by {
      hide Armed, InTick;
    }
    SoundPrefix(log, |tick|);
    FiredInTick(tick, n);
    ForeignMarks(log, marks, script, walks, p + 1, q, n + 1);
    assert script[q] == Increments && Took(log, marks[q], marks[q + 1], script[q], walks[q]);
    assert log[..|log|] == log;
  }

  lemma SoundPrefix(log: Log, k: nat)
    requires Sound(log) && k <= |log|
    ensures Sound(log[..k])
  {
    if k < |log| {
      SoundAt(log, k);
    } else {
      assert log[..k] == log;
    }
  }

  /** process_tick as the main loop calls it: other threads come in before it, and
      between its unlock and its increment. */
  method Turn(wheel: Wheel, callbacks: Timer -> seq<Action>, before: seq<Command>, between: seq<Command>)
    returns (ghost walks: seq<seq<seq<Timer>>>, ghost marks: seq<Mark>)
    requires wheel.Valid() && wheel.Resting() && !wheel.processed && FiredBefore(wheel.view.log, wheel.view.now)
    requires Foreign(before) && Foreign(between)
    requires forall c :: c in before + between ==> c.Orderly(wheel.lists.nodes)
    requires forall t :: t in wheel.lists.nodes ==> Known(callbacks(t), wheel.lists.nodes)
    modifies wheel, wheel.lists.heads, wheel.lists.nodes
    ensures wheel.Valid() && wheel.Resting() && !wheel.processed
    ensures wheel.view.now == old(wheel.view.now) + 1 && FiredBefore(wheel.view.log, wheel.view.now)
    ensures old(wheel.view.log) <= wheel.view.log
    ensures var script := before + [Processes(callbacks)] + between + [Increments];
            && |walks| == |script| && wheel.view == Executed(old(wheel.view), script, walks)
            && Scripted(wheel.view.log, marks, script, walks)
            && marks[0] == old(wheel.Here()) && marks[|script|] == wheel.Here()
  {
    hide Good, Wheel.Stored, Wheel.OnTrack, Known, Executed, Complete, Done, Turns, Sound, Took, FiredBefore, Foreign;
    var script := before + [Processes(callbacks)] + between + [Increments];
    ghost var v := wheel.view;
    assert v.log[..|v.log|] == v.log;
    AtRest(v);
    TurnIsOrderly(script, callbacks, before, between, wheel.lists.nodes);
    walks, marks := wheel.Execute(script);
    SoundLog(wheel.view);
    assert wheel.view.log[..|v.log|] == v.log;
    TurnMarks(wheel.view.log, marks, callbacks, before, between, walks, v.now);
  }

  lemma TurnIsOrderly(script: seq<Command>, callbacks: Timer -> seq<Action>, before: seq<Command>, between: seq<Command>,
                      timers: set<Timer>)
    requires script == before + [Processes(callbacks)] + between + [Increments]
    requires forall c :: c in before + between ==> c.Orderly(timers)
    requires forall t :: t in timers ==> Known(callbacks(t), timers)
    ensures forall c :: c in script ==> c.Orderly(timers)
  {
    hide Known;
    forall c | c in script
      ensures c.Orderly(timers)
    {
      assert c in before + between || c == Processes(callbacks) || c == Increments;
    }
  }

  lemma SoundLog<T>(v: View<T>)
    requires Good(v)
    ensures Sound(v.log)
  {
  }

  /** The clock's present reading. */
  ghost function StampOf(clock: TickClock.Clock): Stamp
    reads clock
  {
    Stamp(clock.elapsed, clock.ticks, clock.corrections, clock.dropped)
  }

  /** At rest, a start for a tick that is over has had its outcome. */
  lemma PastIsOver(v: View<Timer>, i: nat)
    requires Good(v) && i < |v.log| && v.log[i].Started? && v.log[i].expiry < v.now
    ensures HasOutcome(v.log, i)
  {
    hide Sound, Armed, Clock;
    var t := v.log[i].timer;
    if t in v.due {
      InWindow(v, t);
    }
    var j := NoLongerArmed(v.log, i);
  }

  lemma Times<T>(v: View<T>)
    requires Good(v)
    ensures |v.times| == |v.log| && forall j :: 0 <= j < |v.times| ==> v.times[j] <= v.now
  {
  }

  class Timers {
    const wheel: Wheel
    const clock: TickClock.Clock
    ghost var stamps: seq<Stamp>   // the clock at each entry of the log

    /** The timer thread is between two cycles, and has processed what the clock handed out. */
    ghost predicate Valid()
      reads this, wheel, wheel.lists, wheel.lists.heads, wheel.lists.nodes, clock
    {
      && wheel.Valid() && clock.Valid() && wheel.Resting() && !wheel.processed && wheel.view.now == clock.ticks
      && FiredBefore(wheel.view.log, wheel.view.now)
      && History(wheel.view.log, wheel.view.times, stamps, StampOf(clock))
    }

    constructor ()
      ensures Valid() && fresh(wheel) && fresh(clock) && fresh(wheel.lists) && fresh(wheel.lists.heads)
      ensures wheel.lists.nodes == {} && wheel.view.log == [] && wheel.view.due == map[]
      ensures clock.elapsed == clock.ticks == 0 && clock.last == TickClock.Time(0, 0)
    {
      wheel := new Wheel();
      clock := new TickClock.Clock();
      stamps := [];
      new;
      ReadingIsFair(clock);
    }

    /** The wheel has moved on while the clock stands at one reading. */
    ghost method Restamp(v: View<Timer>, last: Stamp)
      requires wheel.Valid() && clock.Valid() && wheel.view.now == clock.ticks
      requires FiredBefore(wheel.view.log, wheel.view.now)
      requires History(v.log, v.times, stamps, last) && Follows(last, StampOf(clock)) && Grown(v, wheel.view)
      modifies this`stamps
      ensures History(wheel.view.log, wheel.view.times, stamps, StampOf(clock))
      ensures stamps == old(stamps) + Repeat(StampOf(clock), |wheel.view.log| - |v.log|)
    {
      hide Good, Wheel.Represents, Wheel.OnTrack, History, Repeat;
      ghost var w, now := wheel.view, StampOf(clock);
      ReadingIsFair(clock);
      Times(w);
      forall i | |v.log| <= i < |w.log| && w.log[i].Started? && w.log[i].expiry < now.ticks
        ensures HasOutcome(w.log, i)
      {
        PastIsOver(w, i);
      }
      HistoryGrows(v.log, v.times, stamps, last, w.log, w.times, now);
      stamps := stamps + Repeat(now, |w.log| - |v.log|);
    }

    /** start_timer between two cycles: no tick is left to be counted. */
    method StartTimer(t: Timer, sec: nat, msec: nat)
      requires Valid() && t in wheel.lists.nodes && t !in wheel.view.due
      modifies this, wheel`view, wheel.lists.heads, wheel.lists.nodes
      ensures Valid() && wheel.view.due == old(wheel.view.due)[t := clock.ticks + TicksFor(sec, msec)]
      ensures wheel.view.log == old(wheel.view.log) + [Started(t, clock.ticks + TicksFor(sec, msec))]
      ensures wheel.view.times == old(wheel.view.times) + [clock.ticks] && stamps == old(stamps) + [StampOf(clock)]
    {
      hide Good, Wheel.Stored, Wheel.OnTrack, TicksFor, History;
      ghost var v := wheel.view;
      StartTimerOn(wheel, t, sec, msec);
      Restamp(v, StampOf(clock));
      assert Repeat(StampOf(clock), 1) == [StampOf(clock)];
    }

    /** stop_timer between two cycles. */
    method StopTimer(t: Timer)
      requires Valid() && t in wheel.lists.nodes
      modifies this, wheel`view, wheel.lists.heads, wheel.lists.nodes
      ensures Valid() && wheel.view.due == old(wheel.view.due) - {t}
      ensures var stop := t in old(wheel.view.due);
              && wheel.view.log == old(wheel.view.log) + (if stop then [Stopped(t)] else [])
              && stamps == old(stamps) + (if stop then [StampOf(clock)] else [])
    {
      hide Good, Wheel.Stored, Wheel.OnTrack, History;
      ghost var v := wheel.view;
      AtRest(v);
      wheel.StopTimer(t);
      assert t !in v.due ==> v.due - {t} == v.due;
      Restamp(v, StampOf(clock));
      assert Repeat(StampOf(clock), 1) == [StampOf(clock)] && Repeat(StampOf(clock), 0) == [];
    }

    /** One turn of the main loop. `before(i)` and `between(i)` are what other threads do
        before the i-th tick of the cycle, and before its increment. */
    method Cycle(cur: TickClock.Time, callbacks: nat -> (Timer -> seq<Action>),
                 before: nat -> seq<Command>, between: nat -> seq<Command>)
      returns (ghost walks: seq<seq<seq<Timer>>>, ghost marks: seq<Mark>)
      requires Valid() && cur.Valid() && clock.last.Micros() <= cur.Micros()
      requires forall i, t :: t in wheel.lists.nodes ==> Known(callbacks(i)(t), wheel.lists.nodes)
      requires forall i :: Foreign(before(i)) && Foreign(between(i))
      requires forall i, c :: c in before(i) + between(i) ==> c.Orderly(wheel.lists.nodes)
      modifies this, wheel, wheel.lists.heads, wheel.lists.nodes, clock
      ensures Valid() && clock.last == cur
      ensures clock.elapsed == old(clock.elapsed) +
        if old(clock.last) == TickClock.Time(0, 0) then 0 else cur.Micros() - old(clock.last).Micros()
      ensures clock.ticks >= old(clock.ticks) + TickClock.Whole(clock.elapsed - old(clock.elapsed))
      ensures var script := CycleScript(clock.ticks - old(clock.ticks), callbacks, before, between);
              && |walks| == |script| && wheel.view == Executed(old(wheel.view), script, walks)
              && Scripted(wheel.view.log, marks, script, walks)
              && marks[0] == old(wheel.Here()) && marks[|script|] == wheel.Here()
      ensures Grown(old(wheel.view), wheel.view)
      ensures stamps == old(stamps) + Repeat(StampOf(clock), |wheel.view.log| - |old(wheel.view.log)|)
    {
      hide Good, Known, Wheel.Stored, Wheel.OnTrack, Foreign, Command.Orderly, FiredBefore, Executed, CycleScript,
           Scripted, History, TickClock.Corrects, TickClock.Whole, TickClock.Time.Micros;
      ghost var v, last := wheel.view, StampOf(clock);
      var ticks := clock.Cycle(cur);
      walks, marks := ProcessTicks(ticks, callbacks, before, between);
      ExecutedGrows(v, CycleScript(ticks, callbacks, before, between), walks);
      Restamp(v, last);
    }

    method ProcessTicks(ticks: nat, callbacks: nat -> (Timer -> seq<Action>),
                        before: nat -> seq<Command>, between: nat -> seq<Command>)
      returns (ghost walks: seq<seq<seq<Timer>>>, ghost marks: seq<Mark>)
      requires wheel.Valid() && wheel.Resting() && !wheel.processed && wheel.view.now + ticks == clock.ticks
      requires FiredBefore(wheel.view.log, wheel.view.now)
      requires forall i, t :: t in wheel.lists.nodes ==> Known(callbacks(i)(t), wheel.lists.nodes)
      requires forall i :: Foreign(before(i)) && Foreign(between(i))
      requires forall i, c :: c in before(i) + between(i) ==> c.Orderly(wheel.lists.nodes)
      modifies wheel, wheel.lists.heads, wheel.lists.nodes
      ensures wheel.Valid() && wheel.Resting() && !wheel.processed && wheel.view.now == clock.ticks
      ensures FiredBefore(wheel.view.log, wheel.view.now) && old(wheel.view.log) <= wheel.view.log
      ensures var script := CycleScript(ticks, callbacks, before, between);
              && |walks| == |script| && wheel.view == Executed(old(wheel.view), script, walks)
              && Scripted(wheel.view.log, marks, script, walks)
              && marks[0] == old(wheel.Here()) && marks[|script|] == wheel.Here()
    {
      hide Good, Known, Wheel.Stored, Wheel.OnTrack, Foreign, Command.Orderly, FiredBefore, Executed, CycleScript, Took;
      var done := 0;
      walks, marks := [], [wheel.Here()];
      ghost var v := wheel.view;
      NothingExecuted(v);
      ScriptedNone(v.log, wheel.Here());
      CycleUnrolls(0, callbacks, before, between);
      while done < ticks
        invariant wheel.Valid() && wheel.Resting() && !wheel.processed && done <= ticks
        invariant wheel.view.now + (ticks - done) == clock.ticks && FiredBefore(wheel.view.log, wheel.view.now)
        invariant old(wheel.view.log) <= wheel.view.log
        invariant var script := CycleScript(done, callbacks, before, between);
                  && |walks| == |script| && wheel.view == Executed(v, script, walks)
                  && Scripted(wheel.view.log, marks, script, walks)
                  && marks[0] == old(wheel.Here()) && marks[|script|] == wheel.Here()
      {
        ghost var script, log := CycleScript(done, callbacks, before, between), wheel.view.log;
        ghost var turn := before(done) + [Processes(callbacks(done))] + between(done) + [Increments];
        ghost var more, next := Turn(wheel, callbacks(done), before(done), between(done));
        CycleUnrolls(done, callbacks, before, between);
        ExecutedOn(v, script, walks, turn, more);
        ScriptedOn(log, marks, script, walks, wheel.view.log, next, turn, more);
        walks, marks := walks + more, marks + next[1..];
        done := done + 1;
      }
    }
  }

  lemma NothingExecuted(v: View<Timer>)
    ensures Executed(v, [], []) == v
  {
  }

  lemma ReadingIsFair(clock: TickClock.Clock)
    requires clock.Valid()
    ensures Fair(StampOf(clock)) && Follows(StampOf(clock), StampOf(clock))
  {
  }

  lemma ArmedIsDue<T>(v: View<T>)
    requires Good(v)
    ensures v.due == Armed(v.log)
  {
  }

  // What the clock and the wheel together promise

  /** A timer does not fire early: between the clock reading of its start and that of its
      expiry, more time has passed than its delay, less the ticks of the cycle that were still
      left when it was started; than its whole delay, if none were. */
  lemma NeverEarly(timers: Timers, j: nat) returns (i: nat)
    requires timers.Valid() && j < |timers.wheel.view.log| && timers.wheel.view.log[j].Fired?
    ensures var v, stamps := timers.wheel.view, timers.stamps;
            && |v.log| == |v.times| == |stamps| && i < j && v.log[i].Started? && Outcome(v.log, i, j)
            && var early := stamps[j].elapsed - stamps[i].elapsed;
               var d, left := Delay(v.log, v.times, i), Left(v.times, stamps, i);
               && left >= 0 && early > TickClock.USEC_PER_TICK * (d - left)
               && (left == 0 ==> early > TickClock.USEC_PER_TICK * d)
  {
    hide Good;
    SoundLog(timers.wheel.view);
    i := NotEarly(timers.wheel.view.log, timers.wheel.view.times, timers.stamps, StampOf(timers.clock), j);
  }

  /** Nor late: while it is armed, less time has passed since the clock reading of its start
      than its delay and one tick, plus one for each correction since the start. */
  lemma NeverLate(timers: Timers, t: Timer) returns (i: nat)
    requires timers.Valid() && t in timers.wheel.view.due
    ensures var v, stamps, clock := timers.wheel.view, timers.stamps, timers.clock;
            && |v.log| == |v.times| == |stamps|
            && i < |v.log| && v.log[i] == Started(t, v.due[t]) && Quiet(v.log, t, i + 1, |v.log|)
            && var d, left := Delay(v.log, v.times, i), Left(v.times, stamps, i);
               && left >= 0
               && clock.elapsed - stamps[i].elapsed <
                    TickClock.USEC_PER_TICK * (d - left + (clock.corrections - stamps[i].corrections) + 1)
  {
    hide Good;
    InWindow(timers.wheel.view, t);
    ArmedIsDue(timers.wheel.view);
    i := NotLate(timers.wheel.view.log, timers.wheel.view.times, timers.stamps, StampOf(timers.clock), t);
  }

  /** A timer started for a tick that its cycle has still to process fires, or is stopped, at
      the very clock reading of its start, whatever its delay. */
  lemma CatchesUp(timers: Timers, i: nat) returns (j: nat)
    requires timers.Valid() && i < |timers.wheel.view.log| && timers.wheel.view.log[i].Started?
    requires |timers.wheel.view.times| == |timers.wheel.view.log| == |timers.stamps|
    requires Delay(timers.wheel.view.log, timers.wheel.view.times, i) < Left(timers.wheel.view.times, timers.stamps, i)
    ensures Outcome(timers.wheel.view.log, i, j) && timers.stamps[j] == timers.stamps[i]
  {
    hide Good;
    j := AtOnce(timers.wheel.view.log, timers.wheel.view.times, timers.stamps, StampOf(timers.clock), i);
  }

  lemma {:induction false} CycleBegins(n: nat, callbacks: nat -> (Timer -> seq<Action>),
                                       before: nat -> seq<Command>, between: nat -> seq<Command>)
    requires n >= 1
    ensures before(0) <= CycleScript(n, callbacks, before, between)
  {
    if n > 1 {
      CycleBegins(n - 1, callbacks, before, between);
    }
  }

  lemma {:induction false} CycleStopless(n: nat, callbacks: nat -> (Timer -> seq<Action>),
                                         before: nat -> seq<Command>, between: nat -> seq<Command>)
    requires forall k: nat :: callbacks(k) == NoActions && Stopless(before(k)) && Stopless(between(k))
    ensures Stopless(CycleScript(n, callbacks, before, between))
  {
    if n > 0 {
      CycleStopless(n - 1, callbacks, before, between);
      assert callbacks(n - 1) == NoActions && Stopless(before(n - 1)) && Stopless(between(n - 1));
    }
  }

  /** Executing begins with executing the first command. */
  lemma FirstCommand(v: View<Timer>, script: seq<Command>, walks: seq<seq<seq<Timer>>>)
    requires |walks| == |script| >= 1
    ensures Grown(Performed(v, script[0], walks[0]), Executed(v, script, walks))
  {
    hide Performed, Executed;
    assert script == [script[0]] + script[1..] && walks == [walks[0]] + walks[1..];
    ExecutedOne(v, script[0], walks[0]);
    ExecutedOn(v, [script[0]], [walks[0]], script[1..], walks[1..]);
    ExecutedGrows(Performed(v, script[0], walks[0]), script[1..], walks[1..]);
  }

  lemma StartedFirst(v: View<Timer>, n: nat, callbacks: nat -> (Timer -> seq<Action>), before: nat -> seq<Command>,
                     between: nat -> seq<Command>, walks: seq<seq<seq<Timer>>>, t: Timer, d: nat)
    requires n >= 1 && Enabled(v, Start(t, d)) && before(0) == [Arms(t, d)]
    requires |v.times| == |v.log| && |walks| == |CycleScript(n, callbacks, before, between)|
    ensures var w := Executed(v, CycleScript(n, callbacks, before, between), walks); var i := |v.log|;
            i < |w.log| && i < |w.times| && w.log[i] == Started(t, v.now + d) && w.times[i] == v.now
  {
    hide Executed, CycleScript;
    CycleBegins(n, callbacks, before, between);
    var script := CycleScript(n, callbacks, before, between);
    assert script[0] == before(0)[0];
    FirstCommand(v, script, walks);
    assert Performed(v, script[0], walks[0]) == Apply(v, Start(t, d));
  }

  /** In a cycle of more than d ticks, a timer that another thread starts for d before the first
      tick is processed fires in that very cycle: no time at all after its start. */
  method FiresAtOnce(timers: Timers, t: Timer, d: nat, cur: TickClock.Time) returns (ghost j: nat)
    requires timers.Valid() && t in timers.wheel.lists.nodes && t !in timers.wheel.view.due && d < WORD
    requires cur.Valid() && timers.clock.last != TickClock.Time(0, 0)
    requires timers.clock.last.Micros() <= cur.Micros()
    requires TickClock.Whole(cur.Micros() - timers.clock.last.Micros()) > d
    modifies timers, timers.wheel, timers.wheel.lists.heads, timers.wheel.lists.nodes, timers.clock
    ensures timers.Valid() && |timers.wheel.view.log| == |timers.wheel.view.times| == |timers.stamps|
    ensures var v, i, n := timers.wheel.view, |old(timers.wheel.view.log)|, old(timers.wheel.view.now);
            && i < j < |v.log| && v.log[i] == Started(t, n + d) && v.times[i] == n && v.log[j] == Fired(t, n + d)
            && timers.stamps[j] == timers.stamps[i]
  {
    hide Good, Wheel.Represents, Wheel.OnTrack, Executed, CycleScript, TickClock.Time.Micros, TickClock.Whole,
         TickClock.Time.Valid, TickClock.Clock.Valid, FiredBefore, Known, Scripted;
    var before: nat -> seq<Command> := (k: nat) => if k == 0 then [Arms(t, d)] else [];
    var none: nat -> seq<Command> := (k: nat) => [];
    var callbacks: nat -> (Timer -> seq<Action>) := (k: nat) => NoActions;
    ghost var v, ticks := timers.wheel.view, timers.clock.ticks;
    NothingKnown(timers.wheel.lists.nodes);
    ghost var walks, marks := timers.Cycle(cur, callbacks, before, none);
    ghost var n := timers.clock.ticks - ticks;
    AtRest(v);
    StartedFirst(v, n, callbacks, before, none, walks, t, d);
    CycleStopless(n, callbacks, before, none);
    ExecutedStopless(v, CycleScript(n, callbacks, before, none), walks);
    ghost var i := |v.log|;
    Times(v);
    Times(timers.wheel.view);
    j := CatchesUp(timers, i);
  }

  lemma NothingKnown(timers: set<Timer>)
    ensures forall t :: t in timers ==> Known(NoActions(t), timers)
  {
  }

  lemma Readings()
    ensures TickClock.TimeAt(1).Valid() && TickClock.TimeAt(500001).Valid() && TickClock.TimeAt(1) != TickClock.Time(0, 0)
    ensures TickClock.Whole(500000) > 2
  {
  }

  /** A timer created after the first cycle. */
  method Begun() returns (timers: Timers, t: Timer)
    ensures fresh(timers) && fresh(timers.wheel) && fresh(timers.clock) && fresh(timers.wheel.lists.heads)
    ensures fresh(timers.wheel.lists.nodes) && timers.Valid() && timers.clock.last == TickClock.TimeAt(1)
    ensures t in timers.wheel.lists.nodes && t !in timers.wheel.view.due
  {
    hide Good, Wheel.Represents, Wheel.OnTrack, Executed, CycleScript, TickClock.Time.Micros, TickClock.Time.Valid,
         TickClock.Clock.Valid, TickClock.Whole, TickClock.Corrects, TickClock.TimeAt, FiredBefore, Known, Scripted, History;
    timers := new Timers();
    TickClock.AtOrigin();
    Readings();
    var none: nat -> seq<Command> := (k: nat) => [];
    var callbacks: nat -> (Timer -> seq<Action>) := (k: nat) => NoActions;
    ghost var walks, marks := timers.Cycle(TickClock.TimeAt(1), callbacks, none, none);
    t := timers.wheel.CreateTimer();
  }

  /** For example a timer for two ticks, in a cycle of half a second. */
  method EarlyByCatchingUp() returns (timers: Timers, t: Timer, ghost i: nat, ghost j: nat)
    ensures fresh(timers) && timers.Valid() && |timers.wheel.view.log| == |timers.wheel.view.times| == |timers.stamps|
    ensures var v := timers.wheel.view;
            && i < j < |v.log| && v.log[i] == Started(t, v.times[i] + 2) && v.log[j] == Fired(t, v.times[i] + 2)
            && timers.stamps[j].elapsed == timers.stamps[i].elapsed
  {
    hide Timers.Valid, TickClock.Time.Micros, TickClock.Time.Valid, TickClock.Whole, TickClock.TimeAt;
    timers, t := Begun();
    Readings();
    i := |timers.wheel.view.log|;
    j := FiresAtOnce(timers, t, 2, TickClock.TimeAt(500001));
  }
}
