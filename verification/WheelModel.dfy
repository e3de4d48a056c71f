/** The timing wheel as a state machine over values.

    `due` is the flat map the wheel has to agree with; `place` is where the wheel
    keeps each timer. A step is one thing timer.c does under its lock, or the
    increment of the tick counter that it does outside.
 */
module WheelModel {
  import opened Seqs
  import opened WheelMath
  import opened TimerLog

  datatype View<T> = View(
    now: nat,               // ticks, without wrap-around
    floor: nat,             // levels walked, or being walked, in this tick
    done: bool,             // the walks of this tick are over, ticks not yet incremented
    due: map<T, nat>,       // armed timers and when they expire
    place: map<T, nat>,     // their slots
    pending: seq<T>,        // what the walk in progress has still to handle
    delay: map<T, nat>,     // the delay each was started with
    moves: map<T, nat>,     // how often each was re-inserted since
    log: seq<Event<T>>,
    times: seq<nat>)        // the tick of each entry of the log

  datatype Step<T> =
    | Start(timer: T, ahead: nat)   // start_timer_internal
    | Stop(timer: T)                // stop_timer on an armed timer
    | Begin(chain: seq<T>)          // process_tvec enters a list
    | Fire                          // process_tvec finds its timer expired
    | Move                          // process_tvec re-inserts its timer
    | Skip                          // process_tick stops cascading
    | Finish                        // process_tick unlocks
    | Tick                          // ++ticks

  ghost predicate Initial<T>(v: View<T>)
  {
    v.now == v.floor == 0 && !v.done && v.due == v.place == v.delay == v.moves == map[] && v.pending == []
    && v.log == [] && v.times == []
  }

  /** The first tick whose walks can still reach t. */
  ghost function NextWalk<T>(v: View<T>, t: T): nat
    requires t in v.place
  {
    if LevelOf(v.place[t]) < v.floor && t !in v.pending then v.now + 1 else v.now
  }

  /** t rests where its walk is still to come, within its budget of re-insertions. */
  ghost predicate Placed<T>(v: View<T>, t: T)
    requires t in v.due && t in v.place && t in v.delay && t in v.moves
  {
    && v.now <= v.due[t] < v.now + WORD
    && v.place[t] < SLOTS
    && Scheduled(LevelOf(v.place[t]), v.place[t], v.due[t], NextWalk(v, t))
    && v.moves[t] + Budget(LevelOf(v.place[t]), v.due[t], NextWalk(v, t)) <= 4 + v.delay[t] / TURN
  }

  ghost predicate Keyed<T>(v: View<T>)
  {
    v.place.Keys == v.due.Keys && v.delay.Keys == v.due.Keys && v.moves.Keys == v.due.Keys
  }

  /** A walk in progress is over a slot that this tick visits, on a list of that slot. */
  ghost predicate Walking<T>(v: View<T>)
  {
    && v.floor <= LEVELS
    && Distinct(v.pending)
    && (v.pending != [] ==> v.floor > 0 && Walks(v.floor - 1, v.now))
    && (forall t :: t in v.pending ==> t in v.place && v.place[t] == SlotFor(v.floor - 1, v.now))
    && (v.done ==> v.floor == LEVELS && v.pending == [])
  }

  ghost predicate Logged<T>(v: View<T>)
  {
    && Sound(v.log) && v.due == Armed(v.log)
    && Clock(v.log) == v.now + (if v.done then 1 else 0)
    && |v.times| == |v.log| && (forall j :: 0 <= j < |v.times| ==> v.times[j] <= v.now)
  }

  ghost predicate Good<T>(v: View<T>)
  {
    Keyed(v) && (forall t :: t in v.due ==> Placed(v, t)) && Walking(v) && Logged(v)
  }

  ghost predicate Enabled<T>(v: View<T>, s: Step<T>)
  {
    match s
    case Start(t, d) => t !in v.due && d < WORD && (v.floor == 0 || 1 <= d)
    case Stop(t) => t in v.due && (v.pending != [] ==> t != v.pending[0])
    case Begin(chain) =>
      && v.pending == [] && v.floor < LEVELS && Walks(v.floor, v.now) && Distinct(chain)
      && (forall t :: t in chain ==> t in v.place && v.place[t] == SlotFor(v.floor, v.now))
      && (forall t :: t in v.place && v.place[t] == SlotFor(v.floor, v.now) ==> t in chain)
    case Fire => v.pending != [] && v.pending[0] in v.due && v.due[v.pending[0]] == v.now
    case Move => v.pending != [] && v.pending[0] in v.due && v.pending[0] in v.moves && v.now < v.due[v.pending[0]]
    case Skip => v.pending == [] && v.floor < LEVELS && !Walks(v.floor, v.now)
    case Finish => v.pending == [] && v.floor == LEVELS && !v.done
    case Tick => v.done
  }

  ghost function Apply<T>(v: View<T>, s: Step<T>): View<T>
    requires Enabled(v, s)
  {
    match s
    case Start(t, d) =>
      var e := v.now + d;
      v.(due := v.due[t := e], place := v.place[t := SlotFor(LevelFor(d), e)],
         delay := v.delay[t := d], moves := v.moves[t := 0],
         log := v.log + [Started(t, e)], times := v.times + [v.now])
    case Stop(t) =>
      Drop(v, t).(pending := Without(v.pending, t), log := v.log + [Stopped(t)], times := v.times + [v.now])
    case Begin(chain) => v.(floor := v.floor + 1, pending := chain)
    case Fire =>
      var t := v.pending[0];
      Drop(v, t).(pending := v.pending[1..], log := v.log + [Fired(t, v.now)], times := v.times + [v.now])
    case Move =>
      var t, e := v.pending[0], v.due[v.pending[0]];
      v.(place := v.place[t := SlotFor(LevelFor(e - v.now), e)], moves := v.moves[t := v.moves[t] + 1],
         pending := v.pending[1..])
    case Skip => v.(floor := LEVELS)
    case Finish => v.(done := true, log := v.log + [Ticked(v.now)], times := v.times + [v.now])
    case Tick => v.(now := v.now + 1, floor := 0, done := false)
  }

  ghost function Drop<T>(v: View<T>, t: T): View<T>
  {
    v.(due := v.due - {t}, place := v.place - {t}, delay := v.delay - {t}, moves := v.moves - {t})
  }

  lemma InWindow<T>(v: View<T>, t: T)
    requires Good(v) && t in v.due
    ensures v.now <= v.due[t] < v.now + WORD
  {
    assert Placed(v, t);
  }

  lemma PendingTail<T>(v: View<T>)
    requires Good(v) && v.pending != []
    ensures Without(v.pending, v.pending[0]) == v.pending[1..]
  {
    hide Scheduled, Budget, SlotFor, LevelFor, LevelOf, Walks, Logged;
    WithoutIs(v.pending, v.pending[0], 0);
  }

  /** The walk can always deal with the timer it has reached, in one way. */
  lemma CanHandle<T>(v: View<T>)
    requires Good(v) && v.pending != []
    ensures v.pending[0] in v.due
    ensures Enabled(v, if v.due[v.pending[0]] == v.now then Fire else Move)
  {
    hide SlotFor, Walks, Logged;
    InWindow(v, v.pending[0]);
  }

  lemma AtRest<T>(v: View<T>)
    requires Good(v) && v.floor == 0
    ensures v.pending == [] && !v.done
  {
  }

  lemma AtEnd<T>(v: View<T>)
    requires Good(v) && v.done
    ensures v.pending == [] && v.floor == LEVELS
  {
  }

  /** Once every level has been dealt with, nothing armed expires in this tick. */
  lemma NoneLeft<T>(v: View<T>, t: T)
    requires Good(v) && v.floor == LEVELS && v.pending == [] && t in v.due
    ensures v.now < v.due[t]
  {
    assert Placed(v, t);
  }

  /** Every step keeps the log in step with the flat map. */
  lemma LoggedKept<T>(v: View<T>, s: Step<T>)
    requires Logged(v) && Walking(v) && Enabled(v, s)
    requires s.Finish? ==> forall t :: t in v.due ==> v.now < v.due[t]
    ensures Logged(Apply(v, s))
  {
    hide SlotFor, LevelFor, Walks, Distinct, Without, Sound, Clock, Armed;
    match s
    case Start(t, d) =>
      Extend(v.log, Started(t, v.now + d));
    case Stop(t) =>
      Extend(v.log, Stopped(t));
    case Fire =>
      Extend(v.log, Fired(v.pending[0], v.now));
    case Finish =>
      Extend(v.log, Ticked(v.now));
    case _ =>
  }

  /** Every step keeps the walk in progress on the slot it is visiting. */
  lemma WalkingKept<T>(v: View<T>, s: Step<T>)
    requires Walking(v) && Keyed(v) && Enabled(v, s)
    ensures Keyed(Apply(v, s)) && Walking(Apply(v, s))
  {
    hide SlotFor, LevelFor, Walks, Distinct, Without;
    var w := Apply(v, s);
    match s
    case Stop(t) =>
      WithoutDistinct(v.pending, t);
      assert w.pending != [] ==> w.pending[0] in v.pending;
    case Fire =>
      TailDistinct(v.pending);
    case Move =>
      TailDistinct(v.pending);
    case _ =>
  }

  /** A timer that nothing happens to stays well placed. */
  lemma PlacedStill<T>(v: View<T>, w: View<T>, t: T)
    requires t in v.due && t in v.place && t in v.delay && t in v.moves && Placed(v, t)
    requires t in w.due && t in w.place && t in w.delay && t in w.moves && w.now == v.now
    requires w.due[t] == v.due[t] && w.place[t] == v.place[t] && w.delay[t] == v.delay[t] && w.moves[t] == v.moves[t]
    requires NextWalk(w, t) == NextWalk(v, t)
    ensures Placed(w, t)
  {
  }

  lemma StartKept<T>(v: View<T>, t: T, d: nat)
    requires Good(v) && Enabled(v, Start(t, d))
    ensures Good(Apply(v, Start(t, d)))
  {
    hide Scheduled, Budget, SlotFor, LevelFor, LevelOf, Walks, Distinct, Without, Logged;
    LoggedKept(v, Start(t, d));
    WalkingKept(v, Start(t, d));
    PlacedAhead(v.now + d, v.now);
    var w := Apply(v, Start(t, d));
    assert t !in v.pending;
    assert Placed(w, t);
    forall x | x in w.due && x != t
      ensures Placed(w, x)
    {
      assert Placed(v, x);
    }
  }

  lemma StopKept<T>(v: View<T>, t: T)
    requires Good(v) && Enabled(v, Stop(t))
    ensures Good(Apply(v, Stop(t)))
  {
    hide Scheduled, Budget, SlotFor, LevelFor, LevelOf, Walks, Distinct, Without, Logged;
    LoggedKept(v, Stop(t));
    WalkingKept(v, Stop(t));
    var w := Apply(v, Stop(t));
    hide Placed;
    forall x | x in w.due
      ensures Placed(w, x)
    {
      PlacedStill(v, w, x);
    }
  }

  /** Entering a list: timers of the same level elsewhere have nothing to fear from it. */
  lemma BeginKept<T>(v: View<T>, chain: seq<T>)
    requires Good(v) && Enabled(v, Begin(chain))
    ensures Good(Apply(v, Begin(chain)))
  {
    hide Scheduled, Budget, SlotFor, LevelFor, LevelOf, Walks, Distinct, Without, Logged;
    LoggedKept(v, Begin(chain));
    WalkingKept(v, Begin(chain));
    var w := Apply(v, Begin(chain));
    forall x | x in w.due
      ensures Placed(w, x)
    {
      assert Placed(v, x);
      var l := LevelOf(v.place[x]);
      if l == v.floor && x !in chain {
        NotMissed(l, v.place[x], v.due[x], v.now);
      } else {
        LevelOfSlot(v.floor, v.now);
        PlacedStill(v, w, x);
      }
    }
  }

  lemma SkipKept<T>(v: View<T>)
    requires Good(v) && Enabled(v, Skip)
    ensures Good(Apply(v, Skip))
  {
    hide Scheduled, Budget, SlotFor, LevelFor, LevelOf, Walks, Distinct, Without, Logged;
    LoggedKept(v, Skip);
    WalkingKept(v, Skip);
    var w := Apply(v, Skip);
    forall x | x in w.due
      ensures Placed(w, x)
    {
      assert Placed(v, x);
      var l := LevelOf(v.place[x]);
      if v.floor <= l {
        WalksNested(v.floor, l, v.now);
        NotMissed(l, v.place[x], v.due[x], v.now);
      }
    }
  }

  lemma FireKept<T>(v: View<T>)
    requires Good(v) && Enabled(v, Fire)
    ensures Good(Apply(v, Fire))
  {
    hide Scheduled, Budget, SlotFor, LevelFor, LevelOf, Walks, Distinct, Without, Logged;
    LoggedKept(v, Fire);
    WalkingKept(v, Fire);
    var w := Apply(v, Fire);
    TailDistinct(v.pending);
    forall x | x in w.due
      ensures Placed(w, x)
    {
      assert Placed(v, x);
    }
  }

  /** Re-inserting a timer spends one of its moves, puts it strictly ahead, and takes
      it down at least one level, unless it is a whole turn of the last level early. */
  lemma MovedAhead<T>(v: View<T>)
    requires Good(v) && Enabled(v, Move)
    ensures var w, t := Apply(v, Move), v.pending[0];
            && Keyed(w) && Placed(w, t)
            && LevelOf(v.place[t]) == v.floor - 1
            && (LevelOf(w.place[t]) < LevelOf(v.place[t]) || (LevelOf(v.place[t]) == 4 && w.place[t] == v.place[t]))
  {
    hide Scheduled, Budget, SlotFor, LevelFor, LevelOf, Walks, Distinct, Without, Logged;
    var t := v.pending[0];
    TailDistinct(v.pending);
    assert Placed(v, t);
    LevelOfSlot(v.floor - 1, v.now);
    PlacedAhead(v.due[t], v.now);
    Walked(v.floor - 1, v.place[t], v.due[t], v.now);
  }

  lemma MoveKept<T>(v: View<T>)
    requires Good(v) && Enabled(v, Move)
    ensures Good(Apply(v, Move))
  {
    hide Scheduled, Budget, SlotFor, LevelFor, LevelOf, Walks, Distinct, Without, Logged;
    LoggedKept(v, Move);
    WalkingKept(v, Move);
    MovedAhead(v);
    var w, t := Apply(v, Move), v.pending[0];
    TailDistinct(v.pending);
    forall x | x in w.due && x != t
      ensures Placed(w, x)
    {
      assert Placed(v, x);
      PlacedStill(v, w, x);
    }
  }

  lemma FinishKept<T>(v: View<T>)
    requires Good(v) && Enabled(v, Finish)
    ensures Good(Apply(v, Finish))
  {
    hide Scheduled, Budget, SlotFor, LevelFor, LevelOf, Walks, Distinct, Without, Logged;
    forall t | t in v.due
      ensures v.now < v.due[t]
    {
      NoneLeft(v, t);
    }
    LoggedKept(v, Finish);
    WalkingKept(v, Finish);
    var w := Apply(v, Finish);
    forall x | x in w.due
      ensures Placed(w, x)
    {
      assert Placed(v, x);
    }
  }

  lemma TickKept<T>(v: View<T>)
    requires Good(v) && Enabled(v, Tick)
    ensures Good(Apply(v, Tick))
  {
    hide Scheduled, Budget, SlotFor, LevelFor, LevelOf, Walks, Distinct, Without, Logged;
    LoggedKept(v, Tick);
    WalkingKept(v, Tick);
    var w := Apply(v, Tick);
    forall x | x in w.due
      ensures Placed(w, x)
    {
      assert Placed(v, x);
      NoneLeft(v, x);
    }
  }

  /** The invariant of the wheel is kept by every step it can take. */
  lemma StepKept<T>(v: View<T>, s: Step<T>)
    requires Good(v) && Enabled(v, s)
    ensures Good(Apply(v, s))
  {
    match s
    case Start(t, d) => StartKept(v, t, d);
    case Stop(t) => StopKept(v, t);
    case Begin(chain) => BeginKept(v, chain);
    case Fire => FireKept(v);
    case Move => MoveKept(v);
    case Skip => SkipKept(v);
    case Finish => FinishKept(v);
    case Tick => TickKept(v);
  }

  /** The steps can be taken one after the other from v. */
  ghost predicate IsRun<T>(v: View<T>, steps: seq<Step<T>>)
    decreases |steps|
  {
    |steps| == 0 || (Enabled(v, steps[0]) && IsRun(Apply(v, steps[0]), steps[1..]))
  }

  ghost function Final<T>(v: View<T>, steps: seq<Step<T>>): View<T>
    requires IsRun(v, steps)
    decreases |steps|
  {
    if |steps| == 0 then v else Final(Apply(v, steps[0]), steps[1..])
  }

  lemma {:induction false} RunKept<T>(v: View<T>, steps: seq<Step<T>>)
    requires Good(v) && IsRun(v, steps)
    ensures Good(Final(v, steps))
    decreases |steps|
  {
    if |steps| > 0 {
      StepKept(v, steps[0]);
      RunKept(Apply(v, steps[0]), steps[1..]);
    }
  }

  /** Where the invariant holds, the timers that have fired at tick n are exactly those
      armed for n and not stopped, and no armed timer has been re-inserted more than its
      delay allows. */
  lemma GoodIsExact<T>(v: View<T>, t: T)
    requires Good(v)
    ensures v.due == Armed(v.log) && Sound(v.log)
    ensures forall n, k :: 0 <= k < |v.log| && v.log[k] == Ticked(n) ==>
      (Expected(v.log, t, n, k) <==> exists j :: 0 <= j < k && v.log[j] == Fired(t, n))
    ensures t in v.due ==> t in v.moves && t in v.delay && v.moves[t] <= 4 + v.delay[t] / 4194304
  {
    forall n, k | 0 <= k < |v.log| && v.log[k] == Ticked(n)
      ensures Expected(v.log, t, n, k) <==> exists j :: 0 <= j < k && v.log[j] == Fired(t, n)
    {
      ExactFiring(v.log, t, n, k);
    }
    if t in v.due {
      assert Placed(v, t);
    }
  }

  /** ... in every run. */
  lemma WheelIsExact<T>(v: View<T>, steps: seq<Step<T>>, t: T)
    requires Initial(v) && IsRun(v, steps)
    ensures var w := Final(v, steps);
            && w.due == Armed(w.log) && Sound(w.log)
            && (forall n, k :: 0 <= k < |w.log| && w.log[k] == Ticked(n) ==>
                  (Expected(w.log, t, n, k) <==> exists j :: 0 <= j < k && w.log[j] == Fired(t, n)))
            && (t in w.due ==> t in w.moves && t in w.delay && w.moves[t] <= 4 + w.delay[t] / 4194304)
  {
    RunKept(v, steps);
    GoodIsExact(Final(v, steps), t);
  }
}
