/** What the outside sees of a timer service: a log of starts, stops, expiries and
    completed ticks, and what it means for such a log to be right.

    The reference is a flat map from timer to expiry, replayed from the log.
 */
module TimerLog {

  datatype Event<T> =
    | Started(timer: T, expiry: nat)
    | Stopped(timer: T)
    | Fired(timer: T, tick: nat)
    | Ticked(tick: nat)   // every timer of this tick has been dealt with

  /** The timers armed after the log, with their expiries. */
  ghost function Armed<T>(log: seq<Event<T>>): (m: map<T, nat>)
  {
    if |log| == 0 then map[] else After(Armed(log[..|log| - 1]), log[|log| - 1])
  }

  ghost function After<T>(m: map<T, nat>, ev: Event<T>): map<T, nat>
  {
    match ev
    case Started(t, e) => m[t := e]
    case Stopped(t) => m - {t}
    case Fired(t, _) => m - {t}
    case Ticked(_) => m
  }

  /** The number of ticks completed. */
  ghost function Clock<T>(log: seq<Event<T>>): nat
  {
    if |log| == 0 then 0
    else Clock(log[..|log| - 1]) + if log[|log| - 1].Ticked? then 1 else 0
  }

  /** May ev come next? Only an unarmed timer is started, for now or later; a timer
      fires only in its own tick; a tick ends only once none of its timers is left. */
  ghost predicate MayFollow<T>(log: seq<Event<T>>, ev: Event<T>)
  {
    match ev
    case Started(t, e) => t !in Armed(log) && Clock(log) <= e
    case Stopped(t) => t in Armed(log)
    case Fired(t, n) => t in Armed(log) && Armed(log)[t] == n == Clock(log)
    case Ticked(n) => n == Clock(log) && forall t :: t in Armed(log) ==> n < Armed(log)[t]
  }

  ghost predicate Sound<T>(log: seq<Event<T>>)
  {
    |log| == 0 || (Sound(log[..|log| - 1]) && MayFollow(log[..|log| - 1], log[|log| - 1]))
  }

  lemma Extend<T>(log: seq<Event<T>>, ev: Event<T>)
    ensures Sound(log + [ev]) <==> Sound(log) && MayFollow(log, ev)
    ensures Clock(log + [ev]) == Clock(log) + (if ev.Ticked? then 1 else 0)
    ensures Armed(log + [ev]) == After(Armed(log), ev)
  {
    assert (log + [ev])[..|log|] == log;
  }

  lemma {:induction false} ClockGrows<T>(log: seq<Event<T>>, k: nat)
    requires k <= |log|
    ensures Clock(log[..k]) <= Clock(log)
  {
    if k < |log| {
      var init := log[..|log| - 1];
      ClockGrows(init, k);
      assert init[..k] == log[..k];
    } else {
      assert log[..k] == log;
    }
  }

  ghost predicate Concerns<T>(ev: Event<T>, t: T)
  {
    !ev.Ticked? && ev.timer == t
  }

  /** Nothing about t in log[a..b]. */
  ghost predicate Quiet<T>(log: seq<Event<T>>, t: T, a: nat, b: nat)
    requires b <= |log|
  {
    forall k :: a <= k < b ==> !Concerns(log[k], t)
  }

  lemma {:induction false} SoundAt<T>(log: seq<Event<T>>, k: nat)
    requires Sound(log) && k < |log|
    ensures Sound(log[..k]) && MayFollow(log[..k], log[k])
  {
    var init := log[..|log| - 1];
    if k < |log| - 1 {
      SoundAt(init, k);
      assert init[..k] == log[..k];
    } else {
      assert log[..k] == init;
    }
  }

  /** An armed timer is one whose last event was its start. */
  lemma {:induction false} ArmedSince<T>(log: seq<Event<T>>, t: T) returns (i: nat)
    requires t in Armed(log)
    ensures i < |log| && log[i] == Started(t, Armed(log)[t]) && Quiet(log, t, i + 1, |log|)
  {
    var n := |log| - 1;
    if log[n] == Started(t, Armed(log)[t]) {
      i := n;
    } else {
      i := ArmedSince(log[..n], t);
      assert forall k :: i + 1 <= k < n ==> log[k] == log[..n][k];
    }
  }

  lemma {:induction false} StaysArmed<T>(log: seq<Event<T>>, i: nat, t: T, e: nat)
    requires i < |log| && log[i] == Started(t, e) && Quiet(log, t, i + 1, |log|)
    ensures t in Armed(log) && Armed(log)[t] == e
  {
    var n := |log| - 1;
    if i < n {
      assert forall k :: i + 1 <= k < n ==> log[k] == log[..n][k];
      StaysArmed(log[..n], i, t, e);
      assert !Concerns(log[n], t);
    }
  }

  /** Never early, late or unasked: an expiry happens in the tick it was started
      for, and nothing happened to the timer in between. */
  lemma FiresOnTime<T>(log: seq<Event<T>>, j: nat) returns (i: nat)
    requires Sound(log) && j < |log| && log[j].Fired?
    ensures i < j && log[i] == Started(log[j].timer, log[j].tick) && Quiet(log, log[j].timer, i + 1, j)
    ensures Clock(log[..j]) == log[j].tick
  {
    SoundAt(log, j);
    i := ArmedSince(log[..j], log[j].timer);
    assert forall k :: i + 1 <= k < j ==> log[k] == log[..j][k];
  }

  /** Never twice: after a start, the next event about the timer is its expiry, at
      the tick it was started for, or a stop. */
  lemma NextIsOutcome<T>(log: seq<Event<T>>, i: nat, j: nat)
    requires Sound(log) && i < j < |log| && log[i].Started?
    requires Quiet(log, log[i].timer, i + 1, j) && Concerns(log[j], log[i].timer)
    ensures log[j] == Fired(log[i].timer, log[i].expiry) || log[j] == Stopped(log[i].timer)
  {
    SoundAt(log, j);
    assert forall k :: i + 1 <= k < j ==> log[k] == log[..j][k];
    StaysArmed(log[..j], i, log[i].timer, log[i].expiry);
  }

  /** The j-th entry is what became of the i-th, a start. */
  ghost predicate Outcome<T>(log: seq<Event<T>>, i: nat, j: nat)
    requires i < |log| && log[i].Started?
  {
    && i < j < |log| && Quiet(log, log[i].timer, i + 1, j)
    && (log[j] == Fired(log[i].timer, log[i].expiry) || log[j] == Stopped(log[i].timer))
  }

  /** A timer that is no longer armed as it was started has had its outcome. */
  lemma {:induction false} NoLongerArmed<T>(log: seq<Event<T>>, i: nat) returns (j: nat)
    requires Sound(log) && i < |log| && log[i].Started?
    requires log[i].timer in Armed(log) ==> Armed(log)[log[i].timer] != log[i].expiry
    ensures Outcome(log, i, j)
  {
    var t := log[i].timer;
    if Quiet(log, t, i + 1, |log|) {
      StaysArmed(log, i, t, log[i].expiry);
      assert false;
    }
    j := i + 1;
    while !Concerns(log[j], t)
      invariant i < j < |log| && Quiet(log, t, i + 1, j)
      decreases |log| - j
    {
      if j + 1 == |log| {
        assert Quiet(log, t, i + 1, |log|);
      }
      j := j + 1;
    }
    NextIsOutcome(log, i, j);
  }

  /** Never lost: once the tick of its expiry is over, the timer has fired or been stopped. */
  lemma OutcomeBy<T>(log: seq<Event<T>>, i: nat, k: nat) returns (j: nat)
    requires Sound(log) && i < k < |log| && log[i].Started? && log[k].Ticked? && log[i].expiry <= log[k].tick
    ensures j < k && Outcome(log, i, j)
  {
    hide Armed, Clock;
    SoundAt(log, k);
    j := NoLongerArmed(log[..k], i);
    assert forall m :: i + 1 <= m < k ==> log[m] == log[..k][m];
  }

  /** Started for tick n, and the next thing that happens to it is not a stop. */
  ghost predicate Expected<T>(log: seq<Event<T>>, t: T, n: nat, k: nat)
    requires k <= |log|
  {
    exists i :: 0 <= i < k && log[i] == Started(t, n)
      && forall s :: i < s < k && log[s] == Stopped(t) ==> !Quiet(log, t, i + 1, s)
  }

  /** The timers that fire at tick n are exactly those armed for n and not stopped. */
  lemma ExactFiring<T>(log: seq<Event<T>>, t: T, n: nat, k: nat)
    requires Sound(log) && k < |log| && log[k] == Ticked(n)
    ensures Expected(log, t, n, k) <==> exists j :: 0 <= j < k && log[j] == Fired(t, n)
  {
    if Expected(log, t, n, k) {
      var i :| 0 <= i < k && log[i] == Started(t, n)
        && forall s :: i < s < k && log[s] == Stopped(t) ==> !Quiet(log, t, i + 1, s);
      var j := OutcomeBy(log, i, k);
      assert log[j] == Fired(t, n);
    }
    if j :| 0 <= j < k && log[j] == Fired(t, n) {
      var i := FiresOnTime(log, j);
      assert Concerns(log[j], t);
    }
  }
}
