/** The timer's log against the wall clock: every entry carries the reading of the clock at
    which it was made, and from that follows how much time passes between a start and its
    expiry. */
module TimerHistory {
  import opened TimerLog
  import opened TickClock

  /** The clock at one of its readings. */
  datatype Stamp = Stamp(elapsed: nat, ticks: nat, corrections: nat, dropped: nat)

  /** Every microsecond is in a tick, dropped by a correction, or part of the next tick. */
  ghost predicate Fair(s: Stamp)
  {
    USEC_PER_TICK * s.ticks + s.dropped <= s.elapsed < USEC_PER_TICK * (s.ticks + 1) + s.dropped
  }

  /** b is a later reading than a: a correction has dropped less than a tick. */
  ghost predicate Follows(a: Stamp, b: Stamp)
  {
    && a.ticks <= b.ticks && a.corrections <= b.corrections
    && 0 <= b.dropped - a.dropped <= (USEC_PER_TICK - 1) * (b.corrections - a.corrections)
  }

  lemma FollowsOn(a: Stamp, b: Stamp, c: Stamp)
    requires Follows(a, b) && Follows(b, c)
    ensures Follows(a, c)
  {
  }

  /** A start for a tick that its cycle has still to process has its outcome in that cycle. */
  ghost predicate CaughtUp<T>(log: seq<Event<T>>, stamps: seq<Stamp>, i: nat)
    requires i < |log| == |stamps|
  {
    log[i].Started? && log[i].expiry < stamps[i].ticks ==>
      exists j :: 0 <= j < |log| && Outcome(log, i, j) && stamps[j] == stamps[i]
  }

  /** One entry, made at tick `time`, stamped with s. */
  ghost predicate Entered<T>(ev: Event<T>, time: nat, s: Stamp)
  {
    Fair(s) && time <= s.ticks && (ev.Fired? ==> ev.tick < s.ticks)
  }

  ghost predicate History<T>(log: seq<Event<T>>, times: seq<nat>, stamps: seq<Stamp>, now: Stamp)
  {
    && |log| == |times| == |stamps| && Fair(now)
    && (forall j :: 0 <= j < |log| ==> Entered(log[j], times[j], stamps[j]) && Follows(stamps[j], now))
    && (forall i, j :: 0 <= i <= j < |log| ==> Follows(stamps[i], stamps[j]))
    && (forall i :: 0 <= i < |log| ==> CaughtUp(log, stamps, i))
  }

  ghost function Repeat(s: Stamp, n: nat): (r: seq<Stamp>)
    ensures |r| == n && forall i :: 0 <= i < n ==> r[i] == s
  {
    seq(n, _ => s)
  }

  /** More entries, all made at the reading `now`. */
  lemma HistoryGrows<T>(log: seq<Event<T>>, times: seq<nat>, stamps: seq<Stamp>, last: Stamp,
                        log': seq<Event<T>>, times': seq<nat>, now: Stamp)
    requires History(log, times, stamps, last) && Fair(now) && Follows(last, now) && Follows(now, now)
    requires log <= log' && times <= times' && |log'| == |times'|
    requires forall j :: |log| <= j < |log'| ==> Entered(log'[j], times'[j], now)
    requires forall i :: |log| <= i < |log'| && log'[i].Started? && log'[i].expiry < now.ticks ==> HasOutcome(log', i)
    ensures History(log', times', stamps + Repeat(now, |log'| - |log|), now)
  {
    hide Fair, Follows, Repeat, Entered, Outcome;
    var stamps' := stamps + Repeat(now, |log'| - |log|);
    forall j | 0 <= j < |log'|
      ensures Entered(log'[j], times'[j], stamps'[j]) && Follows(stamps'[j], now)
    {
      if j < |log| {
        assert log'[j] == log[j] && times'[j] == times[j] && stamps'[j] == stamps[j];
        FollowsOn(stamps[j], last, now);
      } else {
        assert stamps'[j] == now;
      }
    }
    forall i, j | 0 <= i <= j < |log'|
      ensures Follows(stamps'[i], stamps'[j])
    {
      assert j < |log| ==> stamps'[i] == stamps[i] && stamps'[j] == stamps[j];
      assert j >= |log| ==> stamps'[j] == now;
    }
    forall i | 0 <= i < |log'|
      ensures CaughtUp(log', stamps', i)
    {
      if i < |log| {
        CaughtUpStill(log, stamps, log', stamps', i);
      } else {
        CaughtUpNow(log', stamps', i, now);
      }
    }
  }

  ghost predicate HasOutcome<T>(log: seq<Event<T>>, i: nat)
    requires i < |log| && log[i].Started?
  {
    exists j :: 0 <= j < |log| && Outcome(log, i, j)
  }

  lemma CaughtUpStill<T>(log: seq<Event<T>>, stamps: seq<Stamp>, log': seq<Event<T>>, stamps': seq<Stamp>, i: nat)
    requires i < |log| == |stamps| && log <= log' && stamps <= stamps' && |log'| == |stamps'| && CaughtUp(log, stamps, i)
    ensures CaughtUp(log', stamps', i)
  {
    assert log'[i] == log[i] && stamps'[i] == stamps[i];
    if log[i].Started? && log[i].expiry < stamps[i].ticks {
      var j :| 0 <= j < |log| && Outcome(log, i, j) && stamps[j] == stamps[i];
      assert forall k :: i <= k <= j ==> log'[k] == log[k];
      assert Outcome(log', i, j) && stamps'[j] == stamps'[i];
    }
  }

  lemma CaughtUpNow<T>(log: seq<Event<T>>, stamps: seq<Stamp>, i: nat, now: Stamp)
    requires i < |log| == |stamps| && forall j :: i <= j < |stamps| ==> stamps[j] == now
    requires log[i].Started? && log[i].expiry < now.ticks ==> HasOutcome(log, i)
    ensures CaughtUp(log, stamps, i)
  {
  }

  // What follows

  /** The delay the i-th entry, a start, asked for. */
  ghost function Delay<T>(log: seq<Event<T>>, times: seq<nat>, i: nat): int
    requires i < |log| == |times| && log[i].Started?
  {
    log[i].expiry - times[i]
  }

  /** The ticks handed out by the clock and not yet counted when the i-th entry was made. */
  ghost function Left(times: seq<nat>, stamps: seq<Stamp>, i: nat): int
    requires i < |times| == |stamps|
  {
    stamps[i].ticks - times[i]
  }

  /** Between the reading of a start and that of its expiry more time passes than its delay,
      less the ticks that were still left at the start; than its whole delay, if none were. */
  lemma NotEarly<T>(log: seq<Event<T>>, times: seq<nat>, stamps: seq<Stamp>, now: Stamp, j: nat) returns (i: nat)
    requires Sound(log) && History(log, times, stamps, now) && j < |log| && log[j].Fired?
    ensures i < j && log[i].Started? && Outcome(log, i, j) && Left(times, stamps, i) >= 0
    ensures stamps[j].elapsed - stamps[i].elapsed > 100000 * (Delay(log, times, i) - Left(times, stamps, i))
    ensures Left(times, stamps, i) == 0 ==> stamps[j].elapsed - stamps[i].elapsed > 100000 * Delay(log, times, i)
  {
    i := FiresOnTime(log, j);
    assert Entered(log[i], times[i], stamps[i]) && Entered(log[j], times[j], stamps[j]);
    assert Follows(stamps[i], stamps[j]);
  }

  /** And a timer for a tick that was among those left has its outcome at the very reading of
      its start. */
  lemma AtOnce<T>(log: seq<Event<T>>, times: seq<nat>, stamps: seq<Stamp>, now: Stamp, i: nat) returns (j: nat)
    requires History(log, times, stamps, now) && i < |log| && log[i].Started?
    requires Delay(log, times, i) < Left(times, stamps, i)
    ensures Outcome(log, i, j) && stamps[j] == stamps[i]
  {
    assert CaughtUp(log, stamps, i);
    j :| 0 <= j < |log| && Outcome(log, i, j) && stamps[j] == stamps[i];
  }

  /** While a timer is armed, less time has passed since the reading of its start than its
      delay and one tick, plus one for each correction since then. */
  lemma NotLate<T>(log: seq<Event<T>>, times: seq<nat>, stamps: seq<Stamp>, now: Stamp, t: T) returns (i: nat)
    requires History(log, times, stamps, now) && t in Armed(log) && now.ticks <= Armed(log)[t]
    ensures i < |log| && log[i] == Started(t, Armed(log)[t]) && Quiet(log, t, i + 1, |log|)
    ensures Left(times, stamps, i) >= 0
    ensures now.elapsed - stamps[i].elapsed <
      USEC_PER_TICK * (Delay(log, times, i) - Left(times, stamps, i) + (now.corrections - stamps[i].corrections) + 1)
  {
    i := ArmedSince(log, t);
    assert Entered(log[i], times[i], stamps[i]) && Follows(stamps[i], now);
  }
}
