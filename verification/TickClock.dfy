/** The main loop of timer.c: it turns wall-clock readings into ticks, and corrects
    for the fraction of a tick that rounding drops in every cycle.
 */
module TickClock {
  import opened WheelMath

  const USEC_PER_TICK: nat := 100000   // 1000 * MSEC_PER_TICK

  /** struct timeval */
  datatype Time = Time(sec: nat, usec: nat) {
    ghost predicate Valid()
    {
      usec < 1000000 && Micros() < WORD
    }

    function Micros(): nat
    {
      sec * 1000000 + usec
    }
  }

  /** COMPUTE_ELAPSED_TIME: a switch whose cases 2 and 1 fall through. */
  function Elapsed(cur: Time, last: Time): int
  {
    var seconds := cur.sec - last.sec;
    var micros := cur.usec - last.usec;
    match seconds
    case 2 => micros + 1000000 + 1000000
    case 1 => micros + 1000000
    case 0 => micros
    case _ => seconds * 1000000 + micros
  }

  lemma ElapsedIsDifference(cur: Time, last: Time)
    ensures Elapsed(cur, last) == cur.Micros() - last.Micros()
  {
  }

  /** The whole ticks in that many microseconds. */
  function Whole(usec: nat): (t: nat)
    ensures 100000 * t <= usec < 100000 * (t + 1)
  {
    usec / USEC_PER_TICK
  }

  /** Adding a reading to a total whose whole ticks are counted leaves at most one
      whole tick uncounted. */
  lemma AtMostOneTick(total: nat, counted: nat, more: nat)
    requires USEC_PER_TICK * counted <= total < USEC_PER_TICK * (counted + 1)
    ensures var whole, part := Whole(total + more), Whole(more);
            && counted + part <= whole <= counted + part + 1
            && USEC_PER_TICK * whole <= total + more < USEC_PER_TICK * (whole + 1)
  {
  }

  /** Whether a cycle of that length makes the whole ticks of the total one more than those
      counted. */
  predicate Corrects(totalElapsed: nat, totalTicks: nat, usec: nat)
  {
    Whole(totalElapsed + usec) != totalTicks + Whole(usec)
  }

  lemma Fits(x: nat)
    requires x < WORD
    ensures Word(x) == x
  {
  }

  class Clock {
    var last: Time
    var totalElapsed: nat
    var totalTicks: nat

    ghost var origin: nat       // when counting began, in microseconds
    ghost var elapsed: nat      // microseconds since
    ghost var ticks: nat        // ticks handed out
    ghost var corrections: nat  // how often the loop corrected itself
    ghost var dropped: nat      // microseconds forgotten by the corrections

    /** Every microsecond is in a tick, pending, or dropped by a correction, and a
        correction drops less than one tick. */
    ghost predicate Balanced()
      reads this
    {
      && USEC_PER_TICK * totalTicks <= totalElapsed < USEC_PER_TICK * (totalTicks + 1)
      && dropped <= (USEC_PER_TICK - 1) * corrections && corrections <= ticks
      && elapsed == USEC_PER_TICK * ticks + dropped + (totalElapsed - USEC_PER_TICK * totalTicks)
      && totalElapsed <= elapsed < WORD
    }

    ghost predicate Valid()
      reads this
    {
      && last.Valid() && Balanced()
      && (if last == Time(0, 0) then origin == elapsed == 0 else last.Micros() == origin + elapsed)
    }

    constructor ()
      ensures Valid() && elapsed == ticks == corrections == totalElapsed == totalTicks == 0 && last == Time(0, 0)
    {
      hide Word;
      last, totalElapsed, totalTicks := Time(0, 0), 0, 0;
      origin, elapsed, ticks, corrections, dropped := 0, 0, 0, 0, 0;
    }

    /** The ticks of a cycle that took elapsedUsec. */
    method Account(elapsedUsec: nat) returns (due: nat)
      requires Balanced() && elapsed + elapsedUsec < WORD
      modifies this`totalElapsed, this`totalTicks, this`elapsed, this`ticks, this`corrections, this`dropped
      ensures Balanced()
      ensures elapsed == old(elapsed) + elapsedUsec && ticks == old(ticks) + due
      ensures due == Whole(elapsedUsec) + (corrections - old(corrections))
      ensures if Corrects(old(totalElapsed), old(totalTicks), elapsedUsec)
              then corrections == old(corrections) + 1 && totalElapsed == totalTicks == 0
                   && old(dropped) <= dropped < old(dropped) + USEC_PER_TICK
              else corrections == old(corrections) && totalElapsed == old(totalElapsed) + elapsedUsec
                   && totalTicks == old(totalTicks) + due && dropped == old(dropped)
    {
      hide Word, Whole;
      AtMostOneTick(totalElapsed, totalTicks, elapsedUsec);
      due := Whole(elapsedUsec);
      Fits(totalElapsed + elapsedUsec);
      Fits(totalTicks + due);
      Fits(due + 1);
      totalElapsed := Word(totalElapsed + elapsedUsec);
      var realTotal := Whole(totalElapsed);
      totalTicks := Word(totalTicks + due);
      elapsed := elapsed + elapsedUsec;
      if realTotal != totalTicks {
        due := Word(due + (realTotal - totalTicks));
        dropped := dropped + totalElapsed - USEC_PER_TICK * realTotal;
        corrections := corrections + 1;
        totalElapsed, realTotal, totalTicks := 0, 0, 0;
      }
      ticks := ticks + due;
    }

    /** One cycle, up to the processing of its ticks. */
    method Cycle(cur: Time) returns (due: nat)
      requires Valid() && cur.Valid() && last.Micros() <= cur.Micros()
      modifies this
      ensures Valid() && last == cur && ticks == old(ticks) + due
      ensures elapsed == old(elapsed) + if old(last) == Time(0, 0) then 0 else cur.Micros() - old(last).Micros()
      ensures 100000 * ticks <= elapsed < 100000 * (ticks + corrections + 1)
      ensures corrections <= ticks && elapsed < 100000 * (2 * ticks + 1)
      ensures due == Whole(elapsed - old(elapsed)) + (corrections - old(corrections))
      ensures if Corrects(old(totalElapsed), old(totalTicks), elapsed - old(elapsed))
              then corrections == old(corrections) + 1 && totalElapsed == totalTicks == 0
                   && old(dropped) <= dropped < old(dropped) + USEC_PER_TICK
              else corrections == old(corrections) && totalElapsed == old(totalElapsed) + (elapsed - old(elapsed))
                   && totalTicks == old(totalTicks) + due && dropped == old(dropped)
    {
      hide Word, Elapsed, Time.Micros, Corrects, Whole;
      AtOrigin();
      if last == Time(0, 0) {
        last := cur;
        origin := cur.Micros();
      }
      ElapsedIsDifference(cur, last);
      Fits(Elapsed(cur, last));
      due := Account(Word(Elapsed(cur, last)));
      last := cur;
    }
  }

  lemma AtOrigin()
    ensures Time(0, 0).Micros() == 0
  {
  }

  function TimeAt(micros: nat): (t: Time)
    ensures t.Micros() == micros && t.usec < 1000000
  {
    Time(micros / 1000000, micros % 1000000)
  }

  /** Two cycles just short of a tick each hand out one tick between them and forget the
      rest, so the clock can run at half speed for as long as one likes. */
  method HalfSpeed(n: nat) returns (c: Clock)
    requires 1 + 199998 * n < WORD
    ensures fresh(c) && c.Valid() && c.ticks == n && c.elapsed == 199998 * n
  {
    hide Word, Time.Micros, Corrects, Whole;
    c := new Clock();
    AtOrigin();
    Short();
    var due := c.Cycle(TimeAt(1));
    for k := 0 to n
      invariant c.Valid() && fresh(c) && c.totalElapsed == c.totalTicks == 0
      invariant c.last.Micros() == 1 + 199998 * k && c.ticks == k && c.elapsed == 199998 * k
    {
      due := c.Cycle(TimeAt(1 + 199998 * k + 99999));
      due := c.Cycle(TimeAt(1 + 199998 * k + 199998));
    }
  }

  lemma Short()
    ensures !Corrects(0, 0, 0) && !Corrects(0, 0, 99999) && Corrects(99999, 0, 99999)
    ensures Whole(0) == Whole(99999) == 0
  {
  }
}
