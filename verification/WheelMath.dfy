/** The arithmetic of the five-level timing wheel (osw_timer.h, timer.c).

    Level l has Size(l) slots, each Interval(l) ticks wide. The 64+16+16+16+16
    slots are numbered 0..127; level l starts at Base(l). Times here are absolute
    and unbounded; Word says how they relate to the program's wrapping counter.
 */
module WheelMath {

  const LEVELS: nat := 5
  const SLOTS: nat := 128
  const TURN: nat := 4194304                     // ticks in a whole turn of the last level
  const WORD: nat := 0x1_0000_0000_0000_0000     // modulus of unsigned long

  /** x as the program's unsigned long holds it. */
  function Word(x: int): nat
  {
    x % WORD
  }

  function Interval(l: nat): nat
  {
    if l == 0 then 1 else if l == 1 then 64 else if l == 2 then 1024 else if l == 3 then 16384 else 262144
  }

  function Size(l: nat): nat
  {
    if l == 0 then 64 else 16
  }

  function Base(l: nat): nat
  {
    if l == 0 then 0 else if l == 1 then 64 else if l == 2 then 80 else if l == 3 then 96 else 112
  }

  /** TVn_OFFSET of the level: timers at least this far away belong further up. */
  function Reach(l: nat): nat
  {
    if l == 0 then 64 else if l == 1 then 1024 else if l == 2 then 16384 else if l == 3 then 262144 else TURN
  }

  /** The level add_timer chooses for a timer `offset` ticks away. */
  function LevelFor(offset: nat): (l: nat)
    ensures l < LEVELS
  {
    if offset < Reach(0) then 0
    else if offset < Reach(1) then 1
    else if offset < Reach(2) then 2
    else if offset < Reach(3) then 3
    else 4
  }

  /** The slot of level l for a time or tick e. */
  function SlotFor(l: nat, e: nat): (s: nat)
    ensures l < LEVELS ==> Base(l) <= s < Base(l) + Size(l) <= SLOTS
  {
    Base(l) + (if l == 0 then e % 64
               else if l == 1 then (e / 64) % 16
               else if l == 2 then (e / 1024) % 16
               else if l == 3 then (e / 16384) % 16
               else (e / 262144) % 16)
  }

  function LevelOf(slot: nat): (l: nat)
    ensures l < LEVELS
    ensures slot < SLOTS ==> Base(l) <= slot < Base(l) + Size(l)
  {
    if slot < 64 then 0 else if slot < 80 then 1 else if slot < 96 then 2 else if slot < 112 then 3 else 4
  }

  /** 64 slots of one tick, and four times 16 slots of a whole turn of the level below; a level
      takes the timers of its own turn, and the last one all that are further off. */
  lemma Geometry(l: nat, e: nat)
    requires l < 5
    ensures LEVELS == 5 && SLOTS == 128 && TURN == 4194304 && WORD == 18446744073709551616
    ensures Size(l) == (if l == 0 then 64 else 16) && Base(0) == 0 && Interval(0) == 1 && Base(4) + Size(4) == SLOTS
    ensures l < 4 ==> Base(l + 1) == Base(l) + Size(l) && Interval(l + 1) == Interval(l) * Size(l)
    ensures Reach(l) == Interval(l) * Size(l) && Reach(4) == TURN
    ensures SlotFor(l, e) == Base(l) + e / Interval(l) % Size(l)
    ensures LevelFor(e) == l <==> (l == 4 || e < Reach(l)) && (l == 0 || Reach(l - 1) <= e)
  {
  }

  /** process_tick walks a slot of level l at tick n exactly when every lower level
      has come round to its slot 0. */
  predicate Walks(l: nat, n: nat)
    requires l < LEVELS
  {
    l == 0 || (Walks(l - 1, n) && SlotFor(l - 1, n) == Base(l - 1))
  }

  /** The last time not after e at which the slot of e on level l is walked. */
  function Visit(l: nat, e: nat): (v: nat)
    requires l < LEVELS
    ensures v <= e < v + Interval(l)
  {
    if l == 0 then e
    else if l == 1 then e / 64 * 64
    else if l == 2 then e / 1024 * 1024
    else if l == 3 then e / 16384 * 16384
    else e / 262144 * 262144
  }

  /** A timer expiring at e may rest in `slot` of level l when the walks still to
      come start at tick n: the walk that matters is not over, and below the last
      level no earlier walk of the slot remains. */
  predicate Scheduled(l: nat, slot: nat, e: nat, n: nat)
    requires l < LEVELS
  {
    && slot == SlotFor(l, e)
    && n <= Visit(l, e)
    && (l < 4 ==> e < n + Reach(l))
  }

  /** Bound on the number of times a timer resting on level l is moved from tick n on. */
  function Budget(l: nat, e: nat, n: nat): int
    requires l < LEVELS
  {
    if l < 4 then l else 4 + (Visit(4, e) - n) / TURN
  }

  lemma Digit2(n: nat)
    ensures n % 1024 == 64 * (n / 64 % 16) + n % 64
  {
  }

  lemma Digit3(n: nat)
    ensures n % 16384 == 1024 * (n / 1024 % 16) + n % 1024
  {
  }

  lemma Digit4(n: nat)
    ensures n % 262144 == 16384 * (n / 16384 % 16) + n % 16384
  {
  }

  lemma {:induction false} WalksIffAligned(l: nat, n: nat)
    requires l < LEVELS
    ensures Walks(l, n) <==> n % Interval(l) == 0
  {
    if l > 0 {
      WalksIffAligned(l - 1, n);
      if l == 2 {
        Digit2(n);
      } else if l == 3 {
        Digit3(n);
      } else if l == 4 {
        Digit4(n);
      }
    }
  }

  lemma {:induction false} WalksNested(l: nat, m: nat, n: nat)
    requires l <= m < LEVELS
    ensures Walks(m, n) ==> Walks(l, n)
  {
    if l < m {
      WalksNested(l, m - 1, n);
    }
  }

  lemma LevelOfSlot(l: nat, e: nat)
    requires l < LEVELS
    ensures LevelOf(SlotFor(l, e)) == l
  {
  }

  /** Where add_timer puts a timer is a good place, strictly ahead if the timer is. */
  lemma PlacedAhead(e: nat, n: nat)
    requires n <= e
    ensures var l := LevelFor(e - n);
            && LevelOf(SlotFor(l, e)) == l
            && Scheduled(l, SlotFor(l, e), e, n)
            && (n < e <==> Scheduled(l, SlotFor(l, e), e, n + 1))
            && Budget(l, e, n + 1) <= Budget(l, e, n) <= 4 + (e - n) / TURN
  {
  }

  /** Why a start must be for a later tick once the walks of tick n have begun: its
      slot is already behind, and when that comes round the program reads the wrapped
      difference as a delay of almost a whole word and re-inserts the timer. */
  lemma ZeroDelayIsLost(n: nat)
    ensures LevelFor(0) == 0 && !Scheduled(0, SlotFor(0, n), n, n + 1)
    ensures forall m :: n < m < n + 64 ==> SlotFor(0, m) != SlotFor(0, n)
    ensures SlotFor(0, n + 64) == SlotFor(0, n)
    ensures Word(Word(n) - Word(n + 64)) == WORD - 64 && LevelFor(WORD - 64) == 4
  {
    var q := n / WORD;
    assert n == q * WORD + Word(n);
  }

  /** Visits fall on ticks that walk the very slot. */
  lemma VisitWalks(l: nat, e: nat)
    requires l < LEVELS
    ensures Walks(l, Visit(l, e)) && SlotFor(l, Visit(l, e)) == SlotFor(l, e)
  {
    WalksIffAligned(l, Visit(l, e));
    hide Walks;
    if l == 1 {
      assert e / 64 * 64 / 64 == e / 64;
    } else if l == 2 {
      assert e / 1024 * 1024 / 1024 == e / 1024;
    } else if l == 3 {
      assert e / 16384 * 16384 / 16384 == e / 16384;
    } else if l == 4 {
      assert e / 262144 * 262144 / 262144 == e / 262144;
    }
  }

  /** A slot not walked at tick n still has its walk ahead of it. */
  lemma NotMissed(l: nat, slot: nat, e: nat, n: nat)
    requires l < LEVELS && Scheduled(l, slot, e, n)
    requires !(Walks(l, n) && slot == SlotFor(l, n))
    ensures Scheduled(l, slot, e, n + 1)
    ensures Budget(l, e, n + 1) <= Budget(l, e, n)
  {
    hide SlotFor, Walks, Visit;
    VisitWalks(l, e);
  }

  /** What a walk finds in its slot. Below the last level every timer there is
      within one interval of expiring, so one that is not due moves strictly down;
      on the last level it may also be a whole number of turns early, and then it
      comes back to the same slot. Either way the move is paid for. */
  lemma Walked(l: nat, slot: nat, e: nat, n: nat)
    requires l < LEVELS && Scheduled(l, slot, e, n)
    requires Walks(l, n) && slot == SlotFor(l, n)
    ensures l == 0 ==> e == n
    ensures LevelFor(e - n) <= l
    ensures l < 4 ==> Visit(l, e) == n && (n < e ==> LevelFor(e - n) < l)
    ensures l == 4 && Visit(l, e) == n && n < e ==> LevelFor(e - n) < 4
    ensures l == 4 && Visit(l, e) != n ==> LevelFor(e - n) == 4 && SlotFor(4, e) == slot
    ensures n < e ==> Budget(LevelFor(e - n), e, n + 1) + 1 <= Budget(l, e, n)
  {
    WalksIffAligned(l, n);
    if l < 4 {
      WalkedBelow(l, e, n);
    } else {
      WalkedLast(e, n);
    }
  }

  lemma WalkedBelow(l: nat, e: nat, n: nat)
    requires l < 4 && Scheduled(l, SlotFor(l, n), e, n) && n % Interval(l) == 0
    ensures Visit(l, e) == n
  {
    hide Scheduled, SlotFor, Visit, Interval;
    if l == 0 {
      WalkedBelow0(e, n);
    } else if l == 1 {
      WalkedBelow1(e, n);
    } else if l == 2 {
      WalkedBelow2(e, n);
    } else {
      WalkedBelow3(e, n);
    }
  }

  lemma WalkedBelow0(e: nat, n: nat)
    requires Scheduled(0, SlotFor(0, n), e, n)
    ensures Visit(0, e) == n
  {
  }

  lemma WalkedBelow1(e: nat, n: nat)
    requires Scheduled(1, SlotFor(1, n), e, n) && n % Interval(1) == 0
    ensures Visit(1, e) == n
  {
    Residue(e / 64, n / 64);
  }

  lemma WalkedBelow2(e: nat, n: nat)
    requires Scheduled(2, SlotFor(2, n), e, n) && n % Interval(2) == 0
    ensures Visit(2, e) == n
  {
    Residue(e / 1024, n / 1024);
  }

  lemma WalkedBelow3(e: nat, n: nat)
    requires Scheduled(3, SlotFor(3, n), e, n) && n % Interval(3) == 0
    ensures Visit(3, e) == n
  {
    Residue(e / 16384, n / 16384);
  }

  lemma Residue(a: nat, b: nat)
    requires b <= a < b + 16 && a % 16 == b % 16
    ensures a == b
  {
  }

  lemma WalkedLast(e: nat, n: nat)
    requires Scheduled(4, SlotFor(4, n), e, n) && n % Interval(4) == 0
    ensures (Visit(4, e) - n) % TURN == 0
  {
    var a, b := e / 262144, n / 262144;
    var k := (a - b) / 16;
    assert (a - b) % 16 == 0;
    assert n == 262144 * b;
    assert Visit(4, e) - n == TURN * k;
  }

  /** Slots, walks and offsets computed from the wrapped counter are those of the
      absolute times, because every width * size divides the word modulus. */
  lemma Wrapped(l: nat, e: nat)
    requires l < LEVELS
    ensures SlotFor(l, Word(e)) == SlotFor(l, e)
  {
    var turns := e / WORD * 0x400_0000_0000;
    assert e == turns * TURN + Word(e);
    hide Word;
    Turned(l, turns, Word(e));
  }

  /** Whole turns of the wheel do not change the slot of any level. */
  lemma Turned(l: nat, turns: nat, e: nat)
    requires l < LEVELS
    ensures SlotFor(l, turns * TURN + e) == SlotFor(l, e)
  {
    var x := turns * TURN + e;
    if l == 0 {
      Mod64(65536 * turns, e);
    } else {
      if l == 1 {
        assert x / 64 == 65536 * turns + e / 64;
        Mod16(4096 * turns, e / 64);
      } else if l == 2 {
        assert x / 1024 == 4096 * turns + e / 1024;
        Mod16(256 * turns, e / 1024);
      } else if l == 3 {
        assert x / 16384 == 256 * turns + e / 16384;
        Mod16(16 * turns, e / 16384);
      } else {
        assert x / 262144 == 16 * turns + e / 262144;
        Mod16(turns, e / 262144);
      }
    }
  }

  lemma Mod16(k: nat, r: nat)
    ensures (16 * k + r) % 16 == r % 16
  {
  }

  lemma Mod64(k: nat, r: nat)
    ensures (64 * k + r) % 64 == r % 64
  {
  }

  lemma WrappedOffset(e: nat, n: nat)
    requires n <= e < n + WORD
    ensures Word(Word(e) - Word(n)) == e - n
  {
  }

  lemma WrappedSum(a: int, n: int)
    ensures Word(a + Word(n)) == Word(a + n)
  {
  }
}
