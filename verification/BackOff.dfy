/** The retry interval of raw_proto_timer.c, with the rounding of its `float`. */
module BackOff {

  function Pow2(n: nat): (p: nat)
    ensures p > 0
  {
    if n == 0 then 1 else 2 * Pow2(n - 1)
  }

  /** The spacing of floats (24 significant bits) around h, for h >= 2^23. */
  function Spacing(h: nat): (u: nat)
    ensures u > 0
  {
    if h < 0x100_0000 then 1 else 2 * Spacing(h / 2)
  }

  /** h to the nearest float, ties to even. */
  function RoundToFloat(h: nat): nat
  {
    var u := Spacing(h);
    var q, r := h / u, h % u;
    if 2 * r < u || (2 * r == u && q % 2 == 0) then q * u else (q + 1) * u
  }

  /** uceil, of a value given in halves. */
  function CeilHalves(h: nat): nat
  {
    if h % 2 == 0 then h / 2 else h / 2 + 1
  }

  /** calculate_retry_interval: 1 + ((1 << n) - 1) / 2.0, stored in a float and rounded
      up. In halves that is 2^n + 1. From 31 on the shift leaves the int. */
  function Interval(n: nat): nat
    requires n <= 30
  {
    CeilHalves(RoundToFloat(Pow2(n) + 1))
  }

  lemma {:induction false} Pow2Grows(m: nat, n: nat)
    requires m <= n
    ensures Pow2(m) <= Pow2(n)
  {
    if m < n {
      Pow2Grows(m, n - 1);
    }
  }

  lemma Pow2At23()
    ensures Pow2(23) == 0x80_0000
  {
    assert Pow2(8) == 256;
    assert Pow2(16) == 65536;
  }

  lemma {:induction false} SpacingOfPow2(n: nat)
    requires n >= 23
    ensures Spacing(Pow2(n)) == Pow2(n - 23)
  {
    Pow2At23();
    if n > 23 {
      Pow2Grows(24, n);
      SpacingOfPow2(n - 1);
    }
  }

  lemma {:induction false} SmallPow2(k: nat)
    requires 1 <= k <= 7
    ensures Pow2(k) in {2, 4, 8, 16, 32, 64, 128} && Pow2(23 + k) == 0x80_0000 * Pow2(k)
  {
    Pow2At23();
    if k > 1 {
      SmallPow2(k - 1);
    }
  }

  lemma SmallRemainder(h: nat, u: nat)
    requires u in {2, 4, 8, 16, 32, 64, 128} && h == 0x80_0000 * u + 1
    ensures h / u == 0x80_0000 && h % u == 1
  {
  }

  /** 2^n + 1 halves survive the float exactly up to n == 23; after that the odd half
      is lost. */
  lemma RoundedPow2(n: nat)
    requires 1 <= n <= 30
    ensures RoundToFloat(Pow2(n) + 1) == if n <= 23 then Pow2(n) + 1 else Pow2(n)
  {
    Pow2At23();
    var h := Pow2(n) + 1;
    if n <= 23 {
      Pow2Grows(n, 23);
    } else {
      Pow2Grows(24, n);
      assert h / 2 == Pow2(n - 1);
      SpacingOfPow2(n - 1);
      var u := Pow2(n - 23);
      assert Spacing(h) == u;
      SmallPow2(n - 23);
      SmallRemainder(h, u);
    }
  }

  /** The interval is 2^(n-1) + 1 exactly while the float holds the half. */
  lemma IntervalIsExponential(n: nat)
    requires 1 <= n <= 30
    ensures Interval(n) == Pow2(n - 1) + if n <= 23 then 1 else 0
  {
    RoundedPow2(n);
  }

  lemma IntervalIsPositive(n: nat)
    requires 1 <= n <= 30
    ensures Interval(n) >= 1
  {
    IntervalIsExponential(n);
  }

  /** The least time from the start of a packet to its c-th transmission check: the sum
      of the first c - 1 intervals. */
  function Wait(c: nat): nat
    requires 1 <= c <= 31
  {
    if c == 1 then 0 else Wait(c - 1) + Interval(c - 1)
  }

  lemma WaitStep(c: nat)
    requires 1 <= c <= 30
    ensures Wait(c + 1) == Wait(c) + Interval(c)
  {
    hide Interval;
  }

  lemma {:induction false} WaitIsExponential(c: nat)
    requires 1 <= c <= 31
    ensures Wait(c) == Pow2(c - 1) + (if c <= 24 then c else 24) - 2
  {
    if c > 1 {
      WaitIsExponential(c - 1);
      IntervalIsExponential(c - 1);
    }
  }
}
