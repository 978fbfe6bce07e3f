/** The wait between connection attempts: three halves of the previous one, truncated, at most thirty seconds. */
module Backoff {
  import opened Numbers

  const CAP: nat := 30 * SECOND

  /** One growth step, in nanoseconds. */
  function Grown(delay: nat): nat {
    Min(CAP, 3 * delay / 2)
  }

  /** The wait after `k` growth steps from `delay`. */
  function Wait(delay: nat, k: nat): nat {
    if k == 0 then delay else Grown(Wait(delay, k - 1))
  }

  function Uncapped(delay: nat, k: nat): nat {
    if k == 0 then delay else 3 * Uncapped(delay, k - 1) / 2
  }

  function Pow(b: nat, k: nat): nat {
    if k == 0 then 1 else b * Pow(b, k - 1)
  }

  function TotalWait(delay: nat, n: nat): nat {
    if n == 0 then 0 else TotalWait(delay, n - 1) + Wait(delay, n - 1)
  }

  /** The first wait is the configured delay, and each one after it three halves of the last, at most thirty seconds. */
  lemma NextWait(delay: nat, k: nat)
    ensures Wait(delay, 0) == delay
    ensures 2 * Wait(delay, k + 1) <= 3 * Wait(delay, k) && Wait(delay, k + 1) <= 30_000_000_000
    ensures 2 * Wait(delay, k + 1) + 1 >= 3 * Wait(delay, k) || Wait(delay, k + 1) == 30_000_000_000
  {
  }

  /** When a step lengthens the wait, and where it stands still: a delay of 0 or 1 ns never grows. */
  lemma GrowsExactlyBetween(delay: nat)
    ensures Grown(delay) > delay <==> 2 <= delay < CAP
    ensures Grown(delay) == delay <==> delay in {0, 1, CAP}
  {
  }

  /**
   For every configured delay: a wait below the cap strictly increases with the next step, unless it is the delay of
   0 or 1 ns that never grows; a wait at or above the cap, even a longer configured one, is followed by the cap for ever.
   */
  lemma {:induction false} WaitsIncreaseToCap(delay: nat, k: nat)
    ensures Wait(delay, k) < CAP ==> if delay < 2 then Wait(delay, k + 1) == delay else Wait(delay, k) < Wait(delay, k + 1) <= CAP
    ensures Wait(delay, k) >= CAP ==> Wait(delay, k + 1) == CAP
    ensures 0 < k ==> Wait(delay, k) <= CAP
    ensures if delay < 2 then Wait(delay, k) == delay else 2 <= Wait(delay, k)
  {
    if k == 0 {
    } else {
      WaitsIncreaseToCap(delay, k - 1);
    }
  }

  /** Capping at every step is the same as capping once at the end. */
  lemma {:induction false} CapOnce(delay: nat, k: nat)
    requires 0 < k || delay <= CAP
    ensures Wait(delay, k) == Min(CAP, Uncapped(delay, k))
  {
    if 1 < k || (k == 1 && delay <= CAP) {
      CapOnce(delay, k - 1);
    }
  }

  lemma Regroup(p: int, m: int, a: int)
    ensures p * (m * a) == m * (p * a) == (m * p) * a
  {
  }

  lemma Scale(p: nat, a: int, b: int)
    requires a <= b
    ensures p * a <= p * b
  {
  }

  // A factor of an inequality, moved across: p a >= q b gives (m p) c >= (n q) b whenever m c >= n a.
  lemma ScaledLower(p: nat, q: nat, a: int, b: int, c: int)
    requires p * a >= q * b && 2 * c >= 3 * a
    ensures (2 * p) * c >= (3 * q) * b
  {
    Scale(p, 3 * a, 2 * c);
    Regroup(p, 3, a);
    Regroup(p, 2, c);
    Regroup(q, 3, b);
  }

  lemma ScaledUpper(p: nat, q: nat, a: int, b: int, c: int)
    requires p * a <= q * b && 2 * c <= 3 * a
    ensures (2 * p) * c <= (3 * q) * b
  {
    Scale(p, 2 * c, 3 * a);
    Regroup(p, 3, a);
    Regroup(p, 2, c);
    Regroup(q, 3, b);
  }

  /** Truncation loses little: (delay - 1) (3/2)^k + 1 <= Uncapped(delay, k) <= delay (3/2)^k. */
  lemma {:induction false} UncappedBounds(delay: nat, k: nat)
    ensures Pow(2, k) * (Uncapped(delay, k) - 1) >= Pow(3, k) * (delay - 1)
    ensures Pow(2, k) * Uncapped(delay, k) <= Pow(3, k) * delay
  {
    if k == 0 {
    } else {
      UncappedBounds(delay, k - 1);
      var p, q := Pow(2, k - 1), Pow(3, k - 1);
      var u: int, w: int, delay: int := Uncapped(delay, k - 1), Uncapped(delay, k), delay;
      ScaledLower(p, q, u - 1, delay - 1, w - 1);
      ScaledUpper(p, q, u, delay, w);
    }
  }

  lemma {:induction false} PowAdd(b: nat, m: nat, n: nat)
    ensures Pow(b, m + n) == Pow(b, m) * Pow(b, n)
  {
    if m == 0 {
    } else {
      PowAdd(b, m - 1, n);
      assert Pow(b, m + n) == b * (Pow(b, m - 1) * Pow(b, n)) == (b * Pow(b, m - 1)) * Pow(b, n);
    }
  }

  // p >= a q and r >= b s give p r >= (a b) (q s).
  lemma Product(p: nat, q: nat, a: nat, r: nat, s: nat, b: nat)
    requires p >= a * q && r >= b * s
    ensures p * r >= (a * b) * (q * s)
  {
    Scale(r, a * q, p);
    Scale(a * q, b * s, r);
    assert (a * q) * (b * s) == (a * b) * (q * s);
  }

  /** A growth by at least `a` over m steps and by at least `b` over n steps is one by at least a b over m + n. */
  lemma Compound(m: nat, a: nat, n: nat, b: nat)
    requires Pow(3, m) >= a * Pow(2, m) && Pow(3, n) >= b * Pow(2, n)
    ensures Pow(3, m + n) >= (a * b) * Pow(2, m + n)
  {
    PowAdd(2, m, n);
    PowAdd(3, m, n);
    Product(Pow(3, m), Pow(2, m), a, Pow(3, n), Pow(2, n), b);
  }

  lemma TenSteps()
    ensures Pow(3, 10) >= 57 * Pow(2, 10)
  {
  }

  /** Six times as many steps, starting from any number: a growth by at least 57 becomes one by at least the cap. */
  lemma SixTimes(m: nat)
    requires Pow(3, m) >= 57 * Pow(2, m)
    ensures Pow(3, 6 * m) >= CAP * Pow(2, 6 * m)
  {
    Compound(m, 57, m, 57);
    Compound(2 * m, 3249, 2 * m, 3249);
    Compound(4 * m, 10_556_001, 2 * m, 3249);
    Scale(Pow(2, 6 * m), CAP, 10_556_001 * 3249);
  }

  lemma {:induction false} CapStays(delay: nat, k: nat, n: nat)
    requires k <= n && Wait(delay, k) == CAP
    ensures Wait(delay, n) == CAP
    decreases n
  {
    if k < n {
      CapStays(delay, k, n - 1);
    }
  }

  // Dividing p * (u - 1) >= q * (d - 1) by p.
  lemma ScaledCap(p: nat, q: nat, u: nat, d: nat, cap: nat)
    requires 0 < p && 2 <= d && q >= p * cap && p * (u - 1) >= q * (d - 1)
    ensures u > cap
  {
    Scale(q, 1, d - 1);
    assert p * (u - 1) == p * u - p;
    if u <= cap {
      Scale(p, u, cap);
    }
  }

  lemma {:induction false} PowPositive(b: nat, k: nat)
    requires 0 < b
    ensures 0 < Pow(b, k)
  {
    if k != 0 { PowPositive(b, k - 1); }
  }

  lemma CapAfterSixTimes(delay: nat, m: nat)
    requires 2 <= delay && 0 < m && Pow(3, m) >= 57 * Pow(2, m)
    ensures Wait(delay, 6 * m) == CAP
  {
    UncappedBounds(delay, 6 * m);
    SixTimes(m);
    PowPositive(2, 6 * m);
    ScaledCap(Pow(2, 6 * m), Pow(3, 6 * m), Uncapped(delay, 6 * m), delay, CAP);
    CapOnce(delay, 6 * m);
  }

  /** Any delay of at least 2 ns is at the cap from the sixtieth growth step on. */
  lemma CapReachedWithinSixty(delay: nat, k: nat)
    requires 2 <= delay && 60 <= k
    ensures Wait(delay, k) == CAP
  {
    TenSteps();
    CapAfterSixTimes(delay, 10);
    CapStays(delay, 60, k);
  }

  /** The wait never exceeds the larger of the configured delay and the cap. */
  lemma {:induction false} WaitBound(delay: nat, k: nat)
    ensures Wait(delay, k) <= Max(delay, CAP)
  {
    if k != 0 { WaitBound(delay, k - 1); }
  }

  /** If the cap is reached after `steps` growth steps, n consecutive failures wait between (n - steps) caps and n maxima. */
  lemma {:induction false} TotalWaitBounds(delay: nat, steps: nat, n: nat)
    requires Wait(delay, steps) == CAP
    ensures (n - steps) * CAP <= TotalWait(delay, n) <= n * Max(delay, CAP)
  {
    if n == 0 {
      assert (0 - steps) * CAP <= 0;
    } else {
      TotalWaitBounds(delay, steps, n - 1);
      WaitBound(delay, n - 1);
      if steps <= n - 1 {
        CapStays(delay, steps, n - 1);
      } else {
        assert (n - steps) * CAP <= 0;
      }
      assert n * Max(delay, CAP) == (n - 1) * Max(delay, CAP) + Max(delay, CAP);
    }
  }
}
