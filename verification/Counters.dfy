// A Go `int` counter that a loop advances by a fixed step, with 64-bit wrap-around:
// which numbers it comes by. The step is a power of two times an odd number, and an odd
// number has an inverse modulo every power of two; so the counter, which goes round in
// 64 bits, comes by exactly the numbers that differ from its start by a multiple of
// that power of two. None of this holds for the unbounded integers, on which a counter
// with a step of at least 1 only grows.
module Counters {
  import opened GoInt

  /** A counter after `n` steps. */
  function Count(start: int64, step: int64, n: nat): int64 {
    if n == 0 then start else Wrap(Count(start, step, n - 1) + step)
  }

  function Pow2(n: nat): nat {
    if n == 0 then 1 else 2 * Pow2(n - 1)
  }

  /** How often 2 divides `n`. */
  function Twos(n: int): nat
    requires n != 0
    decreases Abs(n)
  {
    if n % 2 == 0 then 1 + Twos(n / 2) else 0
  }

  function Steps(step: int, n: nat): int {
    if n == 0 then 0 else Steps(step, n - 1) + step
  }

  lemma {:induction false} CountIsSteps(start: int64, step: int64, n: nat)
    ensures Count(start, step, n) == Wrap(start + Steps(step, n))
  {
    if n > 0 {
      CountIsSteps(start, step, n - 1);
      WrapAdds(Count(start, step, n - 1), start + Steps(step, n - 1), step, start + Steps(step, n));
    }
  }

  lemma {:induction false} StepsAreProduct(step: int, n: nat)
    ensures Steps(step, n) == n * step
  {
    if n > 0 {
      StepsAreProduct(step, n - 1);
      OneMore(step, n);
    }
  }

  lemma CountIsWrapped(start: int64, step: int64, n: nat)
    ensures Count(start, step, n) == Wrap(start + n * step)
  {
    CountIsSteps(start, step, n);
    StepsAreProduct(step, n);
  }

  lemma OneMore(step: int, n: int)
    ensures n * step == (n - 1) * step + step
  {
  }

  lemma WrapAdds(wrapped: int64, x: int, y: int, sum: int)
    requires wrapped == Wrap(x) && sum == x + y
    ensures Wrap(wrapped + y) == Wrap(sum)
  {
  }

  lemma {:induction false} Pow2Splits(m: nat, n: nat)
    ensures Pow2(m + n) == Pow2(m) * Pow2(n)
  {
    if m > 0 {
      Pow2Splits(m - 1, n);
      assert m + n - 1 == m - 1 + n;
    }
  }

  lemma Pow2Of64()
    ensures Pow2(64) == TWO_64
  {
    Pow2Splits(32, 32);
    Pow2Splits(16, 16);
    Pow2Splits(8, 8);
    assert Pow2(8) == 256;
  }

  /** A number is a power of two times an odd number. */
  lemma {:induction false} TwosDivide(n: int) returns (m: int)
    requires n != 0
    ensures n == Pow2(Twos(n)) * m && m % 2 == 1
    decreases Abs(n)
  {
    if n % 2 == 0 {
      m := TwosDivide(n / 2);
      Twice(Pow2(Twos(n / 2)), m);
    } else {
      m := n;
    }
  }

  lemma Twice(a: int, b: int)
    ensures (2 * a) * b == 2 * (a * b)
  {
  }

  lemma TwosOf64(n: int)
    requires n != 0 && -TWO_64 < n < TWO_64
    ensures Twos(n) < 64
  {
    var m := TwosDivide(n);
    AtLeast(m, Pow2(Twos(n)));
    Pow2Of64();
    if Twos(n) >= 64 { Pow2Grows(64, Twos(n)); }
  }

  lemma Pow2Grows(m: nat, n: nat)
    requires m <= n
    ensures Pow2(m) <= Pow2(n)
  {
    Pow2Splits(m, n - m);
    Pow2Positive(n - m);
    AtLeast(Pow2(n - m), Pow2(m));
  }

  lemma {:induction false} Pow2Positive(n: nat)
    ensures Pow2(n) >= 1
  {
    if n > 0 { Pow2Positive(n - 1); }
  }

  /** An odd number divides everything modulo a power of two. */
  lemma {:induction false} OddDivides(m: int, t: int, n: nat) returns (k: nat, q: int)
    requires m % 2 == 1
    ensures k * m - t == q * Pow2(n)
  {
    if n == 0 {
      k, q := 0, -t;
    } else {
      var half := Pow2(n - 1);
      k, q := OddDivides(m, t, n - 1);
      if q % 2 == 0 {
        Twice(half, q / 2);
        q := q / 2;
      } else {
        OddStep(k, m, t, q, half);
        assert k + half >= 0;
        k, q := k + half, (q + m) / 2;
      }
    }
  }

  lemma OddStep(k: int, m: int, t: int, q: int, half: int)
    requires k * m - t == q * half && (q + m) % 2 == 0
    ensures (k + half) * m - t == ((q + m) / 2) * (2 * half)
  {
    var h := (q + m) / 2;
    assert (k + half) * m - t == q * half + half * m == (q + m) * half;
    assert q + m == 2 * h;
    assert (2 * h) * half == h * (2 * half);
  }

  /** The greatest power of two that divides the step. */
  function Stride(step: int64): (d: nat)
    requires step != 0
    ensures d >= 1
  {
    Pow2Positive(Twos(step));
    Pow2(Twos(step))
  }

  /** The counter comes only by numbers that differ from the start by a multiple of the
      stride. */
  lemma CountsInStrides(start: int64, step: int64, n: nat)
    requires step != 0
    ensures (Count(start, step, n) - start) % Stride(step) == 0
  {
    var t := CountedDiffers(start, step, Count(start, step, n), n);
    MultipleIs(Count(start, step, n) - start, t, Stride(step));
  }

  /** And it comes by all of them. */
  lemma CountsAllStrides(start: int64, step: int64, x: int64) returns (n: nat)
    requires step != 0 && (x - start) % Stride(step) == 0
    ensures Count(start, step, n) == x
  {
    var t := Quotient(x - start, Stride(step));
    n := CountTo(start, step, x, t);
  }

  lemma Quotient(x: int, d: int) returns (t: int)
    requires d >= 1 && x % d == 0
    ensures x == t * d
  {
    t := x / d;
  }

  lemma MultipleIs(x: int, t: int, d: int)
    requires d >= 1 && x == t * d
    ensures x % d == 0
  {
    MultipleHasNoRest(t, d);
  }

  lemma MultipleHasNoRest(t: int, d: int)
    requires d >= 1
    ensures (t * d) % d == 0
  {
    var q, m := (t * d) / d, (t * d) % d;
    Distribute(t, 1, q, 1, d);
    assert m == (t - q) * d;
    AtLeast(t - q, d);
  }

  lemma AtLeast(m: int, d: int)
    requires d >= 0
    ensures (m >= 1 ==> m * d >= d) && (m == 0 ==> m * d == 0) && (m <= -1 ==> m * d <= -d)
  {
    if m >= 1 { assert (m - 1) * d >= 0; }
    if m <= -1 { assert (-m - 1) * d >= 0; }
  }

  lemma CountedDiffers(start: int64, step: int64, x: int64, n: nat) returns (t: int)
    requires step != 0 && Count(start, step, n) == x
    ensures x - start == t * Pow2(Twos(step))
  {
    var d, rest := SplitStep(step);
    var m := TwosDivide(step);
    CountIsWrapped(start, step, n);
    WrapIsCongruent(start + n * step, x);
    var q := (start + n * step - x) / TWO_64;
    t := n * m - q * rest;
    Distribute(n, m, q, rest, d);
  }

  lemma CountTo(start: int64, step: int64, x: int64, t: int) returns (n: nat)
    requires step != 0 && x - start == t * Pow2(Twos(step))
    ensures Count(start, step, n) == x
  {
    var d, rest := SplitStep(step);
    var m := TwosDivide(step);
    var q;
    n, q := OddDivides(m, t, 64 - Twos(step));
    Scaled(n, m, t, q, rest, d);
    CongruentBy(start + n * step, x, q);
    CountIsWrapped(start, step, n);
  }

  lemma CongruentBy(y: int, x: int64, q: int)
    requires y - x == q * TWO_64
    ensures Wrap(y) == x
  {
  }

  lemma SplitStep(step: int64) returns (d: nat, rest: nat)
    requires step != 0
    ensures d == Pow2(Twos(step)) && Twos(step) < 64 && rest == Pow2(64 - Twos(step)) && rest * d == TWO_64
  {
    TwosOf64(step);
    d, rest := Pow2(Twos(step)), Pow2(64 - Twos(step));
    Pow2Splits(64 - Twos(step), Twos(step));
    Pow2Of64();
  }

  lemma Scaled(n: int, m: int, t: int, q: int, rest: int, d: int)
    requires n * m - t == q * rest
    ensures n * (d * m) - t * d == q * (rest * d)
  {
    assert n * (d * m) - t * d == (n * m - t) * d == (q * rest) * d;
  }

  lemma Distribute(n: int, m: int, q: int, r: int, d: int)
    ensures (n * m - q * r) * d == n * (m * d) - q * (r * d)
  {
  }
}
