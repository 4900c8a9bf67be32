// Go's 64-bit integer arithmetic and byte-wise string order, as the Serv
// compiler uses them when it folds constants and as the emitted Go code uses
// them at run time.
module GoInt {
  const TWO_63: int := 0x8000_0000_0000_0000
  const TWO_64: int := 0x1_0000_0000_0000_0000

  type int64 = x: int | -0x8000_0000_0000_0000 <= x < 0x8000_0000_0000_0000

  /** Two's-complement wrap-around: the low 64 bits of `x`, read as a signed number. */
  function Wrap(x: int): int64 {
    (x + TWO_63) % TWO_64 - TWO_63
  }

  /** Integer quotient rounded toward zero (Go's `/`). */
  function TruncDiv(l: int, r: int): int
    requires r != 0
  {
    var q := Abs(l) / Abs(r);
    if (l < 0) == (r < 0) then q else -q
  }

  /** The remainder that goes with TruncDiv (Go's `%`). */
  function TruncMod(l: int, r: int): int
    requires r != 0
  {
    l - TruncDiv(l, r) * r
  }

  function Abs(x: int): nat {
    if x < 0 then -x else x
  }

  /** Go's `<` on strings. */
  predicate StrLess(a: string, b: string) {
    b != [] && (a == [] || a[0] < b[0] || (a[0] == b[0] && StrLess(a[1..], b[1..])))
  }

  /** Wrap is the one int64 that agrees with `x` modulo 2^64. */
  lemma WrapIsCongruent(x: int, y: int64)
    ensures y == Wrap(x) <==> (x - y) % TWO_64 == 0
  {
    var w := Wrap(x);
    var k := (x + TWO_63) / TWO_64;
    assert x - w == k * TWO_64;
    if (x - y) % TWO_64 == 0 {
      var m := (x - y) / TWO_64;
      assert x - y == m * TWO_64;
      assert y - w == (k - m) * TWO_64;
      assert -TWO_64 < y - w < TWO_64;
    }
  }

  /** The remainder is smaller than the divisor and takes the sign of the dividend. */
  lemma TruncDivSpec(l: int, r: int)
    requires r != 0
    ensures l == TruncDiv(l, r) * r + TruncMod(l, r)
    ensures Abs(TruncMod(l, r)) < Abs(r)
    ensures TruncMod(l, r) != 0 ==> (TruncMod(l, r) < 0 <==> l < 0)
  {
    var q, m := Abs(l) / Abs(r), Abs(l) % Abs(r);
    assert Abs(l) == Abs(r) * q + m;
    if l < 0 {
      assert TruncMod(l, r) == -m by {
        if r < 0 { assert TruncDiv(l, r) * r == q * r; } else { assert TruncDiv(l, r) * r == -(q * r); }
      }
    } else {
      assert TruncMod(l, r) == m by {
        if r < 0 { assert TruncDiv(l, r) * r == -(q * r); } else { assert TruncDiv(l, r) * r == q * r; }
      }
    }
  }

  /** No other quotient and remainder are like that. */
  lemma TruncIsUnique(l: int, r: int, q: int, m: int)
    requires r != 0 && l == q * r + m && Abs(m) < Abs(r) && (m != 0 ==> (m < 0 <==> l < 0))
    ensures q == TruncDiv(l, r) && m == TruncMod(l, r)
  {
    var t, s := TruncDiv(l, r), TruncMod(l, r);
    TruncDivSpec(l, r);
    SmallMultiple(q, t, r);
    assert Abs(s - m) < Abs(r);
    assert q * r - t * r == s - m;
  }

  lemma SmallMultiple(q: int, t: int, r: int)
    ensures q != t ==> Abs(q * r - t * r) >= Abs(r)
  {
    var d := q - t;
    assert q * r - t * r == d * r;
    if d > 0 {
      if r > 0 { assert d * r >= r; } else { assert d * r <= r; }
    } else if d < 0 {
      if r > 0 { assert d * r <= -r; } else { assert d * r >= -r; }
    }
  }

  /** One quotient of two int64s is no int64. */
  lemma QuotientFits(l: int64, r: int64)
    requires r != 0
    ensures TruncDiv(l, r) == TWO_63 <==> l == -TWO_63 && r == -1
    ensures -TWO_63 <= TruncDiv(l, r) <= TWO_63
  {
    QuotientShrinks(Abs(l), Abs(r));
  }

  lemma QuotientShrinks(a: nat, b: nat)
    requires b != 0
    ensures if b == 1 then a / b == a else 2 * (a / b) <= a
  {
    Doubled(a, b, a / b, a % b);
  }

  lemma Doubled(a: nat, b: nat, q: nat, m: nat)
    requires a == b * q + m
    ensures b >= 2 ==> 2 * q <= a
  {
    if b >= 2 { assert b * q == 2 * q + (b - 2) * q; }
  }

  /** Distinct strings compare one way or the other, never both. */
  lemma {:induction false} StrLessTotal(a: string, b: string)
    ensures !(StrLess(a, b) && StrLess(b, a))
    ensures a == b <==> !StrLess(a, b) && !StrLess(b, a)
  {
    if a != [] && b != [] {
      StrLessTotal(a[1..], b[1..]);
      assert a == [a[0]] + a[1..];
      assert b == [b[0]] + b[1..];
    }
  }

  /** `a` and `b` first differ at byte `k`, where `a` has the smaller one. */
  predicate SmallerAt(a: string, b: string, k: nat) {
    k < |a| && k < |b| && a[..k] == b[..k] && a[k] < b[k]
  }

  /** The order of strings: a proper prefix comes first, else the first difference decides. */
  lemma {:induction false} StrLessIff(a: string, b: string)
    ensures StrLess(a, b) <==> a < b || exists k: nat :: SmallerAt(a, b, k)
  {
    if a != [] && b != [] {
      StrLessIff(a[1..], b[1..]);
      assert a == [a[0]] + a[1..] && b == [b[0]] + b[1..];
      if a[0] == b[0] {
        assert a < b <==> a[1..] < b[1..];
        forall k: nat ensures SmallerAt(a[1..], b[1..], k) <==> SmallerAt(a, b, k + 1) { SmallerBehind(a, b, k); }
        assert !SmallerAt(a, b, 0);
        if k: nat :| SmallerAt(a, b, k) { assert SmallerAt(a[1..], b[1..], k - 1); }
      } else {
        forall k | 0 < k < |a| && k < |b| ensures a[..k] != b[..k] {
          assert a[..k][0] == a[0] && b[..k][0] == b[0];
        }
        if a[0] < b[0] { assert SmallerAt(a, b, 0); }
      }
    }
  }

  lemma SmallerBehind(a: string, b: string, k: nat)
    requires a != [] && b != [] && a[0] == b[0]
    ensures SmallerAt(a[1..], b[1..], k) <==> SmallerAt(a, b, k + 1)
  {
    if k + 1 < |a| && k + 1 < |b| {
      assert a[..k + 1] == [a[0]] + a[1..][..k] && b[..k + 1] == [b[0]] + b[1..][..k];
      assert a[..k + 1][1..] == a[1..][..k] && b[..k + 1][1..] == b[1..][..k];
    }
  }
}
