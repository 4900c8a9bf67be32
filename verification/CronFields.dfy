// What one field of a cron expression matches (cmd_cron.go).
module CronFields {
  import opened GoInt
  import opened Options
  import opened GoStrings
  import opened Counters

  datatype Range = Range(start: int64, end: int64, step: int64)

  /** What an element of a field's list covers: `*`, `a`, `a-b`, each with or without
      `/step`. A malformed step counts as 1. */
  function RangeOf(element: string, minVal: int64, maxVal: int64): Option<Range> {
    var parts := Split(element, '/');
    var bounds := BoundsOf(parts[0], minVal, maxVal);
    if bounds.None? then None else Some(Range(bounds.value.0, bounds.value.1, StepOf(parts)))
  }

  function StepOf(parts: seq<string>): int64 {
    if |parts| > 1 && Atoi(parts[1]).Some? then Atoi(parts[1]).value else 1
  }

  /** The first and last value: a malformed range covers 0, a malformed number nothing. */
  function BoundsOf(range: string, minVal: int64, maxVal: int64): Option<(int64, int64)> {
    if range == "*" then Some((minVal, maxVal))
    else if '-' in range then
      var ends := Split(range, '-');
      if |ends| > 1 && Atoi(ends[0]).Some? && Atoi(ends[1]).Some?
      then Some((Atoi(ends[0]).value, Atoi(ends[1]).value))
      else Some((0, 0))
    else if Atoi(range).Some? then Some((Atoi(range).value, Atoi(range).value))
    else None
  }

  /** The counter of the loop over a range meets `val` before it leaves the range. It is a
      64-bit number and wraps around. */
  ghost predicate Covers(r: Range, val: int64) {
    exists k: nat :: Nth(r, k) == val && Inside(r, k)
  }

  function Nth(r: Range, k: nat): int64 {
    Count(r.start, r.step, k)
  }

  ghost predicate Inside(r: Range, k: nat) {
    forall j: nat :: j <= k ==> Nth(r, j) <= r.end
  }

  ghost predicate ElementMatches(element: string, val: int64, minVal: int64, maxVal: int64) {
    element == "*"
    || (RangeOf(element, minVal, maxVal).Some? && Covers(RangeOf(element, minVal, maxVal).value, val))
  }

  /** A field matches what one of its comma-separated elements covers. */
  ghost predicate FieldMatches(field: string, val: int64, minVal: int64, maxVal: int64) {
    exists i :: 0 <= i < |Split(field, ',')| && ElementMatches(Split(field, ',')[i], val, minVal, maxVal)
  }

  /** Bounds are what they say: all values, a number itself, a range its ends. */
  lemma WrittenBounds(a: nat, b: nat, minVal: int64, maxVal: int64)
    requires a <= MAX_INT && b <= MAX_INT
    ensures BoundsOf("*", minVal, maxVal) == Some((minVal, maxVal))
    ensures BoundsOf(Decimal(a), minVal, maxVal) == Some((a, a))
    ensures BoundsOf(Decimal(a) + ['-'] + Decimal(b), minVal, maxVal) == Some((a, b))
  {
    DecimalIsPlain(a, '*');
    DecimalIsPlain(a, '-');
    DecimalIsPlain(b, '-');
    SplitTwo(Decimal(a), Decimal(b), '-');
    assert (Decimal(a) + ['-'] + Decimal(b))[|Decimal(a)|] == '-';
  }

  /** With a step behind them, or without, bounds keep their meaning. */
  lemma WrittenStep(range: string, s: nat, minVal: int64, maxVal: int64)
    requires Lacks(range, '/') && s <= MAX_INT && BoundsOf(range, minVal, maxVal).Some?
    ensures var bounds := BoundsOf(range, minVal, maxVal).value;
      && RangeOf(range, minVal, maxVal) == Some(Range(bounds.0, bounds.1, 1))
      && RangeOf(range + ['/'] + Decimal(s), minVal, maxVal) == Some(Range(bounds.0, bounds.1, s))
  {
    DecimalIsPlain(s, '/');
    SplitTwo(range, Decimal(s), '/');
    SplitPart(range, "", '/');
  }

  // ----- The loops -----

  /** The numbers that the counter comes by in the end, the start and every number that
      differs from it by a multiple of the power of two in the step. */
  predicate ComesBy(r: Range, x: int64) {
    x == r.start || (r.step != 0 && (x - r.start) % Stride(r.step) == 0)
  }

  /** The greatest of them. */
  function Greatest(r: Range): int {
    if r.step == 0 then r.start else MAX_INT - (MAX_INT - r.start) % Stride(r.step)
  }

  /** The loop over a range ends: the counter comes by `val` or by a number behind the end. */
  predicate RangeEnds(r: Range, val: int64) {
    ComesBy(r, val) || Greatest(r) > r.end
  }

  /** Exactly then. Otherwise it goes round for ever. */
  lemma RangeEndsIff(r: Range, val: int64)
    ensures RangeEnds(r, val) <==> exists k: nat :: Nth(r, k) == val || Nth(r, k) > r.end
  {
    ComesByIff(r, val);
    GreatestComes(r);
    ComesByIff(r, Greatest(r));
    if exists k: nat :: Nth(r, k) > r.end {
      var k: nat :| Nth(r, k) > r.end;
      ComesByIff(r, Nth(r, k));
      NoneGreater(r, Nth(r, k));
    }
  }

  lemma ComesByIff(r: Range, x: int64)
    ensures ComesBy(r, x) <==> exists k: nat :: Nth(r, k) == x
  {
    assert Nth(r, 0) == r.start;
    if r.step != 0 && (x - r.start) % Stride(r.step) == 0 {
      var n := CountsAllStrides(r.start, r.step, x);
      assert Nth(r, n) == x;
    }
    if exists k: nat :: Nth(r, k) == x {
      var k: nat :| Nth(r, k) == x;
      if r.step == 0 { StandsStill(r, k); } else { CountsInStrides(r.start, r.step, k); }
    }
  }

  lemma {:induction false} StandsStill(r: Range, k: nat)
    requires r.step == 0
    ensures Nth(r, k) == r.start
  {
    if k > 0 { StandsStill(r, k - 1); }
  }

  lemma GreatestComes(r: Range)
    ensures r.start <= Greatest(r) <= MAX_INT && ComesBy(r, Greatest(r))
    ensures r.step != 0 ==> (Greatest(r) - r.start) % Stride(r.step) == 0 && MAX_INT - Greatest(r) < Stride(r.step)
  {
    if r.step != 0 {
      var x := MAX_INT - r.start;
      var n := x / Stride(r.step);
      assert x == n * Stride(r.step) + x % Stride(r.step);
      MultipleIs(Greatest(r) - r.start, n, Stride(r.step));
      AtLeast(n, Stride(r.step));
    }
  }

  lemma NoneGreater(r: Range, x: int64)
    requires ComesBy(r, x)
    ensures x <= Greatest(r)
  {
    GreatestComes(r);
    if r.step != 0 && x != r.start {
      CongruentApart(x - r.start, Greatest(r) - r.start, Stride(r.step));
    }
  }

  /** Two multiples of `d` that are closer than `d` are in order. */
  lemma CongruentApart(x: int, y: int, d: int)
    requires d >= 1 && x % d == 0 && y % d == 0 && x - y < d
    ensures x <= y
  {
    Distribute(x / d, 1, y / d, 1, d);
    assert x - y == (x / d - y / d) * d;
    AtLeast(x / d - y / d, d);
  }

  /** The step is at least 1 and the counter does not wrap around. */
  predicate StepsForward(r: Range) {
    r.step >= 1 && r.end + r.step <= MAX_INT
  }

  /** Then the loop ends and covers an arithmetic progression. */
  lemma ForwardIsProgression(r: Range, val: int64)
    requires StepsForward(r)
    ensures RangeEnds(r, val)
    ensures Covers(r, val) <==> r.start <= val <= r.end && (val - r.start) % r.step == 0
  {
    if r.start <= r.end {
      var last := Last(r, r.end);
      ForwardInside(r, r.end, last);
      ForwardNth(r, last + 1);
      assert Nth(r, last + 1) > r.end;
    } else {
      assert Nth(r, 0) > r.end;
    }
    RangeEndsIff(r, val);
    if Covers(r, val) {
      CoveredIsStep(r, val);
    }
    if r.start <= val <= r.end && (val - r.start) % r.step == 0 {
      StepIsCovered(r, val);
    }
  }

  lemma CoveredIsStep(r: Range, val: int64)
    requires StepsForward(r) && Covers(r, val)
    ensures r.start <= val <= r.end && (val - r.start) % r.step == 0
  {
    var k: nat :| Nth(r, k) == val && Inside(r, k);
    ForwardNth(r, k);
    AtLeast(k, r.step);
    MultipleIs(val - r.start, k, r.step);
  }

  lemma StepIsCovered(r: Range, val: int64)
    requires StepsForward(r) && r.start <= val <= r.end && (val - r.start) % r.step == 0
    ensures Covers(r, val)
  {
    var k := Quotient(val - r.start, r.step);
    AtLeast(k, r.step);
    AtLeast(Last(r, val) - k, r.step);
    Distribute(Last(r, val), 1, k, 1, r.step);
    ForwardInside(r, val, k);
    ForwardNth(r, k);
  }

  /** How many steps fit between the start and `x`. */
  function Last(r: Range, x: int): (n: nat)
    requires StepsForward(r) && r.start <= x
    ensures n * r.step <= x - r.start < (n + 1) * r.step
  {
    var n := (x - r.start) / r.step;
    assert x - r.start == n * r.step + (x - r.start) % r.step;
    n
  }

  lemma {:induction false} ForwardNth(r: Range, k: nat)
    requires StepsForward(r) && (k > 0 ==> Inside(r, k - 1))
    ensures Nth(r, k) == r.start + k * r.step
  {
    if k > 0 {
      ForwardNth(r, k - 1);
      assert Nth(r, k - 1) <= r.end;
      OneMore(r.step, k);
    }
  }

  lemma {:induction false} ForwardInside(r: Range, x: int, k: nat)
    requires StepsForward(r) && r.start <= x <= r.end && k <= Last(r, x)
    ensures Inside(r, k)
  {
    if k > 0 {
      ForwardInside(r, x, k - 1);
    }
    ForwardNth(r, k);
    assert (Last(r, x) - k) * r.step >= 0;
    forall j: nat | j <= k ensures Nth(r, j) <= r.end {
    }
  }

  /** A huge step wraps around inside the range: `10/9223372036854775805` covers 4. */
  lemma HugeStepWraps()
    ensures Covers(Range(10, 10, 9223372036854775805), 4)
  {
    var r := Range(10, 10, 9223372036854775805);
    assert Nth(r, 0) == 10;
    assert Nth(r, 1) == Wrap(10 + r.step) == -9223372036854775801;
    assert Nth(r, 2) == Wrap(-9223372036854775801 + r.step) == 4;
    assert Inside(r, 2);
  }

  /** A huge negative step wraps around to the far end: with the step
      -4611686018427387904 the loop ends after three turns. */
  lemma HugeNegativeStepEnds(start: int64, end: int64, val: int64)
    requires 0 <= start <= end < 1000
    ensures RangeEnds(Range(start, end, -4611686018427387904), val)
  {
    var r := Range(start, end, -4611686018427387904);
    assert Nth(r, 1) == Wrap(Nth(r, 0) + r.step) == start - 4611686018427387904;
    assert Nth(r, 2) == Wrap(Nth(r, 1) + r.step) == start - 9223372036854775808;
    assert Nth(r, 3) == Wrap(Nth(r, 2) + r.step) == start + 4611686018427387904;
    RangeEndsIff(r, val);
  }

  ghost predicate ElementEnds(element: string, val: int64, minVal: int64, maxVal: int64) {
    element == "*" || RangeOf(element, minVal, maxVal).None? || RangeEnds(RangeOf(element, minVal, maxVal).value, val)
  }

  /** Matching a field ends: every element does that is looked at. */
  ghost predicate FieldEnds(field: string, val: int64, minVal: int64, maxVal: int64) {
    forall i: nat :: i < |Split(field, ',')| && NoneMatches(Split(field, ',')[..i], val, minVal, maxVal) ==>
      ElementEnds(Split(field, ',')[i], val, minVal, maxVal)
  }

  ghost predicate NoneMatches(elements: seq<string>, val: int64, minVal: int64, maxVal: int64) {
    forall k :: 0 <= k < |elements| ==> !ElementMatches(elements[k], val, minVal, maxVal)
  }

  /** A star with step 0 is such a case for every value but the first. */
  lemma ZeroStepForEver(val: int64, minVal: int64, maxVal: int64)
    requires minVal <= maxVal && val != minVal
    ensures !FieldEnds("*/0", val, minVal, maxVal)
  {
    var r := Range(minVal, maxVal, 0);
    assert RangeOf("*/0", minVal, maxVal) == Some(r) by {
      WrittenBounds(0, 0, minVal, maxVal);
      WrittenStep("*", 0, minVal, maxVal);
      assert ['0'] == "0" && "*" + ['/'] + "0" == "*/0";
    }
    assert Split("*/0", ',') == ["*/0"] by {
      SplitPart("*/0", "", ',');
    }
    assert !RangeEnds(r, val);
    assert Split("*/0", ',')[..0] == [];
  }

  /** matchFieldLocal. */
  method MatchField(field: string, val: int64, minVal: int64, maxVal: int64) returns (matches: bool)
    requires FieldEnds(field, val, minVal, maxVal)
    ensures matches <==> FieldMatches(field, val, minVal, maxVal)
  {
    var parts := Split(field, ',');
    for i := 0 to |parts|
      invariant NoneMatches(parts[..i], val, minVal, maxVal)
    {
      var found := MatchElement(parts[i], val, minVal, maxVal);
      if found {
        return true;
      }
      assert parts[..i + 1] == parts[..i] + [parts[i]];
    }
    assert parts[..|parts|] == parts;
    return false;
  }

  /** matchFieldLocal on a field without a comma. */
  method MatchElement(element: string, val: int64, minVal: int64, maxVal: int64) returns (matches: bool)
    requires ElementEnds(element, val, minVal, maxVal)
    ensures matches <==> ElementMatches(element, val, minVal, maxVal)
  {
    if element == "*" {
      return true;
    }
    var range := RangeOf(element, minVal, maxVal);
    if range.None? {
      return false;
    }
    matches := MatchRange(range.value, val);
  }

  method MatchRange(r: Range, val: int64) returns (matches: bool)
    requires RangeEnds(r, val)
    ensures matches <==> Covers(r, val)
  {
    var i := r.start;
    RangeEndsIff(r, val);
    ghost var last: nat :| Nth(r, last) == val || Nth(r, last) > r.end;
    ghost var n: nat := 0;
    while i <= r.end
      invariant i == Nth(r, n) && n <= last
      invariant forall k: nat :: k < n ==> Nth(r, k) != val && Nth(r, k) <= r.end
      decreases last - n
    {
      if i == val {
        assert Inside(r, n);
        return true;
      }
      i, n := Wrap(i + r.step), n + 1;
    }
    assert forall k: nat :: Inside(r, k) ==> k < n;
    return false;
  }

  /** Every range of a field steps forward; a star means at most 60 values. */
  predicate AllForward(field: string) {
    forall i :: 0 <= i < |Split(field, ',')| ==> ElementForward(Split(field, ',')[i])
  }

  predicate ElementForward(element: string) {
    RangeOf(element, 0, 60).Some? ==> StepsForward(RangeOf(element, 0, 60).value)
  }

  /** Then matching always ends. */
  lemma ForwardEnds(field: string, val: int64, minVal: int64, maxVal: int64)
    requires AllForward(field) && maxVal <= 60
    ensures FieldEnds(field, val, minVal, maxVal)
  {
    forall i: nat | i < |Split(field, ',')| ensures ElementEnds(Split(field, ',')[i], val, minVal, maxVal) {
      var element := Split(field, ',')[i];
      assert ElementForward(element);
      var r := RangeOf(element, minVal, maxVal);
      if r.Some? { ForwardIsProgression(r.value, val); }
    }
  }
}
