// What a written cron expression says, and that it is read that way.
module CronWritten {
  import opened GoInt
  import opened Options
  import opened GoStrings
  import opened CronFields

  /** `*`, a number or a range, with or without a step. */
  datatype Bounds = Star | Number(n: nat) | Span(first: nat, last: nat)
  datatype Element = Element(bounds: Bounds, step: Option<nat>)

  /** Minute, hour, day, month and weekday, each a list of elements. */
  datatype Written = Written(minute: seq<Element>, hour: seq<Element>, day: seq<Element>, month: seq<Element>, weekday: seq<Element>)

  // ----- Text -----

  function BoundsText(b: Bounds): string {
    match b
    case Star => "*"
    case Number(n) => Decimal(n)
    case Span(first, last) => Decimal(first) + ['-'] + Decimal(last)
  }

  function ElementText(e: Element): string {
    if e.step.Some? then BoundsText(e.bounds) + ['/'] + Decimal(e.step.value) else BoundsText(e.bounds)
  }

  function ElementTexts(es: seq<Element>): (r: seq<string>)
    ensures |r| == |es| && forall i :: 0 <= i < |es| ==> r[i] == ElementText(es[i])
  {
    if es == [] then [] else [ElementText(es[0])] + ElementTexts(es[1..])
  }

  function FieldText(es: seq<Element>): string {
    Join(ElementTexts(es), [','])
  }

  function CronText(w: Written): string {
    Join([FieldText(w.minute), FieldText(w.hour), FieldText(w.day), FieldText(w.month), FieldText(w.weekday)], " ")
  }

  // ----- Meaning -----

  /** A star alone leaves its place free. Any other element admits every step-th value from
      its first to its last. */
  predicate Admits(e: Element, val: int, lowest: int, highest: int) {
    match e.bounds
    case Star => e.step.None? || (lowest <= val <= highest && InStep(e, val - lowest))
    case Number(n) => val == n
    case Span(first, last) => first <= val <= last && InStep(e, val - first)
  }

  predicate InStep(e: Element, distance: int) {
    e.step.Some? && e.step.value > 0 ==> distance % e.step.value == 0
  }

  predicate AnyAdmits(es: seq<Element>, val: int, lowest: int, highest: int) {
    exists i :: 0 <= i < |es| && Admits(es[i], val, lowest, highest)
  }

  /** Every place admits what the time reads there; Sunday is 0 and 7. */
  predicate Says(w: Written, minute: int, hour: int, day: int, month: int, weekday: int) {
    && AnyAdmits(w.minute, minute, 0, 59) && AnyAdmits(w.hour, hour, 0, 23)
    && AnyAdmits(w.day, day, 1, 31) && AnyAdmits(w.month, month, 1, 12)
    && (AnyAdmits(w.weekday, weekday, 0, 6) || (weekday == 0 && AnyAdmits(w.weekday, 7, 0, 7)))
  }

  function Only(n: nat): seq<Element> {
    [Element(Number(n), None)]
  }

  const FREE: seq<Element> := [Element(Star, None)]

  /** Five numbers ask for exactly that minute, hour, day, month and weekday. */
  lemma FiveNumbers(m: nat, h: nat, d: nat, mo: nat, w: nat, minute: int, hour: int, day: int, month: int, weekday: int)
    ensures Says(Written(Only(m), Only(h), Only(d), Only(mo), Only(w)), minute, hour, day, month, weekday) <==>
      minute == m && hour == h && day == d && month == mo && (weekday == w || (weekday == 0 && w == 7))
  {
    forall n: nat, val, lowest, highest ensures AnyAdmits(Only(n), val, lowest, highest) <==> val == n {
      assert Admits(Only(n)[0], val, lowest, highest) <==> val == n;
    }
  }

  /** A star asks for nothing, whatever the other places ask for. */
  lemma StarIsFree(w: Written, minute: int, hour: int, day: int, month: int, weekday: int)
    ensures w.minute == FREE ==> forall v :: Says(w, v, hour, day, month, weekday) == Says(w, minute, hour, day, month, weekday)
    ensures w.hour == FREE ==> forall v :: Says(w, minute, v, day, month, weekday) == Says(w, minute, hour, day, month, weekday)
    ensures w.day == FREE ==> forall v :: Says(w, minute, hour, v, month, weekday) == Says(w, minute, hour, day, month, weekday)
    ensures w.month == FREE ==> forall v :: Says(w, minute, hour, day, v, weekday) == Says(w, minute, hour, day, month, weekday)
    ensures w.weekday == FREE ==> forall v :: Says(w, minute, hour, day, month, v) == Says(w, minute, hour, day, month, weekday)
  {
    forall val, lowest, highest ensures AnyAdmits(FREE, val, lowest, highest) {
      assert Admits(FREE[0], val, lowest, highest);
    }
  }

  /** Steps are not zero, and neither numbers nor steps so large that a counter wraps. */
  predicate Sound(e: Element) {
    var step := if e.step.Some? then e.step.value else 1;
    step >= 1 &&
    match e.bounds
    case Star => 60 + step <= MAX_INT
    case Number(n) => n + step <= MAX_INT
    case Span(first, last) => first <= MAX_INT && last + step <= MAX_INT
  }

  predicate SoundField(es: seq<Element>) {
    es != [] && forall i :: 0 <= i < |es| ==> Sound(es[i])
  }

  predicate SoundText(w: Written) {
    SoundField(w.minute) && SoundField(w.hour) && SoundField(w.day) && SoundField(w.month) && SoundField(w.weekday)
  }

  // ----- Reading the text -----

  lemma TextIsPlain(e: Element)
    ensures ElementText(e) != "" && NoSpace(ElementText(e)) && Lacks(ElementText(e), ',')
    ensures Lacks(BoundsText(e.bounds), '/') && (ElementText(e) == "*" <==> e.bounds.Star? && e.step.None?)
  {
    DigitsArePlain(if e.bounds.Number? then e.bounds.n else if e.bounds.Span? then e.bounds.first else 0);
    DigitsArePlain(if e.bounds.Span? then e.bounds.last else 0);
    DigitsArePlain(if e.step.Some? then e.step.value else 0);
  }

  lemma DigitsArePlain(n: nat)
    ensures AllDigits(Decimal(n)) && Decimal(n) != [] && IsDigit(Decimal(n)[0])
    ensures NoSpace(Decimal(n)) && Lacks(Decimal(n), ',') && Lacks(Decimal(n), '/') && Lacks(Decimal(n), '*')
  {
    AtoiUndoesDecimal(n);
  }

  /** The range that an element is read as. */
  function ReadAs(e: Element, lowest: int64, highest: int64): Range
    requires Sound(e)
  {
    var step := if e.step.Some? then e.step.value else 1;
    match e.bounds
    case Star => Range(lowest, highest, step)
    case Number(n) => Range(n, n, step)
    case Span(first, last) => Range(first, last, step)
  }

  lemma ElementRead(e: Element, lowest: int64, highest: int64)
    requires Sound(e)
    ensures RangeOf(ElementText(e), lowest, highest) == Some(ReadAs(e, lowest, highest))
  {
    TextIsPlain(e);
    var first := if e.bounds.Number? then e.bounds.n else if e.bounds.Span? then e.bounds.first else 0;
    WrittenBounds(first, if e.bounds.Span? then e.bounds.last else 0, lowest, highest);
    WrittenStep(BoundsText(e.bounds), if e.step.Some? then e.step.value else 1, lowest, highest);
  }

  /** An element covers what it admits, and its loop ends. */
  lemma ElementSays(e: Element, val: int64, lowest: int64, highest: int64)
    requires Sound(e) && highest <= 60
    ensures ElementMatches(ElementText(e), val, lowest, highest) <==> Admits(e, val, lowest, highest)
    ensures ElementEnds(ElementText(e), val, lowest, highest)
  {
    TextIsPlain(e);
    ElementRead(e, lowest, highest);
    ForwardIsProgression(ReadAs(e, lowest, highest), val);
  }

  lemma FieldSays(es: seq<Element>, val: int64, lowest: int64, highest: int64)
    requires SoundField(es) && highest <= 60
    ensures FieldMatches(FieldText(es), val, lowest, highest) <==> AnyAdmits(es, val, lowest, highest)
    ensures FieldEnds(FieldText(es), val, lowest, highest)
  {
    var texts := ElementTexts(es);
    FieldSplits(es);
    forall i | 0 <= i < |es|
      ensures ElementMatches(texts[i], val, lowest, highest) <==> Admits(es[i], val, lowest, highest)
      ensures ElementEnds(texts[i], val, lowest, highest)
    {
      ElementSays(es[i], val, lowest, highest);
    }
  }

  lemma FieldSplits(es: seq<Element>)
    requires es != []
    ensures Split(FieldText(es), ',') == ElementTexts(es)
  {
    forall i | 0 <= i < |es| ensures Lacks(ElementText(es[i]), ',') { TextIsPlain(es[i]); }
    SplitUndoesJoin(ElementTexts(es), ',');
  }

  lemma FieldIsWord(es: seq<Element>)
    requires es != []
    ensures FieldText(es) != "" && NoSpace(FieldText(es))
  {
    forall i | 0 <= i < |es| ensures ElementText(es[i]) != "" && NoSpace(ElementText(es[i])) { TextIsPlain(es[i]); }
    JoinIsWord(ElementTexts(es));
  }

  lemma {:induction false} JoinIsWord(parts: seq<string>)
    requires parts != [] && forall i :: 0 <= i < |parts| ==> parts[i] != "" && NoSpace(parts[i])
    ensures Join(parts, [',']) != "" && NoSpace(Join(parts, [',']))
  {
    if |parts| > 1 { JoinIsWord(parts[1..]); }
  }

  lemma CronSplits(w: Written)
    requires SoundText(w)
    ensures Fields(CronText(w)) ==
            [FieldText(w.minute), FieldText(w.hour), FieldText(w.day), FieldText(w.month), FieldText(w.weekday)]
  {
    FieldIsWord(w.minute); FieldIsWord(w.hour); FieldIsWord(w.day); FieldIsWord(w.month); FieldIsWord(w.weekday);
    FieldsUndoesJoin([FieldText(w.minute), FieldText(w.hour), FieldText(w.day), FieldText(w.month), FieldText(w.weekday)]);
  }

  // ----- Malformed elements -----

  /** A range with an end that is no number covers 0 alone. */
  lemma MalformedRange(a: string, b: string, val: int64, lowest: int64, highest: int64)
    requires Lacks(a, '-') && Lacks(b, '-') && Lacks(a, '/') && Lacks(b, '/') && (Atoi(a).None? || Atoi(b).None?)
    ensures ElementMatches(a + ['-'] + b, val, lowest, highest) <==> val == 0
  {
    var text := a + ['-'] + b;
    SplitTwo(a, b, '-');
    SplitPart(text, "", '/');
    assert text[|a|] == '-';
    assert text != "*";
    ForwardIsProgression(Range(0, 0, 1), val);
  }

  /** What is neither a star nor a range nor a number matches nothing. */
  lemma MalformedNumber(text: string, val: int64, lowest: int64, highest: int64)
    requires text != "*" && Lacks(text, '-') && Lacks(text, '/') && Atoi(text).None?
    ensures !ElementMatches(text, val, lowest, highest)
  {
    SplitPart(text, "", '/');
  }

  /** A step that is no number counts as 1. */
  lemma MalformedStep(range: string, step: string, val: int64, lowest: int64, highest: int64)
    requires Lacks(range, '/') && Lacks(step, '/') && Atoi(step).None? && lowest <= val <= highest <= 60
    ensures ElementMatches(range + ['/'] + step, val, lowest, highest) <==> ElementMatches(range, val, lowest, highest)
  {
    SplitTwo(range, step, '/');
    SplitPart(range, "", '/');
    assert (range + ['/'] + step)[|range|] == '/';
    ForwardIsProgression(Range(lowest, highest, 1), val);
  }
}
