// The functions of Go's `strings`, `strconv` and `fmt` packages that the modelled code
// calls, each with what it promises to that code. A `char` stands for one byte where
// the code works on bytes, and for one code point where it works on text.
module GoStrings {
  import opened GoInt
  import opened Options

  const MAX_INT: int := 0x7FFF_FFFF_FFFF_FFFF

  // ----- strings.Index -----

  predicate OccursAt(s: string, p: string, i: int) {
    0 <= i <= |s| - |p| && s[i..i + |p|] == p
  }

  /** Where `p` first occurs in `s`, or -1. */
  function Index(s: string, p: string): (i: int)
    ensures i == -1 || OccursAt(s, p, i)
    ensures forall j :: OccursAt(s, p, j) ==> 0 <= i <= j
  {
    IndexFrom(s, p, 0)
  }

  function IndexFrom(s: string, p: string, k: nat): (i: int)
    requires k <= |s|
    ensures i == -1 || (i >= k && OccursAt(s, p, i))
    ensures forall j :: j >= k && OccursAt(s, p, j) ==> 0 <= i <= j
    decreases |s| - k
  {
    if OccursAt(s, p, k) then k
    else if k == |s| then -1
    else IndexFrom(s, p, k + 1)
  }

  /** More bytes behind the first occurrence do not move it. */
  lemma IndexStays(s: string, more: string, p: string)
    requires Index(s, p) >= 0
    ensures Index(s + more, p) == Index(s, p)
  {
    var i, k := Index(s, p), Index(s + more, p);
    assert (s + more)[i..i + |p|] == s[i..i + |p|];
    assert OccursAt(s + more, p, i);
    assert (s + more)[k..k + |p|] == s[k..k + |p|];
    assert OccursAt(s, p, k);
  }

  lemma NoneBefore(s: string, p: string, n: nat)
    requires p != [] && n <= |s| && forall i :: 0 <= i < n ==> s[i] != p[0]
    ensures forall j :: OccursAt(s, p, j) ==> j >= n
  {
    forall j | OccursAt(s, p, j) ensures j >= n {
      assert s[j..j + |p|][0] == s[j];
    }
  }

  // ----- strings.TrimSpace -----

  /** unicode.IsSpace. */
  predicate IsSpace(c: char) {
    '\t' <= c <= '\r' || c == ' ' || c == '\U{0085}' || c == '\U{00A0}' || c == '\U{1680}'
    || '\U{2000}' <= c <= '\U{200a}' || c == '\U{2028}' || c == '\U{2029}' || c == '\U{202f}'
    || c == '\U{205f}' || c == '\U{3000}'
  }

  function Trim(s: string): (t: string)
    ensures Trimmed(t)
    decreases |s|
  {
    if s == [] then []
    else if IsSpace(s[0]) then Trim(s[1..])
    else if IsSpace(s[|s| - 1]) then Trim(s[..|s| - 1])
    else s
  }

  predicate Trimmed(s: string) {
    s != [] ==> !IsSpace(s[0]) && !IsSpace(s[|s| - 1])
  }

  predicate AllSpace(s: string) {
    forall i :: 0 <= i < |s| ==> IsSpace(s[i])
  }

  /** Space around a trimmed text comes off. */
  lemma {:induction false} TrimOff(before: string, text: string, after: string)
    requires AllSpace(before) && AllSpace(after) && Trimmed(text) && text != ""
    ensures Trim(before + text + after) == text
    decreases |before| + |after|
  {
    var s := before + text + after;
    if before != "" {
      assert s[1..] == before[1..] + text + after;
      TrimOff(before[1..], text, after);
    } else if after != "" {
      assert s == text + after;
      assert s[..|s| - 1] == "" + text + after[..|after| - 1];
      TrimOff("", text, after[..|after| - 1]);
    } else {
      assert s == text;
    }
  }

  /** strings.Fields: the runs of characters that are not space. */
  function Fields(s: string): seq<string>
    decreases |s|
  {
    if s == [] then []
    else if IsSpace(s[0]) then Fields(s[1..])
    else if |s| == 1 || IsSpace(s[1]) then [[s[0]]] + Fields(s[1..])
    else
      var rest := Fields(s[1..]);
      if rest == [] then [[s[0]]] else [[s[0]] + rest[0]] + rest[1..]
  }

  predicate NoSpace(s: string) {
    forall i :: 0 <= i < |s| ==> !IsSpace(s[i])
  }

  /** A word comes off in front of the space behind it. */
  lemma {:induction false} FieldsWord(word: string, rest: string)
    requires word != "" && NoSpace(word) && (rest == "" || IsSpace(rest[0]))
    ensures Fields(word + rest) == [word] + Fields(rest)
  {
    var s := word + rest;
    assert s[1..] == word[1..] + rest;
    if |word| == 1 {
      assert s[1..] == rest && word == [s[0]];
    } else {
      FieldsWord(word[1..], rest);
      assert [s[0]] + word[1..] == word;
    }
  }

  /** Words with a space between them are the fields. */
  lemma {:induction false} FieldsUndoesJoin(words: seq<string>)
    requires forall i :: 0 <= i < |words| ==> words[i] != "" && NoSpace(words[i])
    ensures Fields(Join(words, " ")) == words
  {
    if |words| == 1 {
      FieldsWord(words[0], "");
      assert words[0] + "" == words[0];
    } else if |words| > 1 {
      var rest := Join(words[1..], " ");
      FieldsUndoesJoin(words[1..]);
      FieldsWord(words[0], " " + rest);
      assert (" " + rest)[1..] == rest;
      assert words[0] + " " + rest == words[0] + (" " + rest);
    }
  }

  // ----- strings.Split and strings.Join -----

  function Split(s: string, separator: char): (parts: seq<string>)
    ensures parts != []
  {
    if s == [] then [""]
    else
      var rest := Split(s[1..], separator);
      if s[0] == separator then [""] + rest else [[s[0]] + rest[0]] + rest[1..]
  }

  function Join(parts: seq<string>, separator: string): string {
    if parts == [] then ""
    else if |parts| == 1 then parts[0]
    else parts[0] + separator + Join(parts[1..], separator)
  }

  predicate Lacks(s: string, c: char) {
    forall i :: 0 <= i < |s| ==> s[i] != c
  }

  predicate AllLack(parts: seq<string>, c: char) {
    forall i :: 0 <= i < |parts| ==> Lacks(parts[i], c)
  }

  lemma {:induction false} SplitGivesParts(s: string, c: char)
    ensures AllLack(Split(s, c), c)
  {
    if s != [] {
      SplitGivesParts(s[1..], c);
    }
  }

  lemma {:induction false} SplitPart(part: string, rest: string, c: char)
    requires Lacks(part, c)
    ensures Split(part + [c] + rest, c) == [part] + Split(rest, c)
    ensures Split(part, c) == [part]
  {
    if part == [] {
      assert part + [c] + rest == [c] + rest;
    } else {
      assert part + [c] + rest == [part[0]] + (part[1..] + [c] + rest);
      SplitPart(part[1..], rest, c);
      assert [part[0]] + part[1..] == part;
    }
  }

  lemma {:induction false} SplitUndoesJoin(parts: seq<string>, c: char)
    requires AllLack(parts, c) && parts != []
    ensures Split(Join(parts, [c]), c) == parts
  {
    SplitPart(parts[0], "", c);
    if |parts| > 1 {
      SplitPart(parts[0], Join(parts[1..], [c]), c);
      SplitUndoesJoin(parts[1..], c);
    }
  }

  lemma {:induction false} JoinUndoesSplit(s: string, c: char)
    ensures Join(Split(s, c), [c]) == s
  {
    if s != [] {
      JoinUndoesSplit(s[1..], c);
      var rest := Split(s[1..], c);
      if s[0] == c {
        assert ([""] + rest)[1..] == rest;
      } else {
        var parts := [[s[0]] + rest[0]] + rest[1..];
        assert parts[1..] == rest[1..];
      }
    }
  }

  // ----- strconv.Atoi and fmt's %d -----

  predicate IsDigit(c: char) {
    '0' <= c <= '9'
  }

  predicate AllDigits(s: string) {
    forall i :: 0 <= i < |s| ==> IsDigit(s[i])
  }

  function DigitsValue(s: string): nat
    requires AllDigits(s)
  {
    if s == [] then 0
    else 10 * DigitsValue(s[..|s| - 1]) + (s[|s| - 1] - '0') as int
  }

  /** An optional sign and decimal digits, within 64 bits. */
  function Atoi(s: string): Option<int64> {
    var digits := if s != [] && (s[0] == '-' || s[0] == '+') then s[1..] else s;
    if digits == [] || !AllDigits(digits) then None
    else
      var n: int := if s[0] == '-' then 0 - DigitsValue(digits) else DigitsValue(digits);
      if -0x8000_0000_0000_0000 <= n <= MAX_INT then Some(n) else None
  }

  function Decimal(n: nat): string {
    if n < 10 then [('0' as int + n) as char] else Decimal(n / 10) + [('0' as int + n % 10) as char]
  }

  lemma {:induction false} AtoiUndoesDecimal(n: nat)
    ensures AllDigits(Decimal(n)) && Decimal(n) != [] && DigitsValue(Decimal(n)) == n
    ensures n <= MAX_INT ==> Atoi(Decimal(n)) == Some(n)
  {
    if n >= 10 {
      AtoiUndoesDecimal(n / 10);
      assert Decimal(n)[..|Decimal(n)| - 1] == Decimal(n / 10);
    }
    assert IsDigit(Decimal(n)[0]);
  }

  /** The last digit of a number stands at its end. */
  lemma DecimalSpells(n: nat, d: nat)
    requires d < 10
    ensures Decimal(10 * n + d) == (if n == 0 then "" else Decimal(n)) + ["0123456789"[d]]
  {
    assert (10 * n + d) / 10 == n && (10 * n + d) % 10 == d;
    assert "0123456789"[d] == ('0' as int + d) as char;
  }

  /** Zeros in front of a number and a plus sign are allowed; beyond 64 bits it is none. */
  lemma AtoiReads(sign: string, zeros: string, n: nat)
    requires sign == "" || sign == "+" || sign == "-"
    requires forall i :: 0 <= i < |zeros| ==> zeros[i] == '0'
    ensures var value: int := if sign == "-" then -(n as int) else n;
      Atoi(sign + (zeros + Decimal(n))) == if -0x8000_0000_0000_0000 <= value <= 0x7FFF_FFFF_FFFF_FFFF then Some(value) else None
  {
    AtoiUndoesDecimal(n);
    ZerosCountNothing(zeros, Decimal(n));
    SignedDigits(sign, zeros + Decimal(n));
  }

  lemma SignedDigits(sign: string, digits: string)
    requires sign == "" || sign == "+" || sign == "-"
    requires digits != "" && AllDigits(digits)
    ensures var value: int := if sign == "-" then -(DigitsValue(digits) as int) else DigitsValue(digits);
      Atoi(sign + digits) == if -0x8000_0000_0000_0000 <= value <= MAX_INT then Some(value) else None
  {
    assert IsDigit(digits[0]);
    if sign == "" { assert sign + digits == digits; } else { assert (sign + digits)[1..] == digits; }
  }

  lemma {:induction false} ZerosCountNothing(zeros: string, digits: string)
    requires (forall i :: 0 <= i < |zeros| ==> zeros[i] == '0') && AllDigits(digits)
    ensures AllDigits(zeros + digits) && DigitsValue(zeros + digits) == DigitsValue(digits)
    decreases |zeros| + |digits|
  {
    if digits != [] {
      ZerosCountNothing(zeros, digits[..|digits| - 1]);
      assert (zeros + digits)[..|zeros| + |digits| - 1] == zeros + digits[..|digits| - 1];
    } else if zeros != [] {
      ZerosCountNothing(zeros[..|zeros| - 1], []);
      assert zeros + digits == zeros && zeros[..|zeros| - 1] + [] == zeros[..|zeros| - 1];
    } else {
      assert zeros + digits == [];
    }
  }

  /** What is no digit, but for a sign in front of digits, is refused. */
  lemma AtoiRefuses(s: string)
    requires s == "" || s == "+" || s == "-" || exists i :: 0 <= i < |s| && !IsDigit(s[i]) && (i > 0 || (s[i] != '+' && s[i] != '-'))
    ensures Atoi(s).None?
  {
    if i :| 0 <= i < |s| && !IsDigit(s[i]) && (i > 0 || (s[i] != '+' && s[i] != '-')) {
      if i > 0 { assert s[1..][i - 1] == s[i]; }
    }
  }

  lemma AtoiOfNegative(n: int64)
    requires -MAX_INT <= n < 0
    ensures Atoi("-" + Decimal(-n)) == Some(n)
  {
    AtoiUndoesDecimal(-n);
    assert ("-" + Decimal(-n))[1..] == Decimal(-n);
  }

  /** A printed number is read back, and holds nothing but digits. */
  lemma DecimalIsPlain(n: nat, c: char)
    requires !IsDigit(c)
    ensures Decimal(n) != "" && Lacks(Decimal(n), c) && Trim(Decimal(n)) == Decimal(n)
    ensures n <= MAX_INT ==> Atoi(Decimal(n)) == Some(n)
  {
    AtoiUndoesDecimal(n);
    TrimOfTrimmed(Decimal(n));
  }

  lemma TrimOfTrimmed(s: string)
    requires Trimmed(s)
    ensures Trim(s) == s
  {
  }

  /** Two parts around one separator. */
  lemma SplitTwo(a: string, b: string, c: char)
    requires Lacks(a, c) && Lacks(b, c)
    ensures Split(a + [c] + b, c) == [a, b]
  {
    SplitPart(a, b, c);
    SplitPart(b, "", c);
  }
}
