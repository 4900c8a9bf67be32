// Removal of common indentation from raw strings: dedent (compiler/lexer.go).
module Dedent {
  import opened Options
  import opened GoStrings

  predicate IsIndent(c: char) {
    c == ' ' || c == '\t'
  }

  predicate Blank(line: string) {
    Trim(line) == []
  }

  /** The spaces and tabs that a line starts with. */
  function Leading(line: string): string {
    if line == [] || !IsIndent(line[0]) then [] else [line[0]] + Leading(line[1..])
  }

  function CommonPrefix(a: string, b: string): string {
    if a == [] || b == [] || a[0] != b[0] then [] else [a[0]] + CommonPrefix(a[1..], b[1..])
  }

  /** The leading spaces and tabs that the lines which are not blank have in common;
      none if all are blank. */
  function CommonIndent(lines: seq<string>): Option<string> {
    if lines == [] then None
    else
      var line := lines[|lines| - 1];
      var before := CommonIndent(lines[..|lines| - 1]);
      if Blank(line) then before
      else if before.None? then Some(Leading(line))
      else Some(CommonPrefix(before.value, Leading(line)))
  }

  function WithoutLeading(line: string): string {
    if line != [] && IsIndent(line[0]) then WithoutLeading(line[1..]) else line
  }

  function Stripped(prefix: string, line: string): string {
    if prefix <= line then line[|prefix|..] else WithoutLeading(line)
  }

  function Dedented(lines: seq<string>): seq<string> {
    var prefix := CommonIndent(lines);
    if |lines| <= 1 || prefix.None? || prefix.value == [] then lines
    else seq(|lines|, i requires 0 <= i < |lines| => Stripped(prefix.value, lines[i]))
  }

  // ----- The loops -----

  method LeadingOf(line: string) returns (leading: string)
    ensures leading == Leading(line)
  {
    leading := "";
    assert line[0..] == line;
    for i := 0 to |line|
      invariant Leading(line) == leading + Leading(line[i..])
    {
      if !IsIndent(line[i]) {
        break;
      }
      assert line[i..][1..] == line[i + 1..];
      leading := leading + [line[i]];
    }
  }

  method CommonOf(a: string, b: string) returns (common: string)
    ensures common == CommonPrefix(a, b)
  {
    common := "";
    var j := 0;
    assert a[0..] == a && b[0..] == b;
    while j < |a| && j < |b| && a[j] == b[j]
      invariant j <= |a| && j <= |b| && CommonPrefix(a, b) == common + CommonPrefix(a[j..], b[j..])
    {
      assert a[j..][1..] == a[j + 1..] && b[j..][1..] == b[j + 1..];
      common := common + [a[j]];
      j := j + 1;
    }
  }

  method DedentText(s: string) returns (r: string)
    ensures r == Dedent(s)
  {
    JoinUndoesSplit(s, '\n');
    var lines := Split(s, '\n');
    if |lines| <= 1 {
      return s;
    }
    var commonPrefix: Option<string> := None;
    for i := 0 to |lines|
      invariant commonPrefix == CommonIndent(lines[..i])
    {
      assert lines[..i + 1][..i] == lines[..i];
      if Trim(lines[i]) != "" {
        var leading := LeadingOf(lines[i]);
        if commonPrefix.None? {
          commonPrefix := Some(leading);
        } else {
          var common := CommonOf(commonPrefix.value, leading);
          commonPrefix := Some(common);
        }
      }
    }
    assert lines[..|lines|] == lines;
    if commonPrefix.None? || commonPrefix.value == "" {
      return s;
    }
    var prefix := commonPrefix.value;
    var result: seq<string> := [];
    for i := 0 to |lines|
      invariant |result| == i && forall k :: 0 <= k < i ==> result[k] == Stripped(prefix, lines[k])
    {
      if prefix <= lines[i] {
        result := result + [lines[i][|prefix|..]];
      } else {
        var trimmed := lines[i];
        while |trimmed| > 0 && IsIndent(trimmed[0])
          invariant WithoutLeading(trimmed) == WithoutLeading(lines[i])
        {
          trimmed := trimmed[1..];
        }
        result := result + [trimmed];
      }
    }
    assert result == Dedented(lines);
    return Join(result, "\n");
  }

  // ----- Blank lines -----

  lemma {:induction false} BlankIffAllSpace(line: string)
    ensures Blank(line) <==> forall i :: 0 <= i < |line| ==> IsSpace(line[i])
    decreases |line|
  {
    if line != [] {
      var n := |line| - 1;
      if IsSpace(line[0]) {
        BlankIffAllSpace(line[1..]);
        assert forall i :: 1 <= i <= n ==> line[i] == line[1..][i - 1];
      } else if IsSpace(line[n]) {
        BlankIffAllSpace(line[..n]);
      }
    }
  }

  /** A suffix of a blank line is blank; a line behind some indentation is as blank as before. */
  lemma IndentKeepsBlank(indent: string, line: string)
    requires forall i :: 0 <= i < |indent| ==> IsIndent(indent[i])
    ensures Blank(indent + line) <==> Blank(line)
  {
    BlankIffAllSpace(indent + line);
    BlankIffAllSpace(line);
    forall i | 0 <= i < |line| ensures line[i] == (indent + line)[|indent| + i] {
    }
    assert forall i :: 0 <= i < |indent + line| ==> (indent + line)[i] == if i < |indent| then indent[i] else line[i - |indent|];
  }

  lemma {:induction false} LeadingSplits(line: string)
    ensures Leading(line) + WithoutLeading(line) == line
    ensures forall i :: 0 <= i < |Leading(line)| ==> IsIndent(Leading(line)[i])
  {
    if line != [] && IsIndent(line[0]) {
      LeadingSplits(line[1..]);
    }
  }

  /** Indentation in front of a line is part of what the line then starts with. */
  lemma {:induction false} LeadingOfIndented(indent: string, line: string)
    requires forall i :: 0 <= i < |indent| ==> IsIndent(indent[i])
    ensures Leading(indent + line) == indent + Leading(line)
  {
    if indent == [] {
      assert indent + line == line;
    } else {
      assert (indent + line)[1..] == indent[1..] + line;
      LeadingOfIndented(indent[1..], line);
    }
  }

  // ----- The common indentation -----

  lemma {:induction false} CommonPrefixIsLongest(a: string, b: string, p: string)
    ensures CommonPrefix(a, b) <= a && CommonPrefix(a, b) <= b
    ensures p <= a && p <= b ==> p <= CommonPrefix(a, b)
  {
    if a != [] && b != [] && a[0] == b[0] {
      CommonPrefixIsLongest(a[1..], b[1..], if p == [] then [] else p[1..]);
    }
  }

  /** Every line that is not blank starts with `p`. */
  predicate StartsAll(p: string, lines: seq<string>) {
    forall i :: 0 <= i < |lines| && !Blank(lines[i]) ==> p <= Leading(lines[i])
  }

  /** The common indentation starts every line that is not blank, and whatever spaces and
      tabs do so as well are no longer. */
  lemma {:induction false} CommonIndentIsLongest(lines: seq<string>, p: string)
    ensures CommonIndent(lines).None? <==> forall i :: 0 <= i < |lines| ==> Blank(lines[i])
    ensures CommonIndent(lines).Some? ==>
      StartsAll(CommonIndent(lines).value, lines) && (StartsAll(p, lines) ==> p <= CommonIndent(lines).value)
  {
    if lines != [] {
      var n := |lines| - 1;
      CommonIndentIsLongest(lines[..n], p);
      var before := CommonIndent(lines[..n]);
      if !Blank(lines[n]) && before.Some? {
        CommonPrefixIsLongest(before.value, Leading(lines[n]), p);
      }
      StartsAllNext(p, lines);
      if before.Some? {
        StartsAllNext(CommonIndent(lines).value, lines);
        StartsAllShorter(before.value, lines[..n], CommonIndent(lines).value);
      }
    }
  }

  lemma StartsAllNext(p: string, lines: seq<string>)
    requires lines != []
    ensures StartsAll(p, lines) <==> StartsAll(p, lines[..|lines| - 1]) && (Blank(lines[|lines| - 1]) || p <= Leading(lines[|lines| - 1]))
  {
    forall i | 0 <= i < |lines| - 1 ensures lines[..|lines| - 1][i] == lines[i] {
    }
  }

  lemma StartsAllShorter(p: string, lines: seq<string>, q: string)
    requires StartsAll(p, lines) && q <= p
    ensures StartsAll(q, lines)
  {
  }

  /** The leading spaces and tabs of a line are all of them. */
  lemma {:induction false} LeadingIs(line: string)
    ensures Leading(line) <= line
    ensures forall i :: 0 <= i < |Leading(line)| ==> line[i] == ' ' || line[i] == '\t'
    ensures |Leading(line)| < |line| ==> line[|Leading(line)|] != ' ' && line[|Leading(line)|] != '\t'
  {
    if line != [] && IsIndent(line[0]) { LeadingIs(line[1..]); }
  }

  lemma StrippedIs(prefix: string, line: string)
    ensures prefix <= line ==> line == prefix + Stripped(prefix, line)
    ensures !(prefix <= line) ==> line == Leading(line) + Stripped(prefix, line)
  {
    LeadingSplits(line);
  }

  /** A line without the common indentation, which must be blank, loses all its leading
      spaces and tabs. */
  lemma ShortBlankLine(lines: seq<string>, i: nat)
    requires |lines| > 1 && i < |lines| && CommonIndent(lines).Some? && !(CommonIndent(lines).value <= lines[i])
    ensures Blank(lines[i]) && lines[i] == Leading(lines[i]) + Dedented(lines)[i]
  {
    CommonIndentIsLongest(lines, []);
    StrippedIs(CommonIndent(lines).value, lines[i]);
    LeadingIs(lines[i]);
  }

  /** Dedenting takes exactly the common indentation off each line that is not blank, and
      leaves blank lines blank; no line comes or goes. */
  lemma DedentRemovesCommonIndent(lines: seq<string>)
    requires |lines| > 1 && CommonIndent(lines).Some?
    ensures |Dedented(lines)| == |lines|
    ensures forall i :: 0 <= i < |lines| ==>
      if Blank(lines[i]) then Blank(Dedented(lines)[i]) else lines[i] == CommonIndent(lines).value + Dedented(lines)[i]
  {
    var p, out := CommonIndent(lines).value, Dedented(lines);
    CommonIndentIsLongest(lines, p);
    forall i | 0 <= i < |lines|
      ensures if Blank(lines[i]) then Blank(out[i]) else lines[i] == p + out[i]
    {
      LeadingSplits(lines[i]);
      if Blank(lines[i]) {
        StrippedStaysBlank(p, lines[i]);
      } else {
        assert Leading(lines[i]) <= lines[i];
      }
    }
  }

  lemma StrippedStaysBlank(p: string, line: string)
    requires Blank(line)
    ensures Blank(Stripped(p, line))
  {
    LeadingSplits(line);
    BlankIffAllSpace(line);
    BlankIffAllSpace(Stripped(p, line));
    var out := Stripped(p, line);
    assert out == line[|line| - |out|..];
  }

  /** What is left has no indentation in common. */
  lemma NoIndentLeft(lines: seq<string>)
    requires |lines| > 1
    ensures CommonIndent(Dedented(lines)).None? || CommonIndent(Dedented(lines)).value == []
  {
    var out := Dedented(lines);
    CommonIndentIsLongest(lines, []);
    if CommonIndent(lines).Some? && CommonIndent(lines).value != [] && CommonIndent(out).Some? {
      var p, q := CommonIndent(lines).value, CommonIndent(out).value;
      DedentRemovesCommonIndent(lines);
      CommonIndentIsLongest(out, q);
      LeadingOfCommon(lines);
      forall i | 0 <= i < |lines| && !Blank(lines[i]) ensures p + q <= Leading(lines[i]) {
        IndentKeepsBlank(p, out[i]);
        LeadingOfIndented(p, out[i]);
      }
      CommonIndentIsLongest(lines, p + q);
    }
    if CommonIndent(lines).None? {
      assert out == lines;
    }
  }

  lemma LeadingOfCommon(lines: seq<string>)
    requires CommonIndent(lines).Some?
    ensures forall i :: 0 <= i < |CommonIndent(lines).value| ==> IsIndent(CommonIndent(lines).value[i])
  {
    var p := CommonIndent(lines).value;
    CommonIndentIsLongest(lines, p);
    var k :| 0 <= k < |lines| && !Blank(lines[k]);
    LeadingSplits(lines[k]);
  }

  // ----- Whole strings -----

  function Dedent(s: string): string {
    Join(Dedented(Split(s, '\n')), "\n")
  }

  lemma DedentedLines(lines: seq<string>)
    requires AllLack(lines, '\n')
    ensures AllLack(Dedented(lines), '\n')
  {
    forall i | 0 <= i < |Dedented(lines)| ensures Lacks(Dedented(lines)[i], '\n') {
      LeadingSplits(lines[i]);
      var line, out := lines[i], Dedented(lines)[i];
      assert out == line[|line| - |out|..];
    }
  }

  /** Dedenting a dedented string changes nothing, and the number of lines stays. */
  lemma DedentIsIdempotent(s: string)
    ensures Dedent(Dedent(s)) == Dedent(s)
    ensures |Split(Dedent(s), '\n')| == |Split(s, '\n')|
  {
    var lines := Split(s, '\n');
    SplitGivesParts(s, '\n');
    DedentedLines(lines);
    SplitUndoesJoin(Dedented(lines), '\n');
    if |lines| > 1 {
      NoIndentLeft(lines);
    }
  }
}
