// The source formatter (cmd_fmt.go, and the same loop in lsp/formatting.go), for any
// set of top-level keywords. In this module a `char` is a Unicode code point.
module Formatter {
  import opened GoStrings
  import opened Options

  /** strings.Repeat("    ", n). */
  function Indentation(n: nat): string {
    seq(4 * n, _ => ' ')
  }

  /** The first word of a trimmed line, without opening brackets at its end. */
  function FirstWord(s: string): string {
    WithoutBrackets(UpToSpace(s))
  }

  function UpToSpace(s: string): string {
    if s == [] || IsSpace(s[0]) then [] else [s[0]] + UpToSpace(s[1..])
  }

  function WithoutBrackets(s: string): string
    decreases |s|
  {
    if s != [] && s[|s| - 1] in "({[" then WithoutBrackets(s[..|s| - 1]) else s
  }

  // ----- Braces -----

  /** Opening minus closing braces of `line` from `i` on, outside string literals and
      before a comment; `quote` is the quote that ends the literal around `i`. */
  function NetFrom(line: string, i: nat, quote: Option<char>): int
    requires i <= |line|
    decreases |line| - i
  {
    if i == |line| then 0
    else if quote.Some? then
      if line[i] == '\\' && i + 1 < |line| then NetFrom(line, i + 2, quote)
      else NetFrom(line, i + 1, if line[i] == quote.value then None else quote)
    else if line[i] == '/' && i + 1 < |line| && line[i + 1] == '/' then 0
    else if line[i] == '"' || line[i] == '\'' || line[i] == '`' then NetFrom(line, i + 1, Some(line[i]))
    else (if line[i] == '{' then 1 else if line[i] == '}' then -1 else 0) + NetFrom(line, i + 1, None)
  }

  function Net(line: string): int {
    NetFrom(line, 0, None)
  }

  method CountNetBraces(line: string) returns (net: int)
    ensures net == Net(line)
  {
    net := 0;
    var quote: Option<char>, i := None, 0;
    while i < |line|
      invariant i <= |line| && net + NetFrom(line, i, quote) == NetFrom(line, 0, None)
    {
      var ch := line[i];
      if quote.Some? {
        if ch == '\\' && i + 1 < |line| {
          i := i + 2;
          continue;
        }
        if ch == quote.value {
          quote := None;
        }
      } else if ch == '/' && i + 1 < |line| && line[i + 1] == '/' {
        break;
      } else if ch == '"' || ch == '\'' || ch == '`' {
        quote := Some(ch);
      } else if ch == '{' {
        net := net + 1;
      } else if ch == '}' {
        net := net - 1;
      }
      i := i + 1;
    }
  }

  /** Counting from `i` on is counting in the rest of the line. */
  lemma {:induction false} NetOfRest(line: string, i: nat, k: nat, quote: Option<char>)
    requires i + k <= |line|
    ensures NetFrom(line, i + k, quote) == NetFrom(line[i..], k, quote)
    decreases |line| - k
  {
    if i + k < |line| {
      NetOfRest(line, i, k + 1, quote);
      NetOfRest(line, i, k + 1, None);
      NetOfRest(line, i, k + 1, Some(line[i + k]));
      if i + k + 1 < |line| {
        NetOfRest(line, i, k + 2, quote);
      }
    }
  }

  predicate IsQuote(c: char) {
    c == '"' || c == '\'' || c == '`'
  }

  /** A character of code counts one way or the other; a comment counts nothing. */
  lemma NetOfCode(c: char, rest: string)
    requires !IsQuote(c)
    ensures Net([c] + rest) ==
      if c == '/' && rest != [] && rest[0] == '/' then 0
      else (if c == '{' then 1 else if c == '}' then -1 else 0) + Net(rest)
  {
    NetOfRest([c] + rest, 1, 0, None);
    assert ([c] + rest)[1..] == rest;
  }

  /** What a string literal holds counts nothing, whatever it escapes. */
  lemma NetOfLiteral(quote: char, content: string, rest: string)
    requires IsQuote(quote) && Closed(content, quote)
    ensures Net([quote] + content + [quote] + rest) == Net(rest)
  {
    var line := [quote] + content + [quote] + rest;
    LiteralSkipped(line, 1, content, quote);
    NetOfRest(line, |content| + 2, 0, None);
    assert line[|content| + 2..] == rest;
  }

  /** No bare quote in `content`, and no escape that reaches behind it. */
  predicate Closed(content: string, quote: char) {
    content == []
    || if content[0] == '\\' then |content| >= 2 && Closed(content[2..], quote)
       else content[0] != quote && Closed(content[1..], quote)
  }

  lemma {:induction false} LiteralSkipped(line: string, i: nat, content: string, quote: char)
    requires Closed(content, quote) && quote != '\\' && i + |content| < |line|
    requires line[i..i + |content|] == content && line[i + |content|] == quote
    ensures NetFrom(line, i, Some(quote)) == NetFrom(line, i + |content| + 1, None)
    decreases |content|
  {
    if content != [] {
      assert line[i] == content[0];
      var n := if content[0] == '\\' then 2 else 1;
      assert line[i + n..i + |content|] == content[n..];
      LiteralSkipped(line, i + n, content[n..], quote);
    }
  }

  // ----- The line loop -----

  /** What the loop remembers of the lines so far: the level, whether the last line
      written is blank or there is none yet, and whether the last line that is not
      blank starts with a closing brace. */
  datatype State = State(level: nat, last: Last, block: bool)
  datatype Last = Nothing | Blank | Text

  const START := State(0, Nothing, false)

  predicate Closes(trimmed: string) {
    trimmed != [] && (trimmed[0] == '}' || trimmed[0] == ']')
  }

  function LevelAt(level: nat, trimmed: string): nat {
    if Closes(trimmed) && level > 0 then level - 1 else level
  }

  function LevelAfter(level: nat, trimmed: string): nat {
    var net := Net(trimmed);
    if net >= 0 then level + net
    else if Closes(trimmed) then level
    else if level + net < 0 then 0
    else level + net
  }

  /** A top-level keyword that needs a blank line in front. */
  predicate Parts(keywords: set<string>, s: State, trimmed: string) {
    LevelAt(s.level, trimmed) == 0 && s.last == Text && !s.block && FirstWord(trimmed) in keywords
  }

  /** What the loop writes for one line. */
  function Emit(keywords: set<string>, s: State, line: string): seq<string> {
    if Trim(line) == [] then (if s.last == Blank then [] else [""]) else EmitText(keywords, s, Trim(line))
  }

  function EmitText(keywords: set<string>, s: State, trimmed: string): seq<string> {
    var line := Indentation(LevelAt(s.level, trimmed)) + trimmed;
    if Parts(keywords, s, trimmed) then ["", line] else [line]
  }

  function Next(s: State, line: string): State {
    if Trim(line) == [] then s.(last := Blank) else NextText(s, Trim(line))
  }

  function NextText(s: State, trimmed: string): State
    requires trimmed != []
  {
    State(LevelAfter(LevelAt(s.level, trimmed), trimmed), Text, trimmed[0] == '}')
  }

  /** What the loop writes for `lines`, and the state it ends in. */
  function Layout(keywords: set<string>, s: State, lines: seq<string>): seq<string>
    decreases |lines|
  {
    if lines == [] then [] else Emit(keywords, s, lines[0]) + Layout(keywords, Next(s, lines[0]), lines[1..])
  }

  function After(s: State, lines: seq<string>): State
    decreases |lines|
  {
    if lines == [] then s else After(Next(s, lines[0]), lines[1..])
  }

  function WithoutBlankTail(lines: seq<string>): seq<string>
    decreases |lines|
  {
    if lines != [] && Trim(lines[|lines| - 1]) == [] then WithoutBlankTail(lines[..|lines| - 1]) else lines
  }

  function Formatted(keywords: set<string>, lines: seq<string>): seq<string> {
    WithoutBlankTail(Layout(keywords, START, lines))
  }

  /** The variables of formatFile's line loop. */
  class LineFormatter {
    var indentLevel: int
    var prevEmpty: bool
    var prevWasBlock: bool
    var result: seq<string>

    constructor ()
      ensures Valid() && Seen() == START && result == []
    {
      indentLevel, prevEmpty, prevWasBlock, result := 0, false, false, [];
    }

    predicate Valid()
      reads this
    {
      indentLevel >= 0 && prevEmpty == (result != [] && result[|result| - 1] == "")
    }

    function Seen(): State
      requires Valid()
      reads this
    {
      State(indentLevel, if result == [] then Nothing else if prevEmpty then Blank else Text, prevWasBlock)
    }

    /** One turn of the loop; `i` counts the lines before this one. */
    method FormatLine(line: string, i: nat, keywords: set<string>)
      requires Valid() && (i == 0 ==> result == [])
      modifies this
      ensures Valid() && Seen() == Next(old(Seen()), line)
      ensures result == old(result) + Emit(keywords, old(Seen()), line)
    {
      var trimmed := Trim(line);
      if trimmed == "" {
        if !prevEmpty {
          result := result + [""];
          prevEmpty := true;
        }
        return;
      }
      FormatText(trimmed, i, keywords);
    }

    /** The rest of the turn, for a line that is not blank. */
    method FormatText(trimmed: string, i: nat, keywords: set<string>)
      requires Valid() && (i == 0 ==> result == []) && trimmed != ""
      modifies this
      ensures Valid() && Seen() == NextText(old(Seen()), trimmed)
      ensures result == old(result) + EmitText(keywords, old(Seen()), trimmed)
    {
      prevEmpty := false;
      var netBraces := CountNetBraces(trimmed);
      if Closes(trimmed) {
        indentLevel := indentLevel - 1;
        if indentLevel < 0 {
          indentLevel := 0;
        }
      }
      WriteLine(trimmed, i, keywords);
      prevWasBlock := trimmed[0] == '}';
      if netBraces > 0 {
        indentLevel := indentLevel + netBraces;
      } else if netBraces < 0 && !Closes(trimmed) {
        indentLevel := indentLevel + netBraces;
        if indentLevel < 0 {
          indentLevel := 0;
        }
      }
    }

    /** Writes the line at the current level, after a blank line where one is due. */
    method WriteLine(trimmed: string, i: nat, keywords: set<string>)
      requires trimmed != "" && indentLevel >= 0 && !prevEmpty && (i == 0 ==> result == [])
      modifies this`result
      ensures
        var line := Indentation(indentLevel) + trimmed;
        line != "" && result ==
          if indentLevel == 0 && FirstWord(trimmed) in keywords && old(result) != [] && old(result)[|old(result)| - 1] != "" && !prevWasBlock
          then old(result) + ["", line] else old(result) + [line]
    {
      if indentLevel == 0 && i > 0 {
        if FirstWord(trimmed) in keywords && !prevEmpty && |result| > 0 && result[|result| - 1] != "" {
          if !prevWasBlock {
            result := result + [""];
          }
        }
      }
      result := result + [Indentation(indentLevel) + trimmed];
    }
  }

  /** formatFile between splitting the file into lines and joining them. */
  method FormatLines(lines: seq<string>, keywords: set<string>) returns (result: seq<string>)
    ensures result == Formatted(keywords, lines)
  {
    var f := new LineFormatter();
    assert f.result + Layout(keywords, START, lines[0..]) == Layout(keywords, START, lines);
    for i := 0 to |lines|
      invariant f.Valid() && (i == 0 ==> f.result == [])
      invariant f.result + Layout(keywords, f.Seen(), lines[i..]) == Layout(keywords, START, lines)
    {
      LayoutStep(keywords, f.Seen(), lines, i, f.result);
      f.FormatLine(lines[i], i, keywords);
    }
    assert f.result + Layout(keywords, f.Seen(), lines[|lines|..]) == f.result;
    result := DropBlankTail(f.result);
  }

  method DropBlankTail(lines: seq<string>) returns (result: seq<string>)
    ensures result == WithoutBlankTail(lines)
  {
    result := lines;
    while |result| > 0 && Trim(result[|result| - 1]) == ""
      invariant WithoutBlankTail(result) == WithoutBlankTail(lines)
    {
      result := result[..|result| - 1];
    }
  }

  lemma LayoutStep(keywords: set<string>, s: State, lines: seq<string>, i: nat, written: seq<string>)
    requires i < |lines|
    ensures written + Layout(keywords, s, lines[i..])
         == written + Emit(keywords, s, lines[i]) + Layout(keywords, Next(s, lines[i]), lines[i + 1..])
  {
    assert lines[i..][1..] == lines[i + 1..];
  }

  // ----- Formatting twice -----

  lemma {:induction false} IndentationTrimsOff(n: nat, trimmed: string)
    requires Trimmed(trimmed) && trimmed != []
    ensures Trim(seq(n, _ => ' ') + trimmed) == trimmed
  {
    var padding: string := seq(n, _ => ' ');
    if n == 0 {
      assert padding + trimmed == trimmed;
    } else {
      var less: string := seq(n - 1, _ => ' ');
      assert (padding + trimmed)[1..] == less + trimmed;
      IndentationTrimsOff(n - 1, trimmed);
    }
  }

  lemma LayoutOne(keywords: set<string>, s: State, line: string)
    ensures Layout(keywords, s, [line]) == Emit(keywords, s, line)
    ensures After(s, [line]) == Next(s, line)
  {
    assert [line][1..] == [];
  }

  lemma {:induction false} LayoutConcat(keywords: set<string>, s: State, a: seq<string>, b: seq<string>)
    ensures Layout(keywords, s, a + b) == Layout(keywords, s, a) + Layout(keywords, After(s, a), b)
    ensures After(s, a + b) == After(After(s, a), b)
    decreases |a|
  {
    if a == [] {
      assert a + b == b;
    } else {
      assert (a + b)[1..] == a[1..] + b;
      LayoutConcat(keywords, Next(s, a[0]), a[1..], b);
    }
  }

  /** What is written for a line is laid out as it is, and leaves the same state. */
  lemma EmitStays(keywords: set<string>, s: State, line: string)
    ensures Layout(keywords, s, Emit(keywords, s, line)) == Emit(keywords, s, line)
    ensures After(s, Emit(keywords, s, line)) == Next(s, line)
  {
    var trimmed := Trim(line);
    if trimmed == [] {
      if s.last != Blank { LayoutOne(keywords, s, ""); }
    } else {
      var written := Indentation(LevelAt(s.level, trimmed)) + trimmed;
      IndentationTrimsOff(4 * LevelAt(s.level, trimmed), trimmed);
      if Parts(keywords, s, trimmed) {
        LayoutOne(keywords, s, "");
        LayoutOne(keywords, s.(last := Blank), written);
        LayoutConcat(keywords, s, [""], [written]);
      } else {
        LayoutOne(keywords, s, written);
      }
    }
  }

  lemma {:induction false} LayoutStays(keywords: set<string>, s: State, lines: seq<string>)
    ensures Layout(keywords, s, Layout(keywords, s, lines)) == Layout(keywords, s, lines)
    decreases |lines|
  {
    if lines != [] {
      var first, s' := Emit(keywords, s, lines[0]), Next(s, lines[0]);
      EmitStays(keywords, s, lines[0]);
      LayoutStays(keywords, s', lines[1..]);
      LayoutConcat(keywords, s, first, Layout(keywords, s', lines[1..]));
    }
  }

  lemma TailNext(lines: seq<string>, line: string)
    ensures WithoutBlankTail(lines + [line]) == if Trim(line) == [] then WithoutBlankTail(lines) else lines + [line]
  {
    assert (lines + [line])[..|lines|] == lines;
  }

  /** One more line: a blank one is gone with the tail, any other ends the layout. */
  lemma LayoutTailNext(keywords: set<string>, s: State, lines: seq<string>, line: string)
    ensures WithoutBlankTail(Layout(keywords, s, lines + [line])) ==
      if Trim(line) == [] then WithoutBlankTail(Layout(keywords, s, lines)) else Layout(keywords, s, lines + [line])
  {
    LayoutConcat(keywords, s, lines, [line]);
    var before, t := Layout(keywords, s, lines), After(s, lines);
    LayoutOne(keywords, t, line);
    if Trim(line) == [] {
      TailNext(before, "");
      var none: seq<string> := [];
      assert before + none == before;
    } else {
      EmitEndsInText(keywords, t, line);
      var e := Emit(keywords, t, line);
      var n := |e| - 1;
      TailNext(before + e[..n], e[n]);
      assert before + e[..n] + [e[n]] == before + e;
    }
  }

  lemma EmitEndsInText(keywords: set<string>, s: State, line: string)
    requires Trim(line) != []
    ensures var e := Emit(keywords, s, line); e != [] && Trim(e[|e| - 1]) == Trim(line)
  {
    IndentationTrimsOff(4 * LevelAt(s.level, Trim(line)), Trim(line));
  }

  /** Dropping the blank lines at the end can be done before laying out. */
  lemma {:induction false} TailCommutes(keywords: set<string>, s: State, lines: seq<string>)
    ensures WithoutBlankTail(Layout(keywords, s, lines)) == Layout(keywords, s, WithoutBlankTail(lines))
    decreases |lines|
  {
    if lines != [] {
      var front, last := lines[..|lines| - 1], lines[|lines| - 1];
      assert lines == front + [last];
      LayoutTailNext(keywords, s, front, last);
      if Trim(last) == [] { TailCommutes(keywords, s, front); }
    }
  }

  /** The lines of a formatted file are formatted already. */
  lemma FormattedStays(keywords: set<string>, lines: seq<string>)
    ensures Formatted(keywords, Formatted(keywords, lines) + [""]) == Formatted(keywords, lines)
  {
    var once := Formatted(keywords, lines);
    TailCommutes(keywords, START, lines);
    LayoutStays(keywords, START, WithoutBlankTail(lines));
    BlankTailGone(Layout(keywords, START, lines));
    TailNext(once, "");
    TailCommutes(keywords, START, once + [""]);
  }

  lemma {:induction false} BlankTailGone(lines: seq<string>)
    ensures WithoutBlankTail(WithoutBlankTail(lines)) == WithoutBlankTail(lines)
    decreases |lines|
  {
    if lines != [] && Trim(lines[|lines| - 1]) == [] {
      BlankTailGone(lines[..|lines| - 1]);
    }
  }

  // ----- Whole files -----

  function Format(keywords: set<string>, text: string): string {
    Join(Formatted(keywords, Split(text, '\n')), "\n") + "\n"
  }

  lemma {:induction false} TrimKeepsLine(line: string)
    requires Lacks(line, '\n')
    ensures Lacks(Trim(line), '\n')
    decreases |line|
  {
    if line != [] {
      if IsSpace(line[0]) {
        TrimKeepsLine(line[1..]);
      } else if IsSpace(line[|line| - 1]) {
        TrimKeepsLine(line[..|line| - 1]);
      }
    }
  }

  lemma {:induction false} LayoutGivesLines(keywords: set<string>, s: State, lines: seq<string>)
    requires AllLack(lines, '\n')
    ensures AllLack(Layout(keywords, s, lines), '\n')
    decreases |lines|
  {
    if lines != [] {
      TrimKeepsLine(lines[0]);
      LayoutGivesLines(keywords, Next(s, lines[0]), lines[1..]);
    }
  }

  lemma {:induction false} TailGivesLines(lines: seq<string>)
    requires AllLack(lines, '\n')
    ensures AllLack(WithoutBlankTail(lines), '\n')
    decreases |lines|
  {
    if lines != [] && Trim(lines[|lines| - 1]) == [] {
      TailGivesLines(lines[..|lines| - 1]);
    }
  }

  /** A last empty line is what a final newline adds. */
  lemma {:induction false} JoinWithEmpty(lines: seq<string>)
    requires lines != []
    ensures Join(lines + [""], "\n") == Join(lines, "\n") + "\n"
  {
    if |lines| == 1 {
      assert (lines + [""])[1..] == [""];
    } else {
      assert (lines + [""])[1..] == lines[1..] + [""];
      JoinWithEmpty(lines[1..]);
    }
  }

  /** Formatting a formatted file changes nothing. */
  lemma FormatIsIdempotent(keywords: set<string>, text: string)
    ensures Format(keywords, Format(keywords, text)) == Format(keywords, text)
  {
    var once := Formatted(keywords, Split(text, '\n'));
    SplitGivesParts(text, '\n');
    LayoutGivesLines(keywords, START, Split(text, '\n'));
    TailGivesLines(Layout(keywords, START, Split(text, '\n')));
    FormattedStays(keywords, Split(text, '\n'));
    if once == [] {
      SplitPart("", "", '\n');
      assert Format(keywords, text) == "" + ['\n'] + "";
      TwoBlanks(keywords);
    } else {
      JoinWithEmpty(once);
      SplitUndoesJoin(once + [""], '\n');
    }
  }

  lemma TwoBlanks(keywords: set<string>)
    ensures Formatted(keywords, ["", ""]) == Formatted(keywords, [""]) == []
  {
    LayoutOne(keywords, START, "");
    LayoutConcat(keywords, START, [""], [""]);
    LayoutOne(keywords, After(START, [""]), "");
    assert ["", ""] == [""] + [""];
  }

  // ----- What formatting keeps -----

  /** The lines that are not blank, without the space around them. */
  function Texts(lines: seq<string>): seq<string> {
    if lines == [] then []
    else (if Trim(lines[0]) == [] then [] else [Trim(lines[0])]) + Texts(lines[1..])
  }

  lemma {:induction false} TextsConcat(a: seq<string>, b: seq<string>)
    ensures Texts(a + b) == Texts(a) + Texts(b)
  {
    if a == [] {
      assert a + b == b;
    } else {
      assert (a + b)[1..] == a[1..] + b;
      TextsConcat(a[1..], b);
    }
  }

  lemma TextsOfEmit(keywords: set<string>, s: State, line: string)
    ensures Texts(Emit(keywords, s, line)) == Texts([line])
  {
    var trimmed := Trim(line);
    assert [line][1..] == [];
    assert [""][1..] == [];
    if trimmed != [] {
      IndentationTrimsOff(4 * LevelAt(s.level, trimmed), trimmed);
      var written := Indentation(LevelAt(s.level, trimmed)) + trimmed;
      assert ["", written][1..] == [written];
      assert [written][1..] == [];
    }
  }

  lemma {:induction false} LayoutKeepsTexts(keywords: set<string>, s: State, lines: seq<string>)
    ensures Texts(Layout(keywords, s, lines)) == Texts(lines)
    decreases |lines|
  {
    if lines != [] {
      TextsOfEmit(keywords, s, lines[0]);
      LayoutKeepsTexts(keywords, Next(s, lines[0]), lines[1..]);
      TextsConcat(Emit(keywords, s, lines[0]), Layout(keywords, Next(s, lines[0]), lines[1..]));
      TextsConcat([lines[0]], lines[1..]);
      assert [lines[0]] + lines[1..] == lines;
    }
  }

  lemma {:induction false} TailKeepsTexts(lines: seq<string>)
    ensures Texts(WithoutBlankTail(lines)) == Texts(lines)
    decreases |lines|
  {
    if lines != [] && Trim(lines[|lines| - 1]) == [] {
      var n := |lines| - 1;
      TailKeepsTexts(lines[..n]);
      TextsConcat(lines[..n], [lines[n]]);
      assert lines[..n] + [lines[n]] == lines;
    }
  }

  /** Formatting keeps every line that is not blank, in order, up to the space around it. */
  lemma FormattedKeepsTexts(keywords: set<string>, lines: seq<string>)
    ensures Texts(Formatted(keywords, lines)) == Texts(lines)
  {
    LayoutKeepsTexts(keywords, START, lines);
    TailKeepsTexts(Layout(keywords, START, lines));
  }

  predicate NoBlankPair(lines: seq<string>) {
    forall i :: 0 < i < |lines| ==> Trim(lines[i - 1]) != [] || Trim(lines[i]) != []
  }

  lemma {:induction false} LayoutHasNoBlankPair(keywords: set<string>, s: State, lines: seq<string>)
    ensures var out := Layout(keywords, s, lines); NoBlankPair(out) && (s.last == Blank && out != [] ==> Trim(out[0]) != [])
    decreases |lines|
  {
    if lines != [] {
      var e, s' := Emit(keywords, s, lines[0]), Next(s, lines[0]);
      var rest := Layout(keywords, s', lines[1..]);
      LayoutHasNoBlankPair(keywords, s', lines[1..]);
      var trimmed := Trim(lines[0]);
      if trimmed != [] {
        IndentationTrimsOff(4 * LevelAt(s.level, trimmed), trimmed);
      }
      forall i | 0 < i < |e + rest| ensures Trim((e + rest)[i - 1]) != [] || Trim((e + rest)[i]) != [] {
        if i > |e| { assert (e + rest)[i - 1] == rest[i - |e| - 1] && (e + rest)[i] == rest[i - |e|]; }
      }
    }
  }

  /** A formatted file has no two blank lines in a row and none at its end. */
  lemma FormattedBlankLines(keywords: set<string>, lines: seq<string>)
    ensures var out := Formatted(keywords, lines); NoBlankPair(out) && (out != [] ==> Trim(out[|out| - 1]) != [])
  {
    LayoutHasNoBlankPair(keywords, START, lines);
    TailIsPrefix(Layout(keywords, START, lines));
  }

  lemma {:induction false} TailIsPrefix(lines: seq<string>)
    ensures var out := WithoutBlankTail(lines); out <= lines && (out != [] ==> Trim(out[|out| - 1]) != [])
    decreases |lines|
  {
    if lines != [] && Trim(lines[|lines| - 1]) == [] {
      TailIsPrefix(lines[..|lines| - 1]);
    }
  }

  // ----- Indentation and spacing -----

  /** A line that starts with a closing bracket inside a block closes one block in all, and
      any other line closes no more than are open. */
  predicate Follows(level: int, trimmed: string) {
    if Closes(trimmed) && level > 0 then Net(trimmed) == -1 else level + Net(trimmed) >= 0
  }

  /** Exactly then the level moves with the braces of the line. */
  lemma LevelFollowsBracesIff(s: State, trimmed: string)
    requires trimmed != []
    ensures NextText(s, trimmed).level == s.level + Net(trimmed) <==> Follows(s.level, trimmed)
  {
  }

  /** The balance of the braces of all lines. */
  function NetOfLines(lines: seq<string>): int {
    if lines == [] then 0 else NetOfLines(lines[..|lines| - 1]) + Net(Trim(lines[|lines| - 1]))
  }

  /** Line `i` follows, at the level that the braces before it make. */
  predicate FollowsAt(level: int, lines: seq<string>, i: nat)
    requires i < |lines|
  {
    Trim(lines[i]) != [] ==> Follows(level + NetOfLines(lines[..i]), Trim(lines[i]))
  }

  predicate Balanced(s: State, lines: seq<string>, k: nat)
    requires k <= |lines|
  {
    After(s, lines[..k]).level == s.level + NetOfLines(lines[..k])
  }

  lemma LevelStep(s: State, lines: seq<string>, i: nat)
    requires i < |lines| && Balanced(s, lines, i)
    ensures Balanced(s, lines, i + 1) <==> FollowsAt(s.level, lines, i)
  {
    assert lines[..i + 1] == lines[..i] + [lines[i]];
    LayoutConcat({}, s, lines[..i], [lines[i]]);
    LayoutOne({}, After(s, lines[..i]), lines[i]);
    assert lines[..i + 1][..i] == lines[..i];
    if Trim(lines[i]) != [] {
      LevelFollowsBracesIff(After(s, lines[..i]), Trim(lines[i]));
    }
  }

  /** Over a file: the level is everywhere the balance of the braces so far exactly when
      every line follows, which the text alone tells. */
  lemma LevelIsBalanceIff(s: State, lines: seq<string>)
    ensures (forall k: nat :: k <= |lines| ==> Balanced(s, lines, k)) <==> forall i: nat :: i < |lines| ==> FollowsAt(s.level, lines, i)
  {
    if forall i: nat :: i < |lines| ==> FollowsAt(s.level, lines, i) {
      forall k: nat | k <= |lines| ensures Balanced(s, lines, k) {
        BalancedUpTo(s, lines, k);
      }
    }
    if forall k: nat :: k <= |lines| ==> Balanced(s, lines, k) {
      forall i: nat | i < |lines| ensures FollowsAt(s.level, lines, i) {
        assert Balanced(s, lines, i) && Balanced(s, lines, i + 1);
        LevelStep(s, lines, i);
      }
    }
  }

  lemma {:induction false} BalancedUpTo(s: State, lines: seq<string>, k: nat)
    requires k <= |lines| && forall i: nat :: i < |lines| ==> FollowsAt(s.level, lines, i)
    ensures Balanced(s, lines, k)
  {
    if k > 0 {
      BalancedUpTo(s, lines, k - 1);
      assert FollowsAt(s.level, lines, k - 1);
      LevelStep(s, lines, k - 1);
    }
  }

  /** A line `} else {` does not follow: the level drops by one and stays down. */
  lemma ElseLosesLevel(s: State)
    requires s.level > 0
    ensures Net("} else {") == 0 && NextText(s, "} else {").level == s.level - 1
  {
    var tail := " else {";
    assert "} else {" == ['}'] + tail;
    NetOfCode('}', tail);
    NetOfWords(" else ", "{");
    assert tail == " else " + "{";
    NetOfCode('{', "");
    assert ['{'] + "" == "{";
  }

  lemma {:induction false} NetOfWords(words: string, rest: string)
    requires forall i :: 0 <= i < |words| ==> !IsQuote(words[i]) && words[i] != '/' && words[i] != '{' && words[i] != '}'
    ensures Net(words + rest) == Net(rest)
  {
    if words == [] {
      assert words + rest == rest;
    } else {
      assert words + rest == [words[0]] + (words[1..] + rest);
      NetOfCode(words[0], words[1..] + rest);
      NetOfWords(words[1..], rest);
    }
  }

  /** A line at level 0 that starts with a keyword. */
  predicate IsHeading(keywords: set<string>, line: string) {
    Trim(line) != [] && !IsSpace(line[0]) && FirstWord(line) in keywords
  }

  /** In what is written, a heading follows a blank line or a line that closes a block. */
  predicate Apart(keywords: set<string>, lines: seq<string>) {
    forall i :: 0 < i < |lines| && IsHeading(keywords, lines[i]) ==>
      Trim(lines[i - 1]) == [] || Trim(lines[i - 1])[0] == '}'
  }

  lemma {:induction false} HeadingsStandApart(keywords: set<string>, s: State, lines: seq<string>)
    ensures var out := Layout(keywords, s, lines);
      Apart(keywords, out) && (out != [] && IsHeading(keywords, out[0]) ==> s.last != Text || s.block)
    decreases |lines|
  {
    if lines != [] {
      var e, s' := Emit(keywords, s, lines[0]), Next(s, lines[0]);
      var rest := Layout(keywords, s', lines[1..]);
      HeadingsStandApart(keywords, s', lines[1..]);
      var trimmed := Trim(lines[0]);
      if trimmed != [] {
        IndentationTrimsOff(4 * LevelAt(s.level, trimmed), trimmed);
      }
      forall i | 0 < i < |e + rest| && IsHeading(keywords, (e + rest)[i])
        ensures Trim((e + rest)[i - 1]) == [] || Trim((e + rest)[i - 1])[0] == '}'
      {
        if i > |e| {
          assert (e + rest)[i - 1] == rest[i - |e| - 1] && (e + rest)[i] == rest[i - |e|];
        }
      }
    }
  }
}
