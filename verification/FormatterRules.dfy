// The rules of the layout that the formatter writes, line by line.
module FormatterRules {
  import opened GoStrings
  import opened Formatter

  predicate BlankLine(line: string) {
    Trim(line) == ""
  }

  /** The last line that is not blank, without the space around it. */
  function LastText(lines: seq<string>): string {
    if lines == [] then ""
    else if BlankLine(lines[|lines| - 1]) then LastText(lines[..|lines| - 1])
    else Trim(lines[|lines| - 1])
  }

  /** What the loop knows of the lines before. */
  lemma {:induction false} StateIs(before: seq<string>)
    ensures var s := After(START, before);
      && (s.last == Nothing <==> before == [])
      && (s.last == Blank <==> before != [] && BlankLine(before[|before| - 1]))
      && (s.block <==> LastText(before) != "" && LastText(before)[0] == '}')
  {
    if before != [] {
      var n := |before| - 1;
      StateIs(before[..n]);
      assert before == before[..n] + [before[n]];
      LayoutConcat({}, START, before[..n], [before[n]]);
      LayoutOne({}, After(START, before[..n]), before[n]);
    }
  }

  /** The level at which a line stands: a closing bracket comes off first. */
  function Depth(before: seq<string>, line: string): int {
    var level := After(START, before).level;
    var text := Trim(line);
    if text != "" && (text[0] == '}' || text[0] == ']') && level > 0 then level - 1 else level
  }

  /** A blank line is written unless one stands before it. Any other line is written at
      four spaces for each level; a blank line comes before it exactly when it starts at
      level 0 with a keyword, behind a line of text in a row that closes no block. */
  lemma EmitIs(keywords: set<string>, before: seq<string>, line: string)
    ensures Emit(keywords, After(START, before), line) ==
      if BlankLine(line) then (if before != [] && BlankLine(before[|before| - 1]) then [] else [""])
      else
        var written := seq(4 * Depth(before, line), _ => ' ') + Trim(line);
        if Depth(before, line) == 0 && FirstWord(Trim(line)) in keywords
           && before != [] && !BlankLine(before[|before| - 1]) && LastText(before)[0] != '}'
        then ["", written] else [written]
  {
    StateIs(before);
    if before != [] && !BlankLine(before[|before| - 1]) { assert LastText(before) != ""; }
  }

  /** The level behind a line: a bracket at its start closes one, what it opens in all is
      added, and what it closes otherwise comes off, down to 0. */
  lemma NextLevelIs(s: State, trimmed: string)
    requires trimmed != ""
    ensures NextText(s, trimmed).level ==
      if trimmed[0] == '}' || trimmed[0] == ']'
      then (if s.level > 0 then s.level - 1 else 0) + (if Net(trimmed) > 0 then Net(trimmed) else 0)
      else if s.level + Net(trimmed) > 0 then s.level + Net(trimmed) else 0
  {}

  /** Where every line follows, a line is indented by what the braces before it leave open. */
  lemma IndentedByBalance(lines: seq<string>, i: nat)
    requires i < |lines| && forall k: nat :: k < |lines| ==> FollowsAt(0, lines, k)
    ensures After(START, lines[..i]).level == NetOfLines(lines[..i])
    ensures var open := NetOfLines(lines[..i]);
      Depth(lines[..i], lines[i]) ==
      if !BlankLine(lines[i]) && (Trim(lines[i])[0] == '}' || Trim(lines[i])[0] == ']') && open > 0 then open - 1 else open
  {
    BalancedUpTo(START, lines, i);
  }

  /** The first word ends at a space, or at the opening brackets in front of it. */
  lemma {:induction false} FirstWordIs(word: string, brackets: string, rest: string)
    requires NoSpace(word) && (word != "" ==> word[|word| - 1] !in "({[")
    requires NoSpace(brackets) && (forall i :: 0 <= i < |brackets| ==> brackets[i] in "({[")
    requires rest == "" || IsSpace(rest[0])
    ensures FirstWord(word + brackets + rest) == word
  {
    UpToSpaceIs(word + brackets, rest);
    BracketsGo(word, brackets);
  }

  lemma {:induction false} UpToSpaceIs(word: string, rest: string)
    requires NoSpace(word) && (rest == "" || IsSpace(rest[0]))
    ensures UpToSpace(word + rest) == word
  {
    if word == "" {
      assert word + rest == rest;
    } else {
      assert (word + rest)[1..] == word[1..] + rest;
      UpToSpaceIs(word[1..], rest);
    }
  }

  lemma {:induction false} BracketsGo(word: string, brackets: string)
    requires word != "" ==> word[|word| - 1] !in "({["
    requires forall i :: 0 <= i < |brackets| ==> brackets[i] in "({["
    ensures WithoutBrackets(word + brackets) == word
  {
    if brackets == "" {
      assert word + brackets == word;
    } else {
      var n := |brackets| - 1;
      assert (word + brackets)[..|word| + n] == word + brackets[..n];
      BracketsGo(word, brackets[..n]);
    }
  }
}
