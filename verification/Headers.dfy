// Messages with any number of header lines, in front of the frame splitter.
module Headers {
  import opened Options
  import opened GoInt
  import opened GoStrings
  import opened Scanner
  import opened Framing

  predicate DeclaresLength(line: string) {
    "Content-Length: " <= line
  }

  function LengthText(line: string): string
    requires DeclaresLength(line)
  {
    line[16..]
  }

  /** No length comes of it exactly when some Content-Length is no number. */
  lemma {:induction false} DeclaredFailsIff(lines: seq<string>)
    ensures Declared(lines).None? <==> exists i :: 0 <= i < |lines| && DeclaresLength(lines[i]) && Atoi(LengthText(lines[i])).None?
  {
    if lines != [] {
      var n := |lines| - 1;
      DeclaredFailsIff(lines[..n]);
      assert forall i :: 0 <= i < n ==> lines[..n][i] == lines[i];
    }
  }

  /** The last Content-Length counts, and 0 if there is none. */
  lemma {:induction false} LastLengthCounts(before: seq<string>, text: string, after: seq<string>)
    requires forall i :: 0 <= i < |after| ==> !DeclaresLength(after[i])
    ensures Declared(after) == Some(0)
    ensures Declared(before).Some? ==> Declared(before + ["Content-Length: " + text] + after) == Atoi(text)
  {
    var line := FIELD + text;
    var lines := before + [line] + after;
    if after == [] {
      assert lines == before + [line];
      assert lines[..|lines| - 1] == before && line[16..] == text;
    } else {
      var n := |after| - 1;
      LastLengthCounts(before, text, after[..n]);
      assert lines[..|lines| - 1] == before + [line] + after[..n];
    }
  }

  /** Lines of a header: none empty, none with a carriage return. */
  predicate Plain(lines: seq<string>) {
    lines != [] && forall i :: 0 <= i < |lines| ==> lines[i] != "" && Lacks(lines[i], '\r')
  }

  lemma {:induction false} SplitsIntoLines(lines: seq<string>)
    requires Plain(lines)
    ensures Lines(Join(lines, "\r\n")) == lines
  {
    var text := Join(lines, "\r\n");
    if |lines| == 1 {
      OneLine(lines[0]);
    } else {
      var rest := Join(lines[1..], "\r\n");
      assert text == lines[0] + NEWLINE + rest;
      assert text[|lines[0]|..|lines[0]| + 2] == NEWLINE;
      assert OccursAt(text, NEWLINE, |lines[0]|);
      assert forall i :: 0 <= i < |lines[0]| ==> text[i] == lines[0][i];
      NoneBefore(text, NEWLINE, |lines[0]|);
      assert text[..|lines[0]|] == lines[0] && text[|lines[0]| + 2..] == rest;
      SplitsIntoLines(lines[1..]);
    }
  }

  /** The first empty line ends the header. */
  lemma {:induction false} NoEmptyLine(lines: seq<string>, tail: string, j: int)
    requires Plain(lines) && OccursAt(Join(lines, "\r\n") + SEPARATOR + tail, SEPARATOR, j)
    ensures j >= |Join(lines, "\r\n")|
  {
    var data, first := Join(lines, "\r\n") + SEPARATOR + tail, lines[0];
    assert forall i :: 0 <= i < |first| ==> data[i] == first[i];
    NoneBefore(data, SEPARATOR, |first|);
    if |lines| > 1 {
      var rest := Join(lines[1..], "\r\n");
      assert data == first + NEWLINE + (rest + SEPARATOR + tail);
      assert rest[0] == lines[1][0];
      assert data[|first| + 2] == rest[0] != '\r';
      var found := data[j..j + 4];
      assert found[0] == data[j] && found[2] == data[j + 2];
      assert data[|first| + 1] == '\n' && j >= |first| + 2;
      var behind := rest + SEPARATOR + tail;
      assert behind[j - |first| - 2..j - |first| + 2] == data[j..j + 4];
      NoEmptyLine(lines[1..], tail, j - |first| - 2);
    }
  }

  lemma HeaderEndsThere(lines: seq<string>, tail: string)
    requires Plain(lines)
    ensures var header := Join(lines, "\r\n"); var data := header + SEPARATOR + tail;
      HeaderEnd(data) == |header| && data[..|header|] == header
  {
    var header := Join(lines, "\r\n");
    var data := header + SEPARATOR + tail;
    assert data[|header|..|header| + 4] == SEPARATOR;
    assert OccursAt(data, SEPARATOR, |header|);
    forall j | OccursAt(data, SEPARATOR, j) ensures j >= |header| { NoEmptyLine(lines, tail, j); }
  }

  lemma BodyBehind(header: string, body: string, rest: string)
    ensures header + body + rest == header + (body + rest)
    ensures (header + (body + rest))[|header|..|header| + |body|] == body
  {}

  /** A message splits off whole when its headers, whatever else they say, declare the
      length of its body. */
  lemma MessageSplits(lines: seq<string>, body: string, rest: string, atEof: bool)
    requires Plain(lines) && Declared(lines) == Some(|body|)
    requires |Join(lines, "\r\n")| + 4 + |body| <= MAX_INT
    ensures SplitFrame(Join(lines, "\r\n") + "\r\n\r\n" + body + rest, atEof) == Frame(|Join(lines, "\r\n")| + 4 + |body|, body)
  {
    var header := Join(lines, "\r\n");
    var data := header + SEPARATOR + (body + rest);
    BodyBehind(header + SEPARATOR, body, rest);
    HeaderEndsThere(lines, body + rest);
    SplitsIntoLines(lines);
    AfterHeader(data, atEof, |header|, |body|, Some(|body|));
  }

  /** The writer declares the length of the body, and nothing else. */
  lemma WrittenIs(body: string)
    ensures Written(body) == Join(["Content-Length: " + Decimal(|body|)], "\r\n") + "\r\n\r\n" + body
  {}
}
