// Content-Length framing of the debug adapter proxy (dap/proxy.go), the "Base
// Protocol" of the Debug Adapter Protocol: the writer, the incremental splitter and
// the pump between them. In this module a `char` stands for one byte.
module Framing {
  import opened Options
  import opened GoInt
  import opened GoStrings
  import opened Scanner

  const NEWLINE := "\r\n"
  const SEPARATOR := "\r\n\r\n"
  const FIELD := "Content-Length: "

  /** strings.Split(s, "\r\n"). */
  function Lines(s: string): seq<string>
    decreases |s|
  {
    var i := Index(s, NEWLINE);
    if i < 0 then [s] else [s[..i]] + Lines(s[i + 2..])
  }

  // ----- One frame -----

  predicate IsField(line: string) {
    FIELD <= line
  }

  /** The length that the header lines declare: the last Content-Length, 0 if there is
      none; no value if any of them is no number. */
  function Declared(lines: seq<string>): Option<int64> {
    if lines == [] then Some(0)
    else
      var before := Declared(lines[..|lines| - 1]);
      var line := lines[|lines| - 1];
      if before.Some? && IsField(line) then Atoi(line[|FIELD|..]) else before
  }

  /** Where the header ends, or -1. */
  function HeaderEnd(data: string): (h: int)
    ensures h < 0 || h + 4 <= |data|
  {
    Index(data, SEPARATOR)
  }

  function SplitFrame(data: string, atEof: bool): Split {
    if atEof && data == [] then NeedMore else SplitAt(data, atEof, HeaderEnd(data))
  }

  function SplitAt(data: string, atEof: bool, headerEnd: int): Split
    requires headerEnd >= 0 ==> headerEnd + 4 <= |data|
  {
    if headerEnd < 0 then (if atEof then Truncated else NeedMore)
    else FrameAfter(data, atEof, headerEnd, Declared(Lines(data[..headerEnd])))
  }

  /** What follows a header that ends at `headerEnd` and declares `length`. */
  function FrameAfter(data: string, atEof: bool, headerEnd: nat, length: Option<int64>): Split
    requires headerEnd + 4 <= |data|
  {
    if length == None then Invalid
    else
      var bodyStart := headerEnd + 4;
      var bodyEnd := Wrap(bodyStart + length.value);
      if |data| < bodyEnd then (if atEof then Truncated else NeedMore)
      else if bodyEnd < bodyStart then Panic
      else Frame(bodyEnd, data[bodyStart..bodyEnd])
  }

  /** The splitter. */
  method SplitDAPFrame(data: string, atEof: bool) returns (r: Split)
    ensures r == SplitFrame(data, atEof)
  {
    if atEof && |data| == 0 {
      return NeedMore;
    }
    var headerEnd := HeaderEnd(data);
    if headerEnd < 0 {
      return if atEof then Truncated else NeedMore;
    }
    r := SplitBody(data, atEof, headerEnd);
  }

  /** The splitter behind the header. */
  method SplitBody(data: string, atEof: bool, headerEnd: nat) returns (r: Split)
    requires headerEnd + 4 <= |data|
    ensures r == SplitAt(data, atEof, headerEnd)
  {
    var length := ContentLength(Lines(data[..headerEnd]));
    if length.None? {
      return Invalid;
    }
    var bodyStart := headerEnd + 4;
    var bodyEnd := Wrap(bodyStart + length.value);
    if |data| < bodyEnd {
      return if atEof then Truncated else NeedMore;
    }
    if bodyEnd < bodyStart {
      return Panic;
    }
    return Frame(bodyEnd, data[bodyStart..bodyEnd]);
  }

  /** The splitter's loop over the header lines. */
  method ContentLength(lines: seq<string>) returns (length: Option<int64>)
    ensures length == Declared(lines)
  {
    var contentLength: int64 := 0;
    for i := 0 to |lines|
      invariant Declared(lines[..i]) == Some(contentLength)
    {
      assert lines[..i + 1][..i] == lines[..i];
      if IsField(lines[i]) {
        var n := Atoi(lines[i][|FIELD|..]);
        if n.None? {
          BadFieldStays(lines, i + 1);
          return None;
        }
        contentLength := n.value;
      }
    }
    assert lines[..|lines|] == lines;
    return Some(contentLength);
  }

  lemma {:induction false} BadFieldStays(lines: seq<string>, i: nat)
    requires i <= |lines| && Declared(lines[..i]) == None
    ensures Declared(lines) == None
    decreases |lines|
  {
    if i == |lines| {
      assert lines[..i] == lines;
    } else {
      assert lines[..|lines| - 1][..i] == lines[..i];
      BadFieldStays(lines[..|lines| - 1], i);
    }
  }

  /** The body is the `n` bytes behind the empty line exactly when the header declares `n`. */
  lemma FrameHasDeclaredLength(data: string, atEof: bool, n: nat)
    requires HeaderEnd(data) >= 0 && HeaderEnd(data) + 4 + n <= |data| <= MAX_INT
    ensures var h := HeaderEnd(data);
      SplitFrame(data, atEof) == Frame(h + 4 + n, data[h + 4..h + 4 + n]) <==> Declared(Lines(data[..h])) == Some(n)
  {
    var h := HeaderEnd(data);
    AfterHeader(data, atEof, h, n, Declared(Lines(data[..h])));
  }

  lemma AfterHeader(data: string, atEof: bool, h: nat, n: nat, length: Option<int64>)
    requires h + 4 + n <= |data| && h + 4 + n <= MAX_INT
    ensures FrameAfter(data, atEof, h, length) == Frame(h + 4 + n, data[h + 4..h + 4 + n]) <==> length == Some(n)
  {
  }

  // ----- Declared lengths that cannot be -----

  /** The length that the headers of the first message declare. */
  function FirstLength(data: string): Option<int64>
    requires HeaderEnd(data) >= 0
  {
    Declared(Lines(data[..HeaderEnd(data)]))
  }

  /** The headers of the first message declare a length below zero, or one whose end no
      64-bit offset can name. */
  predicate OutOfRange(data: string) {
    HeaderEnd(data) >= 0 && FirstLength(data).Some?
    && (FirstLength(data).value < 0 || HeaderEnd(data) + 4 + FirstLength(data).value > MAX_INT)
  }

  /** The first message is all there. */
  predicate Fits(data: string) {
    HeaderEnd(data) >= 0 && FirstLength(data).Some?
    && 0 <= FirstLength(data).value <= |data| - HeaderEnd(data) - 4
  }

  /** Where the first message ends. */
  function FirstEnd(data: string): nat
    requires Fits(data)
  {
    HeaderEnd(data) + 4 + FirstLength(data).value
  }

  /** The stream from the first message on whose headers do not declare a length that fits. */
  function Misfit(data: string): string
    decreases |data|
  {
    if Fits(data) then Misfit(data[FirstEnd(data)..]) else data
  }

  /** One call panics exactly when the headers declare a length out of range. */
  lemma SplitPanicsIff(data: string, atEof: bool)
    requires |data| <= MAX_INT
    ensures SplitFrame(data, atEof) == Panic <==> OutOfRange(data)
  {
    if HeaderEnd(data) >= 0 {
      if FirstLength(data).Some? { InRange(|data|, HeaderEnd(data), FirstLength(data).value); }
    }
  }

  lemma InRange(size: nat, headerEnd: nat, length: int64)
    requires headerEnd + 4 <= size <= MAX_INT
    ensures var end := Wrap(headerEnd + 4 + length);
      && (end <= size && end < headerEnd + 4 <==> length < 0 || headerEnd + 4 + length > MAX_INT)
      && (headerEnd + 4 <= end <= size <==> 0 <= length <= size - headerEnd - 4)
      && (headerEnd + 4 <= end <= size ==> end == headerEnd + 4 + length)
  {
  }

  lemma FrameIffFits(data: string)
    requires |data| <= MAX_INT
    ensures SplitFrame(data, true).Frame? <==> Fits(data)
    ensures Fits(data) ==> SplitFrame(data, true).advance == FirstEnd(data)
  {
    if HeaderEnd(data) >= 0 && FirstLength(data).Some? {
      InRange(|data|, HeaderEnd(data), FirstLength(data).value);
    }
  }

  /** How reading a stream ends, by the headers of the message it ends at. */
  function StopAt(data: string): Stop {
    if data == "" then AtEnd
    else if HeaderEnd(data) < 0 then Failed(Truncated)
    else if FirstLength(data).None? then Failed(Invalid)
    else if OutOfRange(data) then Failed(Panic)
    else Failed(Truncated)
  }

  /** Misfit skips what the splitter takes. */
  lemma MisfitSkips(data: string, r: Split)
    requires r.Frame? <==> Fits(data)
    requires Fits(data) ==> r.advance == FirstEnd(data)
    ensures Misfit(data) == if r.Frame? then Misfit(data[r.advance..]) else data
  {
  }

  lemma StopOfCall(data: string)
    requires |data| <= MAX_INT && !SplitFrame(data, true).Frame?
    ensures var r := SplitFrame(data, true); StopAt(data) == if r.NeedMore? then AtEnd else Failed(r)
  {
    SplitPanicsIff(data, true);
  }

  lemma {:induction false} MisfitIsShorter(data: string)
    ensures |Misfit(data)| <= |data|
    decreases |data|
  {
    if Fits(data) {
      MisfitIsShorter(data[FirstEnd(data)..]);
    }
  }

  /** The headers decide how reading a stream ends. */
  lemma StopsByHeaders(data: string)
    requires |data| <= MAX_INT
    ensures Advances(SplitFrame)
    ensures Read(SplitFrame, data).1 == StopAt(Misfit(data))
  {
    SplitFrameIsStable();
    forall d: string | |d| <= MAX_INT
      ensures Misfit(d) == if SplitFrame(d, true).Frame? then Misfit(d[SplitFrame(d, true).advance..]) else d
    {
      FrameIffFits(d);
      MisfitSkips(d, SplitFrame(d, true));
    }
    RestIsSkipped(SplitFrame, Misfit, MAX_INT, data);
    ReadIsTaken(SplitFrame, data);
    MisfitIsShorter(data);
    StopOfCall(Misfit(data));
  }

  /** Reading a stream, and with it the scanner and the pump, crashes exactly when the first
      message whose headers declare no length that fits declares one out of range. */
  lemma StreamPanicsIff(data: string)
    requires |data| <= MAX_INT
    ensures Advances(SplitFrame)
    ensures Read(SplitFrame, data).1 == Failed(Panic) <==> OutOfRange(Misfit(data))
  {
    StopsByHeaders(data);
  }

  /** It does crash on a length below zero, whatever follows. */
  lemma NegativeLengthPanics(length: int64, rest: string, atEof: bool)
    requires -MAX_INT <= length < 0
    ensures SplitFrame(FIELD + ("-" + Decimal(-length)) + SEPARATOR + rest, atEof) == Panic
  {
    DecimalIsPlain(-length, '\r');
    AtoiOfNegative(length);
    FieldPanics("-" + Decimal(-length), length, rest, atEof);
  }

  lemma FieldPanics(text: string, length: int64, rest: string, atEof: bool)
    requires Lacks(text, '\r') && Atoi(text) == Some(length) && -MAX_INT <= length < 0
    ensures SplitFrame(FIELD + text + SEPARATOR + rest, atEof) == Panic
  {
    DeclaredField(text);
    NegativeHeaderPanics(FIELD + text, length, rest, atEof);
  }

  lemma NegativeHeaderPanics(header: string, length: int64, rest: string, atEof: bool)
    requires Lacks(header, '\r') && Declared([header]) == Some(length) && -MAX_INT <= length < 0
    ensures SplitFrame(header + SEPARATOR + rest, atEof) == Panic
  {
    HeaderSplits(header, rest, atEof);
    NegativeAfter(header + SEPARATOR + rest, atEof, |header|, length);
  }

  lemma NegativeAfter(data: string, atEof: bool, h: nat, length: int64)
    requires h + 4 <= |data| && -MAX_INT <= length < 0
    ensures FrameAfter(data, atEof, h, Some(length)) == Panic
  {
  }

  /** A single Content-Length line declares what its text says. */
  lemma DeclaredField(text: string)
    ensures Declared([FIELD + text]) == Atoi(text)
  {
    var line := FIELD + text;
    assert line[|FIELD|..] == text;
    var before: seq<string> := [line][..0];
    assert before == [];
  }

  // ----- More bytes arrive -----

  lemma FrameAfterStays(data: string, more: string, atEof: bool, h: nat, length: Option<int64>)
    requires h + 4 <= |data| && !FrameAfter(data, false, h, length).NeedMore?
    ensures FrameAfter(data + more, atEof, h, length) == FrameAfter(data, false, h, length)
  {
    if length.Some? {
      var start, end := h + 4, Wrap(h + 4 + length.value);
      if start <= end <= |data| {
        assert (data + more)[start..end] == data[start..end];
      }
    }
  }

  /** What the splitter has decided, more bytes and the end of the stream leave alone. */
  lemma SplitFrameIsStable()
    ensures Advances(SplitFrame) && Stable(SplitFrame)
  {
    forall data, more, atEof
      ensures SplitFrame(data, false).NeedMore? || SplitFrame(data + more, atEof) == SplitFrame(data, false)
    {
      var h := HeaderEnd(data);
      if h >= 0 {
        IndexStays(data, more, SEPARATOR);
        assert (data + more)[..h] == data[..h];
        if !SplitFrame(data, false).NeedMore? {
          FrameAfterStays(data, more, atEof, h, Declared(Lines(data[..h])));
        }
      }
    }
  }

  // ----- The writer -----

  function Written(body: string): string {
    FIELD + Decimal(|body|) + SEPARATOR + body
  }

  /** A header without a carriage return ends where the empty line begins. */
  lemma HeaderEnds(header: string, tail: string)
    requires forall i :: 0 <= i < |header| ==> header[i] != '\r'
    ensures HeaderEnd(header + SEPARATOR + tail) == |header|
  {
    var data := header + SEPARATOR + tail;
    assert data[|header|..|header| + 4] == SEPARATOR;
    assert OccursAt(data, SEPARATOR, |header|);
    assert forall i :: 0 <= i < |header| ==> data[i] == header[i];
    NoneBefore(data, SEPARATOR, |header|);
  }

  lemma OneLine(header: string)
    requires forall i :: 0 <= i < |header| ==> header[i] != '\r'
    ensures Lines(header) == [header]
  {
    NoneBefore(header, NEWLINE, |header|);
  }

  /** A written message in front of any bytes splits off as its body. */
  lemma WrittenSplits(body: string, rest: string, atEof: bool)
    requires |Written(body)| <= MAX_INT
    ensures SplitFrame(Written(body) + rest, atEof) == Frame(|Written(body)|, body)
  {
    var header := FIELD + Decimal(|body|);
    var data := header + SEPARATOR + (body + rest);
    assert Written(body) + rest == data;
    DecimalIsPlain(|body|, '\r');
    DeclaredField(Decimal(|body|));
    HeaderSplits(header, body + rest, atEof);
    assert data[|header| + 4..|header| + 4 + |body|] == body;
    AfterHeader(data, atEof, |header|, |body|, Some(|body|));
  }

  /** A header line of one's own in front of any bytes. */
  lemma HeaderSplits(header: string, rest: string, atEof: bool)
    requires forall i :: 0 <= i < |header| ==> header[i] != '\r'
    ensures var data := header + SEPARATOR + rest;
      SplitFrame(data, atEof) == FrameAfter(data, atEof, |header|, Declared([header]))
  {
    HeaderEnds(header, rest);
    OneLine(header);
    assert (header + SEPARATOR + rest)[..|header|] == header;
  }

  // ----- The pump -----

  function Translated(bodies: seq<string>, translate: string -> string): seq<string> {
    seq(|bodies|, i requires 0 <= i < |bodies| => translate(bodies[i]))
  }

  /** What the pump writes for one message. */
  function Emit(translate: string -> string): string -> string {
    body => Written(translate(body))
  }

  lemma {:induction false} EmittedIsWritten(bodies: seq<string>, translate: string -> string)
    ensures WrittenAll(Emit(translate), bodies) == WrittenAll(Written, Translated(bodies, translate))
  {
    if bodies != [] {
      EmittedIsWritten(bodies[1..], translate);
      assert Translated(bodies, translate)[1..] == Translated(bodies[1..], translate);
    }
  }

  /** One direction of the proxy: takes each message off what has arrived as soon as it is
      complete, translates it and writes it out. `sent[i]` is the output after the `i`-th
      read: at every moment exactly the complete messages have been forwarded. Whoever
      reads the whole output gets the translations in order. */
  method Pump(chunks: seq<string>, translate: string -> string) returns (out: string, sent: seq<string>, stop: Stop)
    ensures Advances(SplitFrame)
    ensures SentInTime(SplitFrame, Emit(translate), chunks, sent) && (|sent| == |chunks| || stop.Failed?)
    ensures stop == Read(SplitFrame, Concat(chunks)).1
    ensures var bodies := Read(SplitFrame, Concat(chunks)).0; var forwarded := Translated(bodies, translate);
      out == WrittenAll(Emit(translate), bodies) && (AllFit(forwarded) ==> Read(SplitFrame, out) == (forwarded, AtEnd))
  {
    SplitFrameIsStable();
    out, sent, stop := PumpFrames(SplitFrame, Emit(translate), chunks);
    ghost var bodies := Read(SplitFrame, Concat(chunks)).0;
    EmittedIsWritten(bodies, translate);
    if AllFit(Translated(bodies, translate)) {
      WriteThenRead(Translated(bodies, translate));
    }
  }

  /** Each written message is shorter than the largest Go slice. */
  predicate AllFit(bodies: seq<string>) {
    forall i :: 0 <= i < |bodies| ==> |Written(bodies[i])| <= MAX_INT
  }

  /** Splitting what was written yields the bodies that were written, in order, whatever
      bytes they hold; Scanner.Scan shows that chunking does not matter. */
  lemma WriteThenRead(bodies: seq<string>)
    requires AllFit(bodies)
    ensures Advances(SplitFrame) && Stable(SplitFrame)
    ensures Read(SplitFrame, WrittenAll(Written, bodies)) == (bodies, AtEnd)
  {
    SplitFrameIsStable();
    forall i | 0 <= i < |bodies| ensures Undoes(SplitFrame, Written, bodies[i]) {
      WrittenIsUndone(bodies[i]);
    }
    ReadUndoesWrite(SplitFrame, Written, bodies);
  }

  lemma WrittenIsUndone(body: string)
    requires |Written(body)| <= MAX_INT
    ensures Undoes(SplitFrame, Written, body)
  {
    forall rest ensures SplitFrame(Written(body) + rest, true) == Frame(|Written(body)|, body) {
      WrittenSplits(body, rest, true);
    }
  }
}
