// A bufio.Scanner with a split function, as the debug adapter proxy uses it: bytes
// arrive in chunks of any size, and the split function is asked again whenever there
// are more. A `char` stands for one byte.
module Scanner {

  /** What a split function says about the bytes at hand. */
  datatype Split =
    | NeedMore
    | Frame(advance: nat, body: string)
    | Invalid  // the bytes are malformed
    | Truncated  // the stream ends in the middle of a frame
    | Panic

  /** Of `data`, and whether the stream ends behind it. */
  type SplitFunc = (string, bool) -> Split

  datatype Stop = AtEnd | Failed(reason: Split)

  /** A frame is taken off the front; asked at the end of the stream, the function decides
      unless nothing is left. */
  ghost predicate Advances(split: SplitFunc) {
    && (forall data, atEof :: var r := split(data, atEof); r.Frame? ==> 0 < r.advance <= |data|)
    && (forall data :: split(data, true).NeedMore? <==> data == "")
  }

  /** What is decided, more bytes and the end of the stream leave alone. */
  ghost predicate Stable(split: SplitFunc) {
    forall data, more, atEof ::
      split(data, false).NeedMore? || split(data + more, atEof) == split(data, false)
  }

  /** The bodies in a whole stream, and why reading it stops. */
  function Read(split: SplitFunc, data: string): (seq<string>, Stop)
    requires Advances(split)
    decreases |data|
  {
    var r := split(data, true);
    if r.NeedMore? then ([], AtEnd)
    else if r.Frame? then
      var later := Read(split, data[r.advance..]);
      ([r.body] + later.0, later.1)
    else ([], Failed(r))
  }

  function Concat(chunks: seq<string>): string {
    if chunks == [] then [] else chunks[0] + Concat(chunks[1..])
  }

  /** Reading `data` gives `bodies` first, and then what reading `rest` gives. */
  ghost predicate ReadsAs(split: SplitFunc, data: string, bodies: seq<string>, rest: string)
    requires Advances(split)
  {
    Read(split, data) == (bodies + Read(split, rest).0, Read(split, rest).1)
  }

  lemma ReadsAsNext(split: SplitFunc, data: string, bodies: seq<string>, buffer: string, ahead: string, atEof: bool)
    requires Advances(split) && Stable(split)
    requires ReadsAs(split, data, bodies, buffer + ahead) && (atEof ==> ahead == "")
    ensures var r := split(buffer, atEof);
      if r.NeedMore? then atEof ==> Read(split, data) == (bodies, AtEnd)
      else if r.Frame? then ReadsAs(split, data, bodies + [r.body], buffer[r.advance..] + ahead)
      else Read(split, data) == (bodies, Failed(r))
  {
    var r := split(buffer, atEof);
    var none: seq<string> := [];
    assert bodies + none == bodies;
    if atEof {
      assert buffer + ahead == buffer;
    }
    if r.Frame? {
      assert split(buffer + ahead, true) == r;
      assert (buffer + ahead)[r.advance..] == buffer[r.advance..] + ahead;
      var later := Read(split, buffer[r.advance..] + ahead).0;
      assert bodies + ([r.body] + later) == bodies + [r.body] + later;
    }
  }

  /** The scanner's loop over a stream that arrives in `chunks`: with a stable split
      function, what it yields depends on their concatenation alone. */
  method Scan(split: SplitFunc, chunks: seq<string>) returns (bodies: seq<string>, stop: Stop)
    requires Advances(split) && Stable(split)
    ensures (bodies, stop) == Read(split, Concat(chunks))
  {
    ghost var data := Concat(chunks);
    var buffer, i, atEof := "", 0, false;
    bodies := [];
    assert "" + Concat(chunks[0..]) == data;
    assert bodies + Read(split, data).0 == Read(split, data).0;
    while true
      invariant i <= |chunks| && (atEof ==> i == |chunks|)
      invariant ReadsAs(split, data, bodies, buffer + Concat(chunks[i..]))
      decreases |chunks| - i, |buffer|, !atEof
    {
      ReadsAsNext(split, data, bodies, buffer, Concat(chunks[i..]), atEof);
      var r := split(buffer, atEof);
      match r {
        case Frame(advance, body) =>
          bodies := bodies + [body];
          buffer := buffer[advance..];
        case NeedMore =>
          if atEof {
            return bodies, AtEnd;
          }
          if i < |chunks| {
            assert buffer + Concat(chunks[i..]) == buffer + chunks[i] + Concat(chunks[i + 1..]);
            buffer, i := buffer + chunks[i], i + 1;
          } else {
            atEof := true;
          }
        case _ =>
          return bodies, Failed(r);
      }
    }
  }

  // ----- A live stream -----

  /** The bodies that can be taken off `data` one after the other, and what is left. Without
      `atEof` these are the messages that are complete although the stream goes on. */
  function Taken(split: SplitFunc, data: string, atEof: bool): (seq<string>, string)
    requires Advances(split)
    decreases |data|
  {
    var r := split(data, atEof);
    if r.Frame? then
      var later := Taken(split, data[r.advance..], atEof);
      ([r.body] + later.0, later.1)
    else ([], data)
  }

  /** More bytes add to what was taken, and take nothing back. */
  lemma {:induction false} TakenGrows(split: SplitFunc, data: string, more: string, atEof: bool)
    requires Advances(split) && Stable(split)
    ensures var now := Taken(split, data, false); var later := Taken(split, now.1 + more, atEof);
      Taken(split, data + more, atEof) == (now.0 + later.0, later.1)
    decreases |data|
  {
    var r := split(data, false);
    if r.Frame? {
      var rest := data[r.advance..];
      assert split(data + more, atEof) == r;
      assert (data + more)[r.advance..] == rest + more;
      TakenGrows(split, rest, more, atEof);
      var now, later := Taken(split, rest, false).0, Taken(split, Taken(split, rest, false).1 + more, atEof).0;
      assert [r.body] + now + later == [r.body] + (now + later);
    } else {
      var none, later: seq<string> := [], Taken(split, data + more, atEof).0;
      assert none + later == later;
    }
  }

  /** Reading a whole stream takes what can be taken and stops for what is left. */
  lemma {:induction false} ReadIsTaken(split: SplitFunc, data: string)
    requires Advances(split)
    ensures var all := Taken(split, data, true); var r := split(all.1, true);
      !r.Frame? && Read(split, data) == (all.0, if r.NeedMore? then AtEnd else Failed(r))
    decreases |data|
  {
    var r := split(data, true);
    if r.Frame? {
      ReadIsTaken(split, data[r.advance..]);
    }
  }

  // ----- Writing -----

  function WrittenAll(write: string -> string, bodies: seq<string>): string {
    if bodies == [] then "" else write(bodies[0]) + WrittenAll(write, bodies[1..])
  }

  /** The split function takes what `write` made of `body` off the front of any bytes. */
  ghost predicate Undoes(split: SplitFunc, write: string -> string, body: string) {
    forall rest :: split(write(body) + rest, true) == Frame(|write(body)|, body)
  }

  /** Then reading undoes writing. */
  lemma {:induction false} ReadUndoesWrite(split: SplitFunc, write: string -> string, bodies: seq<string>)
    requires Advances(split) && forall i :: 0 <= i < |bodies| ==> Undoes(split, write, bodies[i])
    ensures Read(split, WrittenAll(write, bodies)) == (bodies, AtEnd)
  {
    if bodies != [] {
      var first := write(bodies[0]);
      var later := WrittenAll(write, bodies[1..]);
      assert split(first + later, true) == Frame(|first|, bodies[0]);
      assert (first + later)[|first|..] == later;
      ReadUndoesWrite(split, write, bodies[1..]);
      assert [bodies[0]] + bodies[1..] == bodies;
    }
  }

  lemma {:induction false} WrittenAllConcat(write: string -> string, a: seq<string>, b: seq<string>)
    ensures WrittenAll(write, a + b) == WrittenAll(write, a) + WrittenAll(write, b)
  {
    if a == [] {
      assert a + b == b;
    } else {
      assert (a + b)[1..] == a[1..] + b;
      WrittenAllConcat(write, a[1..], b);
    }
  }

  lemma {:induction false} ConcatNext(chunks: seq<string>, i: nat)
    requires i < |chunks|
    ensures Concat(chunks[..i + 1]) == Concat(chunks[..i]) + chunks[i]
  {
    if i == 0 {
      assert chunks[..1][1..] == [];
    } else {
      assert chunks[..i + 1][1..] == chunks[1..][..i] && chunks[..i][1..] == chunks[1..][..i - 1];
      ConcatNext(chunks[1..], i - 1);
    }
  }

  lemma {:induction false} ConcatSplit(chunks: seq<string>, i: nat)
    requires i <= |chunks|
    ensures Concat(chunks) == Concat(chunks[..i]) + Concat(chunks[i..])
  {
    if i > 0 {
      ConcatSplit(chunks[1..], i - 1);
      assert chunks[..i][1..] == chunks[1..][..i - 1] && chunks[1..][i - 1..] == chunks[i..];
    }
  }

  /** What is left is told by any function that skips frames as the split function does. */
  lemma {:induction false} RestIsSkipped(split: SplitFunc, skip: string -> string, max: nat, data: string)
    requires Advances(split) && |data| <= max
    requires forall d: string :: |d| <= max ==>
      skip(d) == if split(d, true).Frame? then skip(d[split(d, true).advance..]) else d
    ensures Taken(split, data, true).1 == skip(data)
    decreases |data|
  {
    var r := split(data, true);
    if r.Frame? {
      RestIsSkipped(split, skip, max, data[r.advance..]);
    }
  }

  // ----- The pump -----

  /** After the bytes `data` the pump has written `out` and holds `buffer`. */
  ghost predicate Reached(split: SplitFunc, emit: string -> string, data: string, out: string, buffer: string)
    requires Advances(split)
  {
    out == WrittenAll(emit, Taken(split, data, false).0) && buffer == Taken(split, data, false).1
  }

  /** After each read the complete messages had been written. */
  ghost predicate SentInTime(split: SplitFunc, emit: string -> string, chunks: seq<string>, sent: seq<string>)
    requires Advances(split)
  {
    |sent| <= |chunks| && forall i :: 0 <= i < |sent| ==>
      sent[i] == WrittenAll(emit, Taken(split, Concat(chunks[..i + 1]), false).0)
  }

  /** Takes each message off what has arrived as soon as it is complete, and writes what
      `emit` makes of it. `sent[i]` is the output after the `i`-th read: at every moment
      exactly the complete messages have been written. */
  method PumpFrames(split: SplitFunc, emit: string -> string, chunks: seq<string>)
    returns (out: string, sent: seq<string>, stop: Stop)
    requires Advances(split) && Stable(split)
    ensures SentInTime(split, emit, chunks, sent) && (|sent| == |chunks| || stop.Failed?)
    ensures stop == Read(split, Concat(chunks)).1 && out == WrittenAll(emit, Read(split, Concat(chunks)).0)
  {
    var buffer, written, r := "", "", NeedMore;
    out, sent := "", [];
    for i := 0 to |chunks|
      invariant |sent| == i && Reached(split, emit, Concat(chunks[..i]), out, buffer)
      invariant SentInTime(split, emit, chunks, sent)
    {
      ConcatNext(chunks, i);
      TakeMore(split, emit, Concat(chunks[..i]), chunks[i], false, out, buffer);
      written, buffer, r := Drain(split, emit, buffer + chunks[i], false);
      out := out + written;
      sent := sent + [out];
      if !r.NeedMore? {
        ConcatSplit(chunks, i + 1);
        FailureStays(split, emit, Concat(chunks[..i + 1]), Concat(chunks[i + 1..]), out, buffer);
        return out, sent, Failed(r);
      }
    }
    assert chunks[..|chunks|] == chunks;
    var data := Concat(chunks);
    TakeMore(split, emit, data, "", true, out, buffer);
    assert data + "" == data && buffer + "" == buffer;
    ReadIsTaken(split, data);
    written, buffer, r := Drain(split, emit, buffer, true);
    out := out + written;
    stop := if r.NeedMore? then AtEnd else Failed(r);
  }

  /** Takes every message that is complete off the buffer and writes it. */
  method Drain(split: SplitFunc, emit: string -> string, buffer: string, atEof: bool)
    returns (written: string, rest: string, r: Split)
    requires Advances(split)
    ensures written == WrittenAll(emit, Taken(split, buffer, atEof).0)
    ensures rest == Taken(split, buffer, atEof).1 && r == split(rest, atEof) && !r.Frame?
  {
    written, rest := "", buffer;
    r := split(rest, atEof);
    while r.Frame?
      invariant r == split(rest, atEof)
      invariant Taken(split, buffer, atEof).1 == Taken(split, rest, atEof).1
      invariant WrittenAll(emit, Taken(split, buffer, atEof).0) == written + WrittenAll(emit, Taken(split, rest, atEof).0)
      decreases |rest|
    {
      ghost var later := Taken(split, rest[r.advance..], atEof).0;
      assert ([r.body] + later)[1..] == later;
      written := written + emit(r.body);
      rest := rest[r.advance..];
      r := split(rest, atEof);
    }
  }

  lemma TakeMore(split: SplitFunc, emit: string -> string, data: string, more: string, atEof: bool, out: string, buffer: string)
    requires Advances(split) && Stable(split) && Reached(split, emit, data, out, buffer)
    ensures var next := Taken(split, buffer + more, atEof);
      WrittenAll(emit, Taken(split, data + more, atEof).0) == out + WrittenAll(emit, next.0)
      && Taken(split, data + more, atEof).1 == next.1
  {
    TakenGrows(split, data, more, atEof);
    WrittenAllConcat(emit, Taken(split, data, false).0, Taken(split, buffer + more, atEof).0);
  }

  /** Nothing behind malformed bytes is read. */
  lemma FailureStays(split: SplitFunc, emit: string -> string, data: string, more: string, out: string, buffer: string)
    requires Advances(split) && Stable(split) && Reached(split, emit, data, out, buffer)
    requires !split(buffer, false).Frame? && !split(buffer, false).NeedMore?
    ensures Read(split, data + more).1 == Failed(split(buffer, false))
    ensures out == WrittenAll(emit, Read(split, data + more).0)
  {
    TakenGrows(split, data, more, true);
    ReadIsTaken(split, data + more);
    assert split(buffer + more, true) == split(buffer, false);
    var none: seq<string> := [];
    assert Taken(split, data, false).0 + none == Taken(split, data, false).0;
  }
}
