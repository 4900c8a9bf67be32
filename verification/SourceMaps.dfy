// Line maps between a Serv file and the Go file generated from it: the map that the
// debugger reads off the generated file (dap/sourcemap.go) and the one that the build
// embeds (cmd_build.go).
module SourceMaps {
  import opened Options
  import opened GoStrings

  const MARKER := "// .srv line "

  /** The Serv line that a generated line announces. */
  function MarkOf(line: string): Option<int> {
    var trimmed := Trim(line);
    if MARKER <= trimmed then Atoi(Trim(trimmed[|MARKER|..])) else None
  }

  /** The comment that the code generator writes is read back, wherever it is indented to. */
  lemma MarkOfWritten(before: string, n: nat, after: string)
    requires n <= MAX_INT && AllSpace(before) && AllSpace(after)
    ensures MarkOf(before + ("// .srv line " + Decimal(n)) + after) == Some(n)
  {
    var digits := Decimal(n);
    DecimalIsPlain(n, ' ');
    LastDigit(n);
    TrimOff(before, MARKER + digits, after);
    assert (MARKER + digits)[|MARKER|..] == digits;
  }

  /** A line that does not begin like it, or goes on with no number, announces nothing. */
  lemma NoMark(line: string, rest: string)
    ensures !("// .srv line " <= Trim(line)) ==> MarkOf(line).None?
    ensures Trim(line) == "// .srv line " + rest && Atoi(Trim(rest)).None? ==> MarkOf(line).None?
  {
    if Trim(line) == MARKER + rest { assert Trim(line)[|MARKER|..] == rest; }
  }

  lemma LastDigit(n: nat)
    ensures Trimmed(MARKER + Decimal(n))
  {
    AtoiUndoesDecimal(n);
    var line := MARKER + Decimal(n);
    assert line[|line| - 1] == Decimal(n)[|Decimal(n)| - 1];
  }

  type Marks = seq<Option<int>>

  /** The marks of a file's lines; line `l`, counted from 1, has mark number `l - 1`. */
  function MarksOf(lines: seq<string>): Marks {
    seq(|lines|, i requires 0 <= i < |lines| => MarkOf(lines[i]))
  }

  function Mark(marks: Marks, l: int): Option<int> {
    if 1 <= l <= |marks| then marks[l - 1] else None
  }

  predicate Announces(marks: Marks, l: int, n: int) {
    Mark(marks, l) == Some(n)
  }

  // ----- The two maps, line by line -----

  /** What the debugger records: a mark counts for its own line and for the next, and a
      later mark overwrites. */
  function GoLines(marks: Marks): map<int, int> {
    if marks == [] then map[]
    else
      var n, before := |marks|, GoLines(marks[..|marks| - 1]);
      if marks[n - 1].Some? then before[n := marks[n - 1].value][n + 1 := marks[n - 1].value] else before
  }

  /** What the build records: the same, but a line keeps the first mark it gets. */
  function BuildLines(marks: Marks): map<int, int> {
    if marks == [] then map[]
    else
      var n, before := |marks|, BuildLines(marks[..|marks| - 1]);
      if marks[n - 1].Some? then Keep(Keep(before, n, marks[n - 1].value), n + 1, marks[n - 1].value) else before
  }

  function Keep(m: map<int, int>, k: int, v: int): map<int, int> {
    if k in m then m else m[k := v]
  }

  /** For each Serv line, the line behind the first mark that announces it. */
  function SrvLines(marks: Marks): map<int, int> {
    if marks == [] then map[]
    else
      var n, before := |marks|, SrvLines(marks[..|marks| - 1]);
      if marks[n - 1].Some? then Keep(before, marks[n - 1].value, n + 1) else before
  }

  lemma MarkNext(marks: Marks, l: int)
    requires marks != []
    ensures Mark(marks, l) == if l == |marks| then marks[l - 1] else Mark(marks[..|marks| - 1], l)
  {
  }

  /** The debugger takes a line for what its own mark says, or else the line before. */
  lemma {:induction false} GoLinesAt(marks: Marks, l: int)
    ensures var m := if Mark(marks, l).Some? then Mark(marks, l) else Mark(marks, l - 1);
      (l in GoLines(marks) <==> m.Some?) && (m.Some? ==> GoLines(marks)[l] == m.value)
  {
    if marks != [] {
      GoLinesAt(marks[..|marks| - 1], l);
      MarkNext(marks, l);
      MarkNext(marks, l - 1);
    }
  }

  /** The build takes it for what the line before says, or else its own mark. */
  lemma {:induction false} BuildLinesAt(marks: Marks, l: int)
    ensures var m := if Mark(marks, l - 1).Some? then Mark(marks, l - 1) else Mark(marks, l);
      (l in BuildLines(marks) <==> m.Some?) && (m.Some? ==> BuildLines(marks)[l] == m.value)
  {
    if marks != [] {
      BuildLinesAt(marks[..|marks| - 1], l);
      MarkNext(marks, l);
      MarkNext(marks, l - 1);
    }
  }

  /** The line behind the first announcement. */
  lemma {:induction false} SrvLinesAt(marks: Marks, n: int)
    ensures n in SrvLines(marks) ==>
      var l := SrvLines(marks)[n] - 1; Announces(marks, l, n) && forall k :: k < l ==> !Announces(marks, k, n)
    ensures n !in SrvLines(marks) ==> forall k :: !Announces(marks, k, n)
  {
    if marks != [] {
      var last, before := |marks|, marks[..|marks| - 1];
      SrvLinesAt(before, n);
      forall l ensures Announces(marks, l, n) <==> Announces(before, l, n) || (l == last && marks[last - 1] == Some(n)) {
        MarkNext(marks, l);
      }
      if n in SrvLines(before) {
        assert Announces(before, SrvLines(before)[n] - 1, n);
      }
    }
  }

  // ----- How they agree -----

  /** The two maps agree exactly when no two lines in a row announce different lines. */
  lemma MapsAgreeIff(marks: Marks)
    ensures GoLines(marks) == BuildLines(marks) <==>
      forall l, n :: Announces(marks, l, n) ==> Mark(marks, l + 1) == None || Mark(marks, l + 1) == Some(n)
  {
    forall l ensures l in GoLines(marks) <==> l in BuildLines(marks) {
      GoLinesAt(marks, l);
      BuildLinesAt(marks, l);
    }
    if GoLines(marks) == BuildLines(marks) {
      forall l, n | Announces(marks, l, n) ensures Mark(marks, l + 1) == None || Mark(marks, l + 1) == Some(n) {
        GoLinesAt(marks, l + 1);
        BuildLinesAt(marks, l + 1);
      }
    }
    if forall l, n :: Announces(marks, l, n) ==> Mark(marks, l + 1) == None || Mark(marks, l + 1) == Some(n) {
      forall l | l in GoLines(marks) ensures GoLines(marks)[l] == BuildLines(marks)[l] {
        GoLinesAt(marks, l);
        BuildLinesAt(marks, l);
        assert forall n :: Announces(marks, l - 1, n) ==> Mark(marks, l) == None || Mark(marks, l) == Some(n);
      }
    }
  }

  /** A Serv line survives the way to the Go file and back exactly when the line behind
      its first announcement announces no other. */
  lemma RoundTripIff(marks: Marks, n: int)
    requires n in SrvLines(marks)
    ensures var g := SrvLines(marks)[n];
      g in GoLines(marks) && (GoLines(marks)[g] == n <==> Mark(marks, g) == None || Mark(marks, g) == Some(n))
  {
    SrvLinesAt(marks, n);
    GoLinesAt(marks, SrvLines(marks)[n]);
  }

  /** Marks on two lines in a row are such a case for both. */
  lemma AdjacentMarksDisagree(a: int, b: int)
    requires a != b
    ensures var marks := [Some(a), Some(b)];
      && GoLines(marks) != BuildLines(marks)
      && a in SrvLines(marks) && SrvLines(marks)[a] in GoLines(marks) && GoLines(marks)[SrvLines(marks)[a]] == b
  {
    var marks := [Some(a), Some(b)];
    assert Announces(marks, 1, a) && Announces(marks, 2, b);
    MapsAgreeIff(marks);
    SrvLinesAt(marks, a);
    GoLinesAt(marks, 2);
  }

  function Abs(x: int): nat {
    if x < 0 then -x else x
  }

  predicate Ascending(s: seq<int>) {
    forall i, j :: 0 <= i < j < |s| ==> s[i] < s[j]
  }

  class SourceMap {
    var goToSrv: map<int, int>
    var srvToGo: map<int, int>
    var sortedGoLines: seq<int>

    ghost predicate Valid()
      reads this
    {
      && Ascending(sortedGoLines)
      && (forall l :: l in sortedGoLines <==> l in goToSrv)
      && (forall l :: l in goToSrv ==> l >= 1)
    }

    lemma FirstLine()
      requires Valid()
      ensures sortedGoLines == [] <==> goToSrv == map[]
      ensures sortedGoLines != [] ==> sortedGoLines[0] in goToSrv
    {
      if sortedGoLines == [] {
        forall l ensures l !in goToSrv {
          assert l !in sortedGoLines;
        }
      } else {
        assert sortedGoLines[0] in sortedGoLines;
      }
    }

    /** ParseSourceMap, on the lines of the generated file. */
    constructor (lines: seq<string>)
      ensures Valid() && goToSrv == GoLines(MarksOf(lines)) && srvToGo == SrvLines(MarksOf(lines))
    {
      goToSrv, srvToGo, sortedGoLines := map[], map[], [];
      new;
      var marks := MarksOf(lines);
      var goLine := 0;
      while goLine < |marks|
        invariant 0 <= goLine <= |marks| && sortedGoLines == []
        invariant goToSrv == GoLines(marks[..goLine]) && srvToGo == SrvLines(marks[..goLine])
      {
        assert marks[..goLine + 1][..goLine] == marks[..goLine];
        goLine := goLine + 1;
        var mark := marks[goLine - 1];
        if mark.Some? {
          goToSrv := goToSrv[goLine := mark.value];
          goToSrv := goToSrv[goLine + 1 := mark.value];
          if mark.value !in srvToGo {
            srvToGo := srvToGo[mark.value := goLine + 1];
          }
        }
      }
      assert marks[..|marks|] == marks;
      forall k | k in goToSrv ensures 1 <= k <= |marks| + 1 {
        GoLinesAt(marks, k);
      }
      SortGoLines(|marks| + 1);
    }

    /** Lists the mapped lines, which are 1 to `n` at most, in ascending order. */
    method SortGoLines(n: nat)
      requires sortedGoLines == [] && forall k :: k in goToSrv ==> 1 <= k <= n
      modifies this`sortedGoLines
      ensures Valid()
    {
      for l := 1 to n + 1
        invariant forall k :: k in sortedGoLines <==> k in goToSrv && k < l
        invariant Ascending(sortedGoLines) && forall k :: 0 <= k < |sortedGoLines| ==> sortedGoLines[k] < l
      {
        if l in goToSrv {
          sortedGoLines := sortedGoLines + [l];
        }
      }
    }

    /** The mapped Go line for a Serv line: the recorded one, or else one whose Serv line
        is nearest. */
    method SrvToGo(srvLine: int) returns (goLine: int, ok: bool)
      requires Valid()
      ensures srvLine in srvToGo ==> ok && goLine == srvToGo[srvLine]
      ensures srvLine !in srvToGo ==> (ok <==> goToSrv != map[])
      ensures srvLine !in srvToGo && ok ==>
        goLine in goToSrv && forall l :: l in goToSrv ==> Abs(goToSrv[goLine] - srvLine) <= Abs(goToSrv[l] - srvLine)
    {
      if srvLine in srvToGo {
        return srvToGo[srvLine], true;
      }
      goLine, ok := NearestGoLine(srvLine);
    }

    /** Of the lines that are nearest, the first. */
    method NearestGoLine(srvLine: int) returns (goLine: int, ok: bool)
      requires Valid()
      ensures ok <==> goToSrv != map[]
      ensures ok ==> goLine in goToSrv
      ensures ok ==> forall l :: l in goToSrv ==>
        Abs(goToSrv[goLine] - srvLine) <= Abs(goToSrv[l] - srvLine)
        && (l < goLine ==> Abs(goToSrv[goLine] - srvLine) < Abs(goToSrv[l] - srvLine))
    {
      FirstLine();
      if |sortedGoLines| == 0 {
        return 0, false;
      }
      var bestGoLine := sortedGoLines[0];
      var bestDiff := Abs(goToSrv[bestGoLine] - srvLine);
      for i := 0 to |sortedGoLines|
        invariant bestGoLine in goToSrv && bestDiff == Abs(goToSrv[bestGoLine] - srvLine)
        invariant i > 0 ==> bestGoLine <= sortedGoLines[i - 1]
        invariant i == 0 ==> bestGoLine == sortedGoLines[0]
        invariant forall k :: 0 <= k < i ==>
          && sortedGoLines[k] in goToSrv
          && bestDiff <= Abs(goToSrv[sortedGoLines[k]] - srvLine)
          && (sortedGoLines[k] < bestGoLine ==> bestDiff < Abs(goToSrv[sortedGoLines[k]] - srvLine))
      {
        var gl := sortedGoLines[i];
        assert gl in goToSrv;
        var diff := Abs(goToSrv[gl] - srvLine);
        if diff < bestDiff {
          bestDiff := diff;
          bestGoLine := gl;
        }
      }
      return bestGoLine, true;
    }

    /** The Serv line for a Go line: that of the greatest mapped line not behind it, or of
        the first mapped line if all are behind it. */
    method GoToSrvApprox(goLine: int) returns (srvLine: int, ok: bool)
      requires Valid()
      ensures ok <==> goToSrv != map[]
      ensures ok ==> exists l ::
        && l in goToSrv && srvLine == goToSrv[l]
        && if l <= goLine then forall k :: k in goToSrv && k <= goLine ==> k <= l
           else forall k :: k in goToSrv ==> l <= k && k > goLine
    {
      if goLine in goToSrv {
        return goToSrv[goLine], true;
      }
      FirstLine();
      if |sortedGoLines| == 0 {
        return 0, false;
      }
      var bestGoLine := -1;
      var i := 0;
      while i < |sortedGoLines| && sortedGoLines[i] <= goLine
        invariant i <= |sortedGoLines|
        invariant i == 0 ==> bestGoLine == -1
        invariant i > 0 ==> bestGoLine == sortedGoLines[i - 1] && bestGoLine <= goLine
      {
        bestGoLine := sortedGoLines[i];
        i := i + 1;
      }
      if bestGoLine != -1 {
        return goToSrv[bestGoLine], true;
      }
      return goToSrv[sortedGoLines[0]], true;
    }
  }

  /** Each line once, in order, none behind `bound`. */
  predicate Ordered(mappings: seq<(int, int)>, bound: int) {
    (forall i, j :: 0 <= i < j < |mappings| ==> mappings[i].0 < mappings[j].0)
    && (forall i :: 0 <= i < |mappings| ==> mappings[i].0 <= bound)
  }

  /** The mappings that the build emits. */
  method BuildMappings(lines: seq<string>) returns (mappings: seq<(int, int)>)
    ensures MapOf(mappings) == BuildLines(MarksOf(lines)) && Ordered(mappings, |lines| + 1)
  {
    var seen: set<int> := {};
    mappings := [];
    var marks := MarksOf(lines);
    for i := 0 to |marks|
      invariant MapOf(mappings) == BuildLines(marks[..i]) && seen == MapOf(mappings).Keys && Ordered(mappings, i + 1)
    {
      assert marks[..i + 1][..i] == marks[..i];
      var mark := marks[i];
      if mark.Some? {
        seen, mappings := EmitOnce(seen, mappings, i + 1, mark.value);
        seen, mappings := EmitOnce(seen, mappings, i + 2, mark.value);
      }
    }
    assert marks[..|marks|] == marks;
  }

  /** Emits a mapping for a line that has none yet. */
  method EmitOnce(seen: set<int>, mappings: seq<(int, int)>, goLine: int, srvLine: int)
    returns (seen': set<int>, mappings': seq<(int, int)>)
    requires seen == MapOf(mappings).Keys && Ordered(mappings, goLine)
    ensures seen' == MapOf(mappings').Keys && MapOf(mappings') == Keep(MapOf(mappings), goLine, srvLine)
    ensures Ordered(mappings', goLine)
  {
    seen', mappings' := seen, mappings;
    if goLine !in seen {
      MapOfNext(mappings, goLine, srvLine);
      forall i | 0 <= i < |mappings| ensures mappings[i].0 in seen {
        MapOfHasAll(mappings, i);
      }
      seen' := seen + {goLine};
      mappings' := mappings + [(goLine, srvLine)];
    }
  }

  function MapOf(mappings: seq<(int, int)>): map<int, int> {
    if mappings == [] then map[]
    else
      var n := |mappings| - 1;
      MapOf(mappings[..n])[mappings[n].0 := mappings[n].1]
  }

  lemma {:induction false} MapOfHasAll(mappings: seq<(int, int)>, i: nat)
    requires i < |mappings|
    ensures mappings[i].0 in MapOf(mappings)
  {
    if i < |mappings| - 1 {
      MapOfHasAll(mappings[..|mappings| - 1], i);
    }
  }

  lemma MapOfNext(mappings: seq<(int, int)>, k: int, v: int)
    ensures MapOf(mappings + [(k, v)]) == MapOf(mappings)[k := v]
  {
    assert (mappings + [(k, v)])[..|mappings|] == mappings;
  }
}
