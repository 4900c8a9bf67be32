// What a file takes over from the files that it imports: the merging half of
// parseWithDependencies (cmd_build.go), on an abstract file system. A plain import lets
// through the statements without a name and the exported ones, a wildcard everything.
// Files are met in the order of the imports, and only the first import of a file finds
// its statements; what has been merged is described by the links followed so far, and
// each further link adds to it.
module ImportedStatements {
  import opened Graphs

  /** A top-level statement of a source file. Import paths are resolved already and
      wildcards expanded; the name is empty for a statement that declares none. */
  datatype Decl =
    | Import(target: string, names: seq<string>)
    | WildcardImport(matches: seq<string>)
    | Item(name: string, exported: bool)

  datatype File = Malformed | Parsed(decls: seq<Decl>)

  /** The files that can be read. */
  type FileSystem = map<string, File>

  /** A statement of the merged program: the `index`-th statement of `file`, with its
      `export` still around it or taken off. */
  datatype Statement = Statement(file: string, index: nat, name: string, exported: bool)

  datatype Error =
    | Circular(file: string)
    | CannotRead(file: string)
    | CannotParse(file: string)
    | NoMatch(file: string)
    | Undefined(name: string)
    | NotExported(name: string)

  datatype Result = Ok(statements: seq<Statement>) | Err(error: Error)

  function TargetsOf(d: Decl): seq<string> {
    match d
    case Import(target, _) => [target]
    case WildcardImport(matches) => matches
    case Item(_, _) => []
  }

  function Targets(decls: seq<Decl>): seq<string> {
    if decls == [] then [] else TargetsOf(decls[0]) + Targets(decls[1..])
  }

  lemma {:induction false} TargetsNext(decls: seq<Decl>, i: nat)
    requires i < |decls|
    ensures Targets(decls[..i + 1]) == Targets(decls[..i]) + TargetsOf(decls[i])
  {
    if i > 0 {
      assert decls[..i + 1][1..] == decls[1..][..i] && decls[..i][1..] == decls[1..][..i - 1];
      TargetsNext(decls[1..], i - 1);
    } else {
      assert decls[..1][1..] == [];
    }
  }

  lemma ReadFrom(files: seq<string>, n: nat)
    requires n < |files|
    ensures files[n..] == [files[n]] + files[n + 1..]
  {
  }

  lemma ReadOn(before: seq<string>, files: seq<string>, n: nat)
    requires before <= files && n <= |before|
    ensures files == before + files[|before|..] && files[n..] == before[n..] + files[|before|..]
  {
  }

  lemma {:induction false} DeclTargetIsEdge(decls: seq<Decl>, k: nat, f: string)
    requires k < |decls| && f in TargetsOf(decls[k])
    ensures f in Targets(decls)
  {
    if k > 0 {
      DeclTargetIsEdge(decls[1..], k - 1, f);
    }
  }

  /** Which file imports which. */
  function ImportGraph(fs: FileSystem): Graph {
    map f | f in fs :: if fs[f].Parsed? then Targets(fs[f].decls) else []
  }

  ghost predicate Reaches(g: Graph, u: string, v: string) {
    exists w :: w != [] && w[0] == u && w[|w| - 1] == v && Walk(g, w)
  }

  /** No import cycle can be reached from `file`. */
  ghost predicate AcyclicFrom(g: Graph, file: string) {
    forall p :: ClosedWalk(g, p) ==> !Reaches(g, file, p[0])
  }

  /** Where the path to `file` begins. */
  function Root(path: seq<string>, file: string): string {
    if path == [] then file else path[0]
  }

  lemma ReachedAlong(g: Graph, path: seq<string>, file: string)
    requires Walk(g, path + [file])
    ensures Reaches(g, Root(path, file), file)
  {
    var w := path + [file];
    assert w[0] == Root(path, file) && w[|w| - 1] == file;
  }

  // ----- Merging -----

  /** What an import takes over: everything that declares no name, and what is exported. */
  function Visible(sub: seq<Statement>): seq<Statement> {
    if sub == [] then []
    else
      var s := sub[|sub| - 1];
      Visible(sub[..|sub| - 1]) + if s.name == "" || s.exported then [Bare(s)] else []
  }

  /** A wildcard import takes over everything, without any `export`. */
  function Unwrapped(sub: seq<Statement>): seq<Statement> {
    seq(|sub|, i requires 0 <= i < |sub| => sub[i].(exported := false))
  }

  function Bare(s: Statement): Statement {
    if s.name == "" then s else s.(exported := false)
  }

  predicate SameOrigin(s: Statement, t: Statement) {
    s.file == t.file && s.index == t.index
  }

  /** No statement occurs twice. */
  predicate Distinct(ss: seq<Statement>) {
    forall i, j :: 0 <= i < j < |ss| ==> !SameOrigin(ss[i], ss[j])
  }

  /** Every statement of `ss` comes from `from`. */
  predicate PartOf(ss: seq<Statement>, from: seq<Statement>) {
    forall i :: 0 <= i < |ss| ==> StemsFrom(ss[i], from)
  }

  predicate StemsFrom(s: Statement, from: seq<Statement>) {
    exists j :: 0 <= j < |from| && SameOrigin(s, from[j])
  }

  lemma {:induction false} VisibleIsPart(sub: seq<Statement>)
    requires Distinct(sub)
    ensures Distinct(Visible(sub)) && PartOf(Visible(sub), sub)
  {
    if sub != [] {
      var n := |sub| - 1;
      VisibleIsPart(sub[..n]);
      var before, after := Visible(sub[..n]), Visible(sub);
      forall i | 0 <= i < |before| ensures StemsFrom(after[i], sub) {
        assert after[i] == before[i];
        var j :| 0 <= j < n && SameOrigin(before[i], sub[..n][j]);
        assert SameOrigin(after[i], sub[j]);
      }
      if |after| > |before| {
        assert SameOrigin(after[|before|], sub[n]);
      }
    }
  }

  lemma UnwrappedIsPart(sub: seq<Statement>)
    requires Distinct(sub)
    ensures Distinct(Unwrapped(sub)) && PartOf(Unwrapped(sub), sub)
  {
    forall i | 0 <= i < |sub| ensures StemsFrom(Unwrapped(sub)[i], sub) {
      assert SameOrigin(Unwrapped(sub)[i], sub[i]);
    }
  }

  /** An import takes over what declares no name and what is exported, bare, and in order. */
  lemma VisibleAre(a: seq<Statement>, s: Statement, b: seq<Statement>)
    ensures Visible(a + [s] + b) ==
      Visible(a) + (if s.name == "" || s.exported then [s.(exported := s.name == "" && s.exported)] else []) + Visible(b)
  {
    VisibleConcat(a + [s], b);
    VisibleConcat(a, [s]);
    assert [s][..0] == [];
    assert Visible([s]) == if s.name == "" || s.exported then [Bare(s)] else [];
  }

  lemma {:induction false} VisibleConcat(a: seq<Statement>, b: seq<Statement>)
    ensures Visible(a + b) == Visible(a) + Visible(b)
  {
    if b == [] {
      assert a + b == a;
    } else {
      var n := |b| - 1;
      VisibleConcat(a, b[..n]);
      assert (a + b)[..|a| + n] == a + b[..n];
    }
  }

  /** A named statement that an import has taken over is not taken over again from there:
      only what declares no name passes through two imports. */
  lemma {:induction false} ReexportsDropped(sub: seq<Statement>)
    requires forall i :: 0 <= i < |sub| ==> sub[i] == Bare(sub[i])
    ensures Visible(sub) == Unnamed(sub)
  {
    if sub != [] {
      ReexportsDropped(sub[..|sub| - 1]);
    }
  }

  function Unnamed(sub: seq<Statement>): seq<Statement> {
    if sub == [] then []
    else Unnamed(sub[..|sub| - 1]) + if sub[|sub| - 1].name == "" then [sub[|sub| - 1]] else []
  }

  /** The statements of `file` itself that its declarations make. */
  function OwnItems(file: string, decls: seq<Decl>): seq<Statement> {
    if decls == [] then []
    else
      var n := |decls| - 1;
      OwnItems(file, decls[..n]) + if decls[n].Item? then [Statement(file, n, decls[n].name, decls[n].exported)] else []
  }

  lemma OwnItemsNext(file: string, decls: seq<Decl>, i: nat)
    requires i < |decls|
    ensures OwnItems(file, decls[..i + 1]) ==
      OwnItems(file, decls[..i]) + if decls[i].Item? then [Statement(file, i, decls[i].name, decls[i].exported)] else []
  {
    assert decls[..i + 1][..i] == decls[..i];
  }

  /** The statements of `file` among `ss`. */
  function Own(ss: seq<Statement>, file: string): seq<Statement> {
    if ss == [] then []
    else
      var n := |ss| - 1;
      Own(ss[..n], file) + if ss[n].file == file then [ss[n]] else []
  }

  /** Statements of other files have their `export` taken off. */
  predicate OthersBare(ss: seq<Statement>, file: string) {
    forall i :: 0 <= i < |ss| && ss[i].file != file ==> ss[i] == Bare(ss[i])
  }

  lemma {:induction false} OwnJoined(ss: seq<Statement>, added: seq<Statement>, file: string)
    requires forall i :: 0 <= i < |added| ==> added[i].file != file
    ensures Own(ss + added, file) == Own(ss, file)
  {
    if added == [] {
      assert ss + added == ss;
    } else {
      var n := |added| - 1;
      OwnJoined(ss, added[..n], file);
      assert (ss + added)[..|ss| + n] == ss + added[..n];
    }
  }

  lemma {:induction false} VisibleBare(sub: seq<Statement>)
    ensures forall i :: 0 <= i < |Visible(sub)| ==> Visible(sub)[i] == Bare(Visible(sub)[i])
  {
    if sub != [] {
      VisibleBare(sub[..|sub| - 1]);
    }
  }

  predicate Defines(sub: seq<Statement>, name: string) {
    name != "" && exists i :: 0 <= i < |sub| && sub[i].name == name
  }

  predicate Exports(sub: seq<Statement>, name: string) {
    name != "" && exists i :: 0 <= i < |sub| && sub[i].name == name && sub[i].exported
  }

  /** What is wrong with importing `name` from `sub`. */
  function NameError(sub: seq<Statement>, name: string): Error {
    if Defines(sub, name) then NotExported(name) else Undefined(name)
  }

  predicate FailsFirst(names: seq<string>, sub: seq<Statement>, i: nat) {
    i < |names| && !Exports(sub, names[i]) && forall j :: 0 <= j < i ==> Exports(sub, names[j])
  }

  /** The error of the first name of a selective import that is not exported, if any. */
  function FirstBadName(names: seq<string>, sub: seq<Statement>): (e: seq<Error>)
    ensures e == [] <==> forall i :: 0 <= i < |names| ==> Exports(sub, names[i])
    ensures e != [] ==> exists i: nat :: FailsFirst(names, sub, i) && e == [NameError(sub, names[i])]
  {
    if names == [] then []
    else if !Defines(sub, names[0]) then
      assert FailsFirst(names, sub, 0);
      [Undefined(names[0])]
    else if !Exports(sub, names[0]) then
      assert FailsFirst(names, sub, 0);
      [NotExported(names[0])]
    else
      assert forall i: nat :: FailsFirst(names[1..], sub, i) ==> FailsFirst(names, sub, i + 1);
      FirstBadName(names[1..], sub)
  }

  // ----- The merged statements -----

  predicate NoDuplicates(files: seq<string>) {
    forall i, j :: 0 <= i < j < |files| ==> files[i] != files[j]
  }

  /** `ss` holds no statement twice, and only statements of `files`. */
  ghost predicate FromFiles(ss: seq<Statement>, files: seq<string>) {
    Distinct(ss) && forall i :: 0 <= i < |ss| ==> ss[i].file in files
  }

  /** What an import of `sub` adds to the merged statements. */
  predicate TakenFrom(added: seq<Statement>, sub: seq<Statement>) {
    Distinct(added) && PartOf(added, sub)
  }

  /** `merged` is what the first `i` statements of `file` contribute: statements of
      `files`, none twice, those of `file` itself being `own`, all others bare. */
  ghost predicate Content(merged: seq<Statement>, files: seq<string>, file: string, i: nat, own: seq<Statement>) {
    var content :=
      && FromFiles(merged, files)
      && OthersBare(merged, file)
      && (forall k :: 0 <= k < |merged| && merged[k].file == file ==> merged[k].index < i)
      && Own(merged, file) == own;
    content
  }

  /** Statements of the files read between `before` and `read` join those of the
      files read from number `n` on. */
  lemma JoinImported(ss: seq<Statement>, before: seq<string>, read: seq<string>, n: nat, added: seq<Statement>, sub: seq<Statement>,
                     i: nat, own: seq<Statement>)
    requires n < |before| && before <= read && NoDuplicates(read)
    requires Content(ss, before[n..], before[n], i, own)
    requires FromFiles(sub, read[|before|..]) && TakenFrom(added, sub)
    requires forall k :: 0 <= k < |added| ==> added[k] == Bare(added[k])
    ensures Content(ss + added, read[n..], before[n], i, own)
  {
    forall k | 0 <= k < |added| ensures added[k].file in read[|before|..] {
      assert StemsFrom(added[k], sub);
      var j :| 0 <= j < |sub| && SameOrigin(added[k], sub[j]);
    }
    forall f | f in read[|before|..] ensures f !in before && f in read[n..] {
      var j :| |before| <= j < |read| && read[j] == f;
      assert read[n..][j - n] == f;
    }
    forall f | f in before[n..] ensures f in read[n..] {
      var j :| n <= j < |before| && before[j] == f;
      assert read[n..][j - n] == f;
    }
    forall j, k | 0 <= j < k < |ss + added| ensures !SameOrigin((ss + added)[j], (ss + added)[k]) {
      if j < |ss| <= k {
        assert ss[j].file in before && added[k - |ss|].file !in before;
      }
    }
    OwnJoined(ss, added, before[n]);
  }

  /** What an import, wildcard or not, takes over. */
  function Taken(sub: seq<Statement>, wildcard: bool): seq<Statement> {
    if wildcard then Unwrapped(sub) else Visible(sub)
  }

  /** Either way of taking over an imported program fits. */
  lemma TakeOver(ss: seq<Statement>, before: seq<string>, read: seq<string>, n: nat, sub: seq<Statement>, wildcard: bool,
                 i: nat, own: seq<Statement>)
    requires n < |before| && before <= read && NoDuplicates(read)
    requires Content(ss, before[n..], before[n], i, own) && FromFiles(sub, read[|before|..])
    ensures Content(ss + Taken(sub, wildcard), read[n..], before[n], i, own)
  {
    if wildcard {
      UnwrappedIsPart(sub);
    } else {
      VisibleIsPart(sub);
      VisibleBare(sub);
    }
    JoinImported(ss, before, read, n, Taken(sub, wildcard), sub, i, own);
  }

  // ----- What every import contributes -----

  /** The files that the statements import, in order, and whether by a wildcard. */
  function Links(decls: seq<Decl>): seq<(string, bool)> {
    if decls == [] then []
    else
      var n := |decls| - 1;
      Links(decls[..n]) + LinksOf(decls[n])
  }

  function LinksOf(d: Decl): seq<(string, bool)> {
    match d
    case Import(target, _) => [(target, false)]
    case WildcardImport(matches) => Matched(matches)
    case Item(_, _) => []
  }

  function Matched(matches: seq<string>): (r: seq<(string, bool)>)
    ensures |r| == |matches|
  {
    if matches == [] then [] else Matched(matches[..|matches| - 1]) + [(matches[|matches| - 1], true)]
  }

  lemma LinksNext(decls: seq<Decl>, i: nat)
    requires i < |decls|
    ensures Links(decls[..i + 1]) == Links(decls[..i]) + LinksOf(decls[i])
  {
    assert decls[..i + 1][..i] == decls[..i];
  }

  lemma MatchedNext(matches: seq<string>, j: nat)
    requires j < |matches|
    ensures Matched(matches[..j + 1]) == Matched(matches[..j]) + [(matches[j], true)]
  {
    assert matches[..j + 1][..j] == matches[..j];
  }

  lemma LinksMatched(links: seq<(string, bool)>, matches: seq<string>, j: nat)
    requires j < |matches|
    ensures links + Matched(matches[..j + 1]) == links + Matched(matches[..j]) + [(matches[j], true)]
  {
    MatchedNext(matches, j);
  }

  /** The statements of a file that an import of it takes over: all of them behind a
      wildcard, else those without a name and the exported ones. A name stands without
      its `export`. */
  function Kept(file: string, decls: seq<Decl>, wildcard: bool): seq<Statement> {
    if decls == [] then []
    else
      var n, d := |decls| - 1, decls[|decls| - 1];
      Kept(file, decls[..n], wildcard) +
      if d.Item? && (wildcard || d.name == "" || d.exported)
      then [Statement(file, n, d.name, d.name == "" && d.exported && !wildcard)] else []
  }

  /** These statements, each once and in order. */
  lemma {:induction false} KeptAre(file: string, decls: seq<Decl>, wildcard: bool)
    ensures forall s :: s in Kept(file, decls, wildcard) <==>
      && s.file == file && s.index < |decls| && decls[s.index].Item? && s.name == decls[s.index].name
      && (wildcard || s.name == "" || decls[s.index].exported)
      && s.exported == (s.name == "" && decls[s.index].exported && !wildcard)
    ensures forall i, j :: 0 <= i < j < |Kept(file, decls, wildcard)| ==>
      Kept(file, decls, wildcard)[i].index < Kept(file, decls, wildcard)[j].index
  {
    if decls != [] {
      var n := |decls| - 1;
      KeptAre(file, decls[..n], wildcard);
      var before := Kept(file, decls[..n], wildcard);
      forall i | 0 <= i < |before| ensures before[i].index < n {
        assert before[i] in before;
      }
    }
  }

  lemma {:induction false} OwnConcat(a: seq<Statement>, b: seq<Statement>, file: string)
    ensures Own(a + b, file) == Own(a, file) + Own(b, file)
  {
    if b == [] {
      assert a + b == a;
    } else {
      var n := |b| - 1;
      OwnConcat(a, b[..n], file);
      assert (a + b)[..|a| + n] == a + b[..n];
    }
  }

  lemma TakenConcat(a: seq<Statement>, b: seq<Statement>, wildcard: bool)
    ensures Taken(a + b, wildcard) == Taken(a, wildcard) + Taken(b, wildcard)
  {
    VisibleConcat(a, b);
  }

  lemma TakenOne(s: Statement, wildcard: bool)
    ensures Taken([s], wildcard) ==
            if wildcard || s.name == "" || s.exported then [s.(exported := s.name == "" && s.exported && !wildcard)] else []
  {
    assert [s][..0] == [];
    assert Visible([s]) == if s.name == "" || s.exported then [Bare(s)] else [];
  }

  lemma OwnOfOne(s: Statement, file: string)
    ensures Own([s], file) == if s.file == file then [s] else []
  {
    assert [s][..0] == [];
  }

  lemma {:induction false} OwnTaken(sub: seq<Statement>, file: string, wildcard: bool)
    ensures Own(Taken(sub, wildcard), file) == Taken(Own(sub, file), wildcard)
  {
    if sub != [] {
      var n := |sub| - 1;
      var s := sub[n];
      OwnTaken(sub[..n], file, wildcard);
      assert sub == sub[..n] + [s];
      TakenConcat(sub[..n], [s], wildcard);
      OwnConcat(Taken(sub[..n], wildcard), Taken([s], wildcard), file);
      TakenConcat(Own(sub[..n], file), Own([s], file), wildcard);
      OwnConcat(sub[..n], [s], file);
      OwnOfOne(s, file);
      TakenOne(s, wildcard);
      OwnOfOne(s.(exported := s.name == "" && s.exported && !wildcard), file);
    }
  }

  lemma {:induction false} ItemsTaken(file: string, decls: seq<Decl>, wildcard: bool)
    ensures Taken(OwnItems(file, decls), wildcard) == Kept(file, decls, wildcard)
  {
    if decls != [] {
      var n, d := |decls| - 1, decls[|decls| - 1];
      ItemsTaken(file, decls[..n], wildcard);
      if d.Item? {
        var s := Statement(file, n, d.name, d.exported);
        TakenConcat(OwnItems(file, decls[..n]), [s], wildcard);
        TakenOne(s, wildcard);
      } else {
        assert OwnItems(file, decls) == OwnItems(file, decls[..n]);
      }
    }
  }

  /** What is taken over of the imported file's own statements. */
  lemma OwnOfTaken(sub: seq<Statement>, file: string, decls: seq<Decl>, wildcard: bool)
    requires Own(sub, file) == OwnItems(file, decls)
    ensures Own(Taken(sub, wildcard), file) == Kept(file, decls, wildcard)
  {
    OwnTaken(sub, file, wildcard);
    ItemsTaken(file, decls, wildcard);
  }

  /** The file behind link `p` was not visited at first and cannot be reached from the
      files behind earlier links. */
  ghost predicate New(fs: FileSystem, links: seq<(string, bool)>, visited0: set<string>, p: nat)
    requires p < |links|
  {
    links[p].0 !in visited0 && forall q :: 0 <= q < p ==> !Reaches(ImportGraph(fs), links[q].0, links[p].0)
  }

  /** Of the file behind each new link exactly those statements are in `ss`, in order. */
  ghost predicate TakesOver(fs: FileSystem, links: seq<(string, bool)>, visited0: set<string>, ss: seq<Statement>) {
    forall p :: 0 <= p < |links| && New(fs, links, visited0, p) ==>
      links[p].0 in fs && fs[links[p].0].Parsed? && Own(ss, links[p].0) == Kept(links[p].0, fs[links[p].0].decls, links[p].1)
  }

  /** What has been visited since can be reached over the links. */
  ghost predicate VisitedBy(fs: FileSystem, links: seq<(string, bool)>, visited0: set<string>, visited: set<string>) {
    forall f :: f in visited && f !in visited0 ==> exists p :: 0 <= p < |links| && Reaches(ImportGraph(fs), links[p].0, f)
  }

  function SetOf(files: seq<string>): set<string> {
    set f | f in files
  }

  ghost predicate VisitedFrom(fs: FileSystem, file: string, visited0: set<string>, visited: set<string>) {
    forall f :: f in visited && f !in visited0 ==> Reaches(ImportGraph(fs), file, f)
  }

  /** Every statement of `f` that declares no name is there. */
  predicate HoldsUnnamed(fs: FileSystem, f: string, ss: seq<Statement>) {
    f in fs && fs[f].Parsed?
    && forall k: nat :: k < |fs[f].decls| && fs[f].decls[k].Item? && fs[f].decls[k].name == "" ==> HasUnnamed(ss, f, k)
  }

  predicate HasUnnamed(ss: seq<Statement>, f: string, k: nat) {
    Statement(f, k, "", false) in ss || Statement(f, k, "", true) in ss
  }

  /** Every statement is one of its file. */
  predicate Genuine(fs: FileSystem, ss: seq<Statement>) {
    forall k :: 0 <= k < |ss| ==> IsOf(fs, ss[k])
  }

  predicate IsOf(fs: FileSystem, s: Statement) {
    s.file in fs && fs[s.file].Parsed? && s.index < |fs[s.file].decls|
    && fs[s.file].decls[s.index].Item? && fs[s.file].decls[s.index].name == s.name
  }

  lemma {:induction false} TakenGenuine(fs: FileSystem, sub: seq<Statement>, wildcard: bool)
    requires Genuine(fs, sub)
    ensures Genuine(fs, Taken(sub, wildcard))
  {
    if sub != [] {
      var n := |sub| - 1;
      TakenGenuine(fs, sub[..n], wildcard);
      assert sub == sub[..n] + [sub[n]];
      TakenConcat(sub[..n], [sub[n]], wildcard);
      TakenOne(sub[n], wildcard);
    }
  }

  predicate AllUnnamed(fs: FileSystem, files: seq<string>, ss: seq<Statement>) {
    forall f :: f in files ==> HoldsUnnamed(fs, f, ss)
  }

  /** What following `links` has brought together in `ss`; `read` are the files read for it. */
  ghost predicate Gathered(fs: FileSystem, links: seq<(string, bool)>, visited0: set<string>, visited: set<string>,
                           finished: seq<string>, read: seq<string>, ss: seq<Statement>) {
    var gathered :=
      && VisitedBy(fs, links, visited0, visited) && TakesOver(fs, links, visited0, ss) && AllUnnamed(fs, read, ss)
      && Genuine(fs, ss) && VisitedBy(fs, links, {}, SetOf(read))
      && forall p :: 0 <= p < |links| ==> links[p].0 in finished;
    gathered
  }

  /** A statement of a file that was visited at first does not change that. */
  lemma GatherOwn(fs: FileSystem, links: seq<(string, bool)>, visited0: set<string>, visited: set<string>,
                  finished: seq<string>, read: seq<string>, ss: seq<Statement>, s: Statement)
    requires Gathered(fs, links, visited0, visited, finished, read, ss) && s.file in visited0 && IsOf(fs, s)
    ensures Gathered(fs, links, visited0, visited, finished, read, ss + [s])
  {
    forall p | 0 <= p < |links| && New(fs, links, visited0, p) ensures Own(ss + [s], links[p].0) == Own(ss, links[p].0) {
      OwnJoined(ss, [s], links[p].0);
    }
    UnnamedStay(fs, read, ss, [s]);
  }

  lemma UnnamedStay(fs: FileSystem, files: seq<string>, ss: seq<Statement>, more: seq<Statement>)
    ensures AllUnnamed(fs, files, ss) ==> AllUnnamed(fs, files, ss + more)
    ensures AllUnnamed(fs, files, more) ==> AllUnnamed(fs, files, ss + more)
  {
    forall f, k: nat ensures HasUnnamed(ss, f, k) || HasUnnamed(more, f, k) ==> HasUnnamed(ss + more, f, k) {}
  }

  /** No import drops a statement that declares no name. */
  lemma UnnamedPass(fs: FileSystem, files: seq<string>, sub: seq<Statement>, wildcard: bool)
    requires AllUnnamed(fs, files, sub)
    ensures AllUnnamed(fs, files, Taken(sub, wildcard))
  {
    forall f, k: nat | HasUnnamed(sub, f, k) ensures HasUnnamed(Taken(sub, wildcard), f, k) {
      var e :| Statement(f, k, "", e) in sub;
      if wildcard {
        var j :| 0 <= j < |sub| && sub[j] == Statement(f, k, "", e);
        assert Unwrapped(sub)[j] == Statement(f, k, "", false);
      } else {
        VisibleHas(sub, Statement(f, k, "", e));
      }
    }
  }

  lemma {:induction false} VisibleHas(sub: seq<Statement>, s: Statement)
    requires s in sub && (s.name == "" || s.exported)
    ensures Bare(s) in Visible(sub)
  {
    var n := |sub| - 1;
    if s != sub[n] { VisibleHas(sub[..n], s); }
  }

  /** Following one more link. */
  lemma GatherOn(fs: FileSystem, links: seq<(string, bool)>, visited0: set<string>, visited1: set<string>, visited2: set<string>,
                 finished1: seq<string>, finished2: seq<string>, read1: seq<string>, more: seq<string>, n: nat,
                 ss: seq<Statement>, target: string, wildcard: bool, sub: seq<Statement>)
    requires n <= |read1| && Gathered(fs, links, visited0, visited1, finished1, read1[n..], ss)
    requires finished1 <= finished2 && target in finished2 && (forall f :: f in finished1 ==> f in read1)
    requires NoDuplicates(read1 + more) && (forall f :: f in read1 ==> f in visited1)
    requires forall k :: 0 <= k < |ss| ==> ss[k].file in read1
    requires FromFiles(sub, more) && AllUnnamed(fs, more, sub) && Genuine(fs, sub)
    requires VisitedFrom(fs, target, visited1, visited2) && VisitedFrom(fs, target, {}, SetOf(more))
    requires target !in visited1 ==> target in fs && fs[target].Parsed? && Own(sub, target) == OwnItems(target, fs[target].decls)
    ensures Gathered(fs, links + [(target, wildcard)], visited0, visited2, finished2, read1[n..] + more, ss + Taken(sub, wildcard))
  {
    var added := Taken(sub, wildcard);
    VisitedOn(fs, links, visited0, visited1, visited2, target, wildcard);
    ReadAreReached(fs, links, read1[n..], more, target, wildcard);
    AddedAreNew(sub, wildcard, read1, more);
    if New(fs, links + [(target, wildcard)], visited0, |links|) {
      NewIsUnvisited(fs, links, visited0, visited1, target, wildcard);
      OwnJoined([], ss, target);
      assert [] + ss == ss;
      OwnOfTaken(sub, target, fs[target].decls, wildcard);
    }
    TakesOn(fs, links, visited0, ss, added, target, wildcard);
    TakenGenuine(fs, sub, wildcard);
    UnnamedPass(fs, more, sub, wildcard);
    UnnamedStay(fs, read1[n..], ss, added);
    UnnamedStay(fs, more, ss, added);
  }

  lemma TakesOn(fs: FileSystem, links: seq<(string, bool)>, visited0: set<string>, ss: seq<Statement>, added: seq<Statement>,
                target: string, wildcard: bool)
    requires TakesOver(fs, links, visited0, ss)
    requires forall p, k :: 0 <= p < |links| && 0 <= k < |added| ==> added[k].file != links[p].0
    requires New(fs, links + [(target, wildcard)], visited0, |links|) ==>
      && target in fs && fs[target].Parsed?
      && Own(ss, target) == [] && Own(added, target) == Kept(target, fs[target].decls, wildcard)
    ensures TakesOver(fs, links + [(target, wildcard)], visited0, ss + added)
  {
    var links' := links + [(target, wildcard)];
    forall p | 0 <= p < |links'| && New(fs, links', visited0, p)
      ensures links'[p].0 in fs && fs[links'[p].0].Parsed?
           && Own(ss + added, links'[p].0) == Kept(links'[p].0, fs[links'[p].0].decls, links'[p].1)
    {
      if p < |links| {
        NewBefore(fs, links, visited0, p, (target, wildcard));
        OwnJoined(ss, added, links[p].0);
      } else {
        OwnConcat(ss, added, target);
      }
    }
  }

  lemma NewBefore(fs: FileSystem, links: seq<(string, bool)>, visited0: set<string>, p: nat, link: (string, bool))
    requires p < |links|
    ensures New(fs, links + [link], visited0, p) <==> New(fs, links, visited0, p)
  {
    forall q | 0 <= q <= p ensures (links + [link])[q] == links[q] {}
  }

  lemma VisitedOn(fs: FileSystem, links: seq<(string, bool)>, visited0: set<string>, visited1: set<string>, visited2: set<string>,
                  target: string, wildcard: bool)
    requires VisitedBy(fs, links, visited0, visited1) && VisitedFrom(fs, target, visited1, visited2)
    ensures VisitedBy(fs, links + [(target, wildcard)], visited0, visited2)
  {
    var links' := links + [(target, wildcard)];
    forall f | f in visited2 && f !in visited0 ensures exists p :: 0 <= p < |links'| && Reaches(ImportGraph(fs), links'[p].0, f) {
      if f in visited1 {
        var p :| 0 <= p < |links| && Reaches(ImportGraph(fs), links[p].0, f);
        assert links'[p] == links[p];
      } else {
        assert Reaches(ImportGraph(fs), links'[|links|].0, f);
      }
    }
  }

  lemma ReadAreReached(fs: FileSystem, links: seq<(string, bool)>, read: seq<string>, more: seq<string>, target: string, wildcard: bool)
    requires VisitedBy(fs, links, {}, SetOf(read)) && VisitedFrom(fs, target, {}, SetOf(more))
    ensures VisitedBy(fs, links + [(target, wildcard)], {}, SetOf(read + more))
  {
    forall f | f in SetOf(read + more) && f !in SetOf(read)
      ensures Reaches(ImportGraph(fs), target, f)
    {
      assert f in more && f in SetOf(more);
    }
    VisitedOn(fs, links, {}, SetOf(read), SetOf(read + more), target, wildcard);
  }

  lemma NewIsUnvisited(fs: FileSystem, links: seq<(string, bool)>, visited0: set<string>, visited1: set<string>, target: string, wildcard: bool)
    requires VisitedBy(fs, links, visited0, visited1) && New(fs, links + [(target, wildcard)], visited0, |links|)
    ensures target !in visited1
  {
    var links' := links + [(target, wildcard)];
    forall p | 0 <= p < |links| ensures !Reaches(ImportGraph(fs), links[p].0, target) {
      assert links'[p] == links[p] && links'[|links|].0 == target;
    }
  }

  lemma AddedAreNew(sub: seq<Statement>, wildcard: bool, before: seq<string>, more: seq<string>)
    requires FromFiles(sub, more) && NoDuplicates(before + more)
    ensures forall k :: 0 <= k < |Taken(sub, wildcard)| ==> Taken(sub, wildcard)[k].file !in before
  {
    if wildcard { UnwrappedIsPart(sub); } else { VisibleIsPart(sub); }
    var added := Taken(sub, wildcard);
    forall k | 0 <= k < |added| ensures added[k].file !in before {
      assert StemsFrom(added[k], sub);
      var i :| 0 <= i < |more| && more[i] == added[k].file;
      forall j | 0 <= j < |before| ensures before[j] != more[i] {
        assert (before + more)[j] == before[j] && (before + more)[|before| + i] == more[i];
      }
    }
  }

  /** What can be reached over the imports of a file can be reached from it. */
  lemma ReachedOverLinks(fs: FileSystem, file: string, visited0: set<string>, visited: set<string>)
    requires file in fs && fs[file].Parsed?
    requires VisitedBy(fs, Links(fs[file].decls), visited0, visited)
    ensures VisitedFrom(fs, file, visited0, visited)
  {
    var g, links := ImportGraph(fs), Links(fs[file].decls);
    forall f | f in visited && f !in visited0 ensures Reaches(g, file, f) {
      var p :| 0 <= p < |links| && Reaches(g, links[p].0, f);
      LinkIsEdge(fs[file].decls, p);
      ReachesFurther(g, file, links[p].0, f);
    }
  }

  lemma ReachesFurther(g: Graph, u: string, v: string, f: string)
    requires Edge(g, u, v) && Reaches(g, v, f)
    ensures Reaches(g, u, f)
  {
    var w :| w != [] && w[0] == v && w[|w| - 1] == f && Walk(g, w);
    var longer := [u] + w;
    assert longer[0] == u && longer[|longer| - 1] == f;
    forall i | 0 < i < |longer| ensures Edge(g, longer[i - 1], longer[i]) {
      if i > 1 { assert Edge(g, w[i - 2], w[i - 1]); }
    }
  }

  lemma {:induction false} LinkIsEdge(decls: seq<Decl>, p: nat)
    requires p < |Links(decls)|
    ensures Links(decls)[p].0 in Targets(decls)
  {
    var n := |decls| - 1;
    if p < |Links(decls[..n])| {
      LinkIsEdge(decls[..n], p);
      TargetsNext(decls, n);
      assert decls[..n + 1] == decls;
    } else {
      if decls[n].WildcardImport? { MatchedAt(decls[n].matches, p - |Links(decls[..n])|); }
      DeclTargetIsEdge(decls, n, Links(decls)[p].0);
    }
  }

  /** The files behind the links of a file are those it imports. */
  lemma LinksFinished(fs: FileSystem, file: string, finished: seq<string>)
    requires file in fs && fs[file].Parsed?
    requires forall p :: 0 <= p < |Links(fs[file].decls)| ==> Links(fs[file].decls)[p].0 in finished
    ensures forall f :: Edge(ImportGraph(fs), file, f) ==> f in finished
  {
    forall f | Edge(ImportGraph(fs), file, f) ensures f in finished {
      var p := TargetHasLink(fs[file].decls, f);
    }
  }

  lemma {:induction false} TargetHasLink(decls: seq<Decl>, f: string) returns (p: nat)
    requires f in Targets(decls)
    ensures p < |Links(decls)| && Links(decls)[p].0 == f
  {
    var n := |decls| - 1;
    TargetsNext(decls, n);
    assert decls[..n + 1] == decls;
    if f in Targets(decls[..n]) {
      p := TargetHasLink(decls[..n], f);
      assert Links(decls)[p] == Links(decls[..n])[p];
    } else {
      p := LinkOf(decls[n], f);
      p := |Links(decls[..n])| + p;
    }
  }

  lemma LinkOf(d: Decl, f: string) returns (p: nat)
    requires f in TargetsOf(d)
    ensures p < |LinksOf(d)| && LinksOf(d)[p].0 == f
  {
    match d
    case Import(_, _) => p := 0;
    case WildcardImport(matches) =>
      p :| 0 <= p < |matches| && matches[p] == f;
      MatchedAt(matches, p);
  }

  lemma {:induction false} MatchedAt(matches: seq<string>, p: nat)
    requires p < |matches|
    ensures Matched(matches)[p] == (matches[p], true)
  {
    if p < |matches| - 1 { MatchedAt(matches[..|matches| - 1], p); }
  }

  /** The names that the statements ask for are declared in `ss`. */
  predicate NamesBound(decls: seq<Decl>, ss: seq<Statement>) {
    forall i, name :: 0 <= i < |decls| && decls[i].Import? && name in decls[i].names ==> Defines(ss, name)
  }

  /** Named statements of other files come from files that the statements import
      themselves, unless by a wildcard. */
  predicate NamedAreDirect(file: string, decls: seq<Decl>, ss: seq<Statement>) {
    forall k :: 0 <= k < |ss| && ss[k].name != "" ==>
      ss[k].file == file || exists i :: 0 <= i < |decls| && (decls[i].WildcardImport? || ss[k].file in TargetsOf(decls[i]))
  }

  predicate Requested(file: string, decls: seq<Decl>, ss: seq<Statement>) {
    var requested := NamesBound(decls, ss) && NamedAreDirect(file, decls, ss);
    requested
  }

  /** The statements of `file` itself are all there, those of other files bare, and what
      its imports ask for is declared. */
  predicate Complete(file: string, decls: seq<Decl>, ss: seq<Statement>) {
    var complete := Own(ss, file) == OwnItems(file, decls) && OthersBare(ss, file) && Requested(file, decls, ss);
    complete
  }

  /** What is gathered when all statements of `file` have been followed. */
  lemma FileLoaded(fs: FileSystem, file: string, visited0: set<string>, visited: set<string>, finished: seq<string>, read: seq<string>,
                   ss: seq<Statement>)
    requires file in fs && fs[file].Parsed? && Own(ss, file) == OwnItems(file, fs[file].decls)
    requires OthersBare(ss, file) && Requested(file, fs[file].decls, ss)
    requires Gathered(fs, Links(fs[file].decls), visited0, visited, finished, read, ss)
    ensures Complete(file, fs[file].decls, ss)
    ensures TakesOver(fs, Links(fs[file].decls), visited0, ss)
    ensures VisitedFrom(fs, file, visited0, visited) && AllUnnamed(fs, [file] + read, ss) && Genuine(fs, ss)
    ensures VisitedFrom(fs, file, {}, SetOf([file] + read))
  {
    ReachedOverLinks(fs, file, visited0, visited);
    ReachedOverLinks(fs, file, {}, SetOf(read));
    ReachedAlong(ImportGraph(fs), [], file);
    forall f | f in SetOf([file] + read) ensures Reaches(ImportGraph(fs), file, f) {
      assert f == file || f in SetOf(read);
    }
    OwnUnnamed(fs, file, ss);
  }

  /** What following one statement adds: the names it asks for are declared then, and
      named statements come from the file it imports, unless by a wildcard. */
  predicate Adds(file: string, d: Decl, before: seq<Statement>, after: seq<Statement>) {
    before <= after && (d.Import? ==> forall name :: name in d.names ==> Defines(after, name))
    && forall k :: |before| <= k < |after| && after[k].name != "" ==>
         after[k].file == file || d.WildcardImport? || after[k].file in TargetsOf(d)
  }

  lemma AddsOn(file: string, decls: seq<Decl>, i: nat, before: seq<Statement>, after: seq<Statement>)
    requires i < |decls| && Adds(file, decls[i], before, after)
    requires Requested(file, decls[..i], before)
    ensures Requested(file, decls[..i + 1], after)
  {
    var more := decls[..i + 1];
    forall j, name | 0 <= j <= i && more[j].Import? && name in more[j].names ensures Defines(after, name) {
      if j < i {
        assert decls[..i][j] == decls[j] && Defines(before, name);
        var k :| 0 <= k < |before| && before[k].name == name;
        assert after[k] == before[k];
      }
    }
    forall k | 0 <= k < |after| && after[k].name != "" && after[k].file != file
      ensures exists j :: 0 <= j <= i && (more[j].WildcardImport? || after[k].file in TargetsOf(more[j]))
    {
      if k < |before| {
        assert before[k] == after[k];
        var j :| 0 <= j < i && (decls[..i][j].WildcardImport? || after[k].file in TargetsOf(decls[..i][j]));
        assert more[j] == decls[..i][j];
      } else {
        assert more[i] == decls[i];
      }
    }
  }

  lemma {:induction false} VisibleNamed(sub: seq<Statement>, file: string)
    requires OthersBare(sub, file)
    ensures forall k :: 0 <= k < |Visible(sub)| && Visible(sub)[k].name != "" ==> Visible(sub)[k].file == file
  {
    if sub != [] { VisibleNamed(sub[..|sub| - 1], file); }
  }

  /** An import adds nothing named but the target's exports, the names asked for among them. */
  lemma ImportAdds(file: string, target: string, names: seq<string>, before: seq<Statement>, sub: seq<Statement>)
    requires OthersBare(sub, target) && forall i :: 0 <= i < |names| ==> Exports(sub, names[i])
    ensures Adds(file, Import(target, names), before, before + Visible(sub))
  {
    VisibleNamed(sub, target);
    var after := before + Visible(sub);
    forall name | name in names ensures Defines(after, name) {
      assert Exports(sub, name);
      var i :| 0 <= i < |sub| && sub[i].name == name && sub[i].exported;
      VisibleHas(sub, sub[i]);
      var k :| 0 <= k < |Visible(sub)| && Visible(sub)[k] == Bare(sub[i]);
      assert after[|before| + k].name == name;
    }
  }

  /** A file's own statements without a name are there. */
  lemma OwnUnnamed(fs: FileSystem, file: string, ss: seq<Statement>)
    requires file in fs && fs[file].Parsed? && Own(ss, file) == OwnItems(file, fs[file].decls)
    ensures HoldsUnnamed(fs, file, ss)
  {
    var decls := fs[file].decls;
    forall k: nat | k < |decls| && decls[k].Item? && decls[k].name == "" ensures HasUnnamed(ss, file, k) {
      OwnItemsHas(file, decls, k);
      OwnIsIn(ss, file, Statement(file, k, "", decls[k].exported));
    }
  }

  lemma {:induction false} OwnItemsHas(file: string, decls: seq<Decl>, k: nat)
    requires k < |decls| && decls[k].Item?
    ensures Statement(file, k, decls[k].name, decls[k].exported) in OwnItems(file, decls)
  {
    if k < |decls| - 1 { OwnItemsHas(file, decls[..|decls| - 1], k); }
  }

  lemma {:induction false} OwnIsIn(ss: seq<Statement>, file: string, s: Statement)
    requires s in Own(ss, file)
    ensures s in ss && s.file == file
  {
    var n := |ss| - 1;
    if s in Own(ss[..n], file) { OwnIsIn(ss[..n], file, s); }
  }
}
