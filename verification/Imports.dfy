// Loading a source file with everything it imports: parseWithDependencies
// (cmd_build.go), on an abstract file system.
module Imports {
  import opened Graphs
  import opened ImportedStatements

  /** Following an import of `file` extends the path along an edge. */
  lemma ImportStep(fs: FileSystem, path: seq<string>, file: string, i: nat, target: string)
    requires file in fs && fs[file].Parsed? && i < |fs[file].decls| && target in TargetsOf(fs[file].decls[i])
    requires Walk(ImportGraph(fs), path + [file])
    ensures target in Nodes(ImportGraph(fs)) && Walk(ImportGraph(fs), path + [file] + [target])
  {
    DeclTargetIsEdge(fs[file].decls, i, target);
    assert Edge(ImportGraph(fs), file, target);
  }

  /** The file's own statement number `i` joins those before it. */
  lemma JoinOwn(ss: seq<Statement>, files: seq<string>, i: nat, own: seq<Statement>, s: Statement)
    requires Content(ss, files, s.file, i, own) && s.file in files && s.index == i
    ensures Content(ss + [s], files, s.file, i + 1, own + [s])
  {
    assert (ss + [s])[..|ss|] == ss;
  }

  /** No statement but the first `i` of `file` counts for them. */
  lemma ContentNext(ss: seq<Statement>, files: seq<string>, file: string, i: nat, own: seq<Statement>)
    requires Content(ss, files, file, i, own)
    ensures Content(ss, files, file, i + 1, own)
  {
  }

  ghost predicate OnCycle(g: Graph, file: string) {
    exists cycle :: ClosedWalk(g, cycle) && cycle[0] == file
  }

  /** Statement `at.1` of file `at.0`, which can be reached from `root`, asks for `name`. */
  ghost predicate Asks(fs: FileSystem, root: string, at: (string, nat), name: string) {
    Reaches(ImportGraph(fs), root, at.0) && Selective(fs, at) && name in fs[at.0].decls[at.1].names
  }

  predicate Declares(fs: FileSystem, file: string, name: string) {
    name != "" && file in fs && fs[file].Parsed?
    && exists k :: 0 <= k < |fs[file].decls| && fs[file].decls[k].Item? && fs[file].decls[k].name == name
  }

  predicate ExportsItem(fs: FileSystem, file: string, name: string) {
    name != "" && file in fs && fs[file].Parsed? && Item(name, true) in fs[file].decls
  }

  /** Statement `at.1` of file `at.0` imports `file`. */
  predicate LinksTo(fs: FileSystem, at: (string, nat), file: string) {
    at.0 in fs && fs[at.0].Parsed? && at.1 < |fs[at.0].decls| && file in TargetsOf(fs[at.0].decls[at.1])
  }

  /** Another statement imports the file that this one selects from. */
  ghost predicate ImportedElsewhere(fs: FileSystem, root: string, at: (string, nat)) {
    exists other :: other != at && Reaches(ImportGraph(fs), root, other.0) && LinksTo(fs, other, SelectedFrom(fs, at))
  }

  /** `name` is declared by the file, or by one that it leads to. */
  ghost predicate DeclaredBehind(fs: FileSystem, file: string, name: string) {
    exists f :: Reaches(ImportGraph(fs), file, f) && Declares(fs, f, name)
  }

  /** An error is about a file that can be reached from `root`, and is true of it. */
  ghost predicate Explained(fs: FileSystem, root: string, r: Result) {
    var explained := r.Err? ==> Holds(fs, root, r.error);
    explained
  }

  ghost predicate Holds(fs: FileSystem, root: string, e: Error) {
    var g := ImportGraph(fs);
    match e
    case Circular(f) => Reaches(g, root, f) && OnCycle(g, f)
    case CannotRead(f) => Reaches(g, root, f) && f !in fs
    case CannotParse(f) => Reaches(g, root, f) && f in fs && fs[f].Malformed?
    case NoMatch(f) => Reaches(g, root, f) && f in fs && fs[f].Parsed? && WildcardImport([]) in fs[f].decls
    case Undefined(name) => exists at ::
      Asks(fs, root, at, name) && (ImportedElsewhere(fs, root, at) || !Declares(fs, SelectedFrom(fs, at), name))
    case NotExported(name) => exists at ::
      Asks(fs, root, at, name) && !ExportsItem(fs, SelectedFrom(fs, at), name) && DeclaredBehind(fs, SelectedFrom(fs, at), name)
  }

  // ----- Selective imports -----

  /** Statement `at.1` of file `at.0` imports names. */
  predicate Selective(fs: FileSystem, at: (string, nat)) {
    at.0 in fs && fs[at.0].Parsed? && at.1 < |fs[at.0].decls| && fs[at.0].decls[at.1].Import? && fs[at.0].decls[at.1].names != []
  }

  function SelectedFrom(fs: FileSystem, at: (string, nat)): string {
    if Selective(fs, at) then fs[at.0].decls[at.1].target else ""
  }

  /** No file is selected from twice. */
  predicate SelectedOnce(fs: FileSystem, picked: set<(string, nat)>) {
    forall a, b :: a in picked && b in picked && SelectedFrom(fs, a) == SelectedFrom(fs, b) ==> a == b
  }

  /** The names that an import asks for are exported by the file that it names. */
  predicate Offered(fs: FileSystem, at: (string, nat)) {
    Selective(fs, at) && forall name :: name in fs[at.0].decls[at.1].names ==> ExportsItem(fs, SelectedFrom(fs, at), name)
  }

  /** The selective imports made so far: of files visited, of each once, and of what it
      exports. */
  ghost predicate Picks(fs: FileSystem, picked: set<(string, nat)>, visited: map<string, int>) {
    var fits := SelectedOnce(fs, picked) && forall a :: a in picked ==> Offered(fs, a) && SelectedFrom(fs, a) in visited;
    fits
  }

  /** The selective imports made since are of files that were not visited then. */
  ghost predicate PickedSince(fs: FileSystem, picked0: set<(string, nat)>, visited0: map<string, int>, picked: set<(string, nat)>) {
    var since := picked0 <= picked && forall a :: a in picked && a !in picked0 ==> SelectedFrom(fs, a) !in visited0;
    since
  }

  /** A wildcard that matches no file. */
  predicate Unmatched(fs: FileSystem, at: (string, nat)) {
    at.0 in fs && fs[at.0].Parsed? && at.1 < |fs[at.0].decls| && fs[at.0].decls[at.1] == WildcardImport([])
  }

  /** All selective imports among the first `i` statements of `file` are made, and all
      wildcards have matched. */
  ghost predicate PickedUpTo(fs: FileSystem, picked: set<(string, nat)>, file: string, i: nat) {
    forall j: nat :: j < i ==> !Unmatched(fs, (file, j)) && (Selective(fs, (file, j)) ==> (file, j) in picked)
  }

  ghost predicate PickedAll(fs: FileSystem, picked: set<(string, nat)>, files: seq<string>) {
    forall f, j: nat :: f in files ==> !Unmatched(fs, (f, j)) && (Selective(fs, (f, j)) ==> (f, j) in picked)
  }

  lemma PickedOn(fs: FileSystem, picked0: set<(string, nat)>, visited0: map<string, int>, picked1: set<(string, nat)>,
                 visited1: map<string, int>, picked2: set<(string, nat)>)
    requires PickedSince(fs, picked0, visited0, picked1) && visited0.Keys <= visited1.Keys
    requires PickedSince(fs, picked1, visited1, picked2)
    ensures PickedSince(fs, picked0, visited0, picked2)
  {
  }

  /** A selective import that found its names is the first of its file. */
  lemma NextPick(fs: FileSystem, picked0: set<(string, nat)>, visited0: map<string, int>, picked: set<(string, nat)>,
                 visited: map<string, int>, at: (string, nat))
    requires Picks(fs, picked0, visited0) && Picks(fs, picked, visited) && Offered(fs, at)
    requires SelectedFrom(fs, at) !in visited0 && SelectedFrom(fs, at) in visited
    requires PickedSince(fs, picked0, visited0[SelectedFrom(fs, at) := VISITING], picked)
    ensures Picks(fs, picked + {at}, visited) && PickedSince(fs, picked0, visited0, picked + {at})
  {
  }

  /** What an imported program says of the file it comes from. */
  lemma ItemsOfSub(fs: FileSystem, target: string, sub: seq<Statement>, name: string)
    requires target in fs && fs[target].Parsed? && Complete(target, fs[target].decls, sub)
    ensures Declares(fs, target, name) ==> Defines(sub, name)
    ensures Exports(sub, name) <==> ExportsItem(fs, target, name)
  {
    var decls := fs[target].decls;
    if Declares(fs, target, name) {
      var k: nat :| k < |decls| && decls[k].Item? && decls[k].name == name;
      OwnItemsHas(target, decls, k);
      OwnIsIn(sub, target, Statement(target, k, name, decls[k].exported));
    }
    if ExportsItem(fs, target, name) {
      var k: nat :| k < |decls| && decls[k] == Item(name, true);
      OwnItemsHas(target, decls, k);
      OwnIsIn(sub, target, Statement(target, k, name, true));
    }
    if Exports(sub, name) {
      var i: nat :| i < |sub| && sub[i].name == name && sub[i].exported;
      InIsOwn(sub, target, i);
      OwnItemsAre(target, decls, sub[i]);
    }
  }

  lemma {:induction false} InIsOwn(ss: seq<Statement>, file: string, i: nat)
    requires i < |ss| && ss[i].file == file
    ensures ss[i] in Own(ss, file)
  {
    if i < |ss| - 1 { InIsOwn(ss[..|ss| - 1], file, i); }
  }

  lemma {:induction false} OwnItemsAre(file: string, decls: seq<Decl>, s: Statement)
    requires s in OwnItems(file, decls)
    ensures s.index < |decls| && decls[s.index] == Item(s.name, s.exported)
  {
    var n := |decls| - 1;
    if s in OwnItems(file, decls[..n]) { OwnItemsAre(file, decls[..n], s); }
  }

  /** What a load of `target` gives: its program, or nothing if it was loaded before. */
  ghost predicate LoadOf(fs: FileSystem, root: string, at: (string, nat), target: string, sub: seq<Statement>) {
    var loaded := (sub == [] && ImportedElsewhere(fs, root, at)) || IsProgramOf(fs, target, sub);
    loaded
  }

  ghost predicate IsProgramOf(fs: FileSystem, target: string, sub: seq<Statement>) {
    var program := target in fs && fs[target].Parsed? && Complete(target, fs[target].decls, sub) && Genuine(fs, sub)
      && forall k :: 0 <= k < |sub| ==> Reaches(ImportGraph(fs), target, sub[k].file);
    program
  }

  lemma ProgramIsBare(fs: FileSystem, target: string, sub: seq<Statement>)
    requires sub == [] || IsProgramOf(fs, target, sub)
    ensures OthersBare(sub, target)
  {}

  lemma ProgramReached(fs: FileSystem, file: string, read: seq<string>, ss: seq<Statement>)
    requires file in fs && fs[file].Parsed? && Complete(file, fs[file].decls, ss) && Genuine(fs, ss)
    requires FromFiles(ss, read) && VisitedFrom(fs, file, {}, SetOf(read))
    ensures IsProgramOf(fs, file, ss)
  {
    forall k | 0 <= k < |ss| ensures Reaches(ImportGraph(fs), file, ss[k].file) {
      assert ss[k].file in SetOf(read);
    }
  }

  /** The error of a selective import is true of the statement that makes it. */
  lemma BadNameExplained(fs: FileSystem, root: string, at: (string, nat), sub: seq<Statement>)
    requires Reaches(ImportGraph(fs), root, at.0) && Selective(fs, at) && LoadOf(fs, root, at, SelectedFrom(fs, at), sub)
    requires FirstBadName(fs[at.0].decls[at.1].names, sub) != []
    ensures Holds(fs, root, FirstBadName(fs[at.0].decls[at.1].names, sub)[0])
  {
    var names := fs[at.0].decls[at.1].names;
    var k: nat :| FailsFirst(names, sub, k) && FirstBadName(names, sub) == [NameError(sub, names[k])];
    assert Asks(fs, root, at, names[k]);
    if sub != [] || !ImportedElsewhere(fs, root, at) {
      ItemsOfSub(fs, SelectedFrom(fs, at), sub, names[k]);
      if Defines(sub, names[k]) {
        var i :| 0 <= i < |sub| && sub[i].name == names[k];
        assert IsOf(fs, sub[i]) && Declares(fs, sub[i].file, names[k]);
      }
    }
  }

  /** If all its names are there, they are offered. */
  lemma NamesOffered(fs: FileSystem, root: string, at: (string, nat), sub: seq<Statement>)
    requires Selective(fs, at) && LoadOf(fs, root, at, SelectedFrom(fs, at), sub)
    requires FirstBadName(fs[at.0].decls[at.1].names, sub) == []
    ensures Offered(fs, at)
  {
    var names := fs[at.0].decls[at.1].names;
    assert Exports(sub, names[0]);
    forall name | name in names ensures ExportsItem(fs, SelectedFrom(fs, at), name) {
      var i :| 0 <= i < |names| && names[i] == name;
      assert Exports(sub, names[i]);
      ItemsOfSub(fs, SelectedFrom(fs, at), sub, name);
    }
  }

  /** A file on the path that is imported again closes a cycle. */
  lemma CycleThrough(g: Graph, path: seq<string>, file: string)
    requires file in path && Walk(g, path + [file])
    ensures OnCycle(g, file)
  {
    var i := FirstIndex(path, file);
    var cycle := (path + [file])[i..];
    assert ClosedWalk(g, cycle) by {
      forall k | 0 < k < |cycle| ensures Edge(g, cycle[k - 1], cycle[k]) {
        assert Edge(g, (path + [file])[i + k - 1], (path + [file])[i + k]);
      }
    }
  }

  lemma CircularExplained(fs: FileSystem, path: seq<string>, file: string)
    requires file in path && Walk(ImportGraph(fs), path + [file])
    ensures Explained(fs, Root(path, file), Err(Circular(file)))
  {
    CycleThrough(ImportGraph(fs), path, file);
    ReachedAlong(ImportGraph(fs), path, file);
  }

  lemma FileExplained(fs: FileSystem, path: seq<string>, file: string)
    requires Walk(ImportGraph(fs), path + [file])
    ensures file !in fs ==> Explained(fs, Root(path, file), Err(CannotRead(file)))
    ensures file in fs && fs[file].Malformed? ==> Explained(fs, Root(path, file), Err(CannotParse(file)))
  {
    ReachedAlong(ImportGraph(fs), path, file);
  }

  /** How far the loop over the statements of a file has come. */
  datatype Progress = Progress(file: string, path: seq<string>, n: nat, i: nat, own: seq<Statement>,
                               links: seq<(string, bool)>, visited0: set<string>)

  /** A moment of a loader's work. */
  datatype Mark = Mark(read: seq<string>, visited: map<string, int>, finished: seq<string>, picked: set<(string, nat)>,
                       followed: set<(string, nat)>)

  ghost predicate Collected(fs: FileSystem, m: Progress, now: Mark, merged: seq<Statement>) {
    var collected := m.n < |now.read| && now.read[m.n] == m.file
      && Content(merged, now.read[m.n..], m.file, m.i, m.own) && PickedUpTo(fs, now.picked, m.file, m.i)
      && m.file in m.visited0 && Gathered(fs, m.links, m.visited0, now.visited.Keys, now.finished, now.read[m.n + 1..], merged);
    collected
  }

  /** Loading a target takes the collection on. */
  lemma CollectOn(fs: FileSystem, m: Progress, before: Mark, now: Mark, merged: seq<Statement>, target: string, wildcard: bool, sub: seq<Statement>)
    requires Collected(fs, m, before, merged)
    requires before.read <= now.read && NoDuplicates(now.read) && before.finished <= now.finished && before.picked <= now.picked
    requires (forall f :: f in before.finished ==> f in before.read) && (forall f :: f in before.read ==> f in before.visited)
    requires target in now.finished && VisitedFrom(fs, target, before.visited.Keys, now.visited.Keys)
    requires var more := now.read[|before.read|..];
      FromFiles(sub, more) && AllUnnamed(fs, more, sub) && VisitedFrom(fs, target, {}, SetOf(more))
    requires if target in before.visited then sub == [] else IsProgramOf(fs, target, sub)
    ensures Collected(fs, m.(links := m.links + [(target, wildcard)]), now, merged + Taken(sub, wildcard))
  {
    var more, added := now.read[|before.read|..], merged + Taken(sub, wildcard);
    ReadOn(before.read, now.read, m.n);
    ReadOn(before.read, now.read, m.n + 1);
    TakeOver(merged, before.read, now.read, m.n, sub, wildcard, m.i, m.own);
    GatherOn(fs, m.links, m.visited0, before.visited.Keys, now.visited.Keys, before.finished, now.finished, before.read, more, m.n + 1,
             merged, target, wildcard, sub);
    Collect(fs, m.(links := m.links + [(target, wildcard)]), now, added);
  }

  lemma Collect(fs: FileSystem, m: Progress, now: Mark, merged: seq<Statement>)
    requires m.n < |now.read| && now.read[m.n] == m.file && m.file in m.visited0
    requires Content(merged, now.read[m.n..], m.file, m.i, m.own) && PickedUpTo(fs, now.picked, m.file, m.i)
    requires Gathered(fs, m.links, m.visited0, now.visited.Keys, now.finished, now.read[m.n + 1..], merged)
    ensures Collected(fs, m, now, merged)
  {}

  lemma CollectPick(fs: FileSystem, m: Progress, now: Mark, merged: seq<Statement>, more: set<(string, nat)>)
    requires exists picked :: now.picked == picked + more && Collected(fs, m, now.(picked := picked), merged)
    ensures Collected(fs, m, now, merged)
  {
    var picked :| now.picked == picked + more && Collected(fs, m, now.(picked := picked), merged);
  }

  /** Where loading began, what was visited, and the statements that were followed. */
  datatype Trail = Trail(root: string, visited: set<string>, followed: set<(string, nat)>)

  /** What is visited, but for the root, was imported by a statement that was followed. */
  ghost predicate Tracked(fs: FileSystem, t: Trail) {
    forall u :: u == t ==> Leads(fs, u)
  }

  ghost predicate Leads(fs: FileSystem, t: Trail) {
    (forall f :: f in t.visited ==> Reaches(ImportGraph(fs), t.root, f) && Known(fs, t, f))
    && forall a :: a in t.followed ==> a.0 in t.visited
  }

  ghost predicate Known(fs: FileSystem, t: Trail, f: string) {
    f == t.root || exists a :: a in t.followed && LinksTo(fs, a, f)
  }

  lemma VisitNext(fs: FileSystem, t: Trail, f: string)
    requires Tracked(fs, t) && Known(fs, t, f) && Reaches(ImportGraph(fs), t.root, f)
    ensures Tracked(fs, t.(visited := t.visited + {f}))
  {
    assert Leads(fs, t);
    assert Leads(fs, t.(visited := t.visited + {f}));
  }

  lemma FollowNext(fs: FileSystem, t: Trail, at: (string, nat), f: string)
    requires Tracked(fs, t) && at.0 in t.visited && LinksTo(fs, at, f)
    ensures Tracked(fs, t.(followed := t.followed + {at})) && Known(fs, t.(followed := t.followed + {at}), f)
  {
    var u := t.(followed := t.followed + {at});
    assert Leads(fs, t);
    forall g | g in t.visited && g != t.root ensures Known(fs, u, g) {
      var a :| a in t.followed && LinksTo(fs, a, g);
      assert a in u.followed;
    }
    assert Leads(fs, u);
  }

  /** No statement of a file that was not visited was followed. */
  lemma UnvisitedUnfollowed(fs: FileSystem, t: Trail, f: string)
    requires Tracked(fs, t) && f !in t.visited
    ensures forall a :: a in t.followed ==> a.0 != f
  {
    assert Leads(fs, t);
  }

  class Loader {
    const fs: FileSystem
    ghost const root: string  // where loading begins
    var visited: map<string, int>
    ghost var finished: seq<string>
    ghost var read: seq<string>  // the files read, in order
    ghost var picked: set<(string, nat)>  // the selective imports made
    ghost var followed: set<(string, nat)>  // the statements whose imports were followed

    constructor (fs: FileSystem, ghost root: string)
      ensures this.fs == fs && this.root == root && Valid([]) && read == [] && visited == map[]
    {
      this.fs, this.root := fs, root;
      visited, finished, read, picked, followed := map[], [], [], {}, {};
      new;
      assert Sound([]);
    }

    ghost predicate Valid(path: seq<string>)
      reads this
    {
      ReadOnce() && forall p :: p == path ==> Sound(p)
    }

    ghost predicate Sound(path: seq<string>)
      reads this
    {
      Coherent(ImportGraph(fs), visited, finished, path)
      && (forall f :: f in finished ==> f in fs && fs[f].Parsed? && f in read)
      && Picks(fs, picked, visited) && PickedAll(fs, picked, finished)
      && Tracked(fs, Trail(root, visited.Keys, followed))
    }

    /** What is visited is on the path, or finished and not. */
    lemma OnPathOrFinished(path: seq<string>)
      requires Valid(path)
      ensures forall f :: f in visited ==> if visited[f] == VISITING then f in path else f in finished
      ensures forall f :: f in path ==> f in visited && f !in finished
      ensures Tracked(fs, Trail(root, visited.Keys, followed))
    {
      assert Sound(path);
    }

    lemma AllSound()
      requires Valid([])
      ensures ReadOnce() && Scheduled(ImportGraph(fs), finished) && Picks(fs, picked, visited) && PickedAll(fs, picked, finished)
      ensures forall f :: f in finished ==> f in fs && fs[f].Parsed? && f in read
    {
      assert Sound([]);
    }

    /** `path` leads from the root to `file`. */
    ghost predicate OnWay(path: seq<string>, file: string) {
      Walk(ImportGraph(fs), path + [file]) && Root(path, file) == root
    }

    /** No file is read a second time. */
    ghost predicate ReadOnce()
      reads this
    {
      NoDuplicates(read) && forall f :: f in read ==> f in visited
    }

    ghost function Now(): Mark
      reads this
    {
      Mark(read, visited, finished, picked, followed)
    }

    /** Since then more files have been read, visited and finished at most. */
    ghost predicate Since(m: Mark)
      reads this
    {
      m.read <= read && ReadOnce() && m.visited.Keys <= visited.Keys && m.finished <= finished
      && PickedSince(fs, m.picked, m.visited, picked)
      && m.followed <= followed
    }

    /** Only statements of files not visited then, and of `file`, were followed since. */
    ghost predicate Follows(m: Mark, file: string)
      reads this
    {
      forall a :: a in followed && a !in m.followed ==> a.0 !in m.visited || a.0 == file
    }

    /** No statement of `file` from number `i` on was followed. */
    ghost predicate FollowedUpTo(file: string, i: nat)
      reads this
    {
      forall a :: a in followed && a.0 == file ==> a.1 < i
    }

    /** Loads `file`, imported along `path`. */
    method ParseWithDependencies(file: string, ghost path: seq<string>) returns (r: Result)
      requires Valid(path) && OnWay(path, file) && Known(fs, Trail(root, visited.Keys, followed), file)
      modifies this`visited, this`finished, this`read, this`picked, this`followed
      ensures Since(old(Now())) && forall a :: a in followed && a !in old(followed) ==> a.0 !in old(visited)
      ensures r.Ok? ==> Valid(path) && file in finished && file in visited
      ensures r.Ok? ==> FromFiles(r.statements, read[|old(read)|..])
      ensures r.Ok? && file in old(visited) ==> r.statements == []
      ensures r.Ok? ==> PickedSince(fs, old(picked), old(visited)[file := VISITING], picked)
      ensures r.Ok? && file !in old(visited) ==>
        IsProgramOf(fs, file, r.statements)
        && TakesOver(fs, Links(fs[file].decls), old(visited)[file := VISITING].Keys, r.statements)
      ensures r.Ok? ==> AllUnnamed(fs, read[|old(read)|..], r.statements)
      ensures r.Ok? ==> VisitedFrom(fs, file, old(visited).Keys, visited.Keys) && VisitedFrom(fs, file, {}, SetOf(read[|old(read)|..]))
      ensures Explained(fs, root, r)
      decreases Nodes(ImportGraph(fs)) - visited.Keys, 1
    {
      ReachedAlong(ImportGraph(fs), path, file);
      OnPathOrFinished(path);
      if file in visited {
        if visited[file] == VISITING {
          CircularExplained(fs, path, file);
          return Err(Circular(file));
        }
        return Ok([]);
      }
      r := LoadUnvisited(file, path);
    }

    /** ... that was not visited before. */
    method LoadUnvisited(file: string, ghost path: seq<string>) returns (r: Result)
      requires Valid(path) && OnWay(path, file) && Known(fs, Trail(root, visited.Keys, followed), file) && file !in visited
      requires Reaches(ImportGraph(fs), root, file)
      modifies this`visited, this`finished, this`read, this`picked, this`followed
      ensures Since(old(Now())) && forall a :: a in followed && a !in old(followed) ==> a.0 !in old(visited)
      ensures r.Ok? ==> Valid(path) && file in finished && file in visited
      ensures r.Ok? ==> FromFiles(r.statements, read[|old(read)|..]) && AllUnnamed(fs, read[|old(read)|..], r.statements)
      ensures r.Ok? ==> PickedSince(fs, old(picked), old(visited)[file := VISITING], picked)
      ensures r.Ok? ==>
        IsProgramOf(fs, file, r.statements)
        && TakesOver(fs, Links(fs[file].decls), old(visited)[file := VISITING].Keys, r.statements)
      ensures r.Ok? ==> VisitedFrom(fs, file, old(visited).Keys, visited.Keys) && VisitedFrom(fs, file, {}, SetOf(read[|old(read)|..]))
      ensures Explained(fs, root, r)
      decreases Nodes(ImportGraph(fs)) - visited.Keys, 0
    {
      OnPathOrFinished(path);
      UnvisitedUnfollowed(fs, Trail(root, visited.Keys, followed), file);
      Begin(file, path);
      FileExplained(fs, path, file);
      if file !in fs {
        visited := visited[file := VISITED];
        return Err(CannotRead(file));
      }
      NoteRead(file, path + [file]);
      if fs[file].Malformed? {
        visited := visited[file := VISITED];
        return Err(CannotParse(file));
      }
      assert file in Nodes(ImportGraph(fs)) - old(visited).Keys;
      r := LoadParsed(file, path, |old(read)|, old(Now()));
      ReachedAlong(ImportGraph(fs), [], file);
    }

    /** ... once it has been read and parsed. */
    method LoadParsed(file: string, ghost path: seq<string>, ghost n: nat, ghost m: Mark) returns (r: Result)
      requires Since(m) && n == |m.read| && Follows(m, file) && file !in m.visited && FollowedUpTo(file, 0)
      requires file in fs && fs[file].Parsed? && |read| == n + 1 && read[n] == file && file in visited && file !in path
      requires Valid(path + [file]) && OnWay(path, file)
      modifies this`visited, this`finished, this`read, this`picked, this`followed
      ensures Since(m) && PickedSince(fs, old(picked), old(visited), picked) && Follows(m, file)
      ensures r.Ok? ==> Valid(path) && file in finished && file in visited
      ensures r.Ok? ==> FromFiles(r.statements, read[n..]) && AllUnnamed(fs, read[n..], r.statements)
      ensures r.Ok? ==>
        && IsProgramOf(fs, file, r.statements)
        && TakesOver(fs, Links(fs[file].decls), old(visited).Keys, r.statements)
      ensures r.Ok? ==> VisitedFrom(fs, file, old(visited).Keys, visited.Keys) && VisitedFrom(fs, file, {}, SetOf(read[n..]))
      ensures Explained(fs, root, r)
      decreases Nodes(ImportGraph(fs)) - visited.Keys, 7
    {
      r := LoadImports(file, path);
      if r.Err? {
        visited := visited[file := VISITED];
        return;
      }
      FileLoaded(fs, file, old(visited).Keys, visited.Keys, finished, read[|old(read)|..], r.statements);
      ReadFrom(read, n);
      ProgramReached(fs, file, read[n..], r.statements);
      Finish(file, path);
    }

    ghost method NoteRead(file: string, path: seq<string>)
      requires Valid(path) && file !in read && file in visited
      modifies this`read
      ensures Valid(path) && read == old(read) + [file]
    {
      assert Sound(path);
      read := read + [file];
      assert Sound(path);
    }

    method Begin(file: string, ghost path: seq<string>)
      requires Valid(path) && file !in visited && Known(fs, Trail(root, visited.Keys, followed), file) && Reaches(ImportGraph(fs), root, file)
      modifies this`visited
      ensures visited == old(visited)[file := VISITING] && Valid(path + [file])
    {
      assert Sound(path);
      Entering(ImportGraph(fs), visited, finished, path, file);
      VisitNext(fs, Trail(root, visited.Keys, followed), file);
      visited := visited[file := VISITING];
      assert Trail(root, visited.Keys, followed) == Trail(root, old(visited).Keys, followed).(visited := old(visited).Keys + {file});
      assert Sound(path + [file]);
    }

    method Finish(file: string, ghost path: seq<string>)
      requires Valid(path + [file]) && file !in path && file in fs && fs[file].Parsed? && file in read
      requires forall f :: Edge(ImportGraph(fs), file, f) ==> f in finished
      requires PickedUpTo(fs, picked, file, |fs[file].decls|)
      modifies this`visited, this`finished
      ensures visited == old(visited)[file := VISITED] && finished == old(finished) + [file] && Valid(path)
    {
      assert Sound(path + [file]);
      Leaving(ImportGraph(fs), visited, finished, path, file);
      visited, finished := visited[file := VISITED], finished + [file];
      assert visited.Keys == old(visited).Keys;
      assert Sound(path);
    }

    /** `merged` holds what the first `i` statements of `file`, which was read as number
        `n` and only visited since `visited0`, contribute: its own statements, and what
        following their `links` has gathered. */
    ghost predicate Merging(file: string, path: seq<string>, n: nat, i: nat, own: seq<Statement>, merged: seq<Statement>,
                            links: seq<(string, bool)>, visited0: set<string>)
      reads this
    {
      ReadOnce() && forall m: Progress :: m == Progress(file, path, n, i, own, links, visited0) ==> Merged(m, merged)
    }

    ghost predicate Merged(m: Progress, merged: seq<Statement>)
      reads this
    {
      Valid(m.path + [m.file]) && Sound(m.path + [m.file]) && Collected(fs, m, Now(), merged)
    }

    lemma OpenMerging(file: string, path: seq<string>, n: nat, i: nat, own: seq<Statement>, merged: seq<Statement>,
                      links: seq<(string, bool)>, visited0: set<string>)
      requires Merging(file, path, n, i, own, merged, links, visited0)
      ensures Valid(path + [file]) && Collected(fs, Progress(file, path, n, i, own, links, visited0), Now(), merged)
      ensures forall f :: f in finished ==> f in read
      ensures Picks(fs, picked, visited)
    {
      assert Merged(Progress(file, path, n, i, own, links, visited0), merged);
    }

    lemma CloseMerging(file: string, path: seq<string>, n: nat, i: nat, own: seq<Statement>, merged: seq<Statement>,
                       links: seq<(string, bool)>, visited0: set<string>)
      requires Valid(path + [file]) && Collected(fs, Progress(file, path, n, i, own, links, visited0), Now(), merged)
      ensures Merging(file, path, n, i, own, merged, links, visited0)
    {
      assert Sound(path + [file]);
      assert Merged(Progress(file, path, n, i, own, links, visited0), merged);
    }

    /** Notes that statement `i` of `file` is followed to `target`. */
    ghost method Follow(file: string, path: seq<string>, i: nat, target: string)
      requires Valid(path + [file]) && LinksTo(fs, (file, i), target) && FollowedUpTo(file, i + 1)
      modifies this`followed
      ensures Valid(path + [file]) && followed == old(followed) + {(file, i)} && FollowedUpTo(file, i + 1)
      ensures Known(fs, Trail(root, visited.Keys, followed), target)
    {
      OnPathOrFinished(path + [file]);
      assert Sound(path + [file]);
      FollowNext(fs, Trail(root, visited.Keys, followed), (file, i), target);
      followed := followed + {(file, i)};
      assert Sound(path + [file]);
    }

    lemma MergeStart(file: string, path: seq<string>, n: nat)
      requires n + 1 == |read| && read[n] == file && file in visited && Valid(path + [file])
      ensures Merging(file, path, n, 0, [], [], [], visited.Keys)
    {
      assert Merged(Progress(file, path, n, 0, [], [], visited.Keys), []);
    }

    lemma MergeEnd(file: string, path: seq<string>, n: nat, i: nat, own: seq<Statement>, merged: seq<Statement>,
                   links: seq<(string, bool)>, visited0: set<string>)
      requires Merging(file, path, n, i, own, merged, links, visited0)
      ensures Valid(path + [file]) && n < |read| && Content(merged, read[n..], file, i, own) && PickedUpTo(fs, picked, file, i)
      ensures Gathered(fs, links, visited0, visited.Keys, finished, read[n + 1..], merged)
      ensures forall p :: 0 <= p < |links| ==> links[p].0 in finished
    {
      assert Merged(Progress(file, path, n, i, own, links, visited0), merged);
    }

    /** The file's own statement number `i`. */
    lemma MergeOwn(path: seq<string>, n: nat, i: nat, own: seq<Statement>, merged: seq<Statement>, links: seq<(string, bool)>,
                   visited0: set<string>, s: Statement)
      requires Merging(s.file, path, n, i, own, merged, links, visited0) && s.index == i && IsOf(fs, s)
      ensures Merging(s.file, path, n, i + 1, own + [s], merged + [s], links, visited0)
    {
      assert Merged(Progress(s.file, path, n, i, own, links, visited0), merged);
      JoinOwn(merged, read[n..], i, own, s);
      GatherOwn(fs, links, visited0, visited.Keys, finished, read[n + 1..], merged, s);
      assert Merged(Progress(s.file, path, n, i + 1, own + [s], links, visited0), merged + [s]);
    }

    lemma MergeNext(file: string, path: seq<string>, n: nat, i: nat, own: seq<Statement>, merged: seq<Statement>,
                    links: seq<(string, bool)>, visited0: set<string>)
      requires Merging(file, path, n, i, own, merged, links, visited0) && (Selective(fs, (file, i)) ==> (file, i) in picked)
      requires !Unmatched(fs, (file, i))
      ensures Merging(file, path, n, i + 1, own, merged, links, visited0)
    {
      assert Merged(Progress(file, path, n, i, own, links, visited0), merged);
      ContentNext(merged, read[n..], file, i, own);
      assert Merged(Progress(file, path, n, i + 1, own, links, visited0), merged);
    }

    /** The loop over the statements of `file`, which has just been read. */
    method LoadImports(file: string, ghost path: seq<string>) returns (r: Result)
      requires file in fs && fs[file].Parsed? && read != [] && read[|read| - 1] == file && file in visited && FollowedUpTo(file, 0)
      requires Valid(path + [file]) && OnWay(path, file)
      modifies this`visited, this`finished, this`read, this`picked, this`followed
      ensures Since(old(Now())) && Follows(old(Now()), file)
      ensures r.Ok? ==> Valid(path + [file]) && forall f :: Edge(ImportGraph(fs), file, f) ==> f in finished
      ensures r.Ok? ==> PickedUpTo(fs, picked, file, |fs[file].decls|)
      ensures r.Ok? ==>
        && Content(r.statements, read[|old(read)| - 1..], file, |fs[file].decls|, OwnItems(file, fs[file].decls))
        && Gathered(fs, Links(fs[file].decls), old(visited).Keys, visited.Keys, finished, read[|old(read)|..], r.statements)
        && Requested(file, fs[file].decls, r.statements)
      ensures Explained(fs, root, r)
      decreases Nodes(ImportGraph(fs)) - visited.Keys, 6
    {
      var decls := fs[file].decls;
      var merged: seq<Statement> := [];
      ghost var n, m := |read| - 1, Now();
      MergeStart(file, path, n);
      for i := 0 to |decls|
        invariant Since(m) && Follows(m, file) && FollowedUpTo(file, i)
        invariant Merging(file, path, n, i, OwnItems(file, decls[..i]), merged, Links(decls[..i]), m.visited.Keys)
        invariant Requested(file, decls[..i], merged)
      {
        r := LoadDecl(file, path, n, i, merged, m.visited.Keys, m);
        if r.Err? {
          return;
        }
        AddsOn(file, decls, i, merged, r.statements);
        merged := r.statements;
      }
      assert decls[..|decls|] == decls;
      MergeEnd(file, path, n, |decls|, OwnItems(file, decls), merged, Links(decls), m.visited.Keys);
      LinksFinished(fs, file, finished);
      return Ok(merged);
    }

    /** One turn of the loop: what the statement adds to `merged`. */
    method LoadDecl(file: string, ghost path: seq<string>, ghost n: nat, i: nat, merged: seq<Statement>, ghost visited0: set<string>,
                    ghost m: Mark)
      returns (r: Result)
      requires file in fs && fs[file].Parsed? && i < |fs[file].decls| && Since(m) && Follows(m, file) && FollowedUpTo(file, i)
      requires Merging(file, path, n, i, OwnItems(file, fs[file].decls[..i]), merged, Links(fs[file].decls[..i]), visited0)
      requires OnWay(path, file)
      modifies this`visited, this`finished, this`read, this`picked, this`followed
      ensures Since(m) && Follows(m, file) && old(visited).Keys <= visited.Keys && (r.Ok? ==> FollowedUpTo(file, i + 1))
      ensures r.Ok? ==>
        && Adds(file, fs[file].decls[i], merged, r.statements)
        && Merging(file, path, n, i + 1, OwnItems(file, fs[file].decls[..i + 1]), r.statements,
                   Links(fs[file].decls[..i + 1]), visited0)
      ensures Explained(fs, root, r)
      decreases Nodes(ImportGraph(fs)) - visited.Keys, 5
    {
      var decl := fs[file].decls[i];
      ghost var own := OwnItems(file, fs[file].decls[..i]);
      ghost var links := Links(fs[file].decls[..i]);
      OwnItemsNext(file, fs[file].decls, i);
      LinksNext(fs[file].decls, i);
      match decl {
        case Item(name, exported) =>
          var s := Statement(file, i, name, exported);
          MergeOwn(path, n, i, own, merged, links, visited0, s);
          assert links + [] == links;
          return Ok(merged + [s]);
        case Import(target, names) =>
          r := LoadImport(file, path, n, i, target, names, own, merged, links, visited0);
          PickedOn(fs, m.picked, m.visited, old(picked), old(visited), picked);
          if r.Ok? { MergeNext(file, path, n, i, own, r.statements, links + [(target, false)], visited0); }
        case WildcardImport(matches) =>
          r := LoadMatches(file, path, n, i, matches, own, merged, links, visited0);
          PickedOn(fs, m.picked, m.visited, old(picked), old(visited), picked);
          if r.Ok? { MergeNext(file, path, n, i, own, r.statements, links + Matched(matches), visited0); }
      }
    }

    /** An import of one file, with a check of the names asked for. */
    method LoadImport(file: string, ghost path: seq<string>, ghost n: nat, ghost i: nat, target: string, names: seq<string>,
                      ghost own: seq<Statement>, merged: seq<Statement>, ghost links: seq<(string, bool)>, ghost visited0: set<string>)
      returns (r: Result)
      requires file in fs && fs[file].Parsed? && i < |fs[file].decls| && fs[file].decls[i] == Import(target, names)
      requires FollowedUpTo(file, i)
      requires Merging(file, path, n, i, own, merged, links, visited0) && OnWay(path, file)
      modifies this`visited, this`finished, this`read, this`picked, this`followed
      ensures Since(old(Now())) && Follows(old(Now()), file) && (r.Ok? ==> FollowedUpTo(file, i + 1))
      ensures r.Ok? ==>
        && target in finished && (names != [] ==> (file, i) in picked)
        && Merging(file, path, n, i, own, r.statements, links + [(target, false)], visited0)
        && Adds(file, fs[file].decls[i], merged, r.statements)
      ensures target in old(visited) && names != [] ==> r.Err?
      ensures Explained(fs, root, r)
      decreases Nodes(ImportGraph(fs)) - visited.Keys, 4
    {
      OpenMerging(file, path, n, i, own, merged, links, visited0);
      KnownElsewhere(file, path, n, i, own, merged, links, visited0);
      r := LoadTarget(file, path, n, i, target, false, own, merged, links, visited0);
      if r.Err? {
        return;
      }
      RootUnfinished(file, path, n, i, own, merged + Visible(r.statements), links + [(target, false)], visited0);
      ProgramIsBare(fs, target, r.statements);
      r := CheckNames(file, path, n, i, target, names, own, merged, r.statements, links, visited0, old(Now()));
    }

    /** The names are checked against what was loaded, which is then taken over. */
    method CheckNames(file: string, ghost path: seq<string>, ghost n: nat, ghost i: nat, ghost target: string, names: seq<string>,
                      ghost own: seq<Statement>, merged: seq<Statement>, sub: seq<Statement>, ghost links: seq<(string, bool)>,
                      ghost visited0: set<string>, ghost m: Mark)
      returns (r: Result)
      requires file in fs && fs[file].Parsed? && i < |fs[file].decls| && fs[file].decls[i] == Import(target, names)
      requires Since(m) && Follows(m, file) && target in finished && target in visited && OnWay(path, file)
      requires Merging(file, path, n, i, own, merged + Visible(sub), links + [(target, false)], visited0)
      requires OthersBare(sub, target) && (target in m.visited ==> sub == []) && (names != [] ==> LoadOf(fs, root, (file, i), target, sub))
      requires Picks(fs, m.picked, m.visited) && PickedSince(fs, m.picked, m.visited[target := VISITING], picked)
      modifies this`picked
      ensures Since(m) && picked >= old(picked)
      ensures r.Ok? ==>
        && (names != [] ==> (file, i) in picked)
        && Merging(file, path, n, i, own, r.statements, links + [(target, false)], visited0)
        && Adds(file, fs[file].decls[i], merged, r.statements)
      ensures target in m.visited && names != [] ==> r.Err?
      ensures Explained(fs, root, r)
    {
      var bad := FirstBadName(names, sub);
      if bad != [] {
        ReachedAlong(ImportGraph(fs), path, file);
        BadNameExplained(fs, root, (file, i), sub);
        return Err(bad[0]);
      }
      if names != [] {
        assert Exports(sub, names[0]);
        NamesOffered(fs, root, (file, i), sub);
        Pick(file, path, n, i, own, merged + Visible(sub), links + [(target, false)], visited0, m.picked, m.visited);
      }
      ImportAdds(file, target, names, merged, sub);
      r := Ok(merged + Taken(sub, false));
    }

    /** A file that has been visited was imported by another statement than the next one. */
    lemma KnownElsewhere(file: string, path: seq<string>, n: nat, i: nat, own: seq<Statement>, merged: seq<Statement>,
                         links: seq<(string, bool)>, visited0: set<string>)
      requires Merging(file, path, n, i, own, merged, links, visited0) && FollowedUpTo(file, i)
      ensures Selective(fs, (file, i)) && SelectedFrom(fs, (file, i)) in visited ==>
        SelectedFrom(fs, (file, i)) == root || ImportedElsewhere(fs, root, (file, i))
    {
      var target := SelectedFrom(fs, (file, i));
      if Selective(fs, (file, i)) && target in visited && target != root {
        assert Merged(Progress(file, path, n, i, own, links, visited0), merged);
        assert Leads(fs, Trail(root, visited.Keys, followed));
        assert Known(fs, Trail(root, visited.Keys, followed), target);
        var a :| a in followed && LinksTo(fs, a, target);
        assert a != (file, i);
      }
    }

    /** The root is on the path to the end. */
    lemma RootUnfinished(file: string, path: seq<string>, n: nat, i: nat, own: seq<Statement>, merged: seq<Statement>,
                         links: seq<(string, bool)>, visited0: set<string>)
      requires Merging(file, path, n, i, own, merged, links, visited0) && OnWay(path, file)
      ensures root !in finished
    {
      assert Merged(Progress(file, path, n, i, own, links, visited0), merged);
      assert (path + [file])[0] == root;
    }

    /** Notes the selective import that is statement `i` of `file`. */
    ghost method Pick(file: string, path: seq<string>, n: nat, i: nat, own: seq<Statement>, merged: seq<Statement>,
                      links: seq<(string, bool)>, visited0: set<string>, picked1: set<(string, nat)>, visited1: map<string, int>)
      requires Merging(file, path, n, i, own, merged, links, visited0) && Offered(fs, (file, i))
      requires Picks(fs, picked1, visited1) && SelectedFrom(fs, (file, i)) !in visited1 && SelectedFrom(fs, (file, i)) in visited
      requires PickedSince(fs, picked1, visited1[SelectedFrom(fs, (file, i)) := VISITING], picked)
      modifies this`picked
      ensures Merging(file, path, n, i, own, merged, links, visited0)
      ensures picked == old(picked) + {(file, i)} && PickedSince(fs, picked1, visited1, picked)
    {
      OpenMerging(file, path, n, i, own, merged, links, visited0);
      NextPick(fs, picked1, visited1, picked, visited, (file, i));
      PickOn(path + [file], {(file, i)});
      assert Collected(fs, Progress(file, path, n, i, own, links, visited0), Now().(picked := old(picked)), merged);
      CollectPick(fs, Progress(file, path, n, i, own, links, visited0), Now(), merged, {(file, i)});
      CloseMerging(file, path, n, i, own, merged, links, visited0);
    }

    ghost method PickOn(path: seq<string>, more: set<(string, nat)>)
      requires Valid(path) && Picks(fs, picked + more, visited)
      modifies this`picked
      ensures Valid(path) && picked == old(picked) + more
    {
      assert Sound(path);
      picked := picked + more;
      assert Sound(path);
    }

    /** One imported file; what is taken over fits what is merged already. */
    method LoadTarget(file: string, ghost path: seq<string>, ghost n: nat, ghost i: nat, target: string, ghost wildcard: bool,
                      ghost own: seq<Statement>, ghost merged: seq<Statement>, ghost links: seq<(string, bool)>, ghost visited0: set<string>)
      returns (r: Result)
      requires file in fs && fs[file].Parsed? && i < |fs[file].decls| && target in TargetsOf(fs[file].decls[i])
      requires FollowedUpTo(file, i + 1)
      requires Merging(file, path, n, i, own, merged, links, visited0) && OnWay(path, file)
      modifies this`visited, this`finished, this`read, this`picked, this`followed
      ensures Since(old(Now())) && Follows(old(Now()), file) && (r.Ok? ==> FollowedUpTo(file, i + 1))
      ensures r.Ok? ==>
        && target in finished && target in visited
        && Merging(file, path, n, i, own, merged + Taken(r.statements, wildcard), links + [(target, wildcard)], visited0)
      ensures r.Ok? && target in old(visited) ==> r.statements == []
      ensures r.Ok? && target !in old(visited) ==> IsProgramOf(fs, target, r.statements)
      ensures r.Ok? ==> PickedSince(fs, old(picked), old(visited)[target := VISITING], picked)
      ensures Explained(fs, root, r)
      decreases Nodes(ImportGraph(fs)) - visited.Keys, 2
    {
      OpenMerging(file, path, n, i, own, merged, links, visited0);
      ghost var before := Now();
      ImportStep(fs, path, file, i, target);
      Follow(file, path, i, target);
      r := ParseWithDependencies(target, path + [file]);
      if r.Ok? {
        CollectOn(fs, Progress(file, path, n, i, own, links, visited0), before, Now(), merged, target, wildcard, r.statements);
        CloseMerging(file, path, n, i, own, merged + Taken(r.statements, wildcard), links + [(target, wildcard)], visited0);
      }
    }

    /** One file that a wildcard matches, merged. */
    method LoadMatch(file: string, ghost path: seq<string>, ghost n: nat, ghost i: nat, target: string,
                     ghost own: seq<Statement>, merged: seq<Statement>, ghost links: seq<(string, bool)>, ghost visited0: set<string>,
                     ghost m: Mark)
      returns (r: Result)
      requires file in fs && fs[file].Parsed? && i < |fs[file].decls| && target in TargetsOf(fs[file].decls[i])
      requires Merging(file, path, n, i, own, merged, links, visited0) && OnWay(path, file)
      requires Since(m) && Follows(m, file) && FollowedUpTo(file, i + 1)
      modifies this`visited, this`finished, this`read, this`picked, this`followed
      ensures Since(m) && Follows(m, file) && (r.Ok? ==> FollowedUpTo(file, i + 1)) && old(visited).Keys <= visited.Keys && old(finished) <= finished
      ensures r.Ok? ==>
        && target in finished && merged <= r.statements
        && Merging(file, path, n, i, own, r.statements, links + [(target, true)], visited0)
      ensures Explained(fs, root, r)
      decreases Nodes(ImportGraph(fs)) - visited.Keys, 3
    {
      r := LoadTarget(file, path, n, i, target, true, own, merged, links, visited0);
      PickedOn(fs, m.picked, m.visited, old(picked), old(visited), picked);
      if r.Ok? {
        r := Ok(merged + Taken(r.statements, true));
      }
    }

    /** The files that a wildcard matches. */
    method LoadMatches(file: string, ghost path: seq<string>, ghost n: nat, ghost i: nat, matches: seq<string>,
                       ghost own: seq<Statement>, before: seq<Statement>, ghost links: seq<(string, bool)>, ghost visited0: set<string>)
      returns (r: Result)
      requires file in fs && fs[file].Parsed? && i < |fs[file].decls| && fs[file].decls[i] == WildcardImport(matches)
      requires FollowedUpTo(file, i + 1)
      requires Merging(file, path, n, i, own, before, links, visited0) && OnWay(path, file)
      modifies this`visited, this`finished, this`read, this`picked, this`followed
      ensures Since(old(Now())) && Follows(old(Now()), file) && (r.Ok? ==> FollowedUpTo(file, i + 1))
      ensures matches == [] ==> r == Err(NoMatch(file))
      ensures r.Ok? ==>
        && before <= r.statements
        && Merging(file, path, n, i, own, r.statements, links + Matched(matches), visited0)
      ensures Explained(fs, root, r)
      decreases Nodes(ImportGraph(fs)) - visited.Keys, 4
    {
      if |matches| == 0 {
        ReachedAlong(ImportGraph(fs), path, file);
        return Err(NoMatch(file));
      }
      var merged := before;
      assert links + [] == links;
      for j := 0 to |matches|
        invariant Since(old(Now())) && Follows(old(Now()), file) && FollowedUpTo(file, i + 1)
        invariant before <= merged && Merging(file, path, n, i, own, merged, links + Matched(matches[..j]), visited0)
      {
        LinksMatched(links, matches, j);
        r := LoadMatch(file, path, n, i, matches[j], own, merged, links + Matched(matches[..j]), visited0, old(Now()));
        if r.Err? {
          return;
        }
        merged := r.statements;
      }
      assert matches[..|matches|] == matches;
      return Ok(merged);
    }
  }

  /** Of all files that can be reached, no two statements import names from the same. */
  ghost predicate SelectsOnce(fs: FileSystem, entry: string) {
    forall a, b :: Selects(fs, entry, a) && Selects(fs, entry, b) && SelectedFrom(fs, a) == SelectedFrom(fs, b) ==> a == b
  }

  ghost predicate Selects(fs: FileSystem, entry: string, at: (string, nat)) {
    Reaches(ImportGraph(fs), entry, at.0) && Selective(fs, at)
  }

  lemma AllPickedOnce(fs: FileSystem, entry: string, picked: set<(string, nat)>, files: seq<string>)
    requires SelectedOnce(fs, picked) && PickedAll(fs, picked, files)
    requires forall f :: Reaches(ImportGraph(fs), entry, f) ==> f in files
    ensures SelectsOnce(fs, entry)
  {
    forall a | Selects(fs, entry, a) ensures a in picked {
      assert a == (a.0, a.1);
    }
  }

  /** Two files that import a name from a third, which exports it. */
  function Diamond(): FileSystem {
    map["main" := Parsed([Import("lib", ["f"]), Import("util", [])]),
        "util" := Parsed([Import("lib", ["f"])]),
        "lib" := Parsed([Item("f", true)])]
  }

  /** Such a program cannot be loaded, for the second import finds its file read already
      and nothing in it. */
  lemma DiamondSelectsTwice()
    ensures !SelectsOnce(Diamond(), "main")
  {
    var fs, g := Diamond(), ImportGraph(Diamond());
    DiamondEdge();
    ReachedAlong(g, [], "main");
    ReachedAlong(g, ["main"], "util");
    var a: (string, nat), b: (string, nat) := ("main", 0), ("util", 0);
    assert Selects(fs, "main", a) && Selects(fs, "main", b) && SelectedFrom(fs, a) == SelectedFrom(fs, b) == "lib";
    assert "main" != "util";
  }

  lemma DiamondEdge()
    ensures Edge(ImportGraph(Diamond()), "main", "util")
  {
    var decls := [Import("lib", ["f"]), Import("util", [])];
    assert decls[1..] == [Import("util", [])] && decls[1..][1..] == [];
    assert Targets(decls) == ["lib"] + (["util"] + []);
  }

  /** Statement `k` of `target` is taken over by an import that names `target` when it
      declares no name or is exported, and otherwise not. */
  predicate ItemTaken(fs: FileSystem, target: string, k: nat, ss: seq<Statement>)
    requires target in fs && fs[target].Parsed? && k < |fs[target].decls|
  {
    var taken :=
      match fs[target].decls[k]
      case Item(name, exported) =>
        if name == "" then Statement(target, k, "", exported) in ss
        else if exported then Statement(target, k, name, false) in ss
        else forall i :: 0 <= i < |ss| ==> ss[i].file != target || ss[i].index != k
      case _ => true;
    taken
  }

  predicate VisibleTaken(fs: FileSystem, target: string, ss: seq<Statement>) {
    target in fs && fs[target].Parsed? && forall k: nat :: k < |fs[target].decls| ==> ItemTaken(fs, target, k, ss)
  }

  /** Statement `i` imports a file that no earlier statement leads to. */
  ghost predicate FirstImport(fs: FileSystem, entry: string, decls: seq<Decl>, i: nat) {
    i < |decls| && decls[i].Import? && decls[i].target != entry
    && forall f :: f in Targets(decls[..i]) ==> !Reaches(ImportGraph(fs), f, decls[i].target)
  }

  lemma FirstImportTaken(fs: FileSystem, entry: string, decls: seq<Decl>, i: nat, ss: seq<Statement>)
    requires TakesOver(fs, Links(decls), {entry}, ss) && FirstImport(fs, entry, decls, i)
    ensures VisibleTaken(fs, decls[i].target, ss)
  {
    FirstLinkIsNew(fs, entry, decls, i);
    var target := decls[i].target;
    forall k: nat | k < |fs[target].decls| ensures ItemTaken(fs, target, k, ss) {
      KeptIsTaken(fs, target, k, ss);
    }
  }

  lemma FirstLinkIsNew(fs: FileSystem, entry: string, decls: seq<Decl>, i: nat)
    requires FirstImport(fs, entry, decls, i)
    ensures var p := |Links(decls[..i])|;
            p < |Links(decls)| && Links(decls)[p] == (decls[i].target, false) && New(fs, Links(decls), {entry}, p)
  {
    var links, before := Links(decls), Links(decls[..i]);
    LinksPrefix(decls, i + 1);
    LinksNext(decls, i);
    forall q | 0 <= q < |before| ensures !Reaches(ImportGraph(fs), links[q].0, decls[i].target) {
      LinkIsEdge(decls[..i], q);
      assert links[q] == before[q];
    }
  }

  lemma KeptIsTaken(fs: FileSystem, target: string, k: nat, ss: seq<Statement>)
    requires target in fs && fs[target].Parsed? && k < |fs[target].decls|
    requires Own(ss, target) == Kept(target, fs[target].decls, false)
    ensures ItemTaken(fs, target, k, ss)
  {
    var decls := fs[target].decls;
    KeptAre(target, decls, false);
    if decls[k].Item? {
      var s := Statement(target, k, decls[k].name, decls[k].name == "" && decls[k].exported);
      if s.name == "" || decls[k].exported {
        OwnIsIn(ss, target, s);
      } else {
        forall i | 0 <= i < |ss| && ss[i].file == target ensures ss[i].index != k {
          InIsOwn(ss, target, i);
        }
      }
    }
  }

  lemma {:induction false} LinksPrefix(decls: seq<Decl>, i: nat)
    requires i <= |decls|
    ensures Links(decls[..i]) <= Links(decls)
  {
    if i < |decls| {
      LinksPrefix(decls[..|decls| - 1], i);
      assert decls[..|decls| - 1][..i] == decls[..i];
    } else {
      assert decls[..i] == decls;
    }
  }

  /** What the merged program holds of the files that it is made from. */
  ghost predicate MergedProgram(fs: FileSystem, entry: string, decls: seq<Decl>, ss: seq<Statement>) {
    && Own(ss, entry) == OwnItems(entry, decls) && OthersBare(ss, entry) && Genuine(fs, ss)
    && NamesBound(decls, ss) && NamedAreDirect(entry, decls, ss)
    && TakesOver(fs, Links(decls), {entry}, ss)
    && (forall f :: Reaches(ImportGraph(fs), entry, f) ==> HoldsUnnamed(fs, f, ss))
  }

  /** A program that is in order: no cycle, every file read and parsed, every wildcard
      matched, and every name asked for exported by the file asked. */
  ghost predicate InOrder(fs: FileSystem, entry: string) {
    AcyclicFrom(ImportGraph(fs), entry)
    && (forall f :: Reaches(ImportGraph(fs), entry, f) ==> f in fs && fs[f].Parsed? && WildcardImport([]) !in fs[f].decls)
    && forall at, name :: Asks(fs, entry, at, name) ==> ExportsItem(fs, SelectedFrom(fs, at), name)
  }

  /** A file that names are imported from is imported by one statement only. */
  ghost predicate SelectedAlone(fs: FileSystem, entry: string) {
    forall at :: Selects(fs, entry, at) ==> !ImportedElsewhere(fs, entry, at)
  }

  /** Only in such a program an error comes up, or else where a file that is selected from
      is imported elsewhere. */
  lemma ErrorIsDisorder(fs: FileSystem, entry: string, e: Error)
    requires Holds(fs, entry, e) && SelectedAlone(fs, entry)
    ensures !InOrder(fs, entry)
  {
    match e
    case Undefined(name) =>
      var at :| Asks(fs, entry, at, name) && (ImportedElsewhere(fs, entry, at) || !Declares(fs, SelectedFrom(fs, at), name));
      assert Selects(fs, entry, at);
    case NotExported(name) =>
    case _ =>
  }

  /** Loading a program from its entry file ends and reads no file twice. An error is true
      of a file that can be reached from the entry. If it succeeds, no cycle can be
      reached from the entry, every reachable file was read, and no file was imported from
      by name twice. The merged program holds no statement twice, the entry's own
      statements in order, and nothing else but bare statements of files read: every
      statement of a reachable file that declares no name, and of each file that the entry
      is the first to import just what is visible, among it every name asked for. */
  method LoadProject(fs: FileSystem, entry: string) returns (r: Result, ghost read: seq<string>)
    ensures NoDuplicates(read)
    ensures r.Ok? ==> InOrder(fs, entry) && FromFiles(r.statements, read)
    ensures InOrder(fs, entry) && SelectedAlone(fs, entry) ==> r.Ok?
    ensures r.Ok? ==> entry in fs && fs[entry].Parsed? && MergedProgram(fs, entry, fs[entry].decls, r.statements)
    ensures r.Ok? ==> forall i: nat :: FirstImport(fs, entry, fs[entry].decls, i) ==>
      VisibleTaken(fs, fs[entry].decls[i].target, r.statements)
    ensures r.Ok? ==> forall f :: Reaches(ImportGraph(fs), entry, f) ==> f in read
    ensures r.Ok? ==> SelectsOnce(fs, entry)
    ensures Explained(fs, entry, r)
  {
    var loader := new Loader(fs, entry);
    r := loader.ParseWithDependencies(entry, []);
    read := loader.read;
    if r.Ok? {
      loader.AllSound();
      ProjectFinished(fs, entry, loader.finished, loader.picked);
      ProjectInOrder(fs, entry, loader.finished, loader.picked, loader.visited);
      ProgramFacts(fs, entry, r.statements);
      ProjectMerged(fs, entry, read, r.statements);
    } else if SelectedAlone(fs, entry) {
      ErrorIsDisorder(fs, entry, r.error);
    }
  }

  lemma ProjectMerged(fs: FileSystem, entry: string, read: seq<string>, ss: seq<Statement>)
    requires entry in fs && fs[entry].Parsed? && Complete(entry, fs[entry].decls, ss) && Genuine(fs, ss)
    requires TakesOver(fs, Links(fs[entry].decls), map[entry := VISITING].Keys, ss) && AllUnnamed(fs, read[0..], ss)
    requires forall f :: Reaches(ImportGraph(fs), entry, f) ==> f in read
    ensures MergedProgram(fs, entry, fs[entry].decls, ss)
    ensures forall i: nat :: FirstImport(fs, entry, fs[entry].decls, i) ==> VisibleTaken(fs, fs[entry].decls[i].target, ss)
  {
    assert map[entry := VISITING].Keys == {entry};
    assert read[0..] == read;
    forall i: nat | FirstImport(fs, entry, fs[entry].decls, i) ensures VisibleTaken(fs, fs[entry].decls[i].target, ss) {
      FirstImportTaken(fs, entry, fs[entry].decls, i, ss);
    }
  }

  lemma ProgramFacts(fs: FileSystem, entry: string, ss: seq<Statement>)
    requires IsProgramOf(fs, entry, ss)
    ensures entry in fs && fs[entry].Parsed? && Complete(entry, fs[entry].decls, ss) && Genuine(fs, ss)
  {}

  lemma ProjectInOrder(fs: FileSystem, entry: string, finished: seq<string>, picked: set<(string, nat)>, visited: map<string, int>)
    requires AcyclicFrom(ImportGraph(fs), entry) && forall f :: Reaches(ImportGraph(fs), entry, f) ==> f in finished
    requires forall f :: f in finished ==> f in fs && fs[f].Parsed?
    requires Picks(fs, picked, visited) && PickedAll(fs, picked, finished)
    ensures InOrder(fs, entry)
  {
    forall f | Reaches(ImportGraph(fs), entry, f) ensures f in fs && fs[f].Parsed? && WildcardImport([]) !in fs[f].decls {
      forall j: nat | j < |fs[f].decls| ensures fs[f].decls[j] != WildcardImport([]) { assert !Unmatched(fs, (f, j)); }
    }
    forall at, name | Asks(fs, entry, at, name) ensures ExportsItem(fs, SelectedFrom(fs, at), name) {
      assert at == (at.0, at.1) && at in picked && Offered(fs, at);
    }
  }

  lemma ProjectFinished(fs: FileSystem, entry: string, finished: seq<string>, picked: set<(string, nat)>)
    requires Scheduled(ImportGraph(fs), finished) && entry in finished
    requires SelectedOnce(fs, picked) && PickedAll(fs, picked, finished)
    ensures AcyclicFrom(ImportGraph(fs), entry) && SelectsOnce(fs, entry)
    ensures forall f :: Reaches(ImportGraph(fs), entry, f) ==> f in finished
  {
    var g := ImportGraph(fs);
    forall f | Reaches(g, entry, f) ensures f in finished {
      var w :| w != [] && w[0] == entry && w[|w| - 1] == f && Walk(g, w);
      WalkStaysScheduled(g, finished, w, |w| - 1);
    }
    forall p | ClosedWalk(g, p) ensures !Reaches(g, entry, p[0]) {
      ScheduleExcludesCycles(g, finished, p);
    }
    AllPickedOnce(fs, entry, picked, finished);
  }

  lemma {:induction false} WalkStaysScheduled(g: Graph, order: seq<string>, w: seq<string>, k: nat)
    requires Scheduled(g, order) && Walk(g, w) && k < |w| && w[0] in order
    ensures w[k] in order
  {
    if k > 0 {
      WalkStaysScheduled(g, order, w, k - 1);
      assert Edge(g, w[k - 1], w[k]);
      var i :| 0 <= i < |order| && order[i] == w[k - 1];
    }
  }
}
