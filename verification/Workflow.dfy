// The workflow check of the semantic analyser (compiler/analyze.go): which `let`
// depends on which, and the three-colour search that looks for a cyclic
// dependency.
module Workflow {
  import opened Ast
  import opened Graphs

  datatype WorkflowDecl = WorkflowDecl(name: string, body: seq<Stmt>, line: int, col: int)

  // ----- The dependency graph -----

  /** The identifiers an initialiser refers to, as far as the analyser looks. */
  function ReferencedIdents(e: Expr): seq<string>
    decreases e
  {
    match e
    case Ident(name) => [name]
    case Await(value) => ReferencedIdents(value)
    case Call(fn, _, args) => ReferencedIdents(fn) + ReferencedInAll(args)
    case Infix(left, _, right) => ReferencedIdents(left) + ReferencedIdents(right)
    case Prefix(_, right) => ReferencedIdents(right)
    case Index(left, index) => ReferencedIdents(left) + ReferencedIdents(index)
    case Member(obj, _) => ReferencedIdents(obj)
    case _ => []
  }

  function ReferencedInAll(es: seq<Expr>): seq<string> {
    if es == [] then [] else ReferencedIdents(es[0]) + ReferencedInAll(es[1..])
  }

  /** The `let`s the analyser walks over, in source order: it looks into blocks, both
      branches of an if and loop bodies, and nowhere else. */
  function Lets(body: seq<Stmt>): seq<(string, seq<string>)>
    decreases body
  {
    if body == [] then [] else LetsOf(body[0]) + Lets(body[1..])
  }

  function LetsOf(s: Stmt): seq<(string, seq<string>)>
    decreases s
  {
    if s.Let? then [(s.name, ReferencedIdents(s.value))]
    else if s.Block? || s.ForCond? || s.ForIn? then Lets(s.body)
    else if s.If? then Lets(s.body) + (if s.els.Else? then Lets(s.els.body) else [])
    else []
  }

  /** The adjacency map: the last `let` of a name decides what the name depends on. */
  function GraphOf(lets: seq<(string, seq<string>)>): Graph {
    if lets == [] then map[]
    else GraphOf(lets[..|lets| - 1])[lets[|lets| - 1].0 := lets[|lets| - 1].1]
  }

  /** A name depends on what its last `let` refers to, and a name without one on nothing. */
  lemma {:induction false} LastLetDecides(lets: seq<(string, seq<string>)>, u: string)
    ensures u in GraphOf(lets) <==> exists i :: 0 <= i < |lets| && lets[i].0 == u
    ensures forall i :: 0 <= i < |lets| && lets[i].0 == u && (forall j :: i < j < |lets| ==> lets[j].0 != u) ==>
      GraphOf(lets)[u] == lets[i].1
  {
    if lets != [] {
      var n := |lets| - 1;
      var before := lets[..n];
      LastLetDecides(before, u);
      assert lets[n].0 == u || forall i :: 0 <= i < n ==> before[i] == lets[i];
      assert u in GraphOf(before) ==> exists i :: 0 <= i < n && before[i].0 == u;
    }
  }

  /** Steps that refer only to names let before them are never reported. */
  lemma {:induction false} BackwardReferencesHaveNoCycle(lets: seq<(string, seq<string>)>)
    requires forall i, j :: 0 <= i <= j < |lets| ==> lets[j].0 !in lets[i].1
    ensures !HasCycle(GraphOf(lets))
  {
    var g := GraphOf(lets);
    if HasCycle(g) {
      var p :| ClosedWalk(g, p);
      assert Edge(g, p[0], p[1]);
      var n := |lets| - 1;
      var u := lets[n].0;
      NothingRefersTo(lets, u);
      forall k | 0 <= k < |p| ensures p[k] != u {
        if k == 0 { assert Edge(g, p[|p| - 2], p[|p| - 1]); } else { assert Edge(g, p[k - 1], p[k]); }
      }
      BackwardReferencesHaveNoCycle(lets[..n]);
      assert ClosedWalk(GraphOf(lets[..n]), p) by {
        forall k | 0 < k < |p| ensures Edge(GraphOf(lets[..n]), p[k - 1], p[k]) {
          assert Edge(g, p[k - 1], p[k]);
        }
      }
    }
  }

  lemma {:induction false} NothingRefersTo(lets: seq<(string, seq<string>)>, v: string)
    requires forall i :: 0 <= i < |lets| ==> v !in lets[i].1
    ensures forall u :: !Edge(GraphOf(lets), u, v)
  {
    if lets != [] {
      NothingRefersTo(lets[..|lets| - 1], v);
      forall u ensures !Edge(GraphOf(lets), u, v) {
        assert !Edge(GraphOf(lets[..|lets| - 1]), u, v);
      }
    }
  }

  lemma LetsOfIf(s: Stmt, before: seq<(string, seq<string>)>)
    requires s.If?
    ensures s.els.Else? ==> before + LetsOf(s) == before + Lets(s.body) + Lets(s.els.body)
    ensures !s.els.Else? ==> before + LetsOf(s) == before + Lets(s.body)
  {
  }

  // ----- The search -----

  class Analyzer {
    var adj: Graph
    var visited: map<string, int>  // absent: 0, not visited yet
    ghost var finished: seq<string>  // the visited names, in the order they were finished

    constructor ()
      ensures adj == map[] && visited == map[] && finished == []
    {
      adj, visited, finished := map[], map[], [];
    }

    ghost predicate Valid(path: seq<string>)
      reads this
    {
      Coherent(adj, visited, finished, path)
    }

    /** Adds the `let`s of a statement list to the adjacency map, after those in `before`. */
    method AddLets(body: seq<Stmt>, ghost before: seq<(string, seq<string>)>)
      requires adj == GraphOf(before)
      modifies this`adj
      ensures adj == GraphOf(before + Lets(body))
      decreases body
    {
      ghost var done := before;
      assert body[0..] == body;
      for i := 0 to |body|
        invariant adj == GraphOf(done)
        invariant before + Lets(body) == done + Lets(body[i..])
      {
        assert body[i..][0] == body[i] && body[i..][1..] == body[i + 1..];
        AddLetsOf(body[i], done);
        done := done + LetsOf(body[i]);
      }
      assert done + Lets(body[|body|..]) == done;
    }

    method AddLetsOf(s: Stmt, ghost before: seq<(string, seq<string>)>)
      requires adj == GraphOf(before)
      modifies this`adj
      ensures adj == GraphOf(before + LetsOf(s))
      decreases s
    {
      if s.Let? {
        adj := adj[s.name := ReferencedIdents(s.value)];
        assert (before + LetsOf(s))[..|before|] == before;
      } else if s.Block? || s.ForCond? || s.ForIn? {
        AddLets(s.body, before);
      } else if s.If? {
        AddLets(s.body, before);
        LetsOfIf(s, before);
        if s.els.Else? {
          AddLets(s.els.body, before + Lets(s.body));
        }
      } else {
        assert before + [] == before;
      }
    }

    /** Visits `node` and everything it depends on, reached along `path`. A non-empty
        result is a cycle; otherwise all of it is finished. */
    method DetectCycle(node: string, path: seq<string>) returns (cycle: seq<string>)
      requires Valid(path) && node in Nodes(adj) && node !in visited && Walk(adj, path + [node])
      modifies this`visited, this`finished
      ensures cycle != [] ==> ClosedWalk(adj, cycle)
      ensures cycle == [] ==> Valid(path) && node in finished
      ensures old(finished) <= finished && old(visited).Keys <= visited.Keys
      decreases Nodes(adj) - visited.Keys
    {
      Entering(adj, visited, finished, path, node);
      visited := visited[node := VISITING];
      var path' := path + [node];
      var deps := if node in adj then adj[node] else [];
      for i := 0 to |deps|
        invariant Valid(path')
        invariant old(finished) <= finished && old(visited).Keys + {node} <= visited.Keys
        invariant forall k :: 0 <= k < i ==> deps[k] in finished
      {
        var dep := deps[i];
        assert Edge(adj, node, dep);
        if dep in visited && visited[dep] == VISITING {
          cycle := CycleAlong(path', dep);
          return;
        }
        if dep !in visited {
          cycle := DetectCycle(dep, path');
          if cycle != [] {
            return;
          }
        }
      }
      Leaving(adj, visited, finished, path, node);
      visited, finished := visited[node := VISITED], finished + [node];
      return [];
    }

    /** The part of the path from `dep` on, closed by `dep`. */
    method CycleAlong(path: seq<string>, dep: string) returns (cycle: seq<string>)
      requires dep in path && Walk(adj, path) && Edge(adj, path[|path| - 1], dep)
      ensures ClosedWalk(adj, cycle)
    {
      for i := 0 to |path|
        invariant dep !in path[..i]
      {
        if path[i] == dep {
          return path[i..] + [dep];
        }
      }
      assert false;
    }

    /** Starts the search at every name, in any order. */
    method FindCycle() returns (cycle: seq<string>)
      requires Valid([])
      modifies this`visited, this`finished
      ensures cycle != [] ==> ClosedWalk(adj, cycle)
      ensures cycle == [] ==> HasSchedule(adj)
    {
      var todo := adj.Keys;
      while todo != {}
        invariant Valid([])
        invariant todo <= adj.Keys && forall u :: u in adj && u !in todo ==> u in finished
      {
        var node :| node in todo;
        todo := todo - {node};
        if node !in visited {
          cycle := DetectCycle(node, []);
          if cycle != [] {
            return;
          }
        }
      }
      return [];
    }
  }

  function DependenciesOf(wf: WorkflowDecl): Graph {
    GraphOf(Lets(wf.body))
  }
}
