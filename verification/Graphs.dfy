// Directed graphs as adjacency lists, and the bookkeeping of the three-colour
// depth-first search that the workflow check (compiler/analyze.go) and the import
// loader (cmd_build.go) both keep: what is finished is a schedule.
module Graphs {
  type Graph = map<string, seq<string>>

  predicate Edge(g: Graph, u: string, v: string) {
    u in g && v in g[u]
  }

  function Nodes(g: Graph): set<string> {
    g.Keys + (set u, v | u in g && v in g[u] :: v)
  }

  /** Each name depends on the next. */
  predicate Walk(g: Graph, p: seq<string>) {
    forall i :: 0 < i < |p| ==> Edge(g, p[i - 1], p[i])
  }

  /** A cycle, written with its first name repeated at the end. */
  predicate ClosedWalk(g: Graph, p: seq<string>) {
    |p| >= 2 && p[0] == p[|p| - 1] && Walk(g, p)
  }

  ghost predicate HasCycle(g: Graph) {
    exists p :: ClosedWalk(g, p)
  }

  /** Every name in `order` depends only on names before it. */
  ghost predicate Scheduled(g: Graph, order: seq<string>) {
    forall i, v :: 0 <= i < |order| && Edge(g, order[i], v) ==> v in order[..i]
  }

  /** A schedule that runs every step. */
  ghost predicate HasSchedule(g: Graph) {
    exists order :: Scheduled(g, order) && forall u :: u in g ==> u in order
  }

  /** What can be scheduled is free of cycles. */
  lemma ScheduleExcludesCycles(g: Graph, order: seq<string>, p: seq<string>)
    requires Scheduled(g, order) && ClosedWalk(g, p)
    ensures p[0] !in order
  {
    if p[0] in order {
      var i := FirstIndex(order, p[0]);
      StaysBefore(g, order, p, i, |p| - 1);
    }
  }

  /** A name whose dependencies are all scheduled can be scheduled next. */
  lemma ScheduledNext(g: Graph, order: seq<string>, u: string)
    requires Scheduled(g, order) && forall v :: Edge(g, u, v) ==> v in order
    ensures Scheduled(g, order + [u])
  {
    var longer := order + [u];
    forall i, v | 0 <= i < |longer| && Edge(g, longer[i], v) ensures v in longer[..i] {
      assert longer[..i] == order[..i];
    }
  }

  lemma SchedulableIsAcyclic(g: Graph)
    ensures !(HasSchedule(g) && HasCycle(g))
  {
    if HasSchedule(g) && HasCycle(g) {
      var order :| Scheduled(g, order) && forall u :: u in g ==> u in order;
      var p :| ClosedWalk(g, p);
      assert Edge(g, p[0], p[1]);
      ScheduleExcludesCycles(g, order, p);
      assert false;
    }
  }

  function FirstIndex(order: seq<string>, u: string): (i: nat)
    requires u in order
    ensures i < |order| && order[i] == u && u !in order[..i]
  {
    if order[0] == u then 0
    else
      var i := FirstIndex(order[1..], u) + 1;
      assert order[..i] == [order[0]] + order[1..][..i - 1];
      i
  }

  lemma {:induction false} StaysBefore(g: Graph, order: seq<string>, p: seq<string>, i: nat, k: nat)
    requires Scheduled(g, order) && Walk(g, p)
    requires i < |order| && 0 < k < |p| && order[i] == p[0]
    ensures p[k] in order[..i]
  {
    if k > 1 {
      StaysBefore(g, order, p, i, k - 1);
      var j :| 0 <= j < i && order[j] == p[k - 1];
      assert order[..j] <= order[..i];
    }
    assert Edge(g, p[k - 1], p[k]);
  }

  // ----- Three-colour search -----

  const VISITING := 1
  const VISITED := 2

  /** The names on `path` are the ones being visited; the finished ones depend
      only on names finished earlier. */
  ghost predicate Coherent(g: Graph, visited: map<string, int>, finished: seq<string>, path: seq<string>) {
    && (forall u :: u in visited ==> visited[u] == VISITING || visited[u] == VISITED)
    && (forall u :: u in path <==> u in visited && visited[u] == VISITING)
    && (forall u :: u in finished <==> u in visited && visited[u] == VISITED)
    && Scheduled(g, finished)
  }

  lemma Entering(g: Graph, visited: map<string, int>, finished: seq<string>, path: seq<string>, u: string)
    requires Coherent(g, visited, finished, path) && u !in visited
    ensures Coherent(g, visited[u := VISITING], finished, path + [u])
  {
  }

  lemma Leaving(g: Graph, visited: map<string, int>, finished: seq<string>, path: seq<string>, u: string)
    requires Coherent(g, visited, finished, path + [u]) && u !in path
    requires forall v :: Edge(g, u, v) ==> v in finished
    ensures Coherent(g, visited[u := VISITED], finished + [u], path)
  {
    ScheduledNext(g, finished, u);
    forall v ensures v in path ==> v in path + [u] {
    }
  }
}
