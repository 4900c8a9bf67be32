// Finite relations on numbers: either they go round in a circle somewhere, or the
// numbers can be put in an order in which each is related to earlier ones only. The
// order is built from nothing by taking, as long as there is one, a number that leads
// only to numbers taken already; what is left over when there is none leads into
// itself, and whoever walks on inside it comes by some number a second time. Numbers in
// order lead down in the order, so no circle goes through them.
module Circles {
  type Links = set<(nat, nat)>

  predicate Follows(links: Links, w: seq<nat>) {
    forall k :: 0 < k < |w| ==> (w[k - 1], w[k]) in links
  }

  /** A walk along the links that ends where it began. */
  predicate Circle(links: Links, w: seq<nat>) {
    |w| >= 2 && w[0] == w[|w| - 1] && Follows(links, w)
  }

  ghost predicate Cyclic(links: Links) {
    exists w :: Circle(links, w)
  }

  ghost predicate LeadsInto(links: Links, i: nat, w: set<nat>) {
    exists j :: j in w && (i, j) in links
  }

  /** Everything in `w` leads into `w`. */
  ghost predicate Trap(links: Links, w: set<nat>) {
    w != {} && forall i :: i in w ==> LeadsInto(links, i, w)
  }

  /** Whoever walks on inside a finite set comes by somewhere again. */
  lemma TrapIsCyclic(links: Links, w: set<nat>)
    requires Trap(links, w)
    ensures Cyclic(links)
  {
    var i :| i in w;
    WalkOn(links, w, [i]);
  }

  lemma {:induction false} WalkOn(links: Links, w: set<nat>, path: seq<nat>)
    requires Trap(links, w) && path != [] && Follows(links, path)
    requires forall k :: 0 <= k < |path| ==> path[k] in w
    ensures Cyclic(links)
    decreases w - Elements(path)
  {
    var last := path[|path| - 1];
    assert LeadsInto(links, last, w);
    var next :| next in w && (last, next) in links;
    if next in path {
      var k :| 0 <= k < |path| && path[k] == next;
      assert Circle(links, path[k..] + [next]);
    } else {
      ElementsNext(path, next);
      WalkOn(links, w, path + [next]);
    }
  }

  function Below(n: nat): (all: set<nat>)
    ensures forall i: nat :: i in all <==> i < n
  {
    if n == 0 then {} else Below(n - 1) + {n - 1}
  }

  function Elements(path: seq<nat>): set<nat> {
    set i | i in path
  }

  lemma ElementsNext(path: seq<nat>, i: nat)
    ensures Elements(path + [i]) == Elements(path) + {i}
  {
  }

  /** `links` from `i` lead into `earlier` only. */
  predicate OnlyInto(links: Links, i: nat, earlier: seq<nat>) {
    forall l :: l in links && l.0 == i ==> l.1 in earlier
  }

  predicate Ordered(links: Links, order: seq<nat>) {
    && (forall j, k :: 0 <= j < k < |order| ==> order[j] != order[k])
    && forall k :: 0 <= k < |order| ==> OnlyInto(links, order[k], order[..k])
  }

  lemma OrderedNext(links: Links, order: seq<nat>, i: nat)
    requires Ordered(links, order) && OnlyInto(links, i, order) && i !in order
    ensures Ordered(links, order + [i])
  {
    var next := order + [i];
    forall k | 0 <= k < |next| ensures OnlyInto(links, next[k], next[..k]) {
      assert next[..k] == order[..k];
    }
  }

  /** Puts as many of `all` in order as possible; those left over are a trap. */
  lemma {:induction false} PutInOrder(links: Links, all: set<nat>, start: seq<nat>) returns (order: seq<nat>, rest: set<nat>)
    requires Ordered(links, start) && (forall i :: i in start ==> i in all) && forall l :: l in links ==> l.1 in all
    ensures Ordered(links, order) && (forall i :: i in order ==> i in all)
    ensures rest == all - Elements(order) && (rest == {} || Trap(links, rest))
    decreases all - Elements(start)
  {
    rest := all - Elements(start);
    if i :| i in rest && OnlyInto(links, i, start) {
      OrderedNext(links, start, i);
      ElementsNext(start, i);
      order, rest := PutInOrder(links, all, start + [i]);
    } else {
      order := start;
      forall i | i in rest ensures LeadsInto(links, i, rest) {
        assert !OnlyInto(links, i, start);
        var l :| l in links && l.0 == i && l.1 !in start;
        assert l == (i, l.1);
      }
    }
  }

  function IndexIn(order: seq<nat>, i: nat): (k: nat)
    requires i in order
    ensures k < |order| && order[k] == i
  {
    if order[0] == i then 0 else IndexIn(order[1..], i) + 1
  }

  /** Links lead down in the order. */
  lemma Down(links: Links, order: seq<nat>, i: nat, j: nat)
    requires Ordered(links, order) && i in order && (i, j) in links
    ensures j in order && IndexIn(order, j) < IndexIn(order, i)
  {
    var k := IndexIn(order, i);
    assert OnlyInto(links, order[k], order[..k]);
    var x :| 0 <= x < k && order[..k][x] == j;
    assert order[x] == j && order[IndexIn(order, j)] == j;
  }

  lemma {:induction false} WalkGoesDown(links: Links, order: seq<nat>, w: seq<nat>, k: nat)
    requires Ordered(links, order) && Follows(links, w) && 0 < k < |w| && w[0] in order
    ensures w[k] in order && IndexIn(order, w[k]) < IndexIn(order, w[0])
  {
    if k > 1 { WalkGoesDown(links, order, w, k - 1); }
    Down(links, order, w[k - 1], w[k]);
  }

  /** What is in order goes round in no circle. */
  lemma OrderedIsNoCircle(links: Links, order: seq<nat>, w: seq<nat>)
    requires Ordered(links, order) && |w| >= 1 && w[0] in order
    ensures !Circle(links, w)
  {
    if Circle(links, w) { WalkGoesDown(links, order, w, |w| - 1); }
  }

  lemma OrderedIsNoTrap(links: Links, order: seq<nat>, w: set<nat>)
    requires Ordered(links, order) && forall i :: i in w ==> i in order
    ensures !Trap(links, w)
  {
    if w != {} {
      var i := LeastIn(order, w);
      forall j | j in w ensures (i, j) !in links {
        if (i, j) in links { Down(links, order, i, j); }
      }
    }
  }

  lemma {:induction false} LeastIn(order: seq<nat>, w: set<nat>) returns (i: nat)
    requires w != {} && forall i :: i in w ==> i in order
    ensures i in w && forall j :: j in w ==> IndexIn(order, i) <= IndexIn(order, j)
  {
    i :| i in w;
    if w != {i} {
      var j := LeastIn(order, w - {i});
      if IndexIn(order, j) < IndexIn(order, i) { i := j; }
    }
  }

  /** Without a circle everything can be put in order. */
  lemma OrderAll(links: Links, all: set<nat>) returns (order: seq<nat>)
    requires !Cyclic(links) && forall l :: l in links ==> l.1 in all
    ensures Ordered(links, order) && forall i :: i in order <==> i in all
  {
    var rest;
    order, rest := PutInOrder(links, all, []);
    if rest != {} { TrapIsCyclic(links, rest); }
    forall i | i in all ensures i in order {
      assert i !in rest;
    }
  }
}
