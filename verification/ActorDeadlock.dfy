// When actors wait for each other. An actor in `receive` waits while it sends to a full
// mailbox or reads a reply channel, so everything turns on which actor may message
// which. This module says what it is for actors to be stuck, shows that a part of the
// family that is not at rest can always step unless its actors are stuck, and counts
// the steps that are still to come when no actors may message each other in a circle:
// then the part comes to rest, whatever the rest of the family does.
module ActorDeadlock {
  import opened Options
  import opened Circles
  import opened ActorProtocol

  // ----- Who may message whom -----

  /** After these turns, given payload `p` and these answers, actor `i` calls actor `j`. */
  predicate MessagesAt<S, P, R>(f: Family<S, P, R>, i: nat, j: nat, turns: seq<Turn<P, R>>, p: P, answers: seq<Option<R>>)
    requires i < |f|
  {
    && j < |f| && ValidTurns(f[i], |f|, turns) && Possible(f[i], |f|, Fold(f[i], turns), p, answers)
    && var act := f[i].receive(Fold(f[i], turns), p, answers); act.Call? && act.op.to == j
  }

  /** After some payloads and answers there is one on which `receive` of actor `i` calls
      actor `j`. */
  ghost predicate MayMessage<S(!new), P(!new), R(!new)>(f: Family<S, P, R>, i: nat, j: nat) {
    i < |f| && exists turns, p, answers :: MessagesAt(f, i, j, turns, p, answers)
  }

  /** Who may message whom. */
  ghost function MessageLinks<S(!new), P(!new), R(!new)>(f: Family<S, P, R>): Links {
    set i: nat, j: nat | i < |f| && j < |f| && MayMessage(f, i, j) :: (i, j)
  }

  /** No run of `receive` makes more than `m` calls. */
  ghost predicate Ends<S(!new), P(!new), R(!new)>(f: Family<S, P, R>, m: nat) {
    forall i: nat, turns, p, answers :: i < |f| && CallsAfter(f[i], |f|, turns, p, answers) ==> |answers| < m
  }

  predicate CallsAfter<S, P, R>(b: Behaviour<S, P, R>, n: nat, turns: seq<Turn<P, R>>, p: P, answers: seq<Option<R>>) {
    ValidTurns(b, n, turns) && Possible(b, n, Fold(b, turns), p, answers) && b.receive(Fold(b, turns), p, answers).Call?
  }

  // ----- Waiting -----

  /** A step that does not begin a new call from outside the actors. */
  predicate Internal<S, P, R>(f: Family<S, P, R>, step: Step<P>) {
    step.Issue? ==> step.c < |f|
  }

  /** Nothing is under way. */
  predicate Quiescent<S, P, R>(s: System<S, P, R>) {
    var quiet := (forall c :: 0 <= c < |s.goroutines| ==> s.goroutines[c].phase == Idle)
      && forall i :: 0 <= i < |s.actors| ==> s.actors[i].loop.Ready? && s.actors[i].mailbox == [];
    quiet
  }

  /** Actor `i`, in `receive`, waits for an actor of `w`: for room in its full mailbox, or
      for its answer. */
  predicate WaitsIn<S, P, R>(s: System<S, P, R>, w: set<nat>, i: nat) {
    var waits := i < |s.actors| <= |s.goroutines| && s.actors[i].loop.Running? && s.goroutines[i].issued != []
      && var m := Outgoing(i, s.goroutines[i]);
         m.op.to in w && m.op.to < |s.actors|
         && ((s.goroutines[i].phase == Blocked && |s.actors[m.op.to].mailbox| == CAPACITY)
             || (s.goroutines[i].phase == Waiting && m.id !in s.replies));
    waits
  }

  /** The actors of `w` wait for each other. */
  predicate Stuck<S, P, R>(s: System<S, P, R>, w: set<nat>) {
    var stuck := w != {} && forall i {:trigger WaitsIn(s, w, i)} :: i in w ==> WaitsIn(s, w, i);
    stuck
  }

  ghost predicate Deadlocked<S, P, R>(s: System<S, P, R>) {
    exists w :: Stuck(s, w)
  }

  /** Some interleaving leads to `s`. */
  ghost predicate Reachable<S(!new), P(!new), R(!new)>(f: Family<S, P, R>, n: nat, s: System<S, P, R>) {
    exists steps :: Run(f, Spawned(f, n), steps, s)
  }

  // ----- Progress -----

  // The steps that a part `g` of the family takes: those of its actors, and those that
  // bring a call under way to its end.

  predicate Allowed<P>(g: set<nat>, step: Step<P>) {
    match step
    case Issue(c, _) => c in g
    case Accept(_) => true
    case Collect(_) => true
    case Take(i) => i in g
    case Finish(i) => i in g
    case Reply(i) => i in g
  }

  /** Every call under way is one on an actor of `g`. */
  predicate CallsOnly<S, P, R>(s: System<S, P, R>, g: set<nat>) {
    forall c: nat :: c < |s.goroutines| && s.goroutines[c].phase != Idle && s.goroutines[c].issued != [] ==>
      Outgoing(c, s.goroutines[c]).op.to in g
  }

  /** No call is under way and the actors of `g` have nothing to do. */
  predicate Resting<S, P, R>(s: System<S, P, R>, g: set<nat>) {
    var resting := (forall c :: 0 <= c < |s.goroutines| ==> s.goroutines[c].phase == Idle)
      && forall i :: i in g && i < |s.actors| ==> s.actors[i].loop.Ready? && s.actors[i].mailbox == [];
    resting
  }

  function RunningIn<S, P, R>(s: System<S, P, R>, g: set<nat>): set<nat> {
    set i | i in g && i < |s.actors| && s.actors[i].loop.Running?
  }

  ghost predicate CanStep<S(!new), P(!new), R(!new)>(f: Family<S, P, R>, s: System<S, P, R>, g: set<nat>) {
    exists step :: Allowed(g, step) && Enabled(f, s, step)
  }

  /** An ask that waits is answered already, or keeps the actor asked busy. */
  lemma WaitingIsPending<S, P, R>(f: Family<S, P, R>, s: System<S, P, R>, c: nat)
    requires Invariant(f, s) && c < |s.goroutines| && s.goroutines[c].phase == Waiting
    ensures s.goroutines[c].issued != [] && Outgoing(c, s.goroutines[c]).op.to < |f|
    ensures var m := Outgoing(c, s.goroutines[c]);
      m.id in s.replies || !s.actors[m.op.to].loop.Ready? || s.actors[m.op.to].mailbox != []
  {
    var gs, g := s.goroutines, s.goroutines[c];
    assert PhaseFits(|f|, g);
    var m := Outgoing(c, g);
    var i := m.op.to;
    var a := s.actors[i];
    assert ActorFits(f[i], |f|, gs, s.replies, i, a);
    if a.loop.Ready? && a.mailbox == [] {
      assert Taken(a) + a.mailbox == Messages(a.turns);
      assert g.issued[..|g.issued|] == g.issued == Accepted(gs, c);
      LabelledHasLast(c, g.issued, i);
      FromIsPart(Messages(a.turns), c, m);
      HandledAskHasResult(f[i], |f|, a.turns, m);
      assert !Holds(gs, m.id);
    }
  }

  lemma LabelledHasLast<P>(c: nat, ops: seq<Op<P>>, i: nat)
    requires ops != [] && ops[|ops| - 1].to == i
    ensures Message(Label(c, |ops| - 1), ops[|ops| - 1]) in Labelled(c, ops, i)
  {
  }

  lemma {:induction false} FromIsPart<P>(ms: seq<Message<P>>, c: nat, m: Message<P>)
    requires m in From(ms, c)
    ensures m in ms
  {
    if m != ms[|ms| - 1] {
      FromIsPart(ms[..|ms| - 1], c, m);
    }
  }

  lemma {:induction false} HandledAskHasResult<S, P, R>(b: Behaviour<S, P, R>, n: nat, turns: seq<Turn<P, R>>, m: Message<P>)
    requires ValidTurns(b, n, turns) && m in Messages(turns) && m.op.Ask?
    ensures m.id in Results(b, turns)
  {
    var k := |turns| - 1;
    if m != turns[k].m {
      var j :| 0 <= j < |turns| && Messages(turns)[j] == m;
      assert Messages(turns[..k])[j] == m;
      HandledAskHasResult(b, n, turns[..k], m);
    }
  }

  /** While a part of the family is not at rest it can step, unless its actors wait for
      each other. */
  lemma ProgressIn<S(!new), P(!new), R(!new)>(f: Family<S, P, R>, s: System<S, P, R>, g: set<nat>)
    requires Invariant(f, s) && CallsOnly(s, g) && (forall i :: i in g ==> i < |f|) && !Resting(s, g)
    ensures CanStep(f, s, g) || Stuck(s, RunningIn(s, g))
  {
    if !CanStep(f, s, g) {
      var w := RunningIn(s, g);
      if w == {} {
        NothingRuns(f, s, g);
      } else {
        forall i | i in w ensures WaitsIn(s, w, i) {
          RunningWaits(f, s, g, i);
        }
        assert Stuck(s, w);
      }
    }
  }

  lemma NothingRuns<S(!new), P(!new), R(!new)>(f: Family<S, P, R>, s: System<S, P, R>, g: set<nat>)
    requires Invariant(f, s) && CallsOnly(s, g) && (forall i :: i in g ==> i < |f|) && !CanStep(f, s, g)
    requires RunningIn(s, g) == {}
    ensures Resting(s, g)
  {
    forall i | i in g && i < |s.actors| ensures s.actors[i].loop.Ready? && s.actors[i].mailbox == [] {
      LoopCanStep(f, s, g, i);
      assert i !in RunningIn(s, g);
    }
    forall c | 0 <= c < |s.goroutines| ensures s.goroutines[c].phase == Idle {
      if s.goroutines[c].phase != Idle { CallCanStep(f, s, g, c); }
    }
  }

  lemma LoopCanStep<S(!new), P(!new), R(!new)>(f: Family<S, P, R>, s: System<S, P, R>, g: set<nat>, i: nat)
    requires Invariant(f, s) && i in g && i < |f| && !CanStep(f, s, g)
    ensures !s.actors[i].loop.Replying? && (s.actors[i].mailbox != [] ==> s.actors[i].loop.Running?)
  {
    assert ActorFits(f[i], |f|, s.goroutines, s.replies, i, s.actors[i]);
    var take, reply: Step<P> := Take(i), Reply(i);
    assert !Enabled(f, s, take) && !Enabled(f, s, reply);
  }

  /** A call that cannot step waits for an actor in `receive`. */
  lemma CallCanStep<S(!new), P(!new), R(!new)>(f: Family<S, P, R>, s: System<S, P, R>, g: set<nat>, c: nat)
    requires Invariant(f, s) && CallsOnly(s, g) && (forall i :: i in g ==> i < |f|) && !CanStep(f, s, g)
    requires c < |s.goroutines| && s.goroutines[c].phase != Idle
    ensures s.goroutines[c].issued != [] && var m := Outgoing(c, s.goroutines[c]);
      m.op.to in RunningIn(s, g)
      && (s.goroutines[c].phase == Blocked ==> |s.actors[m.op.to].mailbox| == CAPACITY)
      && (s.goroutines[c].phase == Waiting ==> m.id !in s.replies)
  {
    assert PhaseFits(|f|, s.goroutines[c]);
    var j := Outgoing(c, s.goroutines[c]).op.to;
    LoopCanStep(f, s, g, j);
    assert ActorFits(f[j], |f|, s.goroutines, s.replies, j, s.actors[j]);
    var accept, collect: Step<P> := Accept(c), Collect(c);
    assert !Enabled(f, s, accept) && !Enabled(f, s, collect);
    if s.goroutines[c].phase == Waiting { WaitingIsPending(f, s, c); }
  }

  lemma RunningWaits<S(!new), P(!new), R(!new)>(f: Family<S, P, R>, s: System<S, P, R>, g: set<nat>, i: nat)
    requires Invariant(f, s) && CallsOnly(s, g) && (forall i :: i in g ==> i < |f|) && !CanStep(f, s, g)
    requires i in RunningIn(s, g)
    ensures WaitsIn(s, RunningIn(s, g), i)
  {
    if s.goroutines[i].phase == Idle {
      var act := NextAct(f[i], s.actors[i]);
      var step: Step<P> := if act.Return? then Finish(i) else Issue(i, act.op);
      assert Allowed(g, step) && Enabled(f, s, step);
    } else {
      CallCanStep(f, s, g, i);
    }
  }

  // ----- Deadlocks -----

  /** The actors of `w` have done nothing more. */
  ghost predicate Unmoved<S, P, R>(s: System<S, P, R>, t: System<S, P, R>, w: set<nat>) {
    var unmoved := |s.actors| == |t.actors| && forall i :: i in w && i < |s.actors| ==> UnmovedAt(s.actors[i], t.actors[i]);
    unmoved
  }

  ghost predicate UnmovedAt<S, P, R>(a: Actor<S, P, R>, b: Actor<S, P, R>) {
    var same := b.turns == a.turns && b.loop == a.loop && b.state == a.state && a.mailbox <= b.mailbox;
    same
  }

  /** Actor `i` waits in `t` as it did in `s`. */
  ghost predicate StillWaits<S, P, R>(s: System<S, P, R>, t: System<S, P, R>, w: set<nat>, i: nat) {
    var still := |s.actors| == |t.actors| && WaitsIn(t, w, i) && UnmovedAt(s.actors[i], t.actors[i]);
    still
  }

  lemma WaitStays<S, P, R>(f: Family<S, P, R>, s: System<S, P, R>, w: set<nat>, step: Step<P>, i: nat)
    requires Invariant(f, s) && Stuck(s, w) && Enabled(f, s, step) && i in w
    ensures StillWaits(s, Do(f, s, step), w, i)
  {
    assert WaitsIn(s, w, i);
    var who := if step.Issue? || step.Accept? || step.Collect? then step.c else step.i;
    assert who in w ==> WaitsIn(s, w, who);
    if step.Issue? {
      IssueLeaves(f, s, w, step.c, step.op, i);
    } else if step.Accept? {
      AcceptLeaves(f, s, w, step.c, i);
    } else if step.Collect? {
      CollectLeaves(f, s, w, step.c, i);
    } else if step.Reply? {
      ReplyLeaves(f, s, w, step.i, i);
    } else {
      LoopLeaves(f, s, w, step, i);
    }
  }

  lemma IssueLeaves<S, P, R>(f: Family<S, P, R>, s: System<S, P, R>, w: set<nat>, c: nat, op: Op<P>, i: nat)
    requires Enabled(f, s, Issue(c, op)) && WaitsIn(s, w, i)
    ensures StillWaits(s, Do(f, s, Issue(c, op)), w, i)
  {
  }

  lemma AcceptLeaves<S, P, R>(f: Family<S, P, R>, s: System<S, P, R>, w: set<nat>, c: nat, i: nat)
    requires Enabled(f, s, Accept(c)) && WaitsIn(s, w, i) && (c in w ==> WaitsIn(s, w, c))
    ensures StillWaits(s, Do(f, s, Accept(c)), w, i)
  {
    assert c != i;
    assert Outgoing(c, s.goroutines[c]).op.to == Outgoing(i, s.goroutines[i]).op.to ==> s.goroutines[i].phase != Blocked;
  }

  lemma CollectLeaves<S, P, R>(f: Family<S, P, R>, s: System<S, P, R>, w: set<nat>, c: nat, i: nat)
    requires Enabled(f, s, Collect(c)) && WaitsIn(s, w, i) && (c in w ==> WaitsIn(s, w, c))
    ensures StillWaits(s, Do(f, s, Collect(c)), w, i)
  {
  }

  lemma LoopLeaves<S, P, R>(f: Family<S, P, R>, s: System<S, P, R>, w: set<nat>, step: Step<P>, i: nat)
    requires Enabled(f, s, step) && (step.Take? || step.Finish?) && WaitsIn(s, w, i) && (step.i in w ==> WaitsIn(s, w, step.i))
    ensures StillWaits(s, Do(f, s, step), w, i)
  {
  }

  lemma ReplyLeaves<S, P, R>(f: Family<S, P, R>, s: System<S, P, R>, w: set<nat>, j: nat, i: nat)
    requires Invariant(f, s) && Enabled(f, s, Reply(j)) && WaitsIn(s, w, i) && (j in w ==> WaitsIn(s, w, j))
    ensures StillWaits(s, Do(f, s, Reply(j)), w, i)
  {
    ReplyFits(f[j], |f|, s.goroutines, s.replies, j, s.actors[j]);
    assert s.actors[j].loop.m.id != Outgoing(i, s.goroutines[i]).id;
  }

  lemma {:induction false} StuckStays<S, P, R>(f: Family<S, P, R>, s: System<S, P, R>, w: set<nat>, steps: seq<Step<P>>, t: System<S, P, R>)
    requires Invariant(f, s) && Stuck(s, w) && Run(f, s, steps, t)
    ensures Stuck(t, w) && Unmoved(s, t, w)
    decreases |steps|
  {
    if steps != [] {
      StuckStep(f, s, w, steps[0]);
      StepKeeps(f, s, steps[0]);
      StuckStays(f, Do(f, s, steps[0]), w, steps[1..], t);
      UnmovedOn(s, Do(f, s, steps[0]), t, w);
    }
  }

  lemma StuckStep<S, P, R>(f: Family<S, P, R>, s: System<S, P, R>, w: set<nat>, step: Step<P>)
    requires Invariant(f, s) && Stuck(s, w) && Enabled(f, s, step)
    ensures Stuck(Do(f, s, step), w) && Unmoved(s, Do(f, s, step), w)
  {
    forall i | i in w ensures WaitsIn(Do(f, s, step), w, i) {
      WaitStays(f, s, w, step, i);
    }
    SameSize(f, s, step);
    forall i | i in w && i < |s.actors| ensures UnmovedAt(s.actors[i], Do(f, s, step).actors[i]) {
      WaitStays(f, s, w, step, i);
    }
  }

  lemma SameSize<S, P, R>(f: Family<S, P, R>, s: System<S, P, R>, step: Step<P>)
    requires Enabled(f, s, step)
    ensures |Do(f, s, step).actors| == |s.actors| && |Do(f, s, step).goroutines| == |s.goroutines|
  {
  }

  lemma UnmovedOn<S, P, R>(s: System<S, P, R>, t: System<S, P, R>, u: System<S, P, R>, w: set<nat>)
    requires Unmoved(s, t, w) && Unmoved(t, u, w)
    ensures Unmoved(s, u, w)
  {
    forall i | i in w && i < |s.actors| ensures UnmovedAt(s.actors[i], u.actors[i]) {
      assert UnmovedAt(s.actors[i], t.actors[i]) && UnmovedAt(t.actors[i], u.actors[i]);
    }
  }

  lemma AllCallsAreOn<S, P, R>(f: Family<S, P, R>, s: System<S, P, R>)
    requires Invariant(f, s)
    ensures CallsOnly(s, Below(|f|)) && (Resting(s, Below(|f|)) ==> Quiescent(s))
  {
    forall c: nat | c < |s.goroutines| && s.goroutines[c].issued != [] ensures Outgoing(c, s.goroutines[c]).op.to in Below(|f|) {
      assert PhaseFits(|f|, s.goroutines[c]);
    }
  }

  // ----- A deadlock needs a cycle -----

  /** An actor at a call messages the actor that the call is on. */
  lemma CallIsLink<S(!new), P(!new), R(!new)>(f: Family<S, P, R>, s: System<S, P, R>, i: nat)
    requires Invariant(f, s) && i < |f| && s.actors[i].loop.Running? && NextAct(f[i], s.actors[i]).Call?
    requires NextAct(f[i], s.actors[i]).op.to < |f|
    ensures (i, NextAct(f[i], s.actors[i]).op.to) in MessageLinks(f)
  {
    var a := s.actors[i];
    assert ActorFits(f[i], |f|, s.goroutines, s.replies, i, a);
    LinkBy(f, i, NextAct(f[i], a).op.to, a.turns, a.loop.m.op.payload, a.loop.answers);
  }

  lemma LinkBy<S(!new), P(!new), R(!new)>(f: Family<S, P, R>, i: nat, j: nat, turns: seq<Turn<P, R>>, p: P, answers: seq<Option<R>>)
    requires i < |f| && MessagesAt(f, i, j, turns, p, answers)
    ensures (i, j) in MessageLinks(f)
  {
    assert MayMessage(f, i, j);
  }

  lemma StuckIsTrap<S(!new), P(!new), R(!new)>(f: Family<S, P, R>, s: System<S, P, R>, w: set<nat>)
    requires Invariant(f, s) && Stuck(s, w)
    ensures Trap(MessageLinks(f), w)
  {
    forall i | i in w ensures LeadsInto(MessageLinks(f), i, w) {
      assert WaitsIn(s, w, i);
      CallUnderWay(f, s, i);
      CallIsLink(f, s, i);
    }
  }

  // ----- How much is still to come -----

  // The actors of `order` may message earlier ones only, and each run of `receive` makes
  // at most `m` calls. A message weighs as much as the steps it can bring about.

  function Times(n: nat, w: nat): nat {
    if n == 0 then 0 else Times(n - 1, w) + w
  }

  /** A message in the mailbox of the `x`-th actor. */
  function Weight(m: nat, x: nat): nat
    decreases x, 1
  {
    3 + Times(m, CallWeight(m, x))
  }

  /** A call that `receive` of the `x`-th actor makes. */
  function CallWeight(m: nat, x: nat): nat
    decreases x, 0
  {
    3 + if x == 0 then 0 else Weight(m, x - 1)
  }

  lemma {:induction false} TimesGrows(n: nat, v: nat, w: nat)
    requires v <= w
    ensures Times(n, v) <= Times(n, w)
  {
    if n > 0 { TimesGrows(n - 1, v, w); }
  }

  lemma {:induction false} WeightGrows(m: nat, x: nat, y: nat)
    requires x <= y
    ensures Weight(m, x) <= Weight(m, y)
    decreases y
  {
    if x < y {
      WeightGrows(m, x, y - 1);
      if y > 1 { WeightGrows(m, y - 2, y - 1); }
      TimesGrows(m, CallWeight(m, y - 1), CallWeight(m, y));
    }
  }

  function LeftOf(m: nat, k: nat): nat {
    if k <= m then m - k else 0
  }

  /** What actor `i` has still to do for itself; `busy` is 1 if it has a call under way. */
  function ActorLoad<S, P, R>(order: seq<nat>, m: nat, i: nat, a: Actor<S, P, R>, busy: nat): nat {
    if i !in order then 0
    else
      var x := IndexIn(order, i);
      Times(|a.mailbox|, Weight(m, x)) +
      match a.loop
      case Ready => 0
      case Replying(_, _) => 1
      case Running(_, answers) => 2 + Times(LeftOf(m, |answers| + busy), CallWeight(m, x))
  }

  /** What a call under way has still to do. */
  function CallLoad<P, R>(order: seq<nat>, m: nat, g: Goroutine<P, R>): nat {
    if g.phase == Idle || g.issued == [] then 0
    else if g.phase == Waiting then 1
    else
      var to := g.issued[|g.issued| - 1].to;
      2 + if to in order then Weight(m, IndexIn(order, to)) else 0
  }

  function Busy<P, R>(gs: seq<Goroutine<P, R>>, i: nat): nat {
    if i < |gs| && gs[i].phase != Idle then 1 else 0
  }

  function ActorLoads<S, P, R>(order: seq<nat>, m: nat, s: System<S, P, R>): seq<nat> {
    seq(|s.actors|, i requires 0 <= i < |s.actors| => ActorLoad(order, m, i, s.actors[i], Busy(s.goroutines, i)))
  }

  function CallLoads<S, P, R>(order: seq<nat>, m: nat, s: System<S, P, R>): seq<nat> {
    seq(|s.goroutines|, c requires 0 <= c < |s.goroutines| => CallLoad(order, m, s.goroutines[c]))
  }

  function Sum(xs: seq<nat>): nat {
    if xs == [] then 0 else Sum(xs[..|xs| - 1]) + xs[|xs| - 1]
  }

  lemma {:induction false} SumChanges(xs: seq<nat>, i: nat, x: nat)
    requires i < |xs|
    ensures Sum(xs[i := x]) + xs[i] == Sum(xs) + x
  {
    var n := |xs| - 1;
    if i == n {
      assert xs[i := x][..n] == xs[..n];
    } else {
      assert xs[i := x][..n] == xs[..n][i := x];
      SumChanges(xs[..n], i, x);
    }
  }

  function Load<S, P, R>(order: seq<nat>, m: nat, s: System<S, P, R>): nat {
    Sum(ActorLoads(order, m, s)) + Sum(CallLoads(order, m, s))
  }

  /** The load after a step that changes that of actor `i` and of goroutine `c`. */
  lemma LoadChanges<S, P, R>(order: seq<nat>, m: nat, s: System<S, P, R>, t: System<S, P, R>, i: nat, a: nat, c: nat, l: nat)
    requires i < |s.actors| && c < |s.goroutines|
    requires ActorLoads(order, m, t) == ActorLoads(order, m, s)[i := a] && CallLoads(order, m, t) == CallLoads(order, m, s)[c := l]
    requires a + l < ActorLoads(order, m, s)[i] + CallLoads(order, m, s)[c]
    ensures Load(order, m, t) < Load(order, m, s)
  {
    SumChanges(ActorLoads(order, m, s), i, a);
    SumChanges(CallLoads(order, m, s), c, l);
  }

  /** An actor in `receive` has made at most `m` calls, and fewer if it is at a call. */
  lemma CallsLeft<S(!new), P(!new), R(!new)>(f: Family<S, P, R>, m: nat, s: System<S, P, R>, i: nat)
    requires Invariant(f, s) && Ends(f, m) && i < |f| && s.actors[i].loop.Running?
    ensures |s.actors[i].loop.answers| <= m
    ensures NextAct(f[i], s.actors[i]).Call? ==> |s.actors[i].loop.answers| < m
  {
    var a := s.actors[i];
    var p, answers := a.loop.m.op.payload, a.loop.answers;
    assert ActorFits(f[i], |f|, s.goroutines, s.replies, i, a);
    if NextAct(f[i], a).Call? { assert CallsAfter(f[i], |f|, a.turns, p, answers); }
    if answers != [] { assert CallsAfter(f[i], |f|, a.turns, p, answers[..|answers| - 1]); }
  }

  /** The premise on a part of the family: it is in order, and all calls under way are on it. */
  ghost predicate Settling<S(!new), P(!new), R(!new)>(f: Family<S, P, R>, order: seq<nat>, m: nat, s: System<S, P, R>) {
    var settling := Ends(f, m) && Ordered(MessageLinks(f), order) && (forall i :: i in order ==> i < |f|)
      && Invariant(f, s) && CallsOnly(s, Elements(order));
    settling
  }

  lemma IssueLoad<S(!new), P(!new), R(!new)>(f: Family<S, P, R>, order: seq<nat>, m: nat, s: System<S, P, R>, c: nat, op: Op<P>)
    requires Settling(f, order, m, s) && c in order && Enabled(f, s, Issue(c, op))
    ensures CallsOnly(Do(f, s, Issue(c, op)), Elements(order)) && Load(order, m, Do(f, s, Issue(c, op))) < Load(order, m, s)
  {
    var x, a := IndexIn(order, c), s.actors[c];
    CallsLeft(f, m, s, c);
    if op.to < |f| {
      CallIsLink(f, s, c);
      Down(MessageLinks(f), order, c, op.to);
      WeightGrows(m, IndexIn(order, op.to), x - 1);
    }
    IssueLoads(f, order, m, s, c, op);
  }

  lemma IssueLoads<S, P, R>(f: Family<S, P, R>, order: seq<nat>, m: nat, s: System<S, P, R>, c: nat, op: Op<P>)
    requires Enabled(f, s, Issue(c, op)) && c in order && c < |f| && |s.actors[c].loop.answers| < m && CallsOnly(s, Elements(order))
    requires op.to < |f| ==> op.to in order && 3 + Weight(m, IndexIn(order, op.to)) <= CallWeight(m, IndexIn(order, c))
    ensures CallsOnly(Do(f, s, Issue(c, op)), Elements(order)) && Load(order, m, Do(f, s, Issue(c, op))) < Load(order, m, s)
  {
    var t, x, a := Do(f, s, Issue(c, op)), IndexIn(order, c), s.actors[c];
    var left, l := m - |a.loop.answers|, if op.to < |f| then 2 + Weight(m, IndexIn(order, op.to)) else 0;
    assert Times(left, CallWeight(m, x)) == Times(left - 1, CallWeight(m, x)) + CallWeight(m, x);
    var rest := Times(|a.mailbox|, Weight(m, x)) + 2 + Times(left - 1, CallWeight(m, x));
    assert ActorLoads(order, m, t) == ActorLoads(order, m, s)[c := rest];
    assert CallLoads(order, m, t) == CallLoads(order, m, s)[c := l];
    LoadChanges(order, m, s, t, c, rest, c, l);
  }

  lemma AcceptLoad<S(!new), P(!new), R(!new)>(f: Family<S, P, R>, order: seq<nat>, m: nat, s: System<S, P, R>, c: nat)
    requires Settling(f, order, m, s) && Enabled(f, s, Accept(c))
    ensures CallsOnly(Do(f, s, Accept(c)), Elements(order)) && Load(order, m, Do(f, s, Accept(c))) < Load(order, m, s)
  {
    CallUnderWay(f, s, c);
    AcceptLoads(f, order, m, s, c);
  }

  lemma AcceptLoads<S, P, R>(f: Family<S, P, R>, order: seq<nat>, m: nat, s: System<S, P, R>, c: nat)
    requires Enabled(f, s, Accept(c)) && (c < |f| ==> s.actors[c].loop.Running?) && CallsOnly(s, Elements(order))
    ensures CallsOnly(Do(f, s, Accept(c)), Elements(order)) && Load(order, m, Do(f, s, Accept(c))) < Load(order, m, s)
  {
    var t, op := Do(f, s, Accept(c)), Outgoing(c, s.goroutines[c]).op;
    var more, l := ActorLoads(order, m, s)[op.to] + Weight(m, IndexIn(order, op.to)), if op.Ask? then 1 else 0;
    assert ActorLoads(order, m, t) == ActorLoads(order, m, s)[op.to := more];
    assert CallLoads(order, m, t) == CallLoads(order, m, s)[c := l];
    LoadChanges(order, m, s, t, op.to, more, c, l);
  }

  lemma CollectLoad<S(!new), P(!new), R(!new)>(f: Family<S, P, R>, order: seq<nat>, m: nat, s: System<S, P, R>, c: nat)
    requires Settling(f, order, m, s) && Enabled(f, s, Collect(c))
    ensures CallsOnly(Do(f, s, Collect(c)), Elements(order)) && Load(order, m, Do(f, s, Collect(c))) < Load(order, m, s)
  {
    CallUnderWay(f, s, c);
    CollectLoads(f, order, m, s, c);
  }

  lemma CollectLoads<S, P, R>(f: Family<S, P, R>, order: seq<nat>, m: nat, s: System<S, P, R>, c: nat)
    requires Enabled(f, s, Collect(c)) && (c < |f| ==> s.actors[c].loop.Running?) && CallsOnly(s, Elements(order))
    requires Outgoing(c, s.goroutines[c]).op.to < |f|
    ensures CallsOnly(Do(f, s, Collect(c)), Elements(order)) && Load(order, m, Do(f, s, Collect(c))) < Load(order, m, s)
  {
    var t, i := Do(f, s, Collect(c)), Outgoing(c, s.goroutines[c]).op.to;
    assert ActorLoads(order, m, t) == ActorLoads(order, m, s)[i := ActorLoads(order, m, s)[i]];
    assert CallLoads(order, m, t) == CallLoads(order, m, s)[c := 0];
    LoadChanges(order, m, s, t, i, ActorLoads(order, m, s)[i], c, 0);
  }

  lemma LoopLoad<S(!new), P(!new), R(!new)>(f: Family<S, P, R>, order: seq<nat>, m: nat, s: System<S, P, R>, step: Step<P>)
    requires Settling(f, order, m, s) && (step.Take? || step.Finish? || step.Reply?) && step.i in order && Enabled(f, s, step)
    ensures CallsOnly(Do(f, s, step), Elements(order)) && Load(order, m, Do(f, s, step)) < Load(order, m, s)
  {
    var t, i, x := Do(f, s, step), step.i, IndexIn(order, step.i);
    if step.Take? {
      assert ActorFits(f[i], |f|, s.goroutines, s.replies, i, s.actors[i]);
      assert Busy(s.goroutines, i) == 0;
    }
    var a := ActorLoads(order, m, t)[i];
    assert ActorLoads(order, m, t) == ActorLoads(order, m, s)[i := a];
    assert CallLoads(order, m, t) == CallLoads(order, m, s)[i := CallLoads(order, m, s)[i]];
    LoadChanges(order, m, s, t, i, a, i, CallLoads(order, m, s)[i]);
  }

  lemma LoadFalls<S(!new), P(!new), R(!new)>(f: Family<S, P, R>, order: seq<nat>, m: nat, s: System<S, P, R>, step: Step<P>)
    requires Settling(f, order, m, s) && Allowed(Elements(order), step) && Enabled(f, s, step)
    ensures Settling(f, order, m, Do(f, s, step)) && Load(order, m, Do(f, s, step)) < Load(order, m, s)
  {
    StepKeeps(f, s, step);
    if step.Issue? {
      IssueLoad(f, order, m, s, step.c, step.op);
    } else if step.Accept? {
      AcceptLoad(f, order, m, s, step.c);
    } else if step.Collect? {
      CollectLoad(f, order, m, s, step.c);
    } else {
      LoopLoad(f, order, m, s, step);
    }
  }

  // ----- Every ask is answered -----

  lemma {:induction false} InternalRunsEnd<S(!new), P(!new), R(!new)>(
      f: Family<S, P, R>, order: seq<nat>, m: nat, s: System<S, P, R>, steps: seq<Step<P>>, t: System<S, P, R>)
    requires Settling(f, order, m, s) && Elements(order) == Below(|f|) && InternalRun(f, s, steps, t)
    ensures Settling(f, order, m, t) && |steps| + Load(order, m, t) <= Load(order, m, s)
    decreases |steps|
  {
    if steps != [] {
      assert Internal(f, steps[0]) && Allowed(Below(|f|), steps[0]);
      LoadFalls(f, order, m, s, steps[0]);
      InternalRunsEnd(f, order, m, Do(f, s, steps[0]), steps[1..], t);
    }
  }

  lemma AllSettling<S(!new), P(!new), R(!new)>(f: Family<S, P, R>, m: nat, s: System<S, P, R>) returns (order: seq<nat>)
    requires Invariant(f, s) && Ends(f, m) && !Cyclic(MessageLinks(f))
    ensures Settling(f, order, m, s) && Elements(order) == Below(|f|)
  {
    order := OrderAll(MessageLinks(f), Below(|f|));
    AllCallsAreOn(f, s);
    assert Elements(order) == Below(|f|);
  }

  /** Every message was handled and every ask has its answer. */
  ghost predicate AllAnswered<S, P, R>(s: System<S, P, R>) {
    && Quiescent(s)
    && forall c, k :: 0 <= c < |s.goroutines| && 0 <= k < |s.goroutines[c].issued| ==>
         (s.goroutines[c].issued[k].Ask? <==> k in s.goroutines[c].got)
  }

  lemma ScheduleEnds<S(!new), P(!new), R(!new)>(
      f: Family<S, P, R>, order: seq<nat>, m: nat, s: System<S, P, R>, steps: seq<Step<P>>, t: System<S, P, R>)
    requires Settling(f, order, m, s) && Elements(order) == Below(|f|) && InternalRun(f, s, steps, t)
    ensures EndsWithin(f, steps, t, Load(order, m, s))
  {
    InternalRunsEnd(f, order, m, s, steps, t);
    if NoStepLeft(f, t) { NothingUnderWay(f, order, m, t); }
  }

  ghost predicate InternalRun<S, P, R>(f: Family<S, P, R>, s: System<S, P, R>, steps: seq<Step<P>>, t: System<S, P, R>) {
    Run(f, s, steps, t) && forall k :: 0 <= k < |steps| ==> Internal(f, steps[k])
  }

  ghost predicate NoStepLeft<S(!new), P(!new), R(!new)>(f: Family<S, P, R>, s: System<S, P, R>) {
    forall step :: Internal(f, step) ==> !Enabled(f, s, step)
  }

  ghost predicate SchedulesEnd<S(!new), P(!new), R(!new)>(f: Family<S, P, R>, s: System<S, P, R>, bound: nat) {
    forall steps, t :: InternalRun(f, s, steps, t) ==> EndsWithin(f, steps, t, bound)
  }

  ghost predicate EndsWithin<S(!new), P(!new), R(!new)>(f: Family<S, P, R>, steps: seq<Step<P>>, t: System<S, P, R>, bound: nat) {
    |steps| <= bound && (NoStepLeft(f, t) ==> AllAnswered(t))
  }

  /** A part of the family that is not at rest can step. */
  lemma SettlingCanStep<S(!new), P(!new), R(!new)>(f: Family<S, P, R>, order: seq<nat>, m: nat, s: System<S, P, R>)
    requires Settling(f, order, m, s) && !Resting(s, Elements(order))
    ensures CanStep(f, s, Elements(order))
  {
    var w := RunningIn(s, Elements(order));
    ProgressIn(f, s, Elements(order));
    if Stuck(s, w) {
      StuckIsTrap(f, s, w);
      OrderedIsNoTrap(MessageLinks(f), order, w);
    }
  }

  lemma NothingUnderWay<S(!new), P(!new), R(!new)>(f: Family<S, P, R>, order: seq<nat>, m: nat, s: System<S, P, R>)
    requires Settling(f, order, m, s) && Elements(order) == Below(|f|) && NoStepLeft(f, s)
    ensures AllAnswered(s)
  {
    if Resting(s, Elements(order)) {
      AllCallsAreOn(f, s);
      RestIsAnswered(f, s);
    } else {
      SettlingCanStep(f, order, m, s);
      CanStepInside(f, s);
    }
  }

  lemma CanStepInside<S(!new), P(!new), R(!new)>(f: Family<S, P, R>, s: System<S, P, R>)
    requires CanStep(f, s, Below(|f|))
    ensures !NoStepLeft(f, s)
  {
    var step :| Allowed(Below(|f|), step) && Enabled(f, s, step);
    assert Internal(f, step);
  }

  lemma RestIsAnswered<S, P, R>(f: Family<S, P, R>, s: System<S, P, R>)
    requires Invariant(f, s) && Quiescent(s)
    ensures AllAnswered(s)
  {
    forall c | 0 <= c < |s.goroutines| ensures PhaseFits(|f|, s.goroutines[c]) && s.goroutines[c].phase == Idle {
    }
  }

  // ----- Letting a part of the family come to rest -----

  /** From `a` to `b` actor `i` has only had the call under way answered. */
  ghost predicate KeptAt<S, P, R>(a: Actor<S, P, R>, busy: nat, b: Actor<S, P, R>, busy': nat) {
    var kept := b.mailbox == a.mailbox && b.turns == a.turns && b.state == a.state
      && if a.loop.Running? then
           && b.loop.Running? && b.loop.m == a.loop.m && a.loop.answers <= b.loop.answers
           && |b.loop.answers| + busy' == |a.loop.answers| + busy
         else b.loop == a.loop;
    kept
  }

  ghost predicate Kept<S, P, R>(s: System<S, P, R>, t: System<S, P, R>, g: set<nat>) {
    var kept := |s.actors| == |t.actors| && |s.goroutines| == |t.goroutines|
      && forall i: nat :: i < |s.actors| && i !in g ==> KeptAt(s.actors[i], Busy(s.goroutines, i), t.actors[i], Busy(t.goroutines, i));
    kept
  }

  lemma KeptOn<S, P, R>(s: System<S, P, R>, t: System<S, P, R>, u: System<S, P, R>, g: set<nat>)
    requires Kept(s, t, g) && Kept(t, u, g)
    ensures Kept(s, u, g)
  {
    forall i: nat | i < |s.actors| && i !in g
      ensures KeptAt(s.actors[i], Busy(s.goroutines, i), u.actors[i], Busy(u.goroutines, i))
    {
      assert KeptAt(s.actors[i], Busy(s.goroutines, i), t.actors[i], Busy(t.goroutines, i));
      assert KeptAt(t.actors[i], Busy(t.goroutines, i), u.actors[i], Busy(u.goroutines, i));
    }
  }

  lemma AllowedKeeps<S, P, R>(f: Family<S, P, R>, s: System<S, P, R>, step: Step<P>, g: set<nat>)
    requires Invariant(f, s) && CallsOnly(s, g) && Allowed(g, step) && Enabled(f, s, step)
    ensures Kept(s, Do(f, s, step), g)
  {
    SameSize(f, s, step);
    if step.Accept? || step.Collect? { CallUnderWay(f, s, step.c); }
    forall i: nat | i < |s.actors| && i !in g
      ensures KeptAt(s.actors[i], Busy(s.goroutines, i), Do(f, s, step).actors[i], Busy(Do(f, s, step).goroutines, i))
    {
      if step.Accept? {
        AcceptKeepsAt(f, s, step.c, i);
      } else if step.Collect? {
        CollectKeepsAt(f, s, step.c, i);
      } else {
        ActorStepKeepsAt(f, s, step, i);
      }
    }
  }

  lemma AcceptKeepsAt<S, P, R>(f: Family<S, P, R>, s: System<S, P, R>, c: nat, i: nat)
    requires Enabled(f, s, Accept(c)) && i < |f| && i != Outgoing(c, s.goroutines[c]).op.to && (c < |f| ==> s.actors[c].loop.Running?)
    ensures var t := Do(f, s, Accept(c));
      i < |t.actors| && KeptAt(s.actors[i], Busy(s.goroutines, i), t.actors[i], Busy(t.goroutines, i))
  {
  }

  lemma CollectKeepsAt<S, P, R>(f: Family<S, P, R>, s: System<S, P, R>, c: nat, i: nat)
    requires Enabled(f, s, Collect(c)) && i < |f| && (c < |f| ==> s.actors[c].loop.Running?)
    ensures var t := Do(f, s, Collect(c));
      i < |t.actors| && KeptAt(s.actors[i], Busy(s.goroutines, i), t.actors[i], Busy(t.goroutines, i))
  {
  }

  lemma ActorStepKeepsAt<S, P, R>(f: Family<S, P, R>, s: System<S, P, R>, step: Step<P>, i: nat)
    requires Enabled(f, s, step) && i < |f| && !step.Accept? && !step.Collect?
    requires i != if step.Issue? then step.c else step.i
    ensures var t := Do(f, s, step);
      i < |t.actors| && KeptAt(s.actors[i], Busy(s.goroutines, i), t.actors[i], Busy(t.goroutines, i))
  {
  }

  lemma {:induction false} Settle<S(!new), P(!new), R(!new)>(f: Family<S, P, R>, order: seq<nat>, m: nat, s: System<S, P, R>)
    returns (steps: seq<Step<P>>, t: System<S, P, R>)
    requires Settling(f, order, m, s)
    ensures Run(f, s, steps, t) && Settling(f, order, m, t) && Resting(t, Elements(order)) && Kept(s, t, Elements(order))
    decreases Load(order, m, s)
  {
    if Resting(s, Elements(order)) {
      steps, t := [], s;
    } else {
      SettlingCanStep(f, order, m, s);
      var step :| Allowed(Elements(order), step) && Enabled(f, s, step);
      LoadFalls(f, order, m, s, step);
      AllowedKeeps(f, s, step, Elements(order));
      var later;
      later, t := Settle(f, order, m, Do(f, s, step));
      steps := [step] + later;
      assert steps[1..] == later;
      KeptOn(s, Do(f, s, step), t, Elements(order));
    }
  }
}
