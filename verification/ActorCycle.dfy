// How actors that may message each other in a circle come to wait for each other. The
// actors outside the circle are put in an order in which each messages earlier ones
// only. Those left over are driven, one after the other and by payloads sent from
// outside, to the point where they are about to call one another; then their mailboxes
// are filled up, and all of them begin the call. What `receive` calls next must go by
// how many calls it has made, not by their answers, or it could not be driven there.
// Last, a question put to one of them is never answered.
module ActorCycle {
  import opened Options
  import opened Circles
  import opened ActorProtocol
  import opened ActorDeadlock

  /** What `receive` does next does not depend on the answers it got. */
  ghost predicate Oblivious<S(!new), P(!new), R(!new)>(f: Family<S, P, R>) {
    forall i: nat, state, p, h, h' :: i < |f| && |h| == |h'| ==> f[i].receive(state, p, h) == f[i].receive(state, p, h')
  }

  // ----- Letting the actors run -----

  // The actors of `order` may message earlier ones only. The others are run one after the
  // other, by goroutine `|f|`, which is no actor's.

  /** Reachable, with no call under way and the actors of `order` at rest. */
  ghost predicate Stage<S(!new), P(!new), R(!new)>(f: Family<S, P, R>, n: nat, order: seq<nat>, m: nat, s: System<S, P, R>) {
    var stage := Reachable(f, n, s) && Settling(f, order, m, s) && Resting(s, Elements(order)) && |s.goroutines| > |f|;
    stage
  }

  /** The actors outside `order` other than `b` are as they were. */
  predicate OthersSame<S(==), P(==), R(==)>(s: System<S, P, R>, t: System<S, P, R>, order: seq<nat>, b: nat) {
    |s.actors| == |t.actors| && forall i: nat :: i < |s.actors| && i !in order && i != b ==> t.actors[i] == s.actors[i]
  }

  /** `act` calls no actor outside `order`. */
  predicate Spares<S, P, R>(n: nat, order: seq<nat>, act: Act<S, P, R>) {
    act.Call? && act.op.to < n ==> act.op.to in order
  }

  lemma {:induction false} RunAppend<S, P, R>(f: Family<S, P, R>, s: System<S, P, R>, steps: seq<Step<P>>, t: System<S, P, R>,
                                              more: seq<Step<P>>, u: System<S, P, R>)
    requires Run(f, s, steps, t) && Run(f, t, more, u)
    ensures Run(f, s, steps + more, u)
    decreases |steps|
  {
    if steps == [] {
      assert steps + more == more;
    } else {
      assert (steps + more)[1..] == steps[1..] + more;
      RunAppend(f, Do(f, s, steps[0]), steps[1..], t, more, u);
    }
  }

  lemma ReachOn<S(!new), P(!new), R(!new)>(f: Family<S, P, R>, n: nat, s: System<S, P, R>, steps: seq<Step<P>>, t: System<S, P, R>)
    requires Reachable(f, n, s) && Run(f, s, steps, t)
    ensures Reachable(f, n, t)
  {
    var before :| Run(f, Spawned(f, n), before, s);
    RunAppend(f, Spawned(f, n), before, s, steps, t);
  }

  lemma ReachNext<S(!new), P(!new), R(!new)>(f: Family<S, P, R>, n: nat, s: System<S, P, R>, step: Step<P>)
    requires Reachable(f, n, s) && Enabled(f, s, step)
    ensures Reachable(f, n, Do(f, s, step))
  {
    assert [step][1..] == [];
    assert Run(f, s, [step], Do(f, s, step));
    ReachOn(f, n, s, [step], Do(f, s, step));
  }

  lemma IdleCallsOnly<S, P, R>(s: System<S, P, R>, g: set<nat>)
    requires forall c :: 0 <= c < |s.goroutines| ==> s.goroutines[c].phase == Idle
    ensures CallsOnly(s, g)
  {
  }

  /** An actor that was left alone with no call under way is as it was. */
  lemma KeptIsSame<S, P, R>(a: Actor<S, P, R>, b: Actor<S, P, R>)
    requires KeptAt(a, 0, b, 0)
    ensures b == a
  {
  }

  lemma BackAtRest<S(!new), P(!new), R(!new)>(f: Family<S, P, R>, n: nat, order: seq<nat>, m: nat, s: System<S, P, R>)
    returns (t: System<S, P, R>)
    requires Reachable(f, n, s) && Settling(f, order, m, s) && |s.goroutines| > |f|
    ensures Stage(f, n, order, m, t) && Kept(s, t, Elements(order))
  {
    var steps;
    steps, t := Settle(f, order, m, s);
    ReachOn(f, n, s, steps, t);
  }

  /** Actor `b`, in `receive`, has made one more call. */
  ghost predicate OneMoreCall<S, P, R>(a: Actor<S, P, R>, b: Actor<S, P, R>) {
    var more := a.loop.Running? && b.loop.Running? && |b.loop.answers| == |a.loop.answers| + 1
      && b == a.(loop := Running(a.loop.m, b.loop.answers));
    more
  }

  /** A call that `receive` makes on an actor of `order` gets its answer. */
  lemma OneCall<S(!new), P(!new), R(!new)>(f: Family<S, P, R>, n: nat, order: seq<nat>, m: nat, s: System<S, P, R>, b: nat)
    returns (t: System<S, P, R>)
    requires Stage(f, n, order, m, s) && b < |f| && b !in order && s.actors[b].loop.Running?
    requires NextAct(f[b], s.actors[b]).Call? && Spares(|f|, order, NextAct(f[b], s.actors[b]))
    ensures Stage(f, n, order, m, t) && OthersSame(s, t, order, b) && OneMoreCall(s.actors[b], t.actors[b])
  {
    var op := NextAct(f[b], s.actors[b]).op;
    var s1 := Do(f, s, Issue(b, op));
    ReachNext(f, n, s, Issue(b, op));
    StepKeeps(f, s, Issue(b, op));
    t := BackAtRest(f, n, order, m, s1);
    forall i: nat | i < |f| && i !in order && i != b ensures t.actors[i] == s.actors[i] {
      assert KeptAt(s1.actors[i], Busy(s1.goroutines, i), t.actors[i], Busy(t.goroutines, i));
      KeptIsSame(s1.actors[i], t.actors[i]);
    }
    assert KeptAt(s1.actors[b], Busy(s1.goroutines, b), t.actors[b], Busy(t.goroutines, b));
  }

  /** An actor with a message more in its mailbox. */
  ghost predicate OneMoreMessage<S, P, R>(a: Actor<S, P, R>, p: P, b: Actor<S, P, R>) {
    var more := |b.mailbox| == |a.mailbox| + 1 && b == a.(mailbox := a.mailbox + [b.mailbox[|a.mailbox|]])
      && b.mailbox[|a.mailbox|].op.Send? && b.mailbox[|a.mailbox|].op.payload == p;
    more
  }

  /** Goroutine `|f|` sends actor `b` a message. */
  lemma SendOne<S(!new), P(!new), R(!new)>(f: Family<S, P, R>, n: nat, order: seq<nat>, m: nat, s: System<S, P, R>, b: nat, p: P)
    returns (t: System<S, P, R>)
    requires Stage(f, n, order, m, s) && b < |f| && b !in order && |s.actors[b].mailbox| < CAPACITY
    ensures Stage(f, n, order, m, t) && OthersSame(s, t, order, b) && OneMoreMessage(s.actors[b], p, t.actors[b])
  {
    var c := |f|;
    var s1 := Do(f, s, Issue(c, Send(b, p)));
    ReachNext(f, n, s, Issue(c, Send(b, p)));
    StepKeeps(f, s, Issue(c, Send(b, p)));
    Issuing(f, s, order, b, p);
    t := Do(f, s1, Accept(c));
    ReachNext(f, n, s1, Accept(c));
    StepKeeps(f, s1, Accept(c));
    IdleCallsOnly(t, Elements(order));
  }

  lemma Issuing<S, P, R>(f: Family<S, P, R>, s: System<S, P, R>, order: seq<nat>, b: nat, p: P)
    requires Enabled(f, s, Issue(|f|, Send(b, p))) && b < |f| && b !in order && |s.actors[b].mailbox| < CAPACITY
    requires Resting(s, Elements(order))
    ensures Enabled(f, Do(f, s, Issue(|f|, Send(b, p))), Accept(|f|))
    ensures var t := Do(f, Do(f, s, Issue(|f|, Send(b, p))), Accept(|f|));
      && Resting(t, Elements(order)) && |t.goroutines| == |s.goroutines|
      && OthersSame(s, t, order, b) && OneMoreMessage(s.actors[b], p, t.actors[b])
  {
  }

  /** An actor that has just taken payload `p`, sent to it, from an empty mailbox. */
  ghost predicate Handling<S, P, R>(a: Actor<S, P, R>, state: S, p: P, calls: nat) {
    var handling := a.mailbox == [] && a.state == state && a.loop.Running? && a.loop.m.op == Send(a.loop.m.op.to, p)
      && |a.loop.answers| == calls;
    handling
  }

  ghost predicate AtEase<S, P, R>(a: Actor<S, P, R>, state: S) {
    var ease := a.mailbox == [] && a.loop.Ready? && a.state == state;
    ease
  }

  lemma Deliver<S(!new), P(!new), R(!new)>(f: Family<S, P, R>, n: nat, order: seq<nat>, m: nat, s: System<S, P, R>, b: nat, p: P)
    returns (t: System<S, P, R>)
    requires Stage(f, n, order, m, s) && b < |f| && b !in order && AtEase(s.actors[b], s.actors[b].state)
    ensures Stage(f, n, order, m, t) && OthersSame(s, t, order, b) && Handling(t.actors[b], s.actors[b].state, p, 0)
  {
    var s1 := SendOne(f, n, order, m, s, b, p);
    t := Do(f, s1, Take(b));
    ReachNext(f, n, s1, Take(b));
    StepKeeps(f, s1, Take(b));
    IdleCallsOnly(t, Elements(order));
  }

  /** None of the first calls is on an actor outside `order`. */
  ghost predicate SparesCalls<S, P, R>(b: Behaviour<S, P, R>, n: nat, order: seq<nat>, state: S, p: P, answers: seq<Option<R>>) {
    forall k: nat :: k < |answers| ==> Spares(n, order, b.receive(state, p, answers[..k]))
  }

  lemma {:induction false} PossiblePrefix<S, P, R>(b: Behaviour<S, P, R>, n: nat, state: S, p: P, answers: seq<Option<R>>, k: nat)
    requires Possible(b, n, state, p, answers) && k <= |answers|
    ensures Possible(b, n, state, p, answers[..k])
    ensures k < |answers| ==> b.receive(state, p, answers[..k]).Call?
  {
    if k == |answers| {
      assert answers[..k] == answers;
    } else {
      var before := answers[..|answers| - 1];
      PossiblePrefix(b, n, state, p, before, k);
      assert before[..k] == answers[..k];
    }
  }

  /** Lets `receive` make as many calls as there are answers. */
  lemma {:induction false} MakeCalls<S(!new), P(!new), R(!new)>(
      f: Family<S, P, R>, n: nat, order: seq<nat>, m: nat, s: System<S, P, R>, b: nat, p: P, answers: seq<Option<R>>, k: nat)
    returns (t: System<S, P, R>)
    requires Oblivious(f) && Stage(f, n, order, m, s) && b < |f| && b !in order && k <= |answers|
    requires Handling(s.actors[b], s.actors[b].state, p, k)
    requires Possible(f[b], |f|, s.actors[b].state, p, answers) && SparesCalls(f[b], |f|, order, s.actors[b].state, p, answers)
    ensures Stage(f, n, order, m, t) && OthersSame(s, t, order, b) && Handling(t.actors[b], s.actors[b].state, p, |answers|)
    decreases |answers| - k
  {
    if k == |answers| {
      t := s;
    } else {
      PossiblePrefix(f[b], |f|, s.actors[b].state, p, answers, k);
      assert NextAct(f[b], s.actors[b]) == f[b].receive(s.actors[b].state, p, answers[..k]);
      var s1 := OneCall(f, n, order, m, s, b);
      t := MakeCalls(f, n, order, m, s1, b, p, answers, k + 1);
    }
  }

  /** Lets an actor take a whole turn. */
  lemma TakeTurn<S(!new), P(!new), R(!new)>(
      f: Family<S, P, R>, n: nat, order: seq<nat>, m: nat, s: System<S, P, R>, b: nat, p: P, answers: seq<Option<R>>)
    returns (t: System<S, P, R>)
    requires Oblivious(f) && Stage(f, n, order, m, s) && b < |f| && b !in order && AtEase(s.actors[b], s.actors[b].state)
    requires Possible(f[b], |f|, s.actors[b].state, p, answers) && SparesCalls(f[b], |f|, order, s.actors[b].state, p, answers)
    requires f[b].receive(s.actors[b].state, p, answers).Return?
    ensures Stage(f, n, order, m, t) && OthersSame(s, t, order, b)
    ensures AtEase(t.actors[b], f[b].receive(s.actors[b].state, p, answers).state)
  {
    var s1 := Deliver(f, n, order, m, s, b, p);
    var s2 := MakeCalls(f, n, order, m, s1, b, p, answers, 0);
    assert NextAct(f[b], s2.actors[b]) == f[b].receive(s.actors[b].state, p, answers);
    t := EndTurn(f, n, order, m, s2, b, s.actors[b].state, p, |answers|);
  }

  lemma EndTurn<S(!new), P(!new), R(!new)>(
      f: Family<S, P, R>, n: nat, order: seq<nat>, m: nat, s: System<S, P, R>, b: nat, state: S, p: P, calls: nat)
    returns (t: System<S, P, R>)
    requires Stage(f, n, order, m, s) && b < |f| && b !in order && Handling(s.actors[b], state, p, calls)
    requires NextAct(f[b], s.actors[b]).Return?
    ensures Stage(f, n, order, m, t) && OthersSame(s, t, order, b) && AtEase(t.actors[b], NextAct(f[b], s.actors[b]).state)
  {
    t := Do(f, s, Finish(b));
    ReachNext(f, n, s, Finish(b));
    StepKeeps(f, s, Finish(b));
    Ending(f, order, s, b, state, p, calls);
    IdleCallsOnly(t, Elements(order));
  }

  lemma Ending<S, P, R>(f: Family<S, P, R>, order: seq<nat>, s: System<S, P, R>, b: nat, state: S, p: P, calls: nat)
    requires Enabled(f, s, Finish(b)) && b !in order && Resting(s, Elements(order)) && Handling(s.actors[b], state, p, calls)
    ensures var t := Do(f, s, Finish(b));
      && Resting(t, Elements(order)) && t.goroutines == s.goroutines
      && OthersSame(s, t, order, b) && AtEase(t.actors[b], NextAct(f[b], s.actors[b]).state)
  {
  }

  /** None of the calls in these turns is on an actor outside `order`. */
  ghost predicate SparesTurns<S, P, R>(b: Behaviour<S, P, R>, n: nat, order: seq<nat>, turns: seq<Turn<P, R>>) {
    forall k: nat :: k < |turns| ==> SparesTurn(b, n, order, turns, k)
  }

  ghost predicate SparesTurn<S, P, R>(b: Behaviour<S, P, R>, n: nat, order: seq<nat>, turns: seq<Turn<P, R>>, k: nat)
    requires k < |turns|
  {
    SparesCalls(b, n, order, Fold(b, turns[..k]), turns[k].m.op.payload, turns[k].answers)
  }

  /** Lets an actor take turns with these payloads, one after the other. */
  lemma {:induction false} TakeTurns<S(!new), P(!new), R(!new)>(
      f: Family<S, P, R>, n: nat, order: seq<nat>, m: nat, s: System<S, P, R>, b: nat, turns: seq<Turn<P, R>>)
    returns (t: System<S, P, R>)
    requires Oblivious(f) && Stage(f, n, order, m, s) && b < |f| && b !in order && AtEase(s.actors[b], f[b].initial)
    requires ValidTurns(f[b], |f|, turns) && SparesTurns(f[b], |f|, order, turns)
    ensures Stage(f, n, order, m, t) && OthersSame(s, t, order, b) && AtEase(t.actors[b], Fold(f[b], turns))
  {
    if turns == [] {
      t := s;
    } else {
      var k := |turns| - 1;
      assert SparesTurn(f[b], |f|, order, turns, k);
      forall j: nat | j < k ensures SparesTurn(f[b], |f|, order, turns[..k], j) {
        assert SparesTurn(f[b], |f|, order, turns, j);
        assert turns[..k][..j] == turns[..j];
      }
      var s1 := TakeTurns(f, n, order, m, s, b, turns[..k]);
      t := TakeTurn(f, n, order, m, s1, b, turns[k].m.op.payload, turns[k].answers);
    }
  }

  // ----- The first call on an actor outside the order -----

  /** Such a call, with none before it. */
  ghost predicate FirstOutside<S, P, R>(f: Family<S, P, R>, order: seq<nat>, i: nat, j: nat, turns: seq<Turn<P, R>>, p: P,
                                        answers: seq<Option<R>>)
  {
    && i < |f| && j !in order && MessagesAt(f, i, j, turns, p, answers)
    && SparesTurns(f[i], |f|, order, turns) && SparesCalls(f[i], |f|, order, Fold(f[i], turns), p, answers)
  }

  lemma {:induction false} ValidPrefix<S, P, R>(b: Behaviour<S, P, R>, n: nat, turns: seq<Turn<P, R>>, k: nat)
    requires ValidTurns(b, n, turns) && k <= |turns|
    ensures ValidTurns(b, n, turns[..k])
    ensures k < |turns| ==> Possible(b, n, Fold(b, turns[..k]), turns[k].m.op.payload, turns[k].answers)
    decreases |turns|
  {
    if k == |turns| {
      assert turns[..k] == turns;
    } else {
      var before := turns[..|turns| - 1];
      if k < |before| {
        ValidPrefix(b, n, before, k);
        assert before[..k] == turns[..k];
      }
    }
  }

  lemma {:induction false} FindFirstOutside<S, P, R>(
      f: Family<S, P, R>, order: seq<nat>, i: nat, j: nat, turns: seq<Turn<P, R>>, p: P, answers: seq<Option<R>>)
    returns (j': nat, turns': seq<Turn<P, R>>, p': P, answers': seq<Option<R>>)
    requires i < |f| && j !in order && MessagesAt(f, i, j, turns, p, answers)
    ensures FirstOutside(f, order, i, j', turns', p', answers')
    decreases |turns|, 1, |answers|
  {
    var b, n := f[i], |f|;
    if !SparesCalls(b, n, order, Fold(b, turns), p, answers) {
      var k: nat :| k < |answers| && !Spares(n, order, b.receive(Fold(b, turns), p, answers[..k]));
      PossiblePrefix(b, n, Fold(b, turns), p, answers, k);
      j', turns', p', answers' := FindFirstOutside(f, order, i, b.receive(Fold(b, turns), p, answers[..k]).op.to, turns, p, answers[..k]);
    } else if !SparesTurns(b, n, order, turns) {
      var k: nat :| k < |turns| && !SparesTurn(b, n, order, turns, k);
      j', turns', p', answers' := FindInTurn(f, order, i, turns, k);
    } else {
      j', turns', p', answers' := j, turns, p, answers;
    }
  }

  lemma {:induction false} FindInTurn<S, P, R>(f: Family<S, P, R>, order: seq<nat>, i: nat, turns: seq<Turn<P, R>>, k: nat)
    returns (j': nat, turns': seq<Turn<P, R>>, p': P, answers': seq<Option<R>>)
    requires i < |f| && ValidTurns(f[i], |f|, turns) && k < |turns| && !SparesTurn(f[i], |f|, order, turns, k)
    ensures FirstOutside(f, order, i, j', turns', p', answers')
    decreases |turns|, 0, 0
  {
    var b, n, state, p, answers := f[i], |f|, Fold(f[i], turns[..k]), turns[k].m.op.payload, turns[k].answers;
    var x: nat :| x < |answers| && !Spares(n, order, b.receive(state, p, answers[..x]));
    ValidPrefix(b, n, turns, k);
    PossiblePrefix(b, n, state, p, answers, x);
    j', turns', p', answers' := FindFirstOutside(f, order, i, b.receive(state, p, answers[..x]).op.to, turns[..k], p, answers[..x]);
  }

  // ----- From a cycle to a deadlock -----

  /** In `receive`, about to call an actor outside `order`. */
  ghost predicate AtTheBrink<S, P, R>(f: Family<S, P, R>, order: seq<nat>, i: nat, a: Actor<S, P, R>) {
    var brink := i < |f| && a.loop.Running? && NextAct(f[i], a).Call? && NextAct(f[i], a).op.to < |f| && NextAct(f[i], a).op.to !in order;
    brink
  }

  lemma ToTheBrink<S(!new), P(!new), R(!new)>(f: Family<S, P, R>, n: nat, order: seq<nat>, m: nat, s: System<S, P, R>, b: nat, j: nat)
    returns (t: System<S, P, R>)
    requires Oblivious(f) && Stage(f, n, order, m, s) && b < |f| && b !in order && AtEase(s.actors[b], f[b].initial)
    requires MayMessage(f, b, j) && j !in order
    ensures Stage(f, n, order, m, t) && OthersSame(s, t, order, b) && AtTheBrink(f, order, b, t.actors[b]) && t.actors[b].mailbox == []
  {
    var turns, p, answers :| MessagesAt(f, b, j, turns, p, answers);
    var j1, turns1, p1, answers1 := FindFirstOutside(f, order, b, j, turns, p, answers);
    var s1 := TakeTurns(f, n, order, m, s, b, turns1);
    var s2 := Deliver(f, n, order, m, s1, b, p1);
    t := MakeCalls(f, n, order, m, s2, b, p1, answers1, 0);
    assert NextAct(f[b], t.actors[b]) == f[b].receive(Fold(f[b], turns1), p1, answers1);
  }

  /** Of the actors outside `order`, those of `todo` have done nothing and the others are
      about to call one of them. */
  ghost predicate Brinks<S, P, R>(f: Family<S, P, R>, order: seq<nat>, s: System<S, P, R>, todo: set<nat>) {
    && |f| == |s.actors|
    && forall i: nat :: i < |f| && i !in order ==> BrinkOf(f, order, s, todo, i)
  }

  ghost predicate BrinkOf<S, P, R>(f: Family<S, P, R>, order: seq<nat>, s: System<S, P, R>, todo: set<nat>, i: nat)
    requires i < |f| == |s.actors|
  {
    if i in todo then AtEase(s.actors[i], f[i].initial) else AtTheBrink(f, order, i, s.actors[i]) && s.actors[i].mailbox == []
  }

  lemma {:induction false} AllToTheBrink<S(!new), P(!new), R(!new)>(
      f: Family<S, P, R>, n: nat, order: seq<nat>, m: nat, s: System<S, P, R>, rest: set<nat>, todo: set<nat>)
    returns (t: System<S, P, R>)
    requires Oblivious(f) && Stage(f, n, order, m, s) && Brinks(f, order, s, todo) && todo <= rest
    requires Trap(MessageLinks(f), rest) && forall i :: i in rest ==> i < |f| && i !in order
    ensures Stage(f, n, order, m, t) && Brinks(f, order, t, {})
    decreases todo
  {
    if todo == {} {
      t := s;
    } else {
      var b :| b in todo;
      assert LeadsInto(MessageLinks(f), b, rest);
      var s1 := OneToTheBrink(f, n, order, m, s, rest, todo, b);
      t := AllToTheBrink(f, n, order, m, s1, rest, todo - {b});
    }
  }

  lemma OneToTheBrink<S(!new), P(!new), R(!new)>(
      f: Family<S, P, R>, n: nat, order: seq<nat>, m: nat, s: System<S, P, R>, rest: set<nat>, todo: set<nat>, b: nat)
    returns (t: System<S, P, R>)
    requires Oblivious(f) && Stage(f, n, order, m, s) && Brinks(f, order, s, todo) && b in todo
    requires b < |f| && b !in order && LeadsInto(MessageLinks(f), b, rest) && forall i :: i in rest ==> i !in order
    ensures Stage(f, n, order, m, t) && Brinks(f, order, t, todo - {b})
  {
    var j :| j in rest && (b, j) in MessageLinks(f);
    assert BrinkOf(f, order, s, todo, b);
    t := ToTheBrink(f, n, order, m, s, b, j);
    OthersAtBrink(f, order, s, t, todo, b);
  }

  lemma OthersAtBrink<S, P, R>(f: Family<S, P, R>, order: seq<nat>, s: System<S, P, R>, t: System<S, P, R>, todo: set<nat>, b: nat)
    requires Brinks(f, order, s, todo) && OthersSame(s, t, order, b) && b < |f|
    requires AtTheBrink(f, order, b, t.actors[b]) && t.actors[b].mailbox == []
    ensures Brinks(f, order, t, todo - {b})
  {
    forall i: nat | i < |f| && i !in order ensures BrinkOf(f, order, t, todo - {b}, i) {
      assert BrinkOf(f, order, s, todo, i);
    }
  }

  /** An actor with a full mailbox, else as it was. */
  ghost predicate FilledUp<S, P, R>(a: Actor<S, P, R>, b: Actor<S, P, R>) {
    var filled := |b.mailbox| == CAPACITY && b == a.(mailbox := b.mailbox);
    filled
  }

  lemma {:induction false} Fill<S(!new), P(!new), R(!new)>(f: Family<S, P, R>, n: nat, order: seq<nat>, m: nat, s: System<S, P, R>, b: nat, p: P)
    returns (t: System<S, P, R>)
    requires Stage(f, n, order, m, s) && b < |f| && b !in order && |s.actors[b].mailbox| <= CAPACITY
    ensures Stage(f, n, order, m, t) && OthersSame(s, t, order, b) && FilledUp(s.actors[b], t.actors[b])
    decreases CAPACITY - |s.actors[b].mailbox|
  {
    if |s.actors[b].mailbox| == CAPACITY {
      t := s;
    } else {
      var s1 := SendOne(f, n, order, m, s, b, p);
      t := Fill(f, n, order, m, s1, b, p);
    }
  }

  /** All actors outside `order` are about to call one of them, and all but those of `todo`
      have a full mailbox. */
  ghost predicate Full<S, P, R>(f: Family<S, P, R>, order: seq<nat>, s: System<S, P, R>, todo: set<nat>) {
    |f| == |s.actors| && forall i: nat :: i < |f| && i !in order ==> FullAt(f, order, s, todo, i)
  }

  ghost predicate FullAt<S, P, R>(f: Family<S, P, R>, order: seq<nat>, s: System<S, P, R>, todo: set<nat>, i: nat)
    requires i < |f| == |s.actors|
  {
    AtTheBrink(f, order, i, s.actors[i]) && |s.actors[i].mailbox| <= CAPACITY && (i !in todo ==> |s.actors[i].mailbox| == CAPACITY)
  }

  lemma {:induction false} FillAll<S(!new), P(!new), R(!new)>(
      f: Family<S, P, R>, n: nat, order: seq<nat>, m: nat, s: System<S, P, R>, todo: set<nat>, p: P)
    returns (t: System<S, P, R>)
    requires Stage(f, n, order, m, s) && Full(f, order, s, todo) && forall i :: i in todo ==> i < |f| && i !in order
    ensures Stage(f, n, order, m, t) && Full(f, order, t, {})
    decreases todo
  {
    if todo == {} {
      t := s;
    } else {
      var b :| b in todo;
      assert FullAt(f, order, s, todo, b);
      var s1 := Fill(f, n, order, m, s, b, p);
      FullNext(f, order, s, s1, todo, b);
      t := FillAll(f, n, order, m, s1, todo - {b}, p);
    }
  }

  lemma FullNext<S, P, R>(f: Family<S, P, R>, order: seq<nat>, s: System<S, P, R>, t: System<S, P, R>, todo: set<nat>, b: nat)
    requires Full(f, order, s, todo) && OthersSame(s, t, order, b) && b < |f| && b !in order && FilledUp(s.actors[b], t.actors[b])
    ensures Full(f, order, t, todo - {b})
  {
    forall i: nat | i < |f| && i !in order ensures FullAt(f, order, t, todo - {b}, i) {
      assert FullAt(f, order, s, todo, i);
    }
  }

  /** Besides, all but those of `todo` have begun the call. */
  ghost predicate Blocking<S, P, R>(f: Family<S, P, R>, order: seq<nat>, s: System<S, P, R>, todo: set<nat>) {
    && |f| == |s.actors| < |s.goroutines| && s.goroutines[|f|].phase == Idle
    && forall i: nat :: i < |f| && i !in order ==> BlockingAt(f, order, s, todo, i)
  }

  ghost predicate BlockingAt<S, P, R>(f: Family<S, P, R>, order: seq<nat>, s: System<S, P, R>, todo: set<nat>, i: nat)
    requires i < |f| == |s.actors| < |s.goroutines|
  {
    var g := s.goroutines[i];
    var blocking := AtTheBrink(f, order, i, s.actors[i]) && |s.actors[i].mailbox| == CAPACITY
      && if i in todo then g.phase == Idle
         else g.phase == Blocked && g.issued != [] && g.issued[|g.issued| - 1] == NextAct(f[i], s.actors[i]).op;
    blocking
  }

  lemma {:induction false} BlockAll<S(!new), P(!new), R(!new)>(f: Family<S, P, R>, n: nat, order: seq<nat>, s: System<S, P, R>, todo: set<nat>)
    returns (t: System<S, P, R>)
    requires Reachable(f, n, s) && Blocking(f, order, s, todo) && forall i :: i in todo ==> i < |f| && i !in order
    ensures Reachable(f, n, t) && Blocking(f, order, t, {})
    decreases todo
  {
    if todo == {} {
      t := s;
    } else {
      var b :| b in todo;
      assert BlockingAt(f, order, s, todo, b);
      var step: Step<P> := Issue(b, NextAct(f[b], s.actors[b]).op);
      ReachNext(f, n, s, step);
      BlockNext(f, order, s, todo, b);
      t := BlockAll(f, n, order, Do(f, s, step), todo - {b});
    }
  }

  lemma BlockNext<S, P, R>(f: Family<S, P, R>, order: seq<nat>, s: System<S, P, R>, todo: set<nat>, b: nat)
    requires Blocking(f, order, s, todo) && b in todo && b < |f| && b !in order && BlockingAt(f, order, s, todo, b)
    ensures Blocking(f, order, Do(f, s, Issue(b, NextAct(f[b], s.actors[b]).op)), todo - {b})
  {
    var t := Do(f, s, Issue(b, NextAct(f[b], s.actors[b]).op));
    forall i: nat | i < |f| && i !in order ensures BlockingAt(f, order, t, todo - {b}, i) {
      assert BlockingAt(f, order, s, todo, i);
    }
  }

  lemma BlockedIsStuck<S, P, R>(f: Family<S, P, R>, order: seq<nat>, s: System<S, P, R>, rest: set<nat>)
    requires Blocking(f, order, s, {}) && rest == Below(|f|) - Elements(order) && rest != {}
    ensures Stuck(s, rest)
  {
    forall i | i in rest ensures WaitsIn(s, rest, i) {
      assert BlockingAt(f, order, s, {}, i);
      assert BlockingAt(f, order, s, {}, NextAct(f[i], s.actors[i]).op.to);
    }
  }

  lemma SpawnedStage<S(!new), P(!new), R(!new)>(f: Family<S, P, R>, n: nat, order: seq<nat>, m: nat, rest: set<nat>)
    requires n >= 1 && Ends(f, m) && Ordered(MessageLinks(f), order) && (forall i :: i in order ==> i in Below(|f|))
    requires rest == Below(|f|) - Elements(order)
    ensures Stage(f, n, order, m, Spawned(f, n)) && Brinks(f, order, Spawned(f, n), rest)
  {
    SpawnedIsInvariant(f, n);
    assert Run(f, Spawned(f, n), [], Spawned(f, n));
    SpawnedRests(f, n, order);
    SpawnedAtEase(f, n, order, rest);
    IdleCallsOnly(Spawned(f, n), Elements(order));
  }

  lemma SpawnedRests<S, P, R>(f: Family<S, P, R>, n: nat, order: seq<nat>)
    ensures Resting(Spawned(f, n), Elements(order))
  {
  }

  lemma SpawnedAtEase<S, P, R>(f: Family<S, P, R>, n: nat, order: seq<nat>, rest: set<nat>)
    requires rest == Below(|f|) - Elements(order)
    ensures Brinks(f, order, Spawned(f, n), rest)
  {
    forall i: nat | i < |f| && i !in order ensures BrinkOf(f, order, Spawned(f, n), rest, i) {
      assert i in rest;
    }
  }

  /** A family whose actors may message each other in a circle can deadlock, with a
      goroutine free that is no actor's. */
  lemma CanDeadlock<S(!new), P(!new), R(!new)>(f: Family<S, P, R>, m: nat, n: nat) returns (s: System<S, P, R>, order: seq<nat>, w: set<nat>, p: P)
    requires n >= 1 && Oblivious(f) && Ends(f, m) && Cyclic(MessageLinks(f))
    ensures Reachable(f, n, s) && Blocking(f, order, s, {}) && w == Below(|f|) - Elements(order) && w != {} && Stuck(s, w)
  {
    order, w := CircleLeavesTrap(f);
    p := SomePayload(f, w);
    SpawnedStage(f, n, order, m, w);
    var s1 := AllToTheBrink(f, n, order, m, Spawned(f, n), w, w);
    BrinksAreFull(f, order, s1, w);
    var s2 := FillAll(f, n, order, m, s1, w, p);
    FullIsBlocking(f, order, s2, w);
    s := BlockAll(f, n, order, s2, w);
    BlockedIsStuck(f, order, s, w);
  }

  lemma CircleLeavesTrap<S(!new), P(!new), R(!new)>(f: Family<S, P, R>) returns (order: seq<nat>, w: set<nat>)
    requires Cyclic(MessageLinks(f))
    ensures Ordered(MessageLinks(f), order) && (forall i :: i in order ==> i in Below(|f|))
    ensures w == Below(|f|) - Elements(order) && Trap(MessageLinks(f), w)
  {
    order, w := PutInOrder(MessageLinks(f), Below(|f|), []);
    var circle :| Circle(MessageLinks(f), circle);
    assert (circle[0], circle[1]) in MessageLinks(f);
    if circle[0] in order { OrderedIsNoCircle(MessageLinks(f), order, circle); }
    assert circle[0] in w;
  }

  lemma BrinksAreFull<S, P, R>(f: Family<S, P, R>, order: seq<nat>, s: System<S, P, R>, w: set<nat>)
    requires Brinks(f, order, s, {}) && w == Below(|f|) - Elements(order)
    ensures Full(f, order, s, w)
  {
    forall i: nat | i < |f| && i !in order ensures FullAt(f, order, s, w, i) {
      assert BrinkOf(f, order, s, {}, i);
    }
  }

  lemma FullIsBlocking<S, P, R>(f: Family<S, P, R>, order: seq<nat>, s: System<S, P, R>, w: set<nat>)
    requires Full(f, order, s, {}) && Resting(s, Elements(order)) && |s.goroutines| > |f| && w == Below(|f|) - Elements(order)
    ensures Blocking(f, order, s, w)
  {
    forall i: nat | i < |f| && i !in order ensures BlockingAt(f, order, s, w, i) {
      assert FullAt(f, order, s, {}, i);
    }
  }

  lemma SomePayload<S(!new), P(!new), R(!new)>(f: Family<S, P, R>, w: set<nat>) returns (p: P)
    requires Trap(MessageLinks(f), w)
  {
    var i :| i in w;
    assert LeadsInto(MessageLinks(f), i, w);
    var j :| j in w && (i, j) in MessageLinks(f);
    var turns, answers;
    turns, p, answers :| MessagesAt(f, i, j, turns, p, answers);
  }

  // ----- Asking a stuck actor -----

  /** Goroutine `c` has asked, and no continuation gives it the answer. */
  ghost predicate Hangs<S(!new), P(!new), R(!new)>(f: Family<S, P, R>, s: System<S, P, R>, c: nat) {
    && c < |s.goroutines| && s.goroutines[c].issued != []
    && s.goroutines[c].issued[|s.goroutines[c].issued| - 1].Ask?
    && forall steps, t :: Run(f, s, steps, t) && c < |t.goroutines| ==>
         |s.goroutines[c].issued| - 1 !in t.goroutines[c].got
  }

  /** The mailbox of a stuck actor is full, and goroutine `c` is trying to send to it. */
  ghost predicate Turned<S, P, R>(f: Family<S, P, R>, s: System<S, P, R>, w: set<nat>, b: nat, c: nat, issued: seq<Op<P>>) {
    var turned := Stuck(s, w) && b in w && b < |s.actors| && |s.actors[b].mailbox| == CAPACITY
      && |f| <= c < |s.goroutines| && s.goroutines[c].phase == Blocked && s.goroutines[c].issued == issued
      && issued != [] && issued[|issued| - 1].to == b;
    turned
  }

  /** Operations are never taken back. */
  lemma {:induction false} IssuedStays<S, P, R>(f: Family<S, P, R>, s: System<S, P, R>, steps: seq<Step<P>>, t: System<S, P, R>, c: nat)
    requires Run(f, s, steps, t) && c < |s.goroutines|
    ensures c < |t.goroutines| && s.goroutines[c].issued <= t.goroutines[c].issued
    decreases |steps|
  {
    if steps != [] {
      IssuedStays(f, Do(f, s, steps[0]), steps[1..], t, c);
    }
  }

  lemma TurnedStep<S, P, R>(f: Family<S, P, R>, s: System<S, P, R>, w: set<nat>, b: nat, c: nat, issued: seq<Op<P>>, step: Step<P>)
    requires Invariant(f, s) && Turned(f, s, w, b, c, issued) && Enabled(f, s, step)
    ensures Turned(f, Do(f, s, step), w, b, c, issued)
  {
    StuckStep(f, s, w, step);
    StepKeeps(f, s, step);
    var t := Do(f, s, step);
    assert UnmovedAt(s.actors[b], t.actors[b]);
    StaysFull(f, s.actors[b], t, b);
    StillBlocked(f, s, c, b, step);
  }

  lemma StaysFull<S, P, R>(f: Family<S, P, R>, a: Actor<S, P, R>, t: System<S, P, R>, b: nat)
    requires Invariant(f, t) && b < |f| && UnmovedAt(a, t.actors[b]) && |a.mailbox| == CAPACITY
    ensures |t.actors[b].mailbox| == CAPACITY
  {
    assert ActorFits(f[b], |f|, t.goroutines, t.replies, b, t.actors[b]);
  }

  lemma StillBlocked<S, P, R>(f: Family<S, P, R>, s: System<S, P, R>, c: nat, b: nat, step: Step<P>)
    requires Enabled(f, s, step) && |f| <= c < |s.goroutines| && s.goroutines[c].phase == Blocked && s.goroutines[c].issued != []
    requires Outgoing(c, s.goroutines[c]).op.to == b < |s.actors| && |s.actors[b].mailbox| == CAPACITY
    ensures |Do(f, s, step).goroutines| == |s.goroutines| && Do(f, s, step).goroutines[c] == s.goroutines[c]
  {
  }

  lemma {:induction false} TurnedForEver<S, P, R>(f: Family<S, P, R>, s: System<S, P, R>, w: set<nat>, b: nat, c: nat, issued: seq<Op<P>>,
                                                  steps: seq<Step<P>>, t: System<S, P, R>)
    requires Invariant(f, s) && Turned(f, s, w, b, c, issued) && Run(f, s, steps, t)
    ensures Invariant(f, t) && Turned(f, t, w, b, c, issued)
    decreases |steps|
  {
    if steps != [] {
      TurnedStep(f, s, w, b, c, issued, steps[0]);
      StepKeeps(f, s, steps[0]);
      TurnedForEver(f, Do(f, s, steps[0]), w, b, c, issued, steps[1..], t);
    }
  }

  lemma AskingHangs<S(!new), P(!new), R(!new)>(f: Family<S, P, R>, n: nat, s: System<S, P, R>, w: set<nat>, b: nat, p: P)
    requires Reachable(f, n, s) && Stuck(s, w) && b in w && b < |f| && Enabled(f, s, Issue(|f|, Ask(b, p)))
    requires |s.actors[b].mailbox| == CAPACITY
    ensures Hangs(f, Do(f, s, Issue(|f|, Ask(b, p))), |f|)
  {
    var before :| Run(f, Spawned(f, n), before, s);
    RunIsInvariant(f, n, before, s);
    var s1 := Do(f, s, Issue(|f|, Ask(b, p)));
    StepKeeps(f, s, Issue(|f|, Ask(b, p)));
    StuckStep(f, s, w, Issue(|f|, Ask(b, p)));
    var issued := s1.goroutines[|f|].issued;
    forall steps, t | Run(f, s1, steps, t) && |f| < |t.goroutines| ensures |issued| - 1 !in t.goroutines[|f|].got {
      TurnedForEver(f, s1, w, b, |f|, issued, steps, t);
      assert PhaseFits(|f|, t.goroutines[|f|]);
    }
  }
}
