// What holds of every run of a family of actors: each actor is serial and its answers are
// its own; and when a family can deadlock or leave an ask unanswered.
module ActorFamilies {
  import opened Options
  import opened Circles
  import opened ActorProtocol
  import opened ActorDeadlock
  import opened ActorCycle

  // ----- Each actor -----

  /** In every interleaving each actor is serial: its fields are the fold of `receive`
      over the messages it has handled, one run of `receive` after the other, and its
      mailbox never holds more than a hundred messages. */
  lemma ActorIsSerial<S, P, R>(f: Family<S, P, R>, n: nat, steps: seq<Step<P>>, s: System<S, P, R>, i: nat)
    requires Run(f, Spawned(f, n), steps, s) && i < |f|
    ensures i < |s.actors| && s.actors[i].state == Fold(f[i], s.actors[i].turns) && ValidTurns(f[i], |f|, s.actors[i].turns)
    ensures |s.actors[i].mailbox| <= 100
  {
    RunIsInvariant(f, n, steps, s);
    assert ActorFits(f[i], |f|, s.goroutines, s.replies, i, s.actors[i]);
  }

  /** A goroutine blocked on a message gets it in as soon as the mailbox holds fewer. */
  lemma MailboxTakesAHundred<S, P, R>(f: Family<S, P, R>, n: nat, steps: seq<Step<P>>, s: System<S, P, R>, c: nat)
    requires Run(f, Spawned(f, n), steps, s) && c < |s.goroutines| && s.goroutines[c].phase == Blocked
    ensures |f| == |s.actors| <= |s.goroutines| && s.goroutines[c].issued != []
    ensures var to := s.goroutines[c].issued[|s.goroutines[c].issued| - 1].to;
      to < |f| && (Enabled(f, s, Accept(c)) <==> |s.actors[to].mailbox| < 100)
  {
    RunIsInvariant(f, n, steps, s);
    assert PhaseFits(|f|, s.goroutines[c]);
  }

  /** What an actor took from a goroutine, followed by what is still in the mailbox, is
      what that goroutine has sent to it, in its order, short of the operation it is blocked
      on; in particular the loop handles each goroutine's messages in send order. */
  lemma HandledInSendOrder<S, P, R>(f: Family<S, P, R>, n: nat, steps: seq<Step<P>>, s: System<S, P, R>, i: nat, c: nat)
    requires Run(f, Spawned(f, n), steps, s) && i < |f| && c < |s.goroutines|
    ensures i < |s.actors| && From(Taken(s.actors[i]) + s.actors[i].mailbox, c) == Labelled(c, Sent(s.goroutines[c]), i)
    ensures var ms := Taken(s.actors[i]);
      forall j, k :: 0 <= j < k < |ms| && ms[j].id.sender == c == ms[k].id.sender ==> ms[j].id.index < ms[k].id.index
  {
    RunIsInvariant(f, n, steps, s);
    assert ActorFits(f[i], |f|, s.goroutines, s.replies, i, s.actors[i]);
    OrderOf(|f|, s.goroutines, i, Taken(s.actors[i]), s.actors[i].mailbox, c);
  }

  /** An answer that a caller holds is what `receive` of the actor asked returned for that
      very call, and the actor handled that call once. Only asks get answers. */
  lemma AnswersAreOwn<S, P, R>(f: Family<S, P, R>, n: nat, steps: seq<Step<P>>, s: System<S, P, R>, c: nat, k: nat)
    requires Run(f, Spawned(f, n), steps, s) && c < |s.goroutines| && k in s.goroutines[c].got
    ensures |f| == |s.actors| && k < |s.goroutines[c].issued| && s.goroutines[c].issued[k].Ask?
    ensures var op := s.goroutines[c].issued[k];
      op.to < |f| && exists j: nat :: AnsweredOnce(f[op.to], s.actors[op.to], j, Message(Label(c, k), op), s.goroutines[c].got[k])
  {
    RunIsInvariant(f, n, steps, s);
    assert PhaseFits(|f|, s.goroutines[c]);
    var op := s.goroutines[c].issued[k];
    AnswerIsOwn(f[op.to], |f|, s.goroutines, s.replies, op.to, s.actors[op.to], c, k);
  }

  /** The loop never blocks on `msg.Reply <- res`. */
  lemma ReplyNeverBlocks<S, P, R>(f: Family<S, P, R>, n: nat, steps: seq<Step<P>>, s: System<S, P, R>, i: nat)
    requires Run(f, Spawned(f, n), steps, s) && i < |f|
    ensures i < |s.actors| && (s.actors[i].loop.Replying? ==> Enabled(f, s, Reply(i)))
  {
    RunIsInvariant(f, n, steps, s);
    assert ActorFits(f[i], |f|, s.goroutines, s.replies, i, s.actors[i]);
  }

  /** What the calls of `receive` returned to it is what they were answered: the calls
      that an actor's goroutine has completed, with their answers, are those that its runs
      of `receive` have made and gone by, in order. */
  lemma ReceiveSeesAnswers<S, P, R>(f: Family<S, P, R>, n: nat, steps: seq<Step<P>>, s: System<S, P, R>, i: nat)
    requires Run(f, Spawned(f, n), steps, s) && i < |f|
    ensures |f| == |s.actors| <= |s.goroutines| && Completed(s.goroutines[i]) == AllCalls(f[i], |f|, s.actors[i])
  {
    SpawnedIsInvariant(f, n);
    RunKeepsCalls(f, Spawned(f, n), steps, s);
  }

  // ----- Progress -----

  /** No deadlock but one: while anything is under way, some step can be taken, unless
      actors wait for each other. */
  lemma Progress<S(!new), P(!new), R(!new)>(f: Family<S, P, R>, n: nat, steps: seq<Step<P>>, s: System<S, P, R>)
    requires Run(f, Spawned(f, n), steps, s) && !Quiescent(s) && !Deadlocked(s)
    ensures exists step :: Internal(f, step) && Enabled(f, s, step)
  {
    RunIsInvariant(f, n, steps, s);
    AllCallsAreOn(f, s);
    ProgressIn(f, s, Below(|f|));
    var step :| Allowed(Below(|f|), step) && Enabled(f, s, step);
    assert Internal(f, step);
  }

  /** Actors that wait for each other do so for ever, and handle nothing more. */
  lemma DeadlockIsForEver<S, P, R>(
      f: Family<S, P, R>, n: nat, before: seq<Step<P>>, s: System<S, P, R>, w: set<nat>, steps: seq<Step<P>>, t: System<S, P, R>)
    requires Run(f, Spawned(f, n), before, s) && Stuck(s, w) && Run(f, s, steps, t)
    ensures Stuck(t, w) && Unmoved(s, t, w)
  {
    RunIsInvariant(f, n, before, s);
    StuckStays(f, s, w, steps, t);
  }

  /** Actors wait for each other only if some may message each other in a circle. */
  lemma DeadlockNeedsCycle<S(!new), P(!new), R(!new)>(f: Family<S, P, R>, n: nat, s: System<S, P, R>, w: set<nat>)
    requires Reachable(f, n, s) && Stuck(s, w)
    ensures Cyclic(MessageLinks(f))
  {
    var steps :| Run(f, Spawned(f, n), steps, s);
    RunIsInvariant(f, n, steps, s);
    StuckIsTrap(f, s, w);
    TrapIsCyclic(MessageLinks(f), w);
  }

  /** If actors do not message each other in a circle, and each run of `receive` makes at
      most `m` calls, then, once no new calls begin, every schedule ends within a bound that
      does not depend on it; and when no step is left, every message has been handled and
      every ask has its answer. */
  lemma EveryAskIsAnswered<S(!new), P(!new), R(!new)>(f: Family<S, P, R>, m: nat, n: nat, s: System<S, P, R>)
    requires !Cyclic(MessageLinks(f)) && Ends(f, m) && Reachable(f, n, s)
    ensures exists bound :: SchedulesEnd(f, s, bound)
  {
    var before :| Run(f, Spawned(f, n), before, s);
    RunIsInvariant(f, n, before, s);
    var order := AllSettling(f, m, s);
    forall steps, t | InternalRun(f, s, steps, t) ensures EndsWithin(f, steps, t, Load(order, m, s)) {
      ScheduleEnds(f, order, m, s, steps, t);
    }
    assert SchedulesEnd(f, s, Load(order, m, s));
  }

  // ----- Which families can deadlock -----

  /** Exactly those with actors that may message each other in a circle; `n` counts the
      goroutines that are no actor's. */
  lemma CanDeadlockIff<S(!new), P(!new), R(!new)>(f: Family<S, P, R>, m: nat, n: nat)
    requires n >= 1 && Oblivious(f) && Ends(f, m)
    ensures (exists s :: Reachable(f, n, s) && Deadlocked(s)) <==> Cyclic(MessageLinks(f))
  {
    if Cyclic(MessageLinks(f)) {
      var s, order, w, p := CanDeadlock(f, m, n);
      assert Deadlocked(s);
    }
    if exists s :: Reachable(f, n, s) && Deadlocked(s) {
      var s :| Reachable(f, n, s) && Deadlocked(s);
      var w :| Stuck(s, w);
      DeadlockNeedsCycle(f, n, s, w);
    }
  }

  /** Of a single actor: exactly if it may message itself. */
  lemma OneActorCanDeadlockIff<S(!new), P(!new), R(!new)>(f: Family<S, P, R>, m: nat, n: nat)
    requires |f| == 1 && n >= 1 && Oblivious(f) && Ends(f, m)
    ensures (exists s :: Reachable(f, n, s) && Deadlocked(s)) <==> MayMessage(f, 0, 0)
  {
    CanDeadlockIff(f, m, n);
    if MayMessage(f, 0, 0) {
      assert Circle(MessageLinks(f), [0, 0]);
    }
    if Cyclic(MessageLinks(f)) {
      var w :| Circle(MessageLinks(f), w);
      assert (w[0], w[1]) in MessageLinks(f);
    }
  }

  // ----- Which asks can hang -----

  /** Exactly the families that can deadlock can leave an ask unanswered for ever. */
  lemma CanHangIff<S(!new), P(!new), R(!new)>(f: Family<S, P, R>, m: nat, n: nat)
    requires n >= 1 && Oblivious(f) && Ends(f, m)
    ensures (exists s, c: nat :: Reachable(f, n, s) && Hangs(f, s, c)) <==> Cyclic(MessageLinks(f))
  {
    if Cyclic(MessageLinks(f)) {
      var s, order, w, p := CanDeadlock(f, m, n);
      var b :| b in w;
      assert BlockingAt(f, order, s, {}, b);
      ReachNext(f, n, s, Issue(|f|, Ask(b, p)));
      AskingHangs(f, n, s, w, b, p);
    } else {
      forall s, c: nat | Reachable(f, n, s) && c < |s.goroutines| && s.goroutines[c].issued != [] ensures !Hangs(f, s, c) {
        if s.goroutines[c].issued[|s.goroutines[c].issued| - 1].Ask? { AskCanBeAnswered(f, m, n, s, c); }
      }
    }
  }

  /** Without a circle every ask can be answered, whatever its answers decide. */
  lemma AskCanBeAnswered<S(!new), P(!new), R(!new)>(f: Family<S, P, R>, m: nat, n: nat, s: System<S, P, R>, c: nat)
    requires !Cyclic(MessageLinks(f)) && Ends(f, m) && Reachable(f, n, s) && c < |s.goroutines| && s.goroutines[c].issued != []
    requires s.goroutines[c].issued[|s.goroutines[c].issued| - 1].Ask?
    ensures exists steps, t ::
      Run(f, s, steps, t) && c < |t.goroutines| && |s.goroutines[c].issued| - 1 in t.goroutines[c].got
  {
    var before :| Run(f, Spawned(f, n), before, s);
    RunIsInvariant(f, n, before, s);
    var order := AllSettling(f, m, s);
    var steps, t := Settle(f, order, m, s);
    IssuedStays(f, s, steps, t, c);
    assert PhaseFits(|f|, t.goroutines[c]);
  }

  // ----- Families that deadlock -----

  /** An actor that asks actor `to` whenever it gets a message. */
  function Asks<P, R>(to: nat, result: R): Behaviour<(), P, R> {
    Behaviour((), (_, p, answers) => if answers == [] then Call(Ask(to, p)) else Return((), result))
  }

  lemma AskersAreOblivious<P(!new), R(!new)>(f: Family<(), P, R>, result: R)
    requires forall i :: 0 <= i < |f| ==> exists to :: f[i] == Asks(to, result)
    ensures Oblivious(f) && Ends(f, 1)
  {
  }

  lemma AskerMessages<P(!new), R(!new)>(f: Family<(), P, R>, i: nat, j: nat, result: R, p: P)
    requires i < |f| && j < |f| && f[i] == Asks(j, result)
    ensures (i, j) in MessageLinks(f)
  {
    LinkBy(f, i, j, [], p, []);
  }

  /** An actor that puts a question to itself. */
  lemma AsksItselfDeadlocks<P(!new), R(!new)>(p: P, result: R, n: nat)
    requires n >= 1
    ensures exists s :: Reachable([Asks<P, R>(0, result)], n, s) && Deadlocked(s)
  {
    var f := [Asks<P, R>(0, result)];
    AskersAreOblivious(f, result);
    AskerMessages(f, 0, 0, result, p);
    assert Circle(MessageLinks(f), [0, 0]);
    CanDeadlockIff(f, 1, n);
  }

  /** Two actors that put questions to each other, though neither messages itself. */
  lemma AskEachOtherDeadlock<P(!new), R(!new)>(p: P, result: R, n: nat)
    requires n >= 1
    ensures var f := [Asks<P, R>(1, result), Asks<P, R>(0, result)];
      && !MayMessage(f, 0, 0) && !MayMessage(f, 1, 1)
      && exists s :: Reachable(f, n, s) && Deadlocked(s)
  {
    var f := [Asks<P, R>(1, result), Asks<P, R>(0, result)];
    AskersAreOblivious(f, result);
    AskerMessages(f, 0, 1, result, p);
    AskerMessages(f, 1, 0, result, p);
    assert Circle(MessageLinks(f), [0, 1, 0]);
    CanDeadlockIff(f, 1, n);
  }

  // Where calls do depend on answers, a circle is no proof of a deadlock.

  /** The first actor asks the second, and if that says yes, itself; the second says no. */
  function AskFirst<P>(): Family<(), P, bool> {
    [Behaviour((), (_, p, answers) =>
       if answers == [] then Call(Ask(1, p)) else if answers == [Some(true)] then Call(Ask(0, p)) else Return((), false)),
     Behaviour((), (_, p, answers) => Return((), false))]
  }

  /** It may message itself, for all that its answers might be, and never deadlocks. */
  lemma AskFirstNeverDeadlocks<P(!new)>(p: P, n: nat, s: System<(), P, bool>)
    requires Reachable(AskFirst<P>(), n, s)
    ensures Cyclic(MessageLinks(AskFirst<P>())) && !Deadlocked(s)
  {
    var f := AskFirst<P>();
    assert [Some(true)][..0] == [];
    LinkBy(f, 0, 0, [], p, [Some(true)]);
    assert Circle(MessageLinks(f), [0, 0]);
    var steps :| Run(f, Spawned(f, n), steps, s);
    RunIsInvariant(f, n, steps, s);
    ReceiveSeesAnswers(f, n, steps, s, 0);
    if w :| Stuck(s, w) {
      OnlyFirstIsStuck(s, w);
      var k := LastAnswer(s);
      AnswersAreOwn(f, n, steps, s, 0, k);
    }
  }

  lemma OnlyFirstIsStuck<P(!new)>(s: System<(), P, bool>, w: set<nat>)
    requires Invariant(AskFirst<P>(), s) && Stuck(s, w)
    ensures s.actors[0].loop.Running? && s.actors[0].loop.answers == [Some(true)]
  {
    forall i | i in w ensures i == 0 {
      assert WaitsIn(s, w, i);
      CallUnderWay(AskFirst<P>(), s, i);
    }
    var i :| i in w;
    assert WaitsIn(s, w, 0);
    CallUnderWay(AskFirst<P>(), s, 0);
  }

  lemma LastAnswer<P(!new)>(s: System<(), P, bool>) returns (k: nat)
    requires |s.actors| == 2 <= |s.goroutines| && Completed(s.goroutines[0]) == AllCalls(AskFirst<P>()[0], 2, s.actors[0])
    requires s.actors[0].loop.Running? && s.actors[0].loop.answers == [Some(true)]
    ensures k < |s.goroutines[0].issued| && s.goroutines[0].issued[k].to == 1
    ensures k in s.goroutines[0].got && s.goroutines[0].got[k]
  {
    var a, done := s.actors[0], Completed(s.goroutines[0]);
    var b, p := AskFirst<P>()[0], a.loop.m.op.payload;
    assert [Some(true)][..0] == [];
    assert CallsOf(b, 2, a.state, p, []) == [];
    assert CallsOf(b, 2, a.state, p, [Some(true)]) == [(Ask(1, p), Some(true))];
    k := |done| - 1;
    assert done[k] == (Ask(1, p), Some(true));
  }
}
