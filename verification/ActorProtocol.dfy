// The actor mailbox protocol: runtime/actor.go together with the run loop and the
// constructor that genActorDecl emits (compiler/codegen_stmt.go). Any number of actors and
// of other goroutines send to and ask the actors; a run is any interleaving of their
// steps. While an actor is in `receive` it may message every actor, itself included, and
// what it does next may depend on the answers. Goroutine `i` is that of actor `i`.
module ActorProtocol {
  import opened Options

  /** The mailbox that Spawn_ creates: make(chan ActorMessage, 100). */
  const CAPACITY := 100

  /** A call of ActorSend or of ActorAsk on actor `to`; there is none of that number if the
      reference is nil or no actor. */
  datatype Op<P> = Send(to: nat, payload: P) | Ask(to: nat, payload: P)

  /** What `receive` does next: a call, or return with new fields. */
  datatype Act<S, P, R> = Call(op: Op<P>) | Return(state: S, result: R)

  /** `receive` goes by the fields, the payload, and what its calls so far have returned: an
      answer, or nil. */
  datatype Behaviour<!S, !P, !R> = Behaviour(initial: S, receive: (S, P, seq<Option<R>>) -> Act<S, P, R>)

  type Family<!S, !P, !R> = seq<Behaviour<S, P, R>>

  /** The `index`-th operation of goroutine `sender`. For an ask this also names the
      reply channel that the call makes. */
  datatype Label = Label(sender: nat, index: nat)

  datatype Message<P> = Message(id: Label, op: Op<P>)

  datatype Phase =
    | Idle
    | Blocked  // the last operation is still to enter the mailbox
    | Waiting  // the last operation is an ask, and the caller is reading its channel

  datatype Goroutine<P, R> = Goroutine(issued: seq<Op<P>>, phase: Phase, got: map<nat, R>)

  datatype Loop<P, R> =
    | Ready
    | Running(m: Message<P>, answers: seq<Option<R>>)  // in `receive`, with its calls' answers so far
    | Replying(m: Message<P>, result: R)

  /** A message handled, and what the calls made on the way returned. */
  datatype Turn<P, R> = Turn(m: Message<P>, answers: seq<Option<R>>)

  datatype Actor<S, P, R> = Actor(
    mailbox: seq<Message<P>>,
    turns: seq<Turn<P, R>>,  // every message handled, in order
    loop: Loop<P, R>,
    state: S
  )

  datatype System<S, P, R> = System(
    goroutines: seq<Goroutine<P, R>>,
    actors: seq<Actor<S, P, R>>,
    replies: map<Label, R>  // the reply channels that hold a value
  )

  // ----- Steps -----

  datatype Step<P> =
    | Issue(c: nat, op: Op<P>)  // a goroutine calls ActorSend or ActorAsk
    | Accept(c: nat)  // ref.Mailbox <- message
    | Collect(c: nat)  // <-replyChan
    | Take(i: nat)  // an actor's loop receives the next message and enters `receive`
    | Finish(i: nat)  // `receive` returns
    | Reply(i: nat)  // msg.Reply <- res

  /** The message that a blocked goroutine is trying to put in a mailbox. */
  function Outgoing<P, R>(c: nat, g: Goroutine<P, R>): Message<P>
    requires g.issued != []
  {
    Message(Label(c, |g.issued| - 1), g.issued[|g.issued| - 1])
  }

  /** What actor `a`, in `receive`, does next. */
  function NextAct<S, P, R>(b: Behaviour<S, P, R>, a: Actor<S, P, R>): Act<S, P, R>
    requires a.loop.Running?
  {
    b.receive(a.state, a.loop.m.op.payload, a.loop.answers)
  }

  predicate Enabled<S, P(==), R>(f: Family<S, P, R>, s: System<S, P, R>, step: Step<P>) {
    && |f| == |s.actors| <= |s.goroutines|
    && match step
       case Issue(c, op) =>
         c < |s.goroutines| && s.goroutines[c].phase == Idle
         && (c < |f| ==> s.actors[c].loop.Running? && NextAct(f[c], s.actors[c]).Call? && op == NextAct(f[c], s.actors[c]).op)
       case Accept(c) =>
         c < |s.goroutines| && s.goroutines[c].phase == Blocked && s.goroutines[c].issued != []
         && Outgoing(c, s.goroutines[c]).op.to < |f| && |s.actors[Outgoing(c, s.goroutines[c]).op.to].mailbox| < CAPACITY
       case Collect(c) =>
         c < |s.goroutines| && s.goroutines[c].phase == Waiting && s.goroutines[c].issued != []
         && Outgoing(c, s.goroutines[c]).id in s.replies
       case Take(i) => i < |f| && s.actors[i].loop.Ready? && s.actors[i].mailbox != []
       case Finish(i) =>
         i < |f| && s.actors[i].loop.Running? && s.goroutines[i].phase == Idle && NextAct(f[i], s.actors[i]).Return?
       case Reply(i) =>
         // the channel has room for one value
         i < |f| && s.actors[i].loop.Replying? && s.actors[i].loop.m.id !in s.replies
  }

  /** A call that goroutine `c` made has returned `r`. */
  function Returned<S, P, R>(actors: seq<Actor<S, P, R>>, c: nat, r: Option<R>): seq<Actor<S, P, R>> {
    if c < |actors| && actors[c].loop.Running? then actors[c := Answered(actors[c], r)] else actors
  }

  function Answered<S, P, R>(a: Actor<S, P, R>, r: Option<R>): Actor<S, P, R>
    requires a.loop.Running?
  {
    a.(loop := Running(a.loop.m, a.loop.answers + [r]))
  }

  function Issued<P, R>(g: Goroutine<P, R>, op: Op<P>): Goroutine<P, R> {
    g.(issued := g.issued + [op], phase := Blocked)
  }

  function Delivered<S, P, R>(a: Actor<S, P, R>, m: Message<P>): Actor<S, P, R> {
    a.(mailbox := a.mailbox + [m])
  }

  function Collected<P, R>(g: Goroutine<P, R>, r: R): Goroutine<P, R>
    requires g.issued != []
  {
    g.(phase := Idle, got := g.got[|g.issued| - 1 := r])
  }

  function Taking<S, P, R>(a: Actor<S, P, R>): Actor<S, P, R>
    requires a.mailbox != []
  {
    a.(mailbox := a.mailbox[1..], loop := Running(a.mailbox[0], []))
  }

  function Finished<S, P, R>(b: Behaviour<S, P, R>, a: Actor<S, P, R>): Actor<S, P, R>
    requires a.loop.Running? && NextAct(b, a).Return?
  {
    var m, act := a.loop.m, NextAct(b, a);
    a.(turns := a.turns + [Turn(m, a.loop.answers)], state := act.state,
       loop := if m.op.Ask? then Replying(m, act.result) else Ready)
  }

  function Do<S, P(==), R>(f: Family<S, P, R>, s: System<S, P, R>, step: Step<P>): System<S, P, R>
    requires Enabled(f, s, step)
  {
    match step
    case Issue(c, op) =>
      // a call on no actor returns nil at once
      if op.to < |f| then s.(goroutines := s.goroutines[c := Issued(s.goroutines[c], op)])
      else s.(actors := Returned(s.actors, c, None))
    case Accept(c) =>
      var m := Outgoing(c, s.goroutines[c]);
      var actors := s.actors[m.op.to := Delivered(s.actors[m.op.to], m)];
      s.(goroutines := s.goroutines[c := s.goroutines[c].(phase := if m.op.Ask? then Waiting else Idle)],
         actors := if m.op.Ask? then actors else Returned(actors, c, None))
    case Collect(c) =>
      var ch := Outgoing(c, s.goroutines[c]).id;
      s.(goroutines := s.goroutines[c := Collected(s.goroutines[c], s.replies[ch])],
         actors := Returned(s.actors, c, Some(s.replies[ch])), replies := s.replies - {ch})
    case Take(i) => s.(actors := s.actors[i := Taking(s.actors[i])])
    case Finish(i) => s.(actors := s.actors[i := Finished(f[i], s.actors[i])])
    case Reply(i) =>
      s.(actors := s.actors[i := s.actors[i].(loop := Ready)], replies := s.replies[s.actors[i].loop.m.id := s.actors[i].loop.result])
  }

  /** Right after Spawn_: the actors and `n` other goroutines, nothing sent yet. */
  function Spawned<S, P, R>(f: Family<S, P, R>, n: nat): System<S, P, R> {
    System(seq(|f| + n, _ => Goroutine([], Idle, map[])),
           seq(|f|, i requires 0 <= i < |f| => Actor([], [], Ready, f[i].initial)), map[])
  }

  /** Every state that some interleaving reaches. */
  ghost predicate Run<S, P, R>(f: Family<S, P, R>, s: System<S, P, R>, steps: seq<Step<P>>, t: System<S, P, R>)
    decreases |steps|
  {
    var runs :=
      if steps == [] then s == t
      else Enabled(f, s, steps[0]) && Run(f, Do(f, s, steps[0]), steps[1..], t);
    runs
  }

  // ----- What an actor is meant to compute -----

  /** The actor's fields after these turns. */
  function Fold<S, P, R>(b: Behaviour<S, P, R>, turns: seq<Turn<P, R>>): S
    decreases |turns|, 1
  {
    if turns == [] then b.initial
    else
      var act := LastAct(b, turns);
      if act.Return? then act.state else Fold(b, turns[..|turns| - 1])
  }

  /** How the last turn ended. */
  function LastAct<S, P, R>(b: Behaviour<S, P, R>, turns: seq<Turn<P, R>>): Act<S, P, R>
    requires turns != []
    decreases |turns|, 0
  {
    var n := |turns| - 1;
    b.receive(Fold(b, turns[..n]), turns[n].m.op.payload, turns[n].answers)
  }

  /** What `receive` returned for the `i`-th message. */
  function ActAt<S, P, R>(b: Behaviour<S, P, R>, turns: seq<Turn<P, R>>, i: nat): Act<S, P, R>
    requires i < |turns|
  {
    LastAct(b, turns[..i + 1])
  }

  /** A call of ActorAsk on an actor gets an answer, any other call nil. */
  predicate Answers<P, R>(n: nat, op: Op<P>, r: Option<R>) {
    r.Some? <==> op.Ask? && op.to < n
  }

  /** In a family of `n`, `receive` may make a call for each of these answers. */
  predicate Possible<S, P, R>(b: Behaviour<S, P, R>, n: nat, state: S, p: P, answers: seq<Option<R>>)
    decreases |answers|
  {
    answers != [] ==>
      var before := answers[..|answers| - 1];
      var act := b.receive(state, p, before);
      Possible(b, n, state, p, before) && act.Call? && Answers(n, act.op, answers[|answers| - 1])
  }

  /** Turns that `receive` may take, each of which it ends. */
  predicate ValidTurns<S, P, R>(b: Behaviour<S, P, R>, n: nat, turns: seq<Turn<P, R>>) {
    turns != [] ==>
      var before, last := turns[..|turns| - 1], turns[|turns| - 1];
      ValidTurns(b, n, before) && Possible(b, n, Fold(b, before), last.m.op.payload, last.answers) && LastAct(b, turns).Return?
  }

  /** The messages of goroutine `c`. */
  function From<P>(ms: seq<Message<P>>, c: nat): seq<Message<P>> {
    if ms == [] then []
    else
      var m := ms[|ms| - 1];
      From(ms[..|ms| - 1], c) + if m.id.sender == c then [m] else []
  }

  /** The operations of goroutine `c` on actor `i` as messages, in the order it made them. */
  function Labelled<P>(c: nat, ops: seq<Op<P>>, i: nat): seq<Message<P>> {
    if ops == [] then []
    else
      var n := |ops| - 1;
      Labelled(c, ops[..n], i) + if ops[n].to == i then [Message(Label(c, n), ops[n])] else []
  }

  /** For each ask among the turns, by its reply channel, what `receive` returned for it. */
  function Results<S, P, R>(b: Behaviour<S, P, R>, turns: seq<Turn<P, R>>): map<Label, R> {
    if turns == [] then map[]
    else
      var n := |turns| - 1;
      var before := Results(b, turns[..n]);
      if turns[n].m.op.Ask? && LastAct(b, turns).Return? then before[turns[n].m.id := LastAct(b, turns).result] else before
  }

  /** The messages an actor has taken from its mailbox. */
  function Taken<S, P, R>(a: Actor<S, P, R>): seq<Message<P>> {
    Messages(a.turns) + if a.loop.Running? then [a.loop.m] else []
  }

  function Messages<P, R>(turns: seq<Turn<P, R>>): seq<Message<P>> {
    seq(|turns|, i requires 0 <= i < |turns| => turns[i].m)
  }

  // ----- The invariant -----

  /** How many operations of a goroutine the mailboxes have accepted. */
  function AcceptedOf<P, R>(g: Goroutine<P, R>): int {
    |g.issued| - if g.phase == Blocked then 1 else 0
  }

  /** What the mailboxes have accepted of goroutine `c`. */
  function Accepted<P, R>(gs: seq<Goroutine<P, R>>, c: nat): seq<Op<P>> {
    if c < |gs| && AcceptedOf(gs[c]) >= 0 then gs[c].issued[..AcceptedOf(gs[c])] else []
  }

  /** Actor `i`'s mailbox accepts each goroutine's operations on it once each, in order. */
  ghost predicate InSendOrder<P, R>(gs: seq<Goroutine<P, R>>, i: nat, ms: seq<Message<P>>) {
    forall c: nat :: From(ms, c) == Labelled(c, Accepted(gs, c), i)
  }

  /** A goroutine that is not idle has an operation under way, a waiting one an ask, and it
      holds the answers to exactly the asks it has completed. */
  ghost predicate PhaseFits<P, R>(n: nat, g: Goroutine<P, R>) {
    && (g.phase != Idle ==> g.issued != [])
    && (g.phase == Waiting ==> g.issued[|g.issued| - 1].Ask?)
    && (forall k :: k in g.got <==>
          0 <= k < |g.issued| && g.issued[k].Ask? && (g.phase != Idle ==> k < |g.issued| - 1))
    && (forall k :: 0 <= k < |g.issued| ==> g.issued[k].to < n)
  }

  ghost predicate PhasesFit<P, R>(n: nat, gs: seq<Goroutine<P, R>>) {
    forall c :: 0 <= c < |gs| ==> PhaseFits(n, gs[c])
  }

  /** Goroutine `ch.sender` is reading reply channel `ch`. */
  predicate Awaits<P, R>(gs: seq<Goroutine<P, R>>, ch: Label) {
    var awaited := ch.sender < |gs| && gs[ch.sender].phase == Waiting && ch.index == |gs[ch.sender].issued| - 1;
    awaited
  }

  ghost predicate RepliesAwaited<P, R>(gs: seq<Goroutine<P, R>>, replies: map<Label, R>) {
    forall ch: Label :: ch in replies ==> Awaits(gs, ch)
  }

  predicate Holds<P, R>(gs: seq<Goroutine<P, R>>, ch: Label) {
    ch.sender < |gs| && ch.index in gs[ch.sender].got
  }

  /** Operation `ch` is one on actor `i`. */
  predicate Concerns<P, R>(gs: seq<Goroutine<P, R>>, ch: Label, i: nat) {
    ch.sender < |gs| && ch.index < |gs[ch.sender].issued| && gs[ch.sender].issued[ch.index].to == i
  }

  /** The answers that actor `i` has given so far are in the callers' hands, in a reply
      channel, or still with its loop. */
  ghost predicate Ledger<P, R>(gs: seq<Goroutine<P, R>>, i: nat, replies: map<Label, R>, pending: Option<Label>, results: map<Label, R>) {
    && (forall ch: Label :: ch in replies && Concerns(gs, ch, i) ==> ch in results && replies[ch] == results[ch])
    && (forall ch: Label :: Holds(gs, ch) && Concerns(gs, ch, i) ==> ch in results && gs[ch.sender].got[ch.index] == results[ch])
    && (forall ch: Label :: ch in results ==> Holds(gs, ch) || ch in replies || pending == Some(ch))
    && (pending.Some? ==> Awaits(gs, pending.value) && Concerns(gs, pending.value, i) && pending.value !in replies)
  }

  /** The ask that the loop has taken and not answered yet. */
  function Pending<S, P, R>(a: Actor<S, P, R>): Option<Label> {
    if a.loop.Ready? || a.loop.m.op.Send? then None else Some(a.loop.m.id)
  }

  ghost predicate LoopFits<S, P, R>(b: Behaviour<S, P, R>, n: nat, a: Actor<S, P, R>, g: Goroutine<P, R>) {
    && a.state == Fold(b, a.turns) && ValidTurns(b, n, a.turns)
    && (a.loop.Running? ==>
          && Possible(b, n, a.state, a.loop.m.op.payload, a.loop.answers)
          && (g.phase != Idle ==> g.issued != [] && NextAct(b, a) == Call(g.issued[|g.issued| - 1])))
    && (a.loop.Replying? ==>
          && a.turns != [] && a.turns[|a.turns| - 1].m == a.loop.m && a.loop.m.op.Ask?
          && LastAct(b, a.turns).result == a.loop.result)
    && (!a.loop.Running? ==> g.phase == Idle)
  }

  ghost predicate ActorFits<S, P, R>(b: Behaviour<S, P, R>, n: nat, gs: seq<Goroutine<P, R>>, replies: map<Label, R>, i: nat,
                                     a: Actor<S, P, R>)
    requires i < |gs|
  {
    var fits :=
      && |a.mailbox| <= CAPACITY
      && InSendOrder(gs, i, Taken(a) + a.mailbox)
      && Ledger(gs, i, replies, Pending(a), Results(b, a.turns))
      && LoopFits(b, n, a, gs[i]);
    fits
  }

  ghost predicate Invariant<S, P, R>(f: Family<S, P, R>, s: System<S, P, R>) {
    var kept :=
      && |f| == |s.actors| <= |s.goroutines|
      && PhasesFit(|f|, s.goroutines) && RepliesAwaited(s.goroutines, s.replies)
      && forall i :: 0 <= i < |f| ==> ActorFits(f[i], |f|, s.goroutines, s.replies, i, s.actors[i]);
    kept
  }

  // ----- Message order -----

  lemma FromNext<P>(ms: seq<Message<P>>, m: Message<P>, c: nat)
    ensures From(ms + [m], c) == From(ms, c) + if m.id.sender == c then [m] else []
  {
    assert (ms + [m])[..|ms|] == ms;
  }

  lemma LabelledNext<P>(c: nat, ops: seq<Op<P>>, op: Op<P>, i: nat)
    ensures Labelled(c, ops + [op], i) == Labelled(c, ops, i) + if op.to == i then [Message(Label(c, |ops|), op)] else []
  {
    assert (ops + [op])[..|ops|] == ops;
  }

  /** The last of `c`'s messages is the operation its label says, and those before it are
      the operations before that one. */
  lemma {:induction false} LastLabelled<P>(front: seq<Message<P>>, m: Message<P>, c: nat, ops: seq<Op<P>>, i: nat)
    requires front + [m] == Labelled(c, ops, i)
    ensures m.id.sender == c && m.id.index < |ops| && m.op == ops[m.id.index] && m.op.to == i
    ensures front == Labelled(c, ops[..m.id.index], i)
  {
    var n := |ops| - 1;
    assert (front + [m])[|front|] == m;
    if ops[n].to == i {
      assert (front + [m])[..|front|] == front;
      assert Labelled(c, ops, i)[..|front|] == Labelled(c, ops[..n], i);
    } else {
      LastLabelled(front, m, c, ops[..n], i);
      assert ops[..n][..m.id.index] == ops[..m.id.index];
    }
  }

  lemma LastFrom<P>(ms: seq<Message<P>>, c: nat, ops: seq<Op<P>>, i: nat)
    requires From(ms, c) == Labelled(c, ops, i) && ms != [] && ms[|ms| - 1].id.sender == c
    ensures var m := ms[|ms| - 1];
      && m.id.index < |ops| && m.op == ops[m.id.index] && m.op.to == i
      && From(ms[..|ms| - 1], c) == Labelled(c, ops[..m.id.index], i)
  {
    LastLabelled(From(ms[..|ms| - 1], c), ms[|ms| - 1], c, ops, i);
  }

  /** In a mailbox that keeps `c`'s operations in order, a message of `c` is the
      operation its label says. */
  lemma {:induction false} LabelIsOperation<P>(ms: seq<Message<P>>, c: nat, ops: seq<Op<P>>, i: nat, k: nat)
    requires From(ms, c) == Labelled(c, ops, i) && k < |ms| && ms[k].id.sender == c
    ensures ms[k].id.index < |ops| && ms[k].op == ops[ms[k].id.index] && ms[k].op.to == i
  {
    var n := |ms| - 1;
    if ms[n].id.sender == c {
      LastFrom(ms, c, ops, i);
      if k < n { LabelIsOperation(ms[..n], c, ops[..ms[n].id.index], i, k); }
    } else {
      LabelIsOperation(ms[..n], c, ops, i, k);
    }
  }

  /** The messages of one goroutine follow each other in the order it sent them. */
  lemma {:induction false} LabelsIncrease<P>(ms: seq<Message<P>>, c: nat, ops: seq<Op<P>>, i: nat, j: nat, k: nat)
    requires From(ms, c) == Labelled(c, ops, i) && j < k < |ms| && ms[j].id.sender == ms[k].id.sender == c
    ensures ms[j].id.index < ms[k].id.index
  {
    var n := |ms| - 1;
    if ms[n].id.sender == c {
      LastFrom(ms, c, ops, i);
      if k < n {
        LabelsIncrease(ms[..n], c, ops[..ms[n].id.index], i, j, k);
      } else {
        LabelIsOperation(ms[..n], c, ops[..ms[n].id.index], i, j);
      }
    } else {
      LabelsIncrease(ms[..n], c, ops, i, j, k);
    }
  }

  /** What the mailbox holds and held of a goroutine. */
  lemma AcceptedLabel<P, R>(gs: seq<Goroutine<P, R>>, i: nat, ms: seq<Message<P>>, k: nat)
    requires InSendOrder(gs, i, ms) && k < |ms|
    ensures ms[k].id.sender < |gs| && ms[k].id.index < AcceptedOf(gs[ms[k].id.sender])
    ensures ms[k].op == gs[ms[k].id.sender].issued[ms[k].id.index] && ms[k].op.to == i
  {
    LabelIsOperation(ms, ms[k].id.sender, Accepted(gs, ms[k].id.sender), i, k);
  }

  /** No two messages carry the same label. */
  lemma LabelsAreUnique<P, R>(gs: seq<Goroutine<P, R>>, i: nat, ms: seq<Message<P>>, j: nat, k: nat)
    requires InSendOrder(gs, i, ms) && j < k < |ms|
    ensures ms[j].id != ms[k].id
  {
    if ms[j].id.sender == ms[k].id.sender {
      LabelsIncrease(ms, ms[j].id.sender, Accepted(gs, ms[j].id.sender), i, j, k);
    }
  }

  /** Only asks that were handled are answered. */
  lemma {:induction false} OnlyAsksAnswered<S, P, R>(b: Behaviour<S, P, R>, turns: seq<Turn<P, R>>, ch: Label)
    requires ch in Results(b, turns)
    ensures exists k :: 0 <= k < |turns| && AnsweredAt(b, turns, k, ch)
  {
    var n := |turns| - 1;
    if turns[n].m.op.Ask? && LastAct(b, turns).Return? && turns[n].m.id == ch {
      assert turns[..n + 1] == turns;
      assert AnsweredAt(b, turns, n, ch);
    } else {
      OnlyAsksAnswered(b, turns[..n], ch);
      var k :| 0 <= k < n && AnsweredAt(b, turns[..n], k, ch);
      assert turns[..n][..k + 1] == turns[..k + 1];
      assert AnsweredAt(b, turns, k, ch);
    }
  }

  /** The `k`-th turn handled ask `ch` and gave the answer on record. */
  predicate AnsweredAt<S, P, R(==)>(b: Behaviour<S, P, R>, turns: seq<Turn<P, R>>, k: nat, ch: Label)
    requires k < |turns| && ch in Results(b, turns)
  {
    && turns[k].m.op.Ask? && turns[k].m.id == ch
    && ActAt(b, turns, k).Return? && Results(b, turns)[ch] == ActAt(b, turns, k).result
  }

  // ----- Each step keeps the invariant -----

  lemma SpawnedIsInvariant<S, P, R>(f: Family<S, P, R>, n: nat)
    ensures Invariant(f, Spawned(f, n))
  {
  }

  /** A goroutine in which only the phase or the operation under way has changed. */
  lemma OrderKept<P, R>(gs: seq<Goroutine<P, R>>, i: nat, ms: seq<Message<P>>, c: nat, g: Goroutine<P, R>)
    requires InSendOrder(gs, i, ms) && c < |gs| && Accepted(gs[c := g], c) == Accepted(gs, c)
    ensures InSendOrder(gs[c := g], i, ms)
  {
    forall d: nat ensures Accepted(gs[c := g], d) == Accepted(gs, d) {
    }
  }

  /** The mailbox of the actor concerned accepts the operation under way, and no other. */
  lemma OrderNext<P, R>(gs: seq<Goroutine<P, R>>, i: nat, ms: seq<Message<P>>, c: nat, g: Goroutine<P, R>)
    requires InSendOrder(gs, i, ms) && c < |gs| && gs[c].phase == Blocked && gs[c].issued != []
    requires g.issued == gs[c].issued && g.phase != Blocked
    ensures InSendOrder(gs[c := g], i, if Outgoing(c, gs[c]).op.to == i then ms + [Outgoing(c, gs[c])] else ms)
  {
    var m, n := Outgoing(c, gs[c]), |g.issued| - 1;
    var more := if m.op.to == i then ms + [m] else ms;
    forall d: nat ensures From(more, d) == Labelled(d, Accepted(gs[c := g], d), i) {
      FromNext(ms, m, d);
      if d == c {
        LabelledNext(c, g.issued[..n], g.issued[n], i);
        assert g.issued[..n] + [g.issued[n]] == g.issued == Accepted(gs[c := g], c);
      }
    }
  }

  lemma PhaseKept<P, R>(n: nat, gs: seq<Goroutine<P, R>>, c: nat, g: Goroutine<P, R>)
    requires PhasesFit(n, gs) && c < |gs| && PhaseFits(n, g)
    ensures PhasesFit(n, gs[c := g])
  {
  }

  // A call begins.

  lemma LedgerIssued<P, R>(n: nat, gs: seq<Goroutine<P, R>>, i: nat, replies: map<Label, R>, pending: Option<Label>,
                           results: map<Label, R>, c: nat, op: Op<P>)
    requires Ledger(gs, i, replies, pending, results) && PhasesFit(n, gs) && RepliesAwaited(gs, replies)
    requires c < |gs| && gs[c].phase == Idle
    ensures Ledger(gs[c := Issued(gs[c], op)], i, replies, pending, results)
  {
    var hs := gs[c := Issued(gs[c], op)];
    forall ch: Label ensures Holds(hs, ch) == Holds(gs, ch) && (Awaits(gs, ch) ==> Awaits(hs, ch)) {
    }
    forall ch: Label | Holds(gs, ch) || Awaits(gs, ch) ensures Concerns(hs, ch, i) == Concerns(gs, ch, i) {
      assert PhaseFits(n, gs[ch.sender]);
    }
  }

  lemma IssueFits<S, P, R>(b: Behaviour<S, P, R>, n: nat, gs: seq<Goroutine<P, R>>, replies: map<Label, R>, i: nat,
                           a: Actor<S, P, R>, c: nat, op: Op<P>)
    requires i < |gs| && ActorFits(b, n, gs, replies, i, a) && PhasesFit(n, gs) && RepliesAwaited(gs, replies)
    requires c < |gs| && gs[c].phase == Idle && (c == i ==> a.loop.Running? && NextAct(b, a) == Call(op))
    ensures ActorFits(b, n, gs[c := Issued(gs[c], op)], replies, i, a)
  {
    OrderKept(gs, i, Taken(a) + a.mailbox, c, Issued(gs[c], op));
    LedgerIssued(n, gs, i, replies, Pending(a), Results(b, a.turns), c, op);
  }

  // A call of the actor itself has returned.

  lemma AnsweredFits<S, P, R>(b: Behaviour<S, P, R>, n: nat, gs: seq<Goroutine<P, R>>, replies: map<Label, R>, i: nat,
                              a: Actor<S, P, R>, op: Op<P>, r: Option<R>)
    requires i < |gs| && ActorFits(b, n, gs, replies, i, a) && gs[i].phase == Idle
    requires a.loop.Running? && NextAct(b, a) == Call(op) && Answers(n, op, r)
    ensures ActorFits(b, n, gs, replies, i, Answered(a, r))
  {
    var t := Answered(a, r);
    assert t.loop.answers[..|t.loop.answers| - 1] == a.loop.answers;
    assert Taken(t) == Taken(a) && Pending(t) == Pending(a);
  }

  // A mailbox accepts a message.

  lemma LedgerAccepted<P, R>(gs: seq<Goroutine<P, R>>, i: nat, replies: map<Label, R>, pending: Option<Label>,
                             results: map<Label, R>, c: nat, phase: Phase)
    requires Ledger(gs, i, replies, pending, results) && c < |gs| && gs[c].phase == Blocked
    ensures Ledger(gs[c := gs[c].(phase := phase)], i, replies, pending, results)
  {
    var hs := gs[c := gs[c].(phase := phase)];
    forall ch: Label ensures Holds(hs, ch) == Holds(gs, ch) && (Awaits(gs, ch) ==> Awaits(hs, ch)) {
    }
    forall ch: Label ensures Concerns(hs, ch, i) == Concerns(gs, ch, i) {
    }
  }

  function AcceptedBy<S, P, R>(a: Actor<S, P, R>, i: nat, m: Message<P>): Actor<S, P, R> {
    if m.op.to == i then Delivered(a, m) else a
  }

  function PhaseAfter<P>(op: Op<P>): Phase {
    if op.Ask? then Waiting else Idle
  }

  lemma AcceptFits<S, P, R>(b: Behaviour<S, P, R>, n: nat, gs: seq<Goroutine<P, R>>, replies: map<Label, R>, i: nat,
                            a: Actor<S, P, R>, c: nat)
    requires i < |gs| && ActorFits(b, n, gs, replies, i, a)
    requires c < |gs| && gs[c].phase == Blocked && gs[c].issued != []
    requires Outgoing(c, gs[c]).op.to == i ==> |a.mailbox| < CAPACITY
    ensures var m := Outgoing(c, gs[c]);
      ActorFits(b, n, gs[c := gs[c].(phase := PhaseAfter(m.op))], replies, i, AcceptedBy(a, i, m))
  {
    var m := Outgoing(c, gs[c]);
    OrderNext(gs, i, Taken(a) + a.mailbox, c, gs[c].(phase := PhaseAfter(m.op)));
    assert Taken(a) + (a.mailbox + [m]) == Taken(a) + a.mailbox + [m];
    LedgerAccepted(gs, i, replies, Pending(a), Results(b, a.turns), c, PhaseAfter(m.op));
  }

  // An answer is collected.

  lemma LedgerCollected<P, R>(gs: seq<Goroutine<P, R>>, i: nat, replies: map<Label, R>, pending: Option<Label>,
                              results: map<Label, R>, c: nat)
    requires Ledger(gs, i, replies, pending, results) && c < |gs| && gs[c].issued != [] && Outgoing(c, gs[c]).id in replies
    ensures var ch := Outgoing(c, gs[c]).id;
      Ledger(gs[c := Collected(gs[c], replies[ch])], i, replies - {ch}, pending, results)
  {
    var k := Outgoing(c, gs[c]).id;
    var hs := gs[c := Collected(gs[c], replies[k])];
    forall ch: Label ensures Holds(hs, ch) == (Holds(gs, ch) || ch == k) {
    }
    forall ch: Label ensures Awaits(gs, ch) && ch != k ==> Awaits(hs, ch) {
    }
    forall ch: Label ensures Concerns(hs, ch, i) == Concerns(gs, ch, i) {
    }
  }

  lemma CollectFits<S, P, R>(b: Behaviour<S, P, R>, n: nat, gs: seq<Goroutine<P, R>>, replies: map<Label, R>, i: nat,
                             a: Actor<S, P, R>, c: nat)
    requires i < |gs| && ActorFits(b, n, gs, replies, i, a)
    requires c < |gs| && gs[c].phase == Waiting && gs[c].issued != [] && Outgoing(c, gs[c]).id in replies
    ensures var ch := Outgoing(c, gs[c]).id;
      ActorFits(b, n, gs[c := Collected(gs[c], replies[ch])], replies - {ch}, i, a)
  {
    OrderKept(gs, i, Taken(a) + a.mailbox, c, Collected(gs[c], replies[Outgoing(c, gs[c]).id]));
    LedgerCollected(gs, i, replies, Pending(a), Results(b, a.turns), c);
  }

  lemma CollectedFits<P, R>(n: nat, g: Goroutine<P, R>, r: R)
    requires PhaseFits(n, g) && g.phase == Waiting
    ensures PhaseFits(n, Collected(g, r))
  {
  }

  lemma CollectKeepsReplies<P, R>(gs: seq<Goroutine<P, R>>, replies: map<Label, R>, c: nat)
    requires RepliesAwaited(gs, replies) && c < |gs| && gs[c].issued != [] && Outgoing(c, gs[c]).id in replies
    ensures var ch := Outgoing(c, gs[c]).id; RepliesAwaited(gs[c := Collected(gs[c], replies[ch])], replies - {ch})
  {
  }

  // The loop takes a message.

  /** It has no answer yet, and if it is an ask, its caller waits. */
  lemma TakenIsFresh<S, P, R>(b: Behaviour<S, P, R>, n: nat, gs: seq<Goroutine<P, R>>, replies: map<Label, R>, i: nat,
                              a: Actor<S, P, R>)
    requires i < |gs| && ActorFits(b, n, gs, replies, i, a) && PhasesFit(n, gs)
    requires a.loop.Ready? && a.mailbox != []
    ensures var m := a.mailbox[0];
      m.id !in Results(b, a.turns) && (m.op.Ask? ==> Awaits(gs, m.id) && Concerns(gs, m.id, i) && m.id !in replies)
  {
    var m, ms := a.mailbox[0], Taken(a) + a.mailbox;
    assert ms[|a.turns|] == m;
    if m.id in Results(b, a.turns) {
      OnlyAsksAnswered(b, a.turns, m.id);
      var k :| 0 <= k < |a.turns| && AnsweredAt(b, a.turns, k, m.id);
      assert ms[k] == a.turns[k].m;
      LabelsAreUnique(gs, i, ms, k, |a.turns|);
      assert false;
    }
    AcceptedLabel(gs, i, ms, |a.turns|);
    assert PhaseFits(n, gs[m.id.sender]);
    assert Concerns(gs, m.id, i);
    assert Holds(gs, m.id) ==> m.id in Results(b, a.turns);
  }

  lemma TakeFits<S, P, R>(b: Behaviour<S, P, R>, n: nat, gs: seq<Goroutine<P, R>>, replies: map<Label, R>, i: nat,
                          a: Actor<S, P, R>)
    requires i < |gs| && ActorFits(b, n, gs, replies, i, a) && PhasesFit(n, gs)
    requires a.loop.Ready? && a.mailbox != []
    ensures ActorFits(b, n, gs, replies, i, Taking(a))
  {
    TakenIsFresh(b, n, gs, replies, i, a);
    assert Taken(Taking(a)) + Taking(a).mailbox == Taken(a) + a.mailbox;
  }

  // `receive` returns.

  lemma FinishFits<S, P, R>(b: Behaviour<S, P, R>, n: nat, gs: seq<Goroutine<P, R>>, replies: map<Label, R>, i: nat,
                            a: Actor<S, P, R>)
    requires i < |gs| && ActorFits(b, n, gs, replies, i, a) && PhasesFit(n, gs)
    requires a.loop.Running? && gs[i].phase == Idle && NextAct(b, a).Return?
    ensures ActorFits(b, n, gs, replies, i, Finished(b, a))
  {
    var t := Finished(b, a);
    assert t.turns[..|t.turns| - 1] == a.turns;
    assert LastAct(b, t.turns) == NextAct(b, a);
    assert Taken(t) == Taken(a);
    FinishLedger(n, gs, i, replies, Results(b, a.turns), a.loop.m, NextAct(b, a).result, Pending(a));
  }

  lemma FinishLedger<P, R>(n: nat, gs: seq<Goroutine<P, R>>, i: nat, replies: map<Label, R>, results: map<Label, R>, m: Message<P>,
                           r: R, pending: Option<Label>)
    requires Ledger(gs, i, replies, pending, results) && PhasesFit(n, gs)
    requires pending == if m.op.Ask? then Some(m.id) else None
    ensures Ledger(gs, i, replies, pending, if m.op.Ask? then results[m.id := r] else results)
  {
    if m.op.Ask? { assert PhaseFits(n, gs[m.id.sender]); }
  }

  // The loop replies.

  lemma ReplyFits<S, P, R>(b: Behaviour<S, P, R>, n: nat, gs: seq<Goroutine<P, R>>, replies: map<Label, R>, i: nat,
                           a: Actor<S, P, R>)
    requires i < |gs| && ActorFits(b, n, gs, replies, i, a) && a.loop.Replying?
    ensures Awaits(gs, a.loop.m.id) && Concerns(gs, a.loop.m.id, i)
    ensures ActorFits(b, n, gs, replies[a.loop.m.id := a.loop.result], i, a.(loop := Ready))
  {
    assert Taken(a.(loop := Ready)) == Taken(a);
  }

  lemma ReplyFitsOther<S, P, R>(b: Behaviour<S, P, R>, n: nat, gs: seq<Goroutine<P, R>>, replies: map<Label, R>, i: nat,
                                a: Actor<S, P, R>, ch: Label, j: nat, r: R)
    requires i < |gs| && ActorFits(b, n, gs, replies, i, a) && Concerns(gs, ch, j) && i != j
    ensures ActorFits(b, n, gs, replies[ch := r], i, a)
  {
  }

  // Put together.

  lemma ReturnedKeeps<S, P, R>(f: Family<S, P, R>, s: System<S, P, R>, c: nat, op: Op<P>, r: Option<R>)
    requires Invariant(f, s) && c < |s.goroutines| && s.goroutines[c].phase == Idle && Answers(|f|, op, r)
    requires c < |f| ==> s.actors[c].loop.Running? && NextAct(f[c], s.actors[c]) == Call(op)
    ensures Invariant(f, s.(actors := Returned(s.actors, c, r)))
  {
    if c < |f| {
      AnsweredFits(f[c], |f|, s.goroutines, s.replies, c, s.actors[c], op, r);
    }
  }

  lemma IssueKeeps<S, P, R>(f: Family<S, P, R>, s: System<S, P, R>, c: nat, op: Op<P>)
    requires Invariant(f, s) && Enabled(f, s, Issue(c, op))
    ensures Invariant(f, Do(f, s, Issue(c, op)))
  {
    if op.to < |f| {
      PhaseKept(|f|, s.goroutines, c, Issued(s.goroutines[c], op));
      forall i | 0 <= i < |f| ensures ActorFits(f[i], |f|, s.goroutines[c := Issued(s.goroutines[c], op)], s.replies, i, s.actors[i]) {
        IssueFits(f[i], |f|, s.goroutines, s.replies, i, s.actors[i], c, op);
      }
    } else {
      ReturnedKeeps(f, s, c, op, None);
    }
  }

  /** An actor whose goroutine has a call under way is in `receive`, at that call. */
  lemma CallUnderWay<S, P, R>(f: Family<S, P, R>, s: System<S, P, R>, c: nat)
    requires Invariant(f, s) && c < |s.goroutines| && s.goroutines[c].phase != Idle
    ensures PhaseFits(|f|, s.goroutines[c]) && s.goroutines[c].issued != []
    ensures c < |f| ==> s.actors[c].loop.Running? && NextAct(f[c], s.actors[c]) == Call(Outgoing(c, s.goroutines[c]).op)
  {
    if c < |f| { assert ActorFits(f[c], |f|, s.goroutines, s.replies, c, s.actors[c]); }
  }

  /** The system with the message in the mailbox, the call not returned yet. */
  function Accepting<S, P, R>(s: System<S, P, R>, c: nat): System<S, P, R>
    requires c < |s.goroutines| && s.goroutines[c].issued != [] && Outgoing(c, s.goroutines[c]).op.to < |s.actors|
  {
    var m := Outgoing(c, s.goroutines[c]);
    s.(goroutines := s.goroutines[c := s.goroutines[c].(phase := PhaseAfter(m.op))],
       actors := s.actors[m.op.to := Delivered(s.actors[m.op.to], m)])
  }

  lemma AcceptingKeeps<S, P, R>(f: Family<S, P, R>, s: System<S, P, R>, c: nat)
    requires Invariant(f, s) && Enabled(f, s, Accept(c))
    ensures Invariant(f, Accepting(s, c))
  {
    var gs, m, t := s.goroutines, Outgoing(c, s.goroutines[c]), Accepting(s, c);
    PhaseKept(|f|, gs, c, t.goroutines[c]);
    forall i | 0 <= i < |f| ensures ActorFits(f[i], |f|, t.goroutines, s.replies, i, t.actors[i]) {
      AcceptFits(f[i], |f|, gs, s.replies, i, s.actors[i], c);
    }
  }

  lemma AcceptKeeps<S, P, R>(f: Family<S, P, R>, s: System<S, P, R>, c: nat)
    requires Invariant(f, s) && Enabled(f, s, Accept(c))
    ensures Invariant(f, Do(f, s, Accept(c)))
  {
    CallUnderWay(f, s, c);
    AcceptingKeeps(f, s, c);
    var op := Outgoing(c, s.goroutines[c]).op;
    if op.Send? { ReturnedKeeps(f, Accepting(s, c), c, op, None); }
  }

  /** The system with the answer in hand, the call not returned yet. */
  function Collecting<S, P, R>(s: System<S, P, R>, c: nat): System<S, P, R>
    requires c < |s.goroutines| && s.goroutines[c].issued != [] && Outgoing(c, s.goroutines[c]).id in s.replies
  {
    var ch := Outgoing(c, s.goroutines[c]).id;
    s.(goroutines := s.goroutines[c := Collected(s.goroutines[c], s.replies[ch])], replies := s.replies - {ch})
  }

  lemma CollectingKeeps<S, P, R>(f: Family<S, P, R>, s: System<S, P, R>, c: nat)
    requires Invariant(f, s) && Enabled(f, s, Collect(c))
    ensures Invariant(f, Collecting(s, c))
  {
    var gs, t := s.goroutines, Collecting(s, c);
    CollectedFits(|f|, gs[c], s.replies[Outgoing(c, gs[c]).id]);
    PhaseKept(|f|, gs, c, t.goroutines[c]);
    CollectKeepsReplies(gs, s.replies, c);
    forall i | 0 <= i < |f| ensures ActorFits(f[i], |f|, t.goroutines, t.replies, i, s.actors[i]) {
      CollectFits(f[i], |f|, gs, s.replies, i, s.actors[i], c);
    }
  }

  lemma CollectKeeps<S, P, R>(f: Family<S, P, R>, s: System<S, P, R>, c: nat)
    requires Invariant(f, s) && Enabled(f, s, Collect(c))
    ensures Invariant(f, Do(f, s, Collect(c)))
  {
    CallUnderWay(f, s, c);
    CollectingKeeps(f, s, c);
    var m := Outgoing(c, s.goroutines[c]);
    ReturnedKeeps(f, Collecting(s, c), c, m.op, Some(s.replies[m.id]));
  }

  lemma LoopKeeps<S, P, R>(f: Family<S, P, R>, s: System<S, P, R>, i: nat)
    requires Invariant(f, s) && i < |f|
    ensures Enabled(f, s, Take(i)) ==> Invariant(f, Do(f, s, Take(i)))
    ensures Enabled(f, s, Finish(i)) ==> Invariant(f, Do(f, s, Finish(i)))
  {
    if Enabled(f, s, Take(i)) { TakeFits(f[i], |f|, s.goroutines, s.replies, i, s.actors[i]); }
    if Enabled(f, s, Finish(i)) { FinishFits(f[i], |f|, s.goroutines, s.replies, i, s.actors[i]); }
  }

  lemma ReplyKeeps<S, P, R>(f: Family<S, P, R>, s: System<S, P, R>, i: nat)
    requires Invariant(f, s) && Enabled(f, s, Reply(i))
    ensures Invariant(f, Do(f, s, Reply(i)))
  {
    var a := s.actors[i];
    ReplyFits(f[i], |f|, s.goroutines, s.replies, i, a);
    forall j | 0 <= j < |f| && j != i
      ensures ActorFits(f[j], |f|, s.goroutines, s.replies[a.loop.m.id := a.loop.result], j, s.actors[j])
    {
      ReplyFitsOther(f[j], |f|, s.goroutines, s.replies, j, s.actors[j], a.loop.m.id, i, a.loop.result);
    }
  }

  lemma StepKeeps<S, P, R>(f: Family<S, P, R>, s: System<S, P, R>, step: Step<P>)
    requires Invariant(f, s) && Enabled(f, s, step)
    ensures Invariant(f, Do(f, s, step))
  {
    match step
    case Issue(c, op) => IssueKeeps(f, s, c, op);
    case Accept(c) => AcceptKeeps(f, s, c);
    case Collect(c) => CollectKeeps(f, s, c);
    case Take(i) => LoopKeeps(f, s, i);
    case Finish(i) => LoopKeeps(f, s, i);
    case Reply(i) => ReplyKeeps(f, s, i);
  }

  lemma {:induction false} RunKeeps<S, P, R>(f: Family<S, P, R>, s: System<S, P, R>, steps: seq<Step<P>>, t: System<S, P, R>)
    requires Invariant(f, s) && Run(f, s, steps, t)
    ensures Invariant(f, t)
    decreases |steps|
  {
    if steps != [] {
      StepKeeps(f, s, steps[0]);
      RunKeeps(f, Do(f, s, steps[0]), steps[1..], t);
    }
  }

  // ----- What every run keeps -----

  lemma RunIsInvariant<S, P, R>(f: Family<S, P, R>, n: nat, steps: seq<Step<P>>, s: System<S, P, R>)
    requires Run(f, Spawned(f, n), steps, s)
    ensures Invariant(f, s)
  {
    SpawnedIsInvariant(f, n);
    RunKeeps(f, Spawned(f, n), steps, s);
  }

  function Sent<P, R>(g: Goroutine<P, R>): seq<Op<P>> {
    if g.phase == Blocked && g.issued != [] then g.issued[..|g.issued| - 1] else g.issued
  }

  lemma OrderOf<P, R>(n: nat, gs: seq<Goroutine<P, R>>, i: nat, taken: seq<Message<P>>, mailbox: seq<Message<P>>, c: nat)
    requires InSendOrder(gs, i, taken + mailbox) && c < |gs| && PhaseFits(n, gs[c])
    ensures gs[c].phase == Blocked ==> gs[c].issued != []
    ensures From(taken + mailbox, c) == Labelled(c, Sent(gs[c]), i)
    ensures forall j, k :: 0 <= j < k < |taken| && taken[j].id.sender == c == taken[k].id.sender ==> taken[j].id.index < taken[k].id.index
  {
    assert Accepted(gs, c) == Sent(gs[c]);
    forall j, k | 0 <= j < k < |taken| && taken[j].id.sender == c == taken[k].id.sender
      ensures taken[j].id.index < taken[k].id.index
    {
      LabelsIncrease(taken + mailbox, c, Accepted(gs, c), i, j, k);
    }
  }

  /** Actor `a` gave answer `r` to message `m` in its turn `j`, and took it only then. */
  ghost predicate AnsweredOnce<S, P, R>(b: Behaviour<S, P, R>, a: Actor<S, P, R>, j: nat, m: Message<P>, r: R) {
    && j < |a.turns| && a.turns[j].m == m
    && ActAt(b, a.turns, j).Return? && ActAt(b, a.turns, j).result == r
    && forall k :: 0 <= k < |Taken(a)| && Taken(a)[k].id == m.id ==> k == j
  }

  lemma AnswerIsOwn<S, P, R>(b: Behaviour<S, P, R>, n: nat, gs: seq<Goroutine<P, R>>, replies: map<Label, R>, i: nat,
                             a: Actor<S, P, R>, c: nat, k: nat)
    requires i < |gs| && ActorFits(b, n, gs, replies, i, a)
    requires Holds(gs, Label(c, k)) && Concerns(gs, Label(c, k), i)
    ensures exists j: nat :: AnsweredOnce(b, a, j, Message(Label(c, k), gs[c].issued[k]), gs[c].got[k])
  {
    var ch, ms := Label(c, k), Taken(a) + a.mailbox;
    OnlyAsksAnswered(b, a.turns, ch);
    var j: nat :| j < |a.turns| && AnsweredAt(b, a.turns, j, ch);
    assert ms[j] == a.turns[j].m;
    AcceptedLabel(gs, i, ms, j);
    forall x | 0 <= x < |Taken(a)| && Taken(a)[x].id == ch ensures x == j {
      assert ms[x] == Taken(a)[x];
      if x < j { LabelsAreUnique(gs, i, ms, x, j); }
      if j < x { LabelsAreUnique(gs, i, ms, j, x); }
    }
    assert AnsweredOnce(b, a, j, Message(ch, gs[c].issued[k]), gs[c].got[k]);
  }

  // ----- What `receive` gets to see -----

  /** The calls on actors that a run of `receive` has made, with what they returned. */
  function CallsOf<S, P, R>(b: Behaviour<S, P, R>, n: nat, state: S, p: P, answers: seq<Option<R>>): seq<(Op<P>, Option<R>)> {
    if answers == [] then []
    else
      var before := answers[..|answers| - 1];
      var act := b.receive(state, p, before);
      CallsOf(b, n, state, p, before) + if act.Call? && act.op.to < n then [(act.op, answers[|answers| - 1])] else []
  }

  function CallsInTurns<S, P, R>(b: Behaviour<S, P, R>, n: nat, turns: seq<Turn<P, R>>): seq<(Op<P>, Option<R>)> {
    if turns == [] then []
    else
      var before, last := turns[..|turns| - 1], turns[|turns| - 1];
      CallsInTurns(b, n, before) + CallsOf(b, n, Fold(b, before), last.m.op.payload, last.answers)
  }

  function AllCalls<S, P, R>(b: Behaviour<S, P, R>, n: nat, a: Actor<S, P, R>): seq<(Op<P>, Option<R>)> {
    CallsInTurns(b, n, a.turns) + if a.loop.Running? then CallsOf(b, n, a.state, a.loop.m.op.payload, a.loop.answers) else []
  }

  /** The calls that a goroutine has completed, with what they returned. */
  function Completed<P, R>(g: Goroutine<P, R>): seq<(Op<P>, Option<R>)> {
    seq(if g.phase == Idle || g.issued == [] then |g.issued| else |g.issued| - 1,
        k requires 0 <= k < |g.issued| => (g.issued[k], if k in g.got then Some(g.got[k]) else None))
  }

  ghost predicate CallsFit<S, P, R>(f: Family<S, P, R>, s: System<S, P, R>) {
    var fits := |f| == |s.actors| <= |s.goroutines|
      && forall i :: 0 <= i < |f| ==> Completed(s.goroutines[i]) == AllCalls(f[i], |f|, s.actors[i]);
    fits
  }

  lemma CallsNext<S, P, R>(b: Behaviour<S, P, R>, n: nat, a: Actor<S, P, R>, op: Op<P>, r: Option<R>)
    requires a.loop.Running? && NextAct(b, a) == Call(op)
    ensures AllCalls(b, n, Answered(a, r)) == AllCalls(b, n, a) + if op.to < n then [(op, r)] else []
  {
    assert (a.loop.answers + [r])[..|a.loop.answers|] == a.loop.answers;
  }

  lemma CompletedNext<P, R>(n: nat, g: Goroutine<P, R>, h: Goroutine<P, R>, r: Option<R>)
    requires PhaseFits(n, g) && g.phase != Idle && h.phase == Idle && h.issued == g.issued
    requires h.got == if r.Some? then g.got[|g.issued| - 1 := r.value] else g.got
    ensures Completed(h) == Completed(g) + [(g.issued[|g.issued| - 1], r)]
  {
  }

  /** A call of actor `c` has returned. */
  lemma ReturnedCallsFit<S, P, R>(f: Family<S, P, R>, s: System<S, P, R>, gs: seq<Goroutine<P, R>>, actors: seq<Actor<S, P, R>>,
                                  c: nat, op: Op<P>, r: Option<R>)
    requires CallsFit(f, s) && |gs| == |s.goroutines| && |actors| == |s.actors| && c < |gs|
    requires forall i :: 0 <= i < |gs| && i != c ==> gs[i] == s.goroutines[i]
    requires forall i :: 0 <= i < |f| ==> actors[i] == s.actors[i].(mailbox := actors[i].mailbox)
    requires c < |f| ==> s.actors[c].loop.Running? && NextAct(f[c], s.actors[c]) == Call(op)
    requires Completed(gs[c]) == Completed(s.goroutines[c]) + if op.to < |f| then [(op, r)] else []
    ensures CallsFit(f, System(gs, Returned(actors, c, r), s.replies))
  {
    if c < |f| { CallsNext(f[c], |f|, actors[c], op, r); }
  }

  lemma StepKeepsCalls<S, P, R>(f: Family<S, P, R>, s: System<S, P, R>, step: Step<P>)
    requires Invariant(f, s) && CallsFit(f, s) && Enabled(f, s, step)
    ensures CallsFit(f, Do(f, s, step))
  {
    if step.Issue? && step.op.to >= |f| {
      ReturnedCallsFit(f, s, s.goroutines, s.actors, step.c, step.op, None);
    } else if step.Issue? {
      IssueKeepsCalls(f, s, step.c, step.op);
    } else if step.Accept? {
      AcceptKeepsCalls(f, s, step.c);
    } else if step.Collect? {
      CollectKeepsCalls(f, s, step.c);
    } else if step.Finish? {
      FinishKeepsCalls(f, s, step.i);
    }
  }

  lemma FinishKeepsCalls<S, P, R>(f: Family<S, P, R>, s: System<S, P, R>, i: nat)
    requires Invariant(f, s) && CallsFit(f, s) && Enabled(f, s, Finish(i))
    ensures CallsFit(f, Do(f, s, Finish(i)))
  {
    var a, t := s.actors[i], Finished(f[i], s.actors[i]);
    assert ActorFits(f[i], |f|, s.goroutines, s.replies, i, a);
    assert t.turns[..|t.turns| - 1] == a.turns;
  }

  lemma IssueKeepsCalls<S, P, R>(f: Family<S, P, R>, s: System<S, P, R>, c: nat, op: Op<P>)
    requires CallsFit(f, s) && Enabled(f, s, Issue(c, op)) && op.to < |f| && PhasesFit(|f|, s.goroutines)
    ensures CallsFit(f, Do(f, s, Issue(c, op)))
  {
    assert PhaseFits(|f|, s.goroutines[c]);
    assert Completed(Issued(s.goroutines[c], op)) == Completed(s.goroutines[c]);
  }

  lemma AcceptKeepsCalls<S, P, R>(f: Family<S, P, R>, s: System<S, P, R>, c: nat)
    requires Invariant(f, s) && CallsFit(f, s) && Enabled(f, s, Accept(c))
    ensures CallsFit(f, Do(f, s, Accept(c)))
  {
    var g := s.goroutines[c];
    var m := Outgoing(c, g);
    CallUnderWay(f, s, c);
    if m.op.Ask? {
      assert Completed(g.(phase := Waiting)) == Completed(g);
    } else {
      CompletedNext(|f|, g, g.(phase := Idle), None);
      ReturnedCallsFit(f, s, s.goroutines[c := g.(phase := Idle)], s.actors[m.op.to := Delivered(s.actors[m.op.to], m)], c, m.op, None);
    }
  }

  lemma CollectKeepsCalls<S, P, R>(f: Family<S, P, R>, s: System<S, P, R>, c: nat)
    requires Invariant(f, s) && CallsFit(f, s) && Enabled(f, s, Collect(c))
    ensures CallsFit(f, Do(f, s, Collect(c)))
  {
    var g, op := s.goroutines[c], Outgoing(c, s.goroutines[c]).op;
    var r := s.replies[Outgoing(c, g).id];
    CallUnderWay(f, s, c);
    CompletedCollected(|f|, g, r);
    CollectedCallsFit(f, s, c, op, Collected(g, r), r, s.replies - {Outgoing(c, g).id});
  }

  lemma CompletedCollected<P, R>(n: nat, g: Goroutine<P, R>, r: R)
    requires PhaseFits(n, g) && g.phase != Idle
    ensures Completed(Collected(g, r)) == Completed(g) + [(g.issued[|g.issued| - 1], Some(r))]
  {
    CompletedNext(n, g, Collected(g, r), Some(r));
  }

  lemma CollectedCallsFit<S, P, R>(f: Family<S, P, R>, s: System<S, P, R>, c: nat, op: Op<P>, g: Goroutine<P, R>, r: R,
                                   replies: map<Label, R>)
    requires CallsFit(f, s) && c < |s.goroutines| && op.to < |f|
    requires c < |f| ==> s.actors[c].loop.Running? && NextAct(f[c], s.actors[c]) == Call(op)
    requires Completed(g) == Completed(s.goroutines[c]) + [(op, Some(r))]
    ensures CallsFit(f, System(s.goroutines[c := g], Returned(s.actors, c, Some(r)), replies))
  {
    ReturnedCallsFit(f, s, s.goroutines[c := g], s.actors, c, op, Some(r));
  }

  lemma {:induction false} RunKeepsCalls<S, P, R>(f: Family<S, P, R>, s: System<S, P, R>, steps: seq<Step<P>>, t: System<S, P, R>)
    requires Invariant(f, s) && CallsFit(f, s) && Run(f, s, steps, t)
    ensures CallsFit(f, t)
    decreases |steps|
  {
    if steps != [] {
      StepKeeps(f, s, steps[0]);
      StepKeepsCalls(f, s, steps[0]);
      RunKeepsCalls(f, Do(f, s, steps[0]), steps[1..], t);
    }
  }

}
