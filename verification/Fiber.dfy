/**
 The fiber as one machine: its mailbox, and the work item of each call. The consumer's thread is
 inside `Do` of an item while it runs it and inside `Cancel` while the drain stands at it, and it
 goes on when that call has returned; meanwhile tokens are cancelled from anywhere.
 */
module Fiber {
  import opened Common
  import opened Mailbox
  import opened MailboxInvariants
  import opened MailboxTheorems
  import opened MailboxStops
  import opened MailboxAdmission
  import WorkItems

  /** The item of call p is items[p]; the first belongs to the empty node and is never given out. */
  datatype Fiber<+T, +E> = Fiber(mail: State, items: seq<WorkItems.Item<T, E>>)

  datatype Act<+T, +E> =
    | Enqueue(cancellable: bool, requested: bool)   // an item is made, and its call starts
    | Thread(a: Action)                             // a step of the mailbox
    | OnItem(p: nat, m: WorkItems.Move<T, E>)       // a step of an item

  function InitFiber<T, E>(kind: Kind): Fiber<T, E> {
    Fiber(Init(kind), [WorkItems.Create(false, false)])
  }

  /** The consumer is inside Do or Cancel of this item. */
  predicate Holds(c: Consumer, p: nat) {
    c == Running(p) || c == Draining(Some(p))
  }

  predicate CanAct<T, E>(f: Fiber<T, E>, act: Act<T, E>) {
    match act
    case Enqueue(cancellable, requested) => requested ==> cancellable
    case Thread(a) =>
      && !a.Start? && Enabled(f.mail, a)
      && (a.Consume? ==> forall p | 0 <= p < |f.items| :: Holds(f.mail.consumer, p) ==> f.items[p].WorkerReturned())
    case OnItem(p, m) =>
      && p < |f.items| && WorkItems.CanMove(f.items[p], m)
      && (m.GiveDo? ==> f.mail.consumer == Running(p))
      && (m.GiveCancel? ==> f.mail.consumer == Draining(Some(p)))
  }

  function Step<T, E>(f: Fiber<T, E>, act: Act<T, E>): Fiber<T, E>
    requires CanAct(f, act)
  {
    match act
    case Enqueue(cancellable, requested) =>
      Fiber(Apply(f.mail, Start), f.items + [WorkItems.Create(cancellable, requested)])
    case Thread(a) => f.(mail := Apply(f.mail, a))
    case OnItem(p, m) => f.(items := f.items[p := WorkItems.Step(f.items[p], m)])
  }

  predicate Acts<T, E>(f: Fiber<T, E>, run: seq<Act<T, E>>)
    decreases |run|
  {
    run == [] || (CanAct(f, run[0]) && Acts(Step(f, run[0]), run[1..]))
  }

  function Result<T, E>(f: Fiber<T, E>, run: seq<Act<T, E>>): Fiber<T, E>
    requires Acts(f, run)
    decreases |run|
  {
    if run == [] then f else Result(Step(f, run[0]), run[1..])
  }

  // ----- where an item is, and what that means for it

  datatype Place = Waiting | InDo | InCancel | Ran | Dropped

  function PlaceOf(h: History, c: Consumer, p: nat): Place {
    if p in h.ran then Ran
    else if p in h.dropped then Dropped
    else if c == Running(p) then InDo
    else if c == Draining(Some(p)) then InCancel
    else Waiting
  }

  predicate Fits<T, E>(place: Place, i: WorkItems.Item<T, E>) {
    match place
    case Waiting => i.worker.Idle?
    case InDo => !i.worker.Canceling? && (i.worker.Done? ==> i.wasCalled)
    case InCancel => (i.worker.Idle? || i.worker.Canceling? || i.worker.Done?) && !i.wasCalled
    case Ran => i.WorkerReturned() && (i.worker.Done? ==> i.wasCalled)
    case Dropped => i.worker.Done? && !i.wasCalled
  }

  ghost predicate FiberInv<T, E>(f: Fiber<T, E>) {
    && Reachable(f.mail) && |f.items| == |f.mail.calls|
    && forall p :: 0 <= p < |f.items| ==>
         WorkItems.ItemInv(f.items[p]) && Fits(PlaceOf(f.mail.history, f.mail.consumer, p), f.items[p])
  }

  /** The item the consumer holds was neither run nor dropped before. */
  lemma HeldIsNew(s: State, p: nat)
    requires QueueInv(s) && Holds(s.consumer, p)
    ensures p !in s.history.ran && p !in s.history.dropped
  {
    var h := s.history;
    if s.consumer.Running? {
      assert h.dropped == [] && h.taken == h.ran + [p];
      NotInSlice(h.order, 1, |h.taken|, |h.taken|);
      DropLast(h.order, |h.taken|, h.ran, p);
    } else {
      var n := |h.taken| + |h.dropped| + 1;
      NotInSlice(h.order, 1, |h.taken| + 1, n);
      NotInSlice(h.order, |h.taken| + 1, n, n);
    }
  }

  lemma DropLast(order: seq<nat>, n: nat, some: seq<nat>, p: nat)
    requires n < |order| && order[1..n + 1] == some + [p]
    ensures some == order[1..n] && order[n] == p
  {
    assert |some| + 1 == n;
    assert order[1..n + 1][n - 1] == order[n];
    assert forall i :: 0 <= i < |some| ==> some[i] == order[1..n + 1][i];
  }

  lemma NotInSlice(order: seq<nat>, from: nat, to: nat, k: nat)
    requires from <= to <= k < |order| && forall i, j :: 0 <= i < j < |order| ==> order[i] != order[j]
    ensures order[k] !in order[from..to]
  {
  }

  /** A held item that is left has been run or dropped; any other stays where it is or is picked up. */
  lemma ConsumerMovesItems(s: State, p: nat)
    requires QueueInv(s) && ConsumerEnabled(s) && QueueInv(StepConsumer(s))
    ensures var place, place' := PlaceOf(s.history, s.consumer, p), PlaceOf(StepConsumer(s).history, StepConsumer(s).consumer, p);
            if Holds(s.consumer, p) then
              if s.consumer.Running? then place == InDo && place' == Ran else place == InCancel && place' == Dropped
            else
              place' == place || (place == Waiting && (place' == InDo || place' == InCancel))
  {
    if Holds(s.consumer, p) {
      HeldIsNew(s, p);
      HeldIsLeft(s, p);
    } else {
      if Holds(StepConsumer(s).consumer, p) {
        HeldIsNew(StepConsumer(s), p);
      }
      OthersStay(s, p);
    }
  }

  lemma HeldIsLeft(s: State, p: nat)
    requires ConsumerEnabled(s) && Holds(s.consumer, p) && p !in s.history.ran && p !in s.history.dropped
    ensures PlaceOf(StepConsumer(s).history, StepConsumer(s).consumer, p) == if s.consumer.Running? then Ran else Dropped
  {
    assert if s.consumer.Running? then p in s.history.ran + [p] else p in s.history.dropped + [p];
  }

  lemma OthersStay(s: State, p: nat)
    requires ConsumerEnabled(s) && !Holds(s.consumer, p)
    ensures p in StepConsumer(s).history.ran <==> p in s.history.ran
    ensures p in StepConsumer(s).history.dropped <==> p in s.history.dropped
  {
  }

  lemma ItemMoves<T, E>(place: Place, i: WorkItems.Item<T, E>, m: WorkItems.Move<T, E>)
    requires WorkItems.ItemInv(i) && Fits(place, i) && WorkItems.CanMove(i, m)
    requires (m.GiveDo? ==> place == InDo) && (m.GiveCancel? ==> place == InCancel)
    ensures Fits(place, WorkItems.Step(i, m))
  {
  }

  lemma FiberStep<T, E>(f: Fiber<T, E>, act: Act<T, E>)
    requires FiberInv(f) && CanAct(f, act)
    ensures FiberInv(Step(f, act))
  {
    ReachableInv(f.mail);
    match act
    case Enqueue(cancellable, requested) =>
      EnqueueKeepsInv(f, cancellable, requested);
    case Thread(a) =>
      ThreadKeepsInv(f, a);
    case OnItem(p, m) =>
      if m.GiveDo? || m.GiveCancel? {
        HeldIsNew(f.mail, p);
      }
      WorkItems.ItemInvStep(f.items[p], m);
      ItemMoves(PlaceOf(f.mail.history, f.mail.consumer, p), f.items[p], m);
  }

  lemma EnqueueKeepsInv<T, E>(f: Fiber<T, E>, cancellable: bool, requested: bool)
    requires FiberInv(f) && Inv(f.mail) && (requested ==> cancellable)
    ensures FiberInv(Step(f, Enqueue(cancellable, requested)))
  {
    var t, new' := Apply(f.mail, Start), WorkItems.Create<T, E>(cancellable, requested);
    ReachableStep(f.mail, Start, t);
    NewIsWaiting(f.mail);
    forall p | 0 <= p < |f.items| + 1
      ensures var i := (f.items + [new'])[p]; WorkItems.ItemInv(i) && Fits(PlaceOf(t.history, t.consumer, p), i)
    {
      OthersMoveNothing(f.mail, Start, p);
      assert p < |f.items| ==> (f.items + [new'])[p] == f.items[p];
    }
  }

  /** Every item that was run, dropped or is held belongs to a call that made its exchange. */
  lemma OnlyExchanged(s: State, p: nat)
    requires QueueInv(s) && PlaceOf(s.history, s.consumer, p) != Waiting
    ensures p < |s.calls| && s.calls[p].Exchanged()
  {
    var k := PlaceInOrder(s, p);
    assert s.history.order[k] == p;
  }

  lemma PlaceInOrder(s: State, p: nat) returns (k: nat)
    requires TakenShape(s.history, s.links.tail, s.consumer) && DropShape(s.history, s.consumer)
    requires PlaceOf(s.history, s.consumer, p) != Waiting
    ensures k < |s.history.order| && s.history.order[k] == p
  {
    var h := s.history;
    if p in h.ran {
      k := PlaceInSlice(h.order, 1, |h.taken| + 1, p);
    } else if p in h.dropped {
      k := PlaceInSlice(h.order, |h.taken| + 1, |h.taken| + |h.dropped| + 1, p);
    } else if s.consumer.Running? {
      k := PlaceInSlice(h.order, 1, |h.taken| + 1, p);
    } else {
      k := |h.taken| + |h.dropped| + 1;
    }
  }

  lemma PlaceInSlice(order: seq<nat>, from: nat, to: nat, p: nat) returns (k: nat)
    requires from <= to <= |order| && p in order[from..to]
    ensures from <= k < to && order[k] == p
  {
    var j :| 0 <= j < to - from && order[from..to][j] == p;
    k := from + j;
  }

  lemma NewIsWaiting(s: State)
    requires QueueInv(s)
    ensures PlaceOf(s.history, s.consumer, |s.calls|) == Waiting
  {
    if PlaceOf(s.history, s.consumer, |s.calls|) != Waiting {
      OnlyExchanged(s, |s.calls|);
    }
  }

  lemma OthersMoveNothing(s: State, a: Action, p: nat)
    requires Enabled(s, a) && !a.Consume?
    ensures PlaceOf(Apply(s, a).history, Apply(s, a).consumer, p) == PlaceOf(s.history, s.consumer, p)
  {
  }

  lemma ConsumerKeepsFits<T, E>(s: State, p: nat, i: WorkItems.Item<T, E>)
    requires QueueInv(s) && ConsumerEnabled(s) && QueueInv(StepConsumer(s))
    requires Fits(PlaceOf(s.history, s.consumer, p), i) && WorkItems.ItemInv(i)
    requires Holds(s.consumer, p) ==> i.WorkerReturned()
    ensures Fits(PlaceOf(StepConsumer(s).history, StepConsumer(s).consumer, p), i)
  {
    ConsumerMovesItems(s, p);
  }

  lemma ThreadKeepsInv<T, E>(f: Fiber<T, E>, a: Action)
    requires FiberInv(f) && Inv(f.mail) && CanAct(f, Thread(a))
    ensures FiberInv(Step(f, Thread(a)))
  {
    var t := Apply(f.mail, a);
    ReachableStep(f.mail, a, t);
    InvStep(f.mail, a);
    forall p | 0 <= p < |f.items| ensures Fits(PlaceOf(t.history, t.consumer, p), f.items[p]) {
      if a.Consume? {
        ConsumerKeepsFits(f.mail, p, f.items[p]);
      } else {
        OthersMoveNothing(f.mail, a, p);
      }
    }
    assert |t.calls| == |f.mail.calls|;
  }

  lemma {:induction false} FiberRun<T, E>(f: Fiber<T, E>, run: seq<Act<T, E>>)
    requires FiberInv(f) && Acts(f, run)
    ensures FiberInv(Result(f, run))
    decreases |run|
  {
    if run != [] {
      FiberStep(f, run[0]);
      FiberRun(Step(f, run[0]), run[1..]);
    }
  }

  lemma InitFiberInv<T, E>(kind: Kind)
    ensures FiberInv(InitFiber<T, E>(kind))
  {
    ReachableInit(kind);
  }

  // ----- what the callers see

  /** A state of a fiber that some run leads to. */
  ghost predicate Reached<T(!new), E(!new)>(f: Fiber<T, E>) {
    exists kind, run :: Acts(InitFiber(kind), run) && Result(InitFiber(kind), run) == f
  }

  lemma ReachedInv<T(!new), E(!new)>(f: Fiber<T, E>)
    requires Reached(f)
    ensures FiberInv(f)
  {
    var kind, run :| Acts(InitFiber(kind), run) && Result(InitFiber(kind), run) == f;
    InitFiberInv<T, E>(kind);
    FiberRun(InitFiber(kind), run);
  }

  lemma NotBoth(s: State, p: nat)
    requires QueueInv(s) && p in s.history.dropped
    ensures p !in s.history.ran
  {
    var h := s.history;
    var k := PlaceInSlice(h.order, |h.taken| + 1, |h.taken| + |h.dropped| + 1, p);
    NotInSlice(h.order, 1, |h.taken| + 1, k);
    assert h.ran <= h.taken;
  }

  /** The function of an item is called only while the fiber runs it; what ran went through Do, what was dropped through Cancel. */
  lemma ItemsFollowTheMailbox<T(!new), E(!new)>(f: Fiber<T, E>, p: nat)
    requires Reached(f) && p < |f.items|
    ensures f.items[p].wasCalled ==> p in f.mail.history.ran || f.mail.consumer == Running(p)
    ensures p in f.mail.history.ran ==> f.items[p].WorkerReturned() && (f.items[p].worker.Done? ==> f.items[p].wasCalled)
    ensures p in f.mail.history.dropped ==> f.items[p].worker.Done? && !f.items[p].wasCalled
  {
    ReachedInv(f);
    if p in f.mail.history.dropped {
      ReachableInv(f.mail);
      NotBoth(f.mail, p);
    }
  }

  /** How a settled item came to its status. */
  lemma HowItEnded<T(!new), E(!new)>(f: Fiber<T, E>, p: nat)
    requires Reached(f) && p < |f.items|
    ensures p in f.mail.history.dropped ==> f.items[p].status.Canceled?
    ensures p in f.mail.history.ran && !f.items[p].requested ==> f.items[p].status.Result? || f.items[p].status.Fault?
  {
    ReachedInv(f);
    ReachableInv(f.mail);
    ItemsFollowTheMailbox(f, p);
  }

  /**
   When the fiber has ended and the token owes no callback, a caller has its answer, given exactly
   once, if and only if its item was run or dropped or its token was cancelled.
   */
  lemma AnsweredExactly<T(!new), E(!new)>(f: Fiber<T, E>, p: nat)
    requires Reached(f) && f.mail.consumer.Ended? && p < |f.items| && !f.items[p].CallbackPending()
    ensures !f.items[p].status.Pending? <==>
            p in f.mail.history.ran || p in f.mail.history.dropped || f.items[p].requested
    ensures f.items[p].wins == if f.items[p].status.Pending? then 0 else 1
  {
    ReachedInv(f);
    ItemsFollowTheMailbox(f, p);
    if p in f.mail.history.ran || p in f.mail.history.dropped {
      WorkItems.ReturnedIsSettled(f.items[p]);
    }
  }

  /** After a quiet exit the end of the fiber leaves no caller waiting. */
  lemma NoCallerIsLeftWaiting<T(!new), E(!new)>(f: Fiber<T, E>, p: nat)
    requires Reached(f) && f.mail.consumer.Ended? && f.mail.history.quiet
    requires 0 < p < |f.mail.calls| && f.mail.calls[p].Exchanged()
    ensures p < |f.items|
    ensures !f.items[p].CallbackPending() ==> !f.items[p].status.Pending? && f.items[p].wins == 1
  {
    ReachedInv(f);
    EachItemOnce(f.mail);
    if !f.items[p].CallbackPending() {
      AnsweredExactly(f, p);
    }
  }

  // ----- what the tokens decide

  /** An item whose token is cancelled while it waits stays uncalled. */
  predicate Spared<T, E>(f: Fiber<T, E>, p: nat) {
    p < |f.items| && WorkItems.NeverCalled(f.items[p])
  }

  lemma SparedStep<T, E>(f: Fiber<T, E>, act: Act<T, E>, p: nat)
    requires FiberInv(f) && CanAct(f, act) && Spared(f, p)
    ensures Spared(Step(f, act), p)
  {
    match act
    case Enqueue(_, _) =>
    case Thread(_) =>
    case OnItem(q, m) =>
      if q == p {
        var none: seq<WorkItems.Move<T, E>> := [];
        assert [m][1..] == none && WorkItems.Follows(WorkItems.Step(f.items[p], m), none);
        WorkItems.NeverCalledRun(f.items[p], [m]);
      }
  }

  lemma {:induction false} SparedRun<T, E>(f: Fiber<T, E>, run: seq<Act<T, E>>, p: nat)
    requires FiberInv(f) && Acts(f, run) && Spared(f, p)
    ensures Spared(Result(f, run), p)
    decreases |run|
  {
    if run != [] {
      FiberStep(f, run[0]);
      SparedStep(f, run[0], p);
      SparedRun(Step(f, run[0]), run[1..], p);
    }
  }

  /**
   An item whose token was cancelled before the consumer stood at it is never called, and once the
   fiber has run or dropped it and no callback is owed, its task is cancelled.
   */
  lemma CancelledWhileWaiting<T(!new), E(!new)>(f: Fiber<T, E>, run: seq<Act<T, E>>, p: nat)
    requires Reached(f) && Acts(f, run) && p < |f.items| && f.items[p].requested
    requires p !in f.mail.history.ran && f.mail.consumer != Running(p)
    ensures var end := Result(f, run);
            && p < |end.items| && !end.items[p].wasCalled
            && (!end.items[p].CallbackPending() && (p in end.mail.history.ran || p in end.mail.history.dropped) ==>
                  end.items[p].status.Canceled?)
  {
    ReachedInv(f);
    SparedRun(f, run, p);
    FiberRun(f, run);
    var end := Result(f, run);
    ReachableInv(end.mail);
    if p in end.mail.history.dropped {
      NotBoth(end.mail, p);
    }
  }

  /** What ran under a token that was never cancelled was called. */
  lemma RanIsCalled<T(!new), E(!new)>(f: Fiber<T, E>, p: nat)
    requires Reached(f) && p < |f.items| && p in f.mail.history.ran && !f.items[p].requested
    ensures f.items[p].wasCalled
  {
    ItemsFollowTheMailbox(f, p);
    ReachedInv(f);
  }

  // ----- which calls are accepted

  /** What the caller of p is handed: a cancelled task when the call is refused, else the task of its item. */
  function CallerSees<T, E>(f: Fiber<T, E>, p: nat): WorkItems.Status<T, E>
    requires p < |f.items| == |f.mail.calls|
  {
    if f.mail.calls[p].Rejected? then WorkItems.Canceled else f.items[p].status
  }

  /** On a fiber nobody has stopped, at rest, every caller ever has an answer once its token owes no callback. */
  lemma EveryCallerIsAnswered<T(!new), E(!new)>(f: Fiber<T, E>, p: nat)
    requires Reached(f) && !f.mail.cancelled && AtRest(f.mail) && 0 < p < |f.mail.calls|
    ensures p < |f.items| == |f.mail.calls| && p in f.mail.history.ran
    ensures !f.items[p].CallbackPending() ==> CallerSees(f, p) == f.items[p].status && !f.items[p].status.Pending?
    ensures !f.items[p].requested ==> f.items[p].wasCalled
  {
    ReachedInv(f);
    NobodyIsRefused(f.mail);
    AtRestEveryCallRan(f.mail, p);
    ItemsFollowTheMailbox(f, p);
    if !f.items[p].CallbackPending() {
      WorkItems.ReturnedIsSettled(f.items[p]);
    }
    if !f.items[p].requested {
      RanIsCalled(f, p);
    }
  }

  /** A call that starts after the stop is refused: its caller sees a cancelled task, its function is never called. */
  lemma {:induction false} RefusedRun<T(!new), E(!new)>(f: Fiber<T, E>, run: seq<Act<T, E>>, p: nat)
    requires FiberInv(f) && Acts(f, run) && p < |f.items| && f.mail.calls[p].Rejected?
    ensures var end := Result(f, run);
            p < |end.items| == |end.mail.calls| && end.mail.calls[p].Rejected? && FiberInv(end)
    decreases |run|
  {
    if run != [] {
      FiberStep(f, run[0]);
      RefusedRun(Step(f, run[0]), run[1..], p);
    }
  }

  lemma LateCallerIsRefused<T(!new), E(!new)>(f: Fiber<T, E>, cancellable: bool, requested: bool, run: seq<Act<T, E>>)
    requires Reached(f) && f.mail.cancelled && (requested ==> cancellable)
    requires Acts(Step(f, Enqueue(cancellable, requested)), run)
    ensures var end, p := Result(Step(f, Enqueue(cancellable, requested)), run), |f.mail.calls|;
            && p < |end.items| == |end.mail.calls| && CallerSees(end, p).Canceled?
            && !end.items[p].wasCalled && p !in end.mail.history.ran
  {
    ReachedInv(f);
    var g := Step(f, Enqueue(cancellable, requested));
    FiberStep(f, Enqueue(cancellable, requested));
    RefusedRun(g, run, |f.mail.calls|);
    RefusedIsUntouched(Result(g, run), |f.mail.calls|);
  }

  lemma RefusedIsUntouched<T(!new), E(!new)>(f: Fiber<T, E>, p: nat)
    requires FiberInv(f) && p < |f.items| && f.mail.calls[p].Rejected?
    ensures p !in f.mail.history.ran && !f.items[p].wasCalled
  {
    ReachableInv(f.mail);
    if PlaceOf(f.mail.history, f.mail.consumer, p) != Waiting {
      OnlyExchanged(f.mail, p);
    }
  }

  // ----- who can move

  /** Calls, stops and tokens come at any time; a call inside Enqueue never waits for the fiber's thread. */
  lemma CallersNeverWait<T, E>(f: Fiber<T, E>, p: nat)
    ensures CanAct(f, Act<T, E>.Enqueue(false, false)) && CanAct(f, Act<T, E>.Enqueue(true, false))
    ensures CanAct(f, Act<T, E>.Enqueue(true, true)) && CanAct(f, Act<T, E>.Thread(Stop))
    ensures p < |f.mail.calls| && f.mail.calls[p].Inside() ==> CanAct(f, Act<T, E>.Thread(Proceed(p)))
    ensures p < |f.items| && f.items[p].cancellable ==> CanAct(f, Act<T, E>.OnItem(p, WorkItems.Request))
    ensures p < |f.items| && f.items[p].CallbackPending() ==>
              CanAct(f, Act<T, E>.OnItem(p, WorkItems.Fire)) || CanAct(f, Act<T, E>.OnItem(p, WorkItems.Callback))
  {
  }

  /** The fiber's thread is never stuck inside an item: it can go on, or a callback it waits for can. */
  lemma NeverStuckInItem<T(!new), E(!new)>(f: Fiber<T, E>, p: nat)
    requires Reached(f) && Holds(f.mail.consumer, p) && p < |f.items| && !f.items[p].WorkerReturned()
    ensures exists m: WorkItems.Move<T, E> :: CanAct(f, OnItem(p, m)) || f.items[p].worker.Calling?
  {
    ReachedInv(f);
    ReachableInv(f.mail);
    HeldIsNew(f.mail, p);
    var i := f.items[p];
    if i.worker.Idle? {
      assert if f.mail.consumer.Running? then CanAct(f, OnItem(p, WorkItems.GiveDo)) else CanAct(f, OnItem(p, WorkItems.GiveCancel));
    } else if !i.worker.Calling? {
      WorkItems.OnlyDisposingWaits(i);
      assert CanAct(f, OnItem(p, WorkItems.Work)) || CanAct(f, OnItem(p, WorkItems.Callback));
    }
  }
}
