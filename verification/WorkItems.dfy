/**
 The work items of a fiber. The completion source behind a task is first-wins; `Do` and `Cancel`
 come from the fiber's thread, the token callback from any other thread, and all three race.
 */
module WorkItems {
  import opened Common

  /** Status of the task handed back to the caller. */
  datatype Status<+T, +E> = Pending | Result(value: T) | Fault(error: E) | Canceled

  function StatusOf<T, E>(o: Outcome<T, E>): Status<T, E> {
    match o
    case Value(v) => Result(v)
    case Error(e) => Fault(e)
  }

  /** The completion source: every `TrySet` succeeds at most once over the life of the source. */
  class CompletionSource<T, E> {
    var status: Status<T, E>

    constructor ()
      ensures status == Pending
    {
      status := Pending;
    }

    method TrySet(next: Status<T, E>) returns (won: bool)
      requires next != Pending
      modifies this
      ensures status == FirstWins(old(status), next)
      ensures won <==> old(status).Pending?
    {
      won := status.Pending?;
      if won {
        status := next;
      }
    }
  }

  function FirstWins<T, E>(current: Status<T, E>, next: Status<T, E>): Status<T, E> {
    if current.Pending? then next else current
  }

  /** An item without a token: nothing the user's function does escapes `Do`. */
  class WorkItem<T, E> {
    const source: CompletionSource<T, E>

    constructor ()
      ensures fresh(source) && source.status == Pending
    {
      source := new CompletionSource();
    }

    method Cancel()
      modifies source
      ensures source.status == FirstWins(old(source.status), Canceled)
    {
      var _ := source.TrySet(Canceled);
    }

    /** `outcome` is what the user's function does when it is called. */
    method Do(outcome: Outcome<T, E>)
      modifies source
      ensures source.status == FirstWins(old(source.status), StatusOf(outcome))
    {
      match outcome
      case Value(v) => var _ := source.TrySet(Result(v));
      case Error(e) => var _ := source.TrySet(Fault(e));
    }
  }

  // ----- an item with a token, step by step

  /** The callback registered with the token. */
  datatype Registration = Registered | Firing | Fired | Disposed

  /** The fiber's thread inside `Do` or `Cancel`; each item is given to it once. */
  datatype Worker<+T, +E> =
    | Idle
    | Checking                       // Do reads IsCancellationRequested
    | Disposing                      // Do disposes the registration
    | Calling                        // Do calls the user's function
    | Setting(outcome: Outcome<T, E>)
    | Canceling                      // Cancel, from the drain
    | Skipped                        // Do returned early
    | Done                           // Do or Cancel returned after its TrySet

  datatype Item<+T, +E> = Item(
    cancellable: bool,
    requested: bool,
    registration: Registration,
    status: Status<T, E>,
    worker: Worker<T, E>,
    // history
    wins: nat,                       // TrySet calls that succeeded
    wasCalled: bool                  // the user's function was called
  )
  {
    /** The token owes this item a call of its callback. */
    predicate CallbackPending() {
      registration.Firing? || (requested && registration.Registered?)
    }

    predicate WorkerReturned() {
      worker.Skipped? || worker.Done?
    }
  }

  /** Registering with a token that is already cancelled runs the callback at once. */
  function Create<T, E>(cancellable: bool, requested: bool): Item<T, E>
    requires requested ==> cancellable
  {
    if requested then Item(true, true, Fired, Canceled, Idle, 1, false)
    else Item(cancellable, false, if cancellable then Registered else Disposed, Pending, Idle, 0, false)
  }

  datatype Move<+T, +E> =
    | Request                        // somebody cancels the token
    | Fire                           // the token starts the callback
    | Callback                       // the callback calls Cancel
    | GiveDo                         // the fiber calls Do
    | GiveCancel                     // the drain calls Cancel
    | Work                           // the worker's next step
    | Return(outcome: Outcome<T, E>) // the user's function ends

  predicate CanMove<T, E>(i: Item<T, E>, m: Move<T, E>) {
    match m
    case Request => i.cancellable
    case Fire => i.requested && i.registration.Registered?
    case Callback => i.registration.Firing?
    case GiveDo => i.worker.Idle?
    case GiveCancel => i.worker.Idle?
    case Return(_) => i.worker.Calling?
    case Work =>
      // Dispose of a registration waits for a callback that is running
      || i.worker.Checking? || i.worker.Setting? || i.worker.Canceling?
      || (i.worker.Disposing? && !i.registration.Firing?)
  }

  function TrySet<T, E>(i: Item<T, E>, next: Status<T, E>): Item<T, E> {
    i.(status := FirstWins(i.status, next), wins := if i.status.Pending? then i.wins + 1 else i.wins)
  }

  function Step<T, E>(i: Item<T, E>, m: Move<T, E>): Item<T, E>
    requires CanMove(i, m)
  {
    match m
    case Request => i.(requested := true)
    case Fire => i.(registration := Firing)
    case Callback => TrySet(i, Canceled).(registration := Fired)
    case GiveDo => i.(worker := if i.cancellable then Checking else Calling)
    case GiveCancel => i.(worker := Canceling)
    case Return(outcome) => i.(worker := Setting(outcome), wasCalled := true)
    case Work =>
      match i.worker
      case Checking => i.(worker := if i.requested then Skipped else Disposing)
      case Disposing => i.(registration := if i.registration.Registered? then Disposed else i.registration, worker := Calling)
      case Setting(outcome) => TrySet(i, StatusOf(outcome)).(worker := Done)
      case Canceling => TrySet(i, Canceled).(worker := Done)
  }

  predicate Follows<T, E>(i: Item<T, E>, run: seq<Move<T, E>>)
    decreases |run|
  {
    run == [] || (CanMove(i, run[0]) && Follows(Step(i, run[0]), run[1..]))
  }

  function End<T, E>(i: Item<T, E>, run: seq<Move<T, E>>): Item<T, E>
    requires Follows(i, run)
    decreases |run|
  {
    if run == [] then i else End(Step(i, run[0]), run[1..])
  }

  predicate ItemInv<T, E>(i: Item<T, E>) {
    && i.wins == (if i.status.Pending? then 0 else 1)
    && (i.requested || !i.registration.Registered? || i.status.Pending? || i.worker.Done?)
    && (i.registration.Fired? ==> i.status.Canceled? && i.requested)
    && (i.wasCalled ==> !i.registration.Registered? && !i.registration.Firing? && (i.worker.Setting? || i.worker.Done?))
    && (i.worker.Setting? ==> i.wasCalled)
    && (i.registration.Firing? ==> i.requested)
    && (i.worker.Calling? || i.worker.Setting? ==> !i.registration.Registered? && !i.registration.Firing?)
    && (i.worker.Done? ==> !i.status.Pending?)
    && (i.worker.Skipped? ==> i.requested && !i.registration.Disposed?)
    && (!i.cancellable ==> i.registration.Disposed? && !i.requested && !i.worker.Checking? && !i.worker.Disposing?)
    && (i.cancellable && (i.worker.Idle? || i.worker.Checking? || i.worker.Disposing? || i.worker.Canceling?) ==> !i.registration.Disposed?)
    && (i.status.Canceled? ==> i.registration.Fired? || i.worker.Done?)
    && (i.status.Canceled? && i.wasCalled ==> i.registration.Fired?)
    && (i.status.Result? || i.status.Fault? ==> i.worker.Done? && i.wasCalled)
  }

  lemma ItemInvStep<T, E>(i: Item<T, E>, m: Move<T, E>)
    requires ItemInv(i) && CanMove(i, m)
    ensures ItemInv(Step(i, m))
    ensures !i.status.Pending? ==> Step(i, m).status == i.status
  {
  }

  /** Whatever races, the task takes one terminal status, once, and keeps it. */
  lemma {:induction false} StatusIsFinal<T, E>(i: Item<T, E>, run: seq<Move<T, E>>)
    requires ItemInv(i) && Follows(i, run)
    ensures ItemInv(End(i, run))
    ensures !i.status.Pending? ==> End(i, run).status == i.status
    ensures End(i, run).wins <= 1
    decreases |run|
  {
    if run != [] {
      ItemInvStep(i, run[0]);
      StatusIsFinal(Step(i, run[0]), run[1..]);
    }
  }

  /** Once `Do` or `Cancel` returned and the token owes no callback, the task is settled, exactly once. */
  lemma TaskIsSettled<T, E>(cancellable: bool, requested: bool, run: seq<Move<T, E>>)
    requires requested ==> cancellable
    requires Follows(Create(cancellable, requested), run)
    requires End(Create(cancellable, requested), run).WorkerReturned()
    requires !End(Create(cancellable, requested), run).CallbackPending()
    ensures var end := End(Create(cancellable, requested), run); !end.status.Pending? && end.wins == 1
  {
    StatusIsFinal(Create(cancellable, requested), run);
    ReturnedIsSettled(End(Create(cancellable, requested), run));
  }

  lemma ReturnedIsSettled<T, E>(i: Item<T, E>)
    requires ItemInv(i) && i.WorkerReturned() && !i.CallbackPending()
    ensures !i.status.Pending? && i.wins == 1
  {
  }

  /**
   A result or a fault means that the function was called and its end reported; a function that
   was called has its end reported unless the token's callback came first.
   */
  lemma ReportsWhatRan<T, E>(cancellable: bool, requested: bool, run: seq<Move<T, E>>)
    requires requested ==> cancellable
    requires Follows(Create(cancellable, requested), run)
    ensures var end := End(Create(cancellable, requested), run);
            && (end.status.Result? || end.status.Fault? ==> end.wasCalled && end.worker.Done?)
            && (end.wasCalled && end.worker.Done? ==>
                  (end.status.Canceled? <==> end.registration.Fired?))
            && (!end.requested && end.wasCalled && end.worker.Done? ==> !end.status.Canceled?)
  {
    StatusIsFinal(Create(cancellable, requested), run);
  }

  /** The step that reports the end of the function reports that very end, unless a callback was first. */
  lemma SettingReportsOutcome<T, E>(i: Item<T, E>)
    requires ItemInv(i) && i.worker.Setting?
    ensures Step(i, Work).status == if i.registration.Fired? then Canceled else StatusOf(i.worker.outcome)
  {
  }

  // ----- what the token decides

  /** The token of an item is cancelled from its creation on, or by a request, and by nothing else. */
  lemma {:induction false} RequestedByRequest<T, E>(i: Item<T, E>, run: seq<Move<T, E>>)
    requires Follows(i, run)
    ensures End(i, run).requested <==> i.requested || Request in run
    decreases |run|
  {
    if run != [] {
      RequestedByRequest(Step(i, run[0]), run[1..]);
      assert run == [run[0]] + run[1..];
    }
  }

  /** An item made with a cancelled token is cancelled at once. */
  lemma CreatedCancelled<T, E>(run: seq<Move<T, E>>)
    requires Follows(Create(true, true), run)
    ensures End(Create(true, true), run).status.Canceled?
  {
    StatusIsFinal(Create(true, true), run);
  }

  /** The fiber has not looked at the token of this item yet, or has seen it cancelled. */
  predicate Unseen<T, E>(i: Item<T, E>) {
    i.worker.Idle? || i.worker.Checking?
  }

  predicate NeverCalled<T, E>(i: Item<T, E>) {
    i.requested && !i.wasCalled && !i.worker.Disposing? && !i.worker.Calling? && !i.worker.Setting?
  }

  lemma {:induction false} NeverCalledRun<T, E>(i: Item<T, E>, run: seq<Move<T, E>>)
    requires ItemInv(i) && NeverCalled(i) && Follows(i, run)
    ensures ItemInv(End(i, run)) && NeverCalled(End(i, run))
    decreases |run|
  {
    if run != [] {
      ItemInvStep(i, run[0]);
      NeverCalledRun(Step(i, run[0]), run[1..]);
    }
  }

  /** An item whose token is cancelled before Do looks at it is never called, and ends cancelled. */
  lemma CancelledIsNotCalled<T, E>(i: Item<T, E>, run: seq<Move<T, E>>)
    requires ItemInv(i) && i.requested && Unseen(i) && Follows(i, run)
    ensures !End(i, run).wasCalled
    ensures End(i, run).WorkerReturned() && !End(i, run).CallbackPending() ==> End(i, run).status.Canceled?
  {
    NeverCalledRun(i, run);
  }

  /** Do is on its way to the user's function, or has called it. */
  predicate OnItsWay<T, E>(i: Item<T, E>) {
    && (i.worker.Checking? || i.worker.Disposing? || i.worker.Calling? || i.worker.Setting? || i.worker.Done?)
    && (i.worker.Setting? || i.worker.Done? ==> i.wasCalled)
  }

  lemma {:induction false} OnItsWayRun<T, E>(i: Item<T, E>, run: seq<Move<T, E>>)
    requires ItemInv(i) && OnItsWay(i) && Follows(i, run) && !End(i, run).requested
    ensures ItemInv(End(i, run)) && OnItsWay(End(i, run))
    decreases |run|
  {
    if run != [] {
      RequestedByRequest(i, run);
      ItemInvStep(i, run[0]);
      OnItsWayRun(Step(i, run[0]), run[1..]);
    }
  }

  /** An item given to Do whose token is never cancelled has its function called before Do returns. */
  lemma GivenIsCalled<T, E>(i: Item<T, E>, run: seq<Move<T, E>>)
    requires ItemInv(i) && i.worker.Idle? && Follows(i, [GiveDo] + run)
    requires !End(i, [GiveDo] + run).requested && End(i, [GiveDo] + run).WorkerReturned()
    ensures End(i, [GiveDo] + run).wasCalled
    ensures End(i, [GiveDo] + run).status.Result? || End(i, [GiveDo] + run).status.Fault?
  {
    RequestedByRequest(i, [GiveDo] + run);
    assert ([GiveDo] + run)[1..] == run;
    ItemInvStep(i, GiveDo);
    OnItsWayRun(Step(i, GiveDo), run);
  }

  /** The function ended like this, and that is what is or will be reported. */
  ghost predicate Ends<T, E>(i: Item<T, E>, o: Outcome<T, E>) {
    i.worker == Setting(o) || (i.worker.Done? && i.status == StatusOf(o))
  }

  lemma {:induction false} EndsRun<T, E>(i: Item<T, E>, run: seq<Move<T, E>>, o: Outcome<T, E>)
    requires ItemInv(i) && Ends(i, o) && Follows(i, run) && !End(i, run).requested
    ensures Ends(End(i, run), o)
    decreases |run|
  {
    if run != [] {
      RequestedByRequest(i, run);
      ItemInvStep(i, run[0]);
      EndsRun(Step(i, run[0]), run[1..], o);
    }
  }

  /** Under a token that is never cancelled, the task reports the very way the function ended. */
  lemma ReportsReturn<T, E>(i: Item<T, E>, run: seq<Move<T, E>>, o: Outcome<T, E>)
    requires ItemInv(i) && i.worker.Calling? && Follows(i, [Return(o)] + run)
    requires !End(i, [Return(o)] + run).requested && End(i, [Return(o)] + run).WorkerReturned()
    ensures match o
            case Value(v) => End(i, [Return(o)] + run).status == Result(v)
            case Error(e) => End(i, [Return(o)] + run).status == Fault(e)
  {
    RequestedByRequest(i, [Return(o)] + run);
    assert ([Return(o)] + run)[1..] == run;
    ItemInvStep(i, Return(o));
    EndsRun(Step(i, Return(o)), run, o);
  }

  // ----- who can move

  /**
   A token can be cancelled at any time; a callback that is owed can start and end at any time; the
   fiber's thread waits for nothing but a callback that runs while it disposes of the registration.
   */
  lemma OnlyDisposingWaits<T, E>(i: Item<T, E>)
    ensures i.cancellable ==> CanMove(i, Request)
    ensures i.requested && i.registration.Registered? ==> CanMove(i, Fire)
    ensures i.registration.Firing? ==> CanMove(i, Callback)
    ensures i.worker.Idle? ==> CanMove(i, GiveDo) && CanMove(i, GiveCancel)
    ensures i.worker.Calling? ==> forall o :: CanMove(i, Return(o))
    ensures !i.worker.Idle? && !i.worker.Calling? && !i.WorkerReturned() ==>
              CanMove(i, Work) || (i.worker.Disposing? && CanMove(i, Callback))
  {
  }
}
