/**
 The retry dispatchers, with and without waits, and their composition with `Then`. What the
 user's action does is a script: the i-th invocation ends in script(i). A filter tells which
 exceptions are rethrown at once.
 */
module Retry {
  import opened Common

  /** How a retried call ends. */
  datatype Ending<+T, +E> =
    | Finished(outcome: Outcome<T, E>)
    | Canceled                 // OperationCanceledException from the token
    | OutOfRange               // IndexOutOfRangeException from the wait schedule

  // ----- wait schedules

  /** What `GetTimeOutForRetry` is asked for: a wait, or nothing when it throws. */
  type Schedule = int -> Option<nat>

  /** `_TimeSpans[index]`, which throws outside the array. */
  function At(spans: seq<nat>, index: int): Option<nat> {
    if 0 <= index < |spans| then Some(spans[index]) else None
  }

  function ArraySchedule(spans: seq<nat>): Schedule {
    (retry: int) =>
      var length := |spans| - 1;
      if retry > length then At(spans, length) else At(spans, retry)
  }

  function FunctionSchedule(provider: int -> nat): Schedule {
    (retry: int) => Some(provider(if retry == TWO31 - 1 then -TWO31 else retry + 1))
  }

  // ----- the closed form

  /** The first index from i on that satisfies p, or bound when there is none before it. */
  function First(p: nat -> bool, i: nat, bound: nat): (k: nat)
    requires i <= bound
    ensures i <= k <= bound
    ensures k < bound ==> p(k)
    ensures forall j :: i <= j < k ==> !p(j)
    decreases bound - i
  {
    if i == bound || p(i) then i else First(p, i + 1, bound)
  }

  lemma FirstIsUnique(p: nat -> bool, i: nat, bound: nat, k: nat)
    requires i <= k <= bound && (k < bound ==> p(k)) && forall j :: i <= j < k ==> !p(j)
    ensures First(p, i, bound) == k
  {
  }

  /** An outcome that ends the loop whatever the counter: success, or a filtered exception. */
  predicate Final<T, E>(o: Outcome<T, E>, filter: E -> bool) {
    o.Value? || filter(o.error)
  }

  function Finals<T, E>(script: nat -> Outcome<T, E>, filter: E -> bool): nat -> bool {
    (i: nat) => Final(script(i), filter)
  }

  function Stops<T, E>(script: nat -> Outcome<T, E>, filter: E -> bool, cancelled: nat -> bool): nat -> bool {
    (i: nat) => cancelled(i) || Final(script(i), filter)
  }

  /** The invocation after which the loop ends, or before which it is cancelled. */
  function LastIndex<T, E>(script: nat -> Outcome<T, E>, filter: E -> bool, cancelled: nat -> bool, max: int): nat
    requires IsInt32(max)
  {
    First(Stops(script, filter, cancelled), 0, Unwrap(max))
  }

  class RetryDispatcher<E> {
    const maxRetry: int
    const filter: E -> bool

    constructor (filter: E -> bool, maxRetry: int)
      ensures this.filter == filter && this.maxRetry == maxRetry
    {
      this.filter, this.maxRetry := filter, maxRetry;
    }

    method ShouldRethrow(count: int, error: E) returns (rethrow: bool, next: int)
      requires IsInt32(count)
      ensures rethrow <==> count == maxRetry || filter(error)
      ensures next == Increment(count)
    {
      rethrow, next := count == maxRetry || filter(error), Increment(count);
    }

    /** cancelled(i) tells whether the token is cancelled when invocation i is about to start. */
    method Enqueue<T>(script: nat -> Outcome<T, E>, cancelled: nat -> bool)
      returns (ending: Ending<T, E>, invocations: nat)
      requires IsInt32(maxRetry)
      ensures var last := LastIndex(script, filter, cancelled, maxRetry);
              if cancelled(last) then ending == Canceled && invocations == last
              else ending == Finished(script(last)) && invocations == last + 1
    {
      ghost var stops := Stops(script, filter, cancelled);
      var count := 0;
      invocations := 0;
      while true
        invariant invocations <= Unwrap(maxRetry) && count == Wrap(invocations)
        invariant forall j :: 0 <= j < invocations ==> !stops(j)
        decreases Unwrap(maxRetry) - invocations
      {
        if cancelled(invocations) {
          FirstIsUnique(stops, 0, Unwrap(maxRetry), invocations);
          return Canceled, invocations;
        }
        var outcome := script(invocations);
        invocations := invocations + 1;
        if outcome.Value? {
          FirstIsUnique(stops, 0, Unwrap(maxRetry), invocations - 1);
          return Finished(outcome), invocations;
        }
        var rethrow;
        rethrow, count := ShouldRethrow(count, outcome.error);
        if rethrow {
          FirstIsUnique(stops, 0, Unwrap(maxRetry), invocations - 1);
          return Finished(outcome), invocations;
        }
      }
    }
  }

  /** The retries whose wait the schedule refuses: it is asked for the counter, which wraps. */
  function Breaks(schedule: Schedule): nat -> bool {
    (i: nat) => i < TWO32 && schedule(Wrap(i)).None?
  }

  lemma LoopEnds(stops: nat -> bool, breaks: nat -> bool, bound: nat, n: nat)
    requires n <= bound && (n < bound ==> stops(n)) && forall j :: 0 <= j < n ==> !stops(j) && !breaks(j)
    ensures First(stops, 0, bound) == n && First(breaks, 0, n) == n
  {
    FirstIsUnique(stops, 0, bound, n);
    FirstIsUnique(breaks, 0, n, n);
  }

  lemma LoopBreaks(stops: nat -> bool, breaks: nat -> bool, bound: nat, n: nat)
    requires n < bound && breaks(n) && !stops(n) && forall j :: 0 <= j < n ==> !stops(j) && !breaks(j)
    ensures n < First(stops, 0, bound) && First(breaks, 0, First(stops, 0, bound)) == n
  {
    FirstIsUnique(breaks, 0, First(stops, 0, bound), n);
  }

  class RetryDispatcherAsync<E> {
    const maxRetry: int
    const schedule: Schedule
    const filter: E -> bool

    constructor (filter: E -> bool, schedule: Schedule, maxRetry: int)
      ensures this.filter == filter && this.schedule == schedule && this.maxRetry == maxRetry
    {
      this.filter, this.schedule, this.maxRetry := filter, schedule, maxRetry;
    }

    /** The waits asked for, in order; a token cancelled during a wait ends the call as the check after it does. */
    method Enqueue<T>(script: nat -> Outcome<T, E>, cancelled: nat -> bool)
      returns (ending: Ending<T, E>, invocations: nat, waits: seq<nat>)
      requires IsInt32(maxRetry)
      ensures var last := LastIndex(script, filter, cancelled, maxRetry);
              var broken := First(Breaks(schedule), 0, last);
              && |waits| == broken
              && (forall i :: 0 <= i < |waits| ==> i < TWO32 && Some(waits[i]) == schedule(Wrap(i)))
              && (if broken < last then ending == OutOfRange && invocations == broken + 1
                  else if cancelled(last) then ending == Canceled && invocations == last
                  else ending == Finished(script(last)) && invocations == last + 1)
    {
      ghost var stops := Stops(script, filter, cancelled);
      ghost var breaks := Breaks(schedule);
      var count := 0;
      invocations, waits := 0, [];
      while true
        invariant invocations == |waits| <= Unwrap(maxRetry) && count == Wrap(invocations)
        invariant forall j :: 0 <= j < invocations ==> !stops(j) && !breaks(j)
        invariant forall i :: 0 <= i < |waits| ==> Some(waits[i]) == schedule(Wrap(i))
        decreases Unwrap(maxRetry) - invocations
      {
        if cancelled(invocations) {
          LoopEnds(stops, breaks, Unwrap(maxRetry), invocations);
          return Canceled, invocations, waits;
        }
        var outcome := script(invocations);
        invocations := invocations + 1;
        if outcome.Value? || count == maxRetry || filter(outcome.error) {
          LoopEnds(stops, breaks, Unwrap(maxRetry), invocations - 1);
          return Finished(outcome), invocations, waits;
        }
        var wait := schedule(count);
        count := Increment(count);
        if wait.None? {
          LoopBreaks(stops, breaks, Unwrap(maxRetry), invocations - 1);
          return OutOfRange, invocations, waits;
        }
        waits := waits + [wait.value];
      }
    }
  }

  // ----- what the closed form says

  /** Without cancellation: as many invocations as it takes to reach a success, a filtered failure or the maximum. */
  lemma InvocationsWithoutCancellation<T, E>(script: nat -> Outcome<T, E>, filter: E -> bool, max: int, k: nat)
    requires IsInt32(max)
    ensures LastIndex(script, filter, (i: nat) => false, max) == k <==>
            && k <= Unwrap(max)
            && (k < Unwrap(max) ==> Final(script(k), filter))
            && forall j: nat :: j < k ==> !Final(script(j), filter)
  {
    var stops := Stops(script, filter, (i: nat) => false);
    if && k <= Unwrap(max) && (k < Unwrap(max) ==> Final(script(k), filter))
       && forall j: nat :: j < k ==> !Final(script(j), filter) {
      FirstIsUnique(stops, 0, Unwrap(max), k);
    }
    if First(stops, 0, Unwrap(max)) == k {
      forall j: nat | j < k ensures !Final(script(j), filter) {
        assert !stops(j);
      }
      assert k < Unwrap(max) ==> stops(k);
    }
  }

  /**
   The closed form, read off the script: the last invocation is the first that succeeds, fails with a
   filtered exception, or comes under a cancelled token, and no later than the maximum.
   */
  lemma LastIndexExactly<T, E>(script: nat -> Outcome<T, E>, filter: E -> bool, cancelled: nat -> bool, max: int, k: nat)
    requires IsInt32(max)
    ensures LastIndex(script, filter, cancelled, max) == k <==>
            && k <= (if max >= 0 then max else max + TWO32)
            && (k < (if max >= 0 then max else max + TWO32) ==>
                  cancelled(k) || script(k).Value? || filter(script(k).error))
            && forall j: nat :: j < k ==> !cancelled(j) && script(j).Error? && !filter(script(j).error)
  {
    var stops, bound := Stops(script, filter, cancelled), Unwrap(max);
    assert forall j: nat :: stops(j) <==> cancelled(j) || script(j).Value? || filter(script(j).error);
    var first := First(stops, 0, bound);
    if && k <= bound && (k < bound ==> stops(k)) && forall j: nat :: j < k ==> !stops(j) {
      FirstIsUnique(stops, 0, bound, k);
    }
  }

  function Sum(s: seq<nat>): nat {
    if s == [] then 0 else Sum(s[..|s| - 1]) + s[|s| - 1]
  }

  /** The clamped schedule never breaks on a non-empty array, and asks for the last entry once it runs out. */
  lemma ArrayScheduleClamps(spans: seq<nat>, retry: nat)
    ensures ArraySchedule(spans)(retry).None? <==> spans == []
    ensures spans != [] ==>
              ArraySchedule(spans)(retry) == Some(spans[if retry < |spans| - 1 then retry else |spans| - 1])
  {
  }

  /**
   An array schedule refuses the first retry when it is empty. Otherwise it lets both dispatchers
   agree until the counter overflows, which a maximum of 0 or more never lets happen.
   */
  lemma ArrayBreaksOnOverflowOnly(spans: seq<nat>, last: nat)
    requires last < TWO32
    ensures First(Breaks(ArraySchedule(spans)), 0, last) ==
            if spans == [] then 0 else if last < TWO31 then last else TWO31
  {
    var breaks := Breaks(ArraySchedule(spans));
    forall i: nat | i < TWO31 ensures breaks(i) <==> spans == [] {
      assert Wrap(i) == i;
      ArrayScheduleClamps(spans, i);
    }
    if spans != [] {
      OverflowBreaks(spans);
    }
    FirstIsUnique(breaks, 0, last, if spans == [] then 0 else if last < TWO31 then last else TWO31);
  }

  lemma OverflowBreaks(spans: seq<nat>)
    requires spans != []
    ensures TWO31 < TWO32 && Wrap(TWO31) == -TWO31 && ArraySchedule(spans)(Wrap(TWO31)).None?
  {
    var w: int := Wrap(TWO31);
    assert w == -TWO31;
    assert ArraySchedule(spans)(w) == At(spans, w);
  }

  lemma CounterStaysInRange<T, E>(script: nat -> Outcome<T, E>, filter: E -> bool, cancelled: nat -> bool, max: int)
    requires 0 <= max && IsInt32(max)
    ensures LastIndex(script, filter, cancelled, max) <= max
    ensures forall i: nat :: i <= LastIndex(script, filter, cancelled, max) ==> Wrap(i) == i
  {
  }

  /** Sum of the first n waits of a non-empty array, the last entry repeated. */
  function TotalWait(spans: seq<nat>, n: nat): nat
    requires spans != []
  {
    if n == 0 then 0
    else TotalWait(spans, n - 1) + spans[if n - 1 < |spans| - 1 then n - 1 else |spans| - 1]
  }

  /** That sum in closed form: the array as far as it goes, and its last entry for every retry beyond. */
  lemma {:induction false} TotalWaitExactly(spans: seq<nat>, n: nat)
    requires spans != []
    ensures TotalWait(spans, n) ==
            if n <= |spans| then Sum(spans[..n]) else Sum(spans) + (n - |spans|) * spans[|spans| - 1]
    decreases n
  {
    if n == 0 {
      assert spans[..0] == [];
    } else {
      TotalWaitExactly(spans, n - 1);
      if n <= |spans| {
        assert spans[..n][..n - 1] == spans[..n - 1];
      } else {
        assert spans[..|spans|] == spans;
        OneMoreWait(n - |spans|, spans[|spans| - 1]);
      }
    }
  }

  lemma OneMoreWait(n: nat, wait: nat)
    requires n > 0
    ensures n * wait == (n - 1) * wait + wait
  {
  }

  /** Waits are added up one by one. */
  lemma {:induction false} SumJoins(a: seq<nat>, b: seq<nat>)
    ensures Sum(a + b) == Sum(a) + Sum(b)
    decreases |b|
  {
    if b == [] {
      assert a + b == a;
    } else {
      SumJoins(a, b[..|b| - 1]);
      assert (a + b)[..|a + b| - 1] == a + b[..|b| - 1];
    }
  }

  lemma {:induction false} WaitsAddUp(spans: seq<nat>, waits: seq<nat>)
    requires spans != [] && |waits| <= TWO31
    requires forall i :: 0 <= i < |waits| ==> Some(waits[i]) == ArraySchedule(spans)(Wrap(i))
    ensures Sum(waits) == TotalWait(spans, |waits|)
  {
    if waits != [] {
      WaitsAddUp(spans, waits[..|waits| - 1]);
      assert Wrap(|waits| - 1) == |waits| - 1;
      ArrayScheduleClamps(spans, |waits| - 1);
    }
  }

  /** A schedule from a function is asked for the next retry number, which wraps behind the largest. */
  lemma FunctionScheduleShifts(provider: int -> nat, retry: int)
    requires IsInt32(retry)
    ensures FunctionSchedule(provider)(retry) == Some(provider(Increment(retry)))
  {
  }

  /** An array has no wait for a negative retry number. */
  lemma NegativeRetryBreaks(spans: seq<nat>, retry: int)
    requires retry < 0
    ensures ArraySchedule(spans)(retry).None?
  {
  }

  /** The shifted retry number of a function schedule never overflows while retries are left. */
  lemma ShiftDoesNotOverflow(provider: int -> nat, max: int, retry: nat)
    requires IsInt32(max) && retry < max
    ensures IsInt32(retry + 1) && FunctionSchedule(provider)(retry) == Some(provider(retry + 1))
  {
  }

  // ----- chains

  /** User code as a dispatcher sees it: from a position in the script to the next one, with an outcome. */
  type Work<T, E> = nat -> (nat, Outcome<T, E>)

  /** One invocation of the action itself. */
  function Invocation<T, E>(script: nat -> Outcome<T, E>): Work<T, E> {
    (at: nat) => (at + 1, script(at))
  }

  /** Dispatchers: a retry with its own filter, and the composed one. */
  datatype Dispatcher<!E> = Retrying(max: nat, filter: E -> bool) | Composed(first: Dispatcher<E>, second: Dispatcher<E>)

  function Retried<T, E>(max: nat, filter: E -> bool, work: Work<T, E>, at: nat): (nat, Outcome<T, E>)
    decreases max
  {
    var (next, outcome) := work(at);
    if Final(outcome, filter) || max == 0 then (next, outcome)
    else Retried(max - 1, filter, work, next)
  }

  /** `Enqueue` of a dispatcher; the composed one enqueues the second inside the first. */
  function Enqueued<T, E>(d: Dispatcher<E>, work: Work<T, E>, at: nat): (nat, Outcome<T, E>)
    decreases d
  {
    match d
    case Retrying(max, filter) => Retried(max, filter, work, at)
    case Composed(first, second) => Enqueued(first, (inner: nat) => Enqueued(second, work, inner), at)
  }

  /** `Then` over a sequence: a left fold. */
  function Then<E>(d: Dispatcher<E>, others: seq<Dispatcher<E>>): Dispatcher<E>
    decreases |others|
  {
    if others == [] then d else Then(Composed(d, others[0]), others[1..])
  }

  function Retries<E>(maxima: seq<nat>, filter: E -> bool): (ds: seq<Dispatcher<E>>)
    ensures |ds| == |maxima| && forall i :: 0 <= i < |maxima| ==> ds[i] == Retrying(maxima[i], filter)
  {
    seq(|maxima|, i requires 0 <= i < |maxima| => Retrying(maxima[i], filter))
  }

  /** (n1 + 1) * ... * (nk + 1) */
  function Product(maxima: seq<nat>): (p: nat)
    ensures p > 0
  {
    if maxima == [] then 1 else PositiveProduct(Product(maxima[..|maxima| - 1]), maxima[|maxima| - 1] + 1)
  }

  function PositiveProduct(a: nat, b: nat): (p: nat)
    requires a > 0 && b > 0
    ensures p > 0 && p == a * b
  {
    assert a * b >= b by { assert (a - 1) * b >= 0; }
    a * b
  }

  /** The loop without waits is this function on the script, from its first invocation. */
  lemma {:induction false} LoopIsRetried<T, E>(script: nat -> Outcome<T, E>, filter: E -> bool, max: nat, at: nat)
    ensures var last := First(Finals(script, filter), at, at + max);
            Retried(max, filter, Invocation(script), at) == (last + 1, script(last))
    decreases max
  {
    var final := Finals(script, filter);
    if max > 0 && !final(at) {
      LoopIsRetried(script, filter, max - 1, at + 1);
    }
  }

  /** What `Enqueue` of a retry dispatcher does, when nobody cancels, is this function. */
  lemma EnqueueIsRetried<T, E>(script: nat -> Outcome<T, E>, filter: E -> bool, max: nat)
    requires max < TWO31
    ensures var last := LastIndex(script, filter, (i: nat) => false, max);
            Retried(max, filter, Invocation(script), 0) == (last + 1, script(last))
  {
    LoopIsRetried(script, filter, max, 0);
    var final, never := Finals(script, filter), (i: nat) => false;
    var stops, last := Stops(script, filter, never), First(final, 0, max);
    assert last < max ==> final(last);
    forall j | 0 <= j < last ensures !stops(j) {
      assert !final(j);
    }
    assert Unwrap(max) == max;
    FirstIsUnique(stops, 0, max, last);
  }

  lemma {:induction false} RetriedCongruence<T, E>(max: nat, filter: E -> bool, f: Work<T, E>, g: Work<T, E>, at: nat)
    requires forall p :: f(p) == g(p)
    ensures Retried(max, filter, f, at) == Retried(max, filter, g, at)
    decreases max
  {
    if max > 0 {
      RetriedCongruence(max - 1, filter, f, g, f(at).0);
    }
  }

  lemma {:induction false} EnqueuedCongruence<T, E>(d: Dispatcher<E>, f: Work<T, E>, g: Work<T, E>, at: nat)
    requires forall p :: f(p) == g(p)
    ensures Enqueued(d, f, at) == Enqueued(d, g, at)
    decreases d
  {
    match d
    case Retrying(max, filter) => RetriedCongruence(max, filter, f, g, at);
    case Composed(first, second) =>
      forall p ensures Enqueued(second, f, p) == Enqueued(second, g, p) {
        EnqueuedCongruence(second, f, g, p);
      }
      EnqueuedCongruence(first, (inner: nat) => Enqueued(second, f, inner), (inner: nat) => Enqueued(second, g, inner), at);
  }

  /** Composition is associative. */
  lemma ComposedAssociates<T, E>(a: Dispatcher<E>, b: Dispatcher<E>, c: Dispatcher<E>, work: Work<T, E>, at: nat)
    ensures Enqueued(Composed(Composed(a, b), c), work, at) == Enqueued(Composed(a, Composed(b, c)), work, at)
  {
    var innermost := (p: nat) => Enqueued(c, work, p);
    EnqueuedCongruence(a, (p: nat) => Enqueued(b, innermost, p), (p: nat) => Enqueued(Composed(b, c), work, p), at);
  }

  /**
   It is not commutative: the first dispatcher is the outer one. With one retry each, and a filter
   for a on one of them only, an action that fails with a and then with b for ever is invoked four
   times when the filter is outside, and three times when it is inside.
   */
  lemma FirstIsOuter<T(!new), E(!new)>(a: E, b: E, filter: E -> bool, script: nat -> Outcome<T, E>)
    requires filter(a) && !filter(b) && script(0) == Error(a) && forall i: nat :: i > 0 ==> script(i) == Error(b)
    ensures var none := (e: E) => false;
            && Enqueued(Composed(Retrying(1, filter), Retrying(1, none)), Invocation(script), 0) == (4, Error(b))
            && Enqueued(Composed(Retrying(1, none), Retrying(1, filter)), Invocation(script), 0) == (3, Error(b))
  {
    var none := (e: E) => false;
    var work := Invocation(script);
    assert work(0) == (1, Error(a)) && work(1) == (2, Error(b)) && work(2) == (3, Error(b)) && work(3) == (4, Error(b));
    RetriedOnce(none, work, 0);
    RetriedOnce(none, work, 2);
    RetriedOnce(filter, work, 0);
    RetriedOnce(filter, work, 1);
    RetriedOnce(filter, (p: nat) => Enqueued(Retrying(1, none), work, p), 0);
    RetriedOnce(none, (p: nat) => Enqueued(Retrying(1, filter), work, p), 0);
  }

  lemma RetriedOnce<T, E>(filter: E -> bool, work: Work<T, E>, at: nat)
    ensures Retried(1, filter, work, at) ==
            if Final(work(at).1, filter) then work(at) else work(work(at).0)
  {
    var next := work(at).0;
    assert Retried(0, filter, work, next) == work(next);
  }

  /** Running out of a retries and then going on for b more is one retry of a + b + 1. */
  lemma {:induction false} RetriesAdd<T, E>(a: nat, b: nat, filter: E -> bool, work: Work<T, E>, at: nat)
    ensures Retried(a + b + 1, filter, work, at) ==
            var (next, outcome) := Retried(a, filter, work, at);
            if Final(outcome, filter) then (next, outcome) else Retried(b, filter, work, next)
    decreases a
  {
    if a > 0 {
      RetriesAdd(a - 1, b, filter, work, work(at).0);
    }
  }

  /** A retry around a retry. */
  lemma {:induction false} RetriesNest<T, E>(n: nat, m: nat, filter: E -> bool, work: Work<T, E>, at: nat)
    ensures PositiveProduct(n + 1, m + 1) > 0
    ensures Retried(n, filter, (inner: nat) => Retried(m, filter, work, inner), at) ==
            Retried(PositiveProduct(n + 1, m + 1) - 1, filter, work, at)
    decreases n
  {
    if n > 0 {
      var (next, outcome) := Retried(m, filter, work, at);
      RetriesNest(n - 1, m, filter, work, next);
      var rest := PositiveProduct(n, m + 1) - 1;
      RetriesAdd(m, rest, filter, work, at);
      assert m + rest + 1 == PositiveProduct(n + 1, m + 1) - 1;
    }
  }

  /** A chain in front of one more retry. */
  lemma {:induction false} ChainAroundRetry<T, E>(maxima: seq<nat>, m: nat, filter: E -> bool, work: Work<T, E>, at: nat)
    requires maxima != []
    ensures Enqueued(Chain(maxima, filter), (inner: nat) => Retried(m, filter, work, inner), at) ==
            Retried(PositiveProduct(Product(maxima), m + 1) - 1, filter, work, at)
    decreases |maxima|
  {
    var k := |maxima| - 1;
    var last, init := maxima[k], maxima[..k];
    var inner := (p: nat) => Retried(m, filter, work, p);
    if k == 0 {
      assert Product(init) == 1;
      RetriesNest(last, m, filter, work, at);
    } else {
      var m' := PositiveProduct(last + 1, m + 1) - 1;
      forall p ensures Retried(last, filter, inner, p) == Retried(m', filter, work, p) {
        RetriesNest(last, m, filter, work, p);
      }
      EnqueuedCongruence(Chain(init, filter), (p: nat) => Enqueued(Retrying(last, filter), inner, p),
                         (p: nat) => Retried(m', filter, work, p), at);
      ChainAroundRetry(init, m', filter, work, at);
      assert Product(init) * ((last + 1) * (m + 1)) == (Product(init) * (last + 1)) * (m + 1);
    }
  }

  /** The dispatcher that `Then` builds from retries of the given maxima. */
  function Chain<E>(maxima: seq<nat>, filter: E -> bool): Dispatcher<E>
    requires maxima != []
  {
    if |maxima| == 1 then Retrying(maxima[0], filter)
    else Composed(Chain(maxima[..|maxima| - 1], filter), Retrying(maxima[|maxima| - 1], filter))
  }

  /** The last of the others is the innermost. */
  lemma {:induction false} ThenAppends<E>(d: Dispatcher<E>, others: seq<Dispatcher<E>>)
    requires others != []
    ensures Then(d, others) == Composed(Then(d, others[..|others| - 1]), others[|others| - 1])
    decreases |others|
  {
    if |others| > 1 {
      ThenAppends(Composed(d, others[0]), others[1..]);
      assert others[1..][..|others| - 2] == others[..|others| - 1][1..];
    }
  }

  lemma {:induction false} ThenBuildsChain<E>(maxima: seq<nat>, filter: E -> bool)
    requires maxima != []
    ensures Then(Retrying(maxima[0], filter), Retries(maxima[1..], filter)) == Chain(maxima, filter)
    decreases |maxima|
  {
    if |maxima| > 1 {
      var others := Retries(maxima[1..], filter);
      ThenAppends(Retrying(maxima[0], filter), others);
      ThenBuildsChain(maxima[..|maxima| - 1], filter);
      assert others[..|others| - 1] == Retries(maxima[..|maxima| - 1][1..], filter);
    }
  }

  /** The dispatcher that `Then` folds retries into is one retry, whatever it is given to do. */
  lemma ChainIsOneRetry<T, E>(maxima: seq<nat>, filter: E -> bool, work: Work<T, E>, at: nat)
    requires maxima != []
    ensures Enqueued(Then(Retrying(maxima[0], filter), Retries(maxima[1..], filter)), work, at) ==
            Retried(Product(maxima) - 1, filter, work, at)
  {
    ThenBuildsChain(maxima, filter);
    forall p ensures Retried(0, filter, work, p) == work(p) {
    }
    EnqueuedCongruence(Chain(maxima, filter), work, (p: nat) => Retried(0, filter, work, p), at);
    ChainAroundRetry(maxima, 0, filter, work, at);
  }

  /**
   Folding retries with `Then` multiplies them: same invocations, same result or last exception
   as one retry of maximum (n1 + 1) * ... * (nk + 1) - 1, for every script and shared filter.
   */
  lemma RetryChainsMultiply<T, E>(maxima: seq<nat>, filter: E -> bool, script: nat -> Outcome<T, E>)
    requires maxima != []
    ensures Enqueued(Then(Retrying(maxima[0], filter), Retries(maxima[1..], filter)), Invocation(script), 0) ==
            AllInvocations(script, filter, Product(maxima) - 1)
  {
    ChainIsOneRetry(maxima, filter, Invocation(script), 0);
    OneRetryOfScript(script, filter, Product(maxima) - 1);
  }

  /** Up to the first invocation that is final, or the maximum: how many there are, and how the last one ends. */
  function AllInvocations<T, E>(script: nat -> Outcome<T, E>, filter: E -> bool, max: nat): (r: (nat, Outcome<T, E>))
    ensures 0 < r.0 <= max + 1 && r.1 == script(r.0 - 1)
    ensures r.0 <= max ==> script(r.0 - 1).Value? || filter(script(r.0 - 1).error)
    ensures forall j :: 0 <= j < r.0 - 1 ==> script(j).Error? && !filter(script(j).error)
  {
    var last := First(Finals(script, filter), 0, max);
    FirstFinal(script, filter, max, last);
    (last + 1, script(last))
  }

  lemma FirstFinal<T, E>(script: nat -> Outcome<T, E>, filter: E -> bool, max: nat, last: nat)
    requires last == First(Finals(script, filter), 0, max)
    ensures last < max ==> script(last).Value? || filter(script(last).error)
    ensures forall j :: 0 <= j < last ==> script(j).Error? && !filter(script(j).error)
  {
    var final := Finals(script, filter);
    assert last < max ==> final(last);
    forall j | 0 <= j < last ensures script(j).Error? && !filter(script(j).error) {
      assert !final(j);
    }
  }

  lemma OneRetryOfScript<T, E>(script: nat -> Outcome<T, E>, filter: E -> bool, max: nat)
    ensures Retried(max, filter, Invocation(script), 0) == AllInvocations(script, filter, max)
  {
    LoopIsRetried(script, filter, max, 0);
  }
}
