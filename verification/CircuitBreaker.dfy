/**
 The circuit breaker. `OnEnter`, `CheckException` and `OnSuccess` each run under one lock, so a
 run of the breaker is a sequence of these events, of any number of calls in flight at once,
 under a clock that never goes back.
 */
module CircuitBreaker {
  import opened Common

  datatype BreakerState = Closed | HalfOpen | Open

  /** The fields the breaker mutates. */
  datatype Core = Core(state: BreakerState, lastFail: int, successiveFails: int)

  function Enter(c: Core, delay: int, now: int): (Core, bool) {
    match c.state
    case Closed => (c, true)
    case HalfOpen => (c, false)
    case Open => if now - c.lastFail < delay then (c, false) else (c.(state := HalfOpen), true)
  }

  /** What an open breaker does for a call that returns nothing, or a value. */
  datatype OpenBehaviour = ForAction | ForFunction

  /** In HalfOpen the behaviour for actions comes first, whatever the call. */
  function Invoked(c: Core, delay: int, now: int, onOpen: OpenBehaviour, throws: OpenBehaviour -> bool): seq<OpenBehaviour> {
    if Enter(c, delay, now).1 then []
    else if c.state == HalfOpen && throws(ForAction) then [ForAction]
    else if c.state == HalfOpen then [ForAction, onOpen]
    else [onOpen]
  }

  function Fail(c: Core, threshold: int, now: int): Core
    requires IsInt32(c.successiveFails)
  {
    match c.state
    case Closed =>
      var fails := Increment(c.successiveFails);
      Core(if fails == threshold then Open else Closed, now, fails)
    case _ => c.(state := Open, lastFail := now)
  }

  function Succeed(c: Core): Core {
    c.(state := Closed, successiveFails := 0)
  }

  class CircuitBreakerDispatcher {
    const threshold: int
    const delay: int
    var state: BreakerState
    var lastFail: int
    var successiveFails: int

    function Fields(): Core
      reads this
    {
      Core(state, lastFail, successiveFails)
    }

    constructor (threshold: int, delay: int)
      ensures Fields() == Core(Closed, 0, 0)
      ensures this.threshold == threshold && this.delay == delay
    {
      this.threshold, this.delay := threshold, delay;
      state, lastFail, successiveFails := Closed, 0, 0;
    }

    /** `onOpen` is the behaviour of the call that asks; those invoked are listed, up to the first that throws. */
    method UnsafeEnter(now: int, onOpen: OpenBehaviour, throws: OpenBehaviour -> bool)
      returns (continues: bool, invoked: seq<OpenBehaviour>)
      modifies this
      ensures (Fields(), continues) == Enter(old(Fields()), delay, now)
      ensures invoked == Invoked(old(Fields()), delay, now, onOpen, throws)
      ensures invoked == [] <==> continues
      ensures !continues && old(state) == Open ==> invoked == [onOpen]
      ensures !continues && old(state) == HalfOpen ==> invoked == if throws(ForAction) then [ForAction] else [ForAction, onOpen]
    {
      match state {
        case Closed =>
          return true, [];
        case HalfOpen =>
          if throws(ForAction) {
            return false, [ForAction];
          }
          return false, [ForAction, onOpen];
        case Open =>
          if now - lastFail < delay {
            return false, [onOpen];
          }
          state := HalfOpen;
          return true, [];
      }
    }

    method CheckException(filtered: bool, now: int)
      requires IsInt32(successiveFails)
      modifies this
      ensures Fields() == if filtered then old(Fields()) else Fail(old(Fields()), threshold, now)
    {
      if filtered {
        return;
      }
      lastFail := now;
      match state {
        case Open => state := Open;
        case HalfOpen => state := Open;
        case Closed =>
          successiveFails := Increment(successiveFails);
          if successiveFails == threshold {
            state := Open;
          }
      }
    }

    method OnSuccess()
      modifies this
      ensures Fields() == Succeed(old(Fields()))
    {
      successiveFails := 0;
      state := Closed;
    }
  }

  // ----- runs

  datatype Event =
    | Enters(now: int)
    | Succeeds(call: nat)
    | Fails(call: nat, filtered: bool, now: int)

  datatype World = World(
    threshold: int,
    delay: int,
    core: Core,
    clock: int,
    inFlight: set<nat>,   // admitted calls that have not completed
    admitted: nat,        // also the name of the next admitted call
    // history
    failures: nat,        // unfiltered failures since the last success
    probe: nat,           // the latest call admitted while not Closed, counted from 1; 0 when none
    decided: bool         // an unfiltered completion came after that probe
  )

  predicate Possible(w: World, e: Event) {
    match e
    case Enters(now) => w.clock <= now
    case Succeeds(p) => p in w.inFlight
    case Fails(p, _, now) => p in w.inFlight && w.clock <= now
  }

  predicate Admits(w: World, now: int) {
    Enter(w.core, w.delay, now).1
  }

  /** A call let through although the breaker is not closed. */
  predicate IsProbe(w: World, e: Event) {
    e.Enters? && !w.core.state.Closed? && Admits(w, e.now)
  }

  function Next(w: World, e: Event): World
    requires Possible(w, e) && IsInt32(w.core.successiveFails)
  {
    match e
    case Enters(now) =>
      var w' := w.(core := Enter(w.core, w.delay, now).0, clock := now);
      if !Admits(w, now) then w'
      else
        var w'' := w'.(inFlight := w.inFlight + {w.admitted}, admitted := w.admitted + 1);
        if IsProbe(w, e) then w''.(probe := w.admitted + 1, decided := false) else w''
    case Succeeds(p) =>
      w.(core := Succeed(w.core), inFlight := w.inFlight - {p}, failures := 0, decided := true)
    case Fails(p, filtered, now) =>
      var w' := w.(inFlight := w.inFlight - {p}, clock := now);
      if filtered then w'
      else w'.(core := Fail(w.core, w.threshold, now), failures := w.failures + 1, decided := true)
  }

  function Start(threshold: int, delay: int, clock: int): World {
    World(threshold, delay, Core(Closed, 0, 0), clock, {}, 0, 0, 0, true)
  }

  // ----- the breaker refines its history

  /** Failures in a row after which the breaker opens: the threshold, or where the counter wraps to it. */
  function OpensAt(threshold: int): int {
    if threshold >= 1 then threshold else threshold + TWO32
  }

  predicate Inv(w: World) {
    && IsInt32(w.threshold)
    && w.core.successiveFails ==
         Wrap(if w.failures < OpensAt(w.threshold) then w.failures else OpensAt(w.threshold))
    && (w.core.state != Closed <==> w.failures >= OpensAt(w.threshold))
    && (w.core.state == HalfOpen <==> w.probe > 0 && !w.decided)
    && (w.core.state == Open ==> w.core.lastFail <= w.clock)
    && w.probe <= w.admitted
    && (forall p :: p in w.inFlight ==> p < w.admitted)
  }

  lemma InvNext(w: World, e: Event)
    requires Inv(w) && Possible(w, e)
    ensures Inv(Next(w, e))
  {
  }

  predicate Run(w: World, events: seq<Event>)
    requires Inv(w)
    decreases |events|
  {
    events == [] || (Possible(w, events[0]) && (InvNext(w, events[0]); Run(Next(w, events[0]), events[1..])))
  }

  ghost function After(w: World, events: seq<Event>): (end: World)
    requires Inv(w) && Run(w, events)
    ensures Inv(end)
    decreases |events|
  {
    if events == [] then w else InvNext(w, events[0]); After(Next(w, events[0]), events[1..])
  }

  /** Unfiltered failures after the last success, read off the events alone. */
  function TrailingFailures(events: seq<Event>): nat {
    if events == [] then 0
    else
      var last := events[|events| - 1];
      match last
      case Succeeds(_) => 0
      case Enters(_) => TrailingFailures(events[..|events| - 1])
      case Fails(_, filtered, _) => TrailingFailures(events[..|events| - 1]) + (if filtered then 0 else 1)
  }

  lemma {:induction false} AfterOneMore(w: World, events: seq<Event>)
    requires Inv(w) && Run(w, events) && events != []
    ensures Run(w, events[..|events| - 1])
    ensures Possible(After(w, events[..|events| - 1]), events[|events| - 1])
    ensures After(w, events) == Next(After(w, events[..|events| - 1]), events[|events| - 1])
    decreases |events|
  {
    InvNext(w, events[0]);
    var most := events[..|events| - 1];
    if |events| > 1 {
      AfterOneMore(Next(w, events[0]), events[1..]);
      assert events[1..][..|events| - 2] == most[1..];
    }
  }

  lemma {:induction false} FailuresAreCounted(w: World, events: seq<Event>)
    requires Inv(w) && w.failures == 0 && Run(w, events)
    ensures After(w, events).failures == TrailingFailures(events)
    ensures After(w, events).threshold == w.threshold && After(w, events).delay == w.delay
    decreases |events|
  {
    if events != [] {
      AfterOneMore(w, events);
      FailuresAreCounted(w, events[..|events| - 1]);
    }
  }

  /** At any time the two fields are functions of the failures since the last success. */
  lemma RefinesHistory(threshold: int, delay: int, clock: int, events: seq<Event>)
    requires IsInt32(threshold) && Run(Start(threshold, delay, clock), events)
    ensures var core := After(Start(threshold, delay, clock), events).core;
            var n := TrailingFailures(events);
            && (core.state != Closed <==> n >= OpensAt(threshold))
            && (threshold >= 1 ==> core.successiveFails == if n < threshold then n else threshold)
            && core.successiveFails == Wrap(if n < OpensAt(threshold) then n else OpensAt(threshold))
  {
    FailuresAreCounted(Start(threshold, delay, clock), events);
  }

  // ----- the rate of probes

  predicate NoSuccess(events: seq<Event>) {
    forall e :: e in events ==> !e.Succeeds?
  }

  /** When the calls were admitted that got through although the breaker was not closed. */
  function ProbeTimes(w: World, events: seq<Event>): seq<int>
    requires Inv(w) && Run(w, events)
    decreases |events|
  {
    if events == [] then []
    else
      InvNext(w, events[0]);
      (if IsProbe(w, events[0]) then [events[0].now] else []) + ProbeTimes(Next(w, events[0]), events[1..])
  }

  /** A probe was admitted, or a failure noted, no earlier than `since`. */
  predicate ProbedSince(w: World, since: int) {
    since <= w.clock && (w.core.state == HalfOpen || (w.core.state == Open && w.core.lastFail >= since))
  }

  lemma FirstEventIsNoSuccess(events: seq<Event>)
    requires NoSuccess(events) && events != []
    ensures !events[0].Succeeds? && NoSuccess(events[1..])
  {
    assert events[0] in events;
  }

  /** After a probe, the next one has to wait. */
  lemma {:induction false} NextProbeWaits(w: World, events: seq<Event>, since: int)
    requires Inv(w) && Run(w, events) && NoSuccess(events) && ProbedSince(w, since)
    ensures ProbeTimes(w, events) != [] ==> ProbeTimes(w, events)[0] >= since + w.delay
    decreases |events|
  {
    if events != [] {
      InvNext(w, events[0]);
      FirstEventIsNoSuccess(events);
      if !IsProbe(w, events[0]) {
        NextProbeWaits(Next(w, events[0]), events[1..], since);
      }
    }
  }

  /** Each time lies at least the delay after the one before. */
  predicate Spaced(times: seq<int>, delay: int) {
    forall i :: 0 < i < |times| ==> times[i] >= times[i - 1] + delay
  }

  lemma SpacedInFront(time: int, times: seq<int>, delay: int)
    requires Spaced(times, delay) && (times != [] ==> times[0] >= time + delay)
    ensures Spaced([time] + times, delay)
  {
    var all := [time] + times;
    forall i | 0 < i < |all| ensures all[i] >= all[i - 1] + delay {
      assert all[i] == times[i - 1] && (i > 1 ==> all[i - 1] == times[i - 2]);
    }
  }

  lemma {:induction false} ProbesAreSpaced(w: World, events: seq<Event>)
    requires Inv(w) && Run(w, events) && NoSuccess(events)
    ensures Spaced(ProbeTimes(w, events), w.delay)
    decreases |events|
  {
    if events != [] {
      var e, w' := events[0], Next(w, events[0]);
      InvNext(w, e);
      FirstEventIsNoSuccess(events);
      ProbesAreSpaced(w', events[1..]);
      if IsProbe(w, e) {
        NextProbeWaits(w', events[1..], e.now);
        SpacedInFront(e.now, ProbeTimes(w', events[1..]), w.delay);
      }
    }
  }

  lemma {:induction false} SpacedPairs(times: seq<int>, delay: int, i: nat, j: nat)
    requires Spaced(times, delay) && i <= j < |times|
    ensures (j - i) * delay <= times[j] - times[i]
    decreases j - i
  {
    if i < j {
      SpacedPairs(times, delay, i, j - 1);
      assert (j - i) * delay == (j - 1 - i) * delay + delay;
    }
  }

  /** In any stretch without a success, two probes with n between them lie n + 1 delays apart. */
  lemma ProbeRate(w: World, events: seq<Event>, i: nat, j: nat)
    requires Inv(w) && Run(w, events) && NoSuccess(events) && i <= j < |ProbeTimes(w, events)|
    ensures (j - i) * w.delay <= ProbeTimes(w, events)[j] - ProbeTimes(w, events)[i]
  {
    ProbesAreSpaced(w, events);
    SpacedPairs(ProbeTimes(w, events), w.delay, i, j);
  }

  lemma {:induction false} ProbesAreWithin(w: World, events: seq<Event>, k: nat)
    requires Inv(w) && Run(w, events) && k < |ProbeTimes(w, events)|
    ensures w.clock <= ProbeTimes(w, events)[k] <= After(w, events).clock
    decreases |events|
  {
    var e := events[0];
    InvNext(w, e);
    ClockMoves(Next(w, e), events[1..]);
    if IsProbe(w, e) {
      if k > 0 {
        ProbesAreWithin(Next(w, e), events[1..], k - 1);
      }
    } else {
      ProbesAreWithin(Next(w, e), events[1..], k);
    }
  }

  lemma {:induction false} ClockMoves(w: World, events: seq<Event>)
    requires Inv(w) && Run(w, events)
    ensures w.clock <= After(w, events).clock
    decreases |events|
  {
    if events != [] {
      InvNext(w, events[0]);
      ClockMoves(Next(w, events[0]), events[1..]);
    }
  }

  /** The bound for a window: at most window / delay + 1 probes. */
  lemma ProbesInWindow(w: World, events: seq<Event>, window: nat)
    requires Inv(w) && Run(w, events) && NoSuccess(events)
    requires w.delay > 0 && After(w, events).clock - w.clock <= window
    ensures |ProbeTimes(w, events)| <= window / w.delay + 1
  {
    var k := |ProbeTimes(w, events)|;
    if k > 0 {
      ProbeRate(w, events, 0, k - 1);
      ProbesAreWithin(w, events, 0);
      ProbesAreWithin(w, events, k - 1);
    }
    QuotientBound(k, w.delay, window);
  }

  lemma QuotientBound(k: nat, d: int, n: nat)
    requires d > 0 && (k > 0 ==> (k - 1) * d <= n)
    ensures k <= n / d + 1
  {
    if k > 0 {
      ExceedsWhenLarger(k - 1, d, n);
    }
  }

  lemma ExceedsWhenLarger(k: nat, d: int, n: nat)
    requires d > 0
    ensures k > n / d ==> k * d > n
  {
    if k > n / d {
      var m := k - n / d - 1;
      assert k * d == (n / d) * d + d + m * d;
      assert m * d >= 0;
    }
  }

  // ----- a breaker with nothing in flight

  predicate NoneFiltered(events: seq<Event>) {
    forall e :: e in events ==> !(e.Fails? && e.filtered)
  }

  /** Without filtered exceptions, half-open means that the latest probe has not come back. */
  lemma {:induction false} HalfOpenAwaitsProbe(w: World, events: seq<Event>)
    requires Inv(w) && (w.core.state == HalfOpen ==> w.probe - 1 in w.inFlight)
    requires Run(w, events) && NoneFiltered(events)
    ensures After(w, events).core.state == HalfOpen ==> After(w, events).probe - 1 in After(w, events).inFlight
    decreases |events|
  {
    if events != [] {
      InvNext(w, events[0]);
      assert events[0] in events;
      assert forall x :: x in events[1..] ==> x in events;
      HalfOpenAwaitsProbe(Next(w, events[0]), events[1..]);
    }
  }

  /** So an idle breaker lets a call through as soon as the delay has passed. */
  lemma IdleBreakerAdmits(threshold: int, delay: int, clock: int, events: seq<Event>, now: int)
    requires IsInt32(threshold) && Run(Start(threshold, delay, clock), events) && NoneFiltered(events)
    requires var w := After(Start(threshold, delay, clock), events);
             w.inFlight == {} && now - w.core.lastFail >= w.delay
    ensures Admits(After(Start(threshold, delay, clock), events), now)
  {
    HalfOpenAwaitsProbe(Start(threshold, delay, clock), events);
  }

  /** In general it does so exactly when some completion after the latest probe was not filtered. */
  lemma IdleAdmissionExactly(w: World, now: int)
    requires Inv(w) && w.inFlight == {} && now - w.core.lastFail >= w.delay
    ensures Admits(w, now) <==> w.probe == 0 || w.decided
  {
  }

  /** The other case is final: a probe lost to a filtered exception locks the breaker for good. */
  lemma {:induction false} LostProbeLocksBreaker(w: World, events: seq<Event>)
    requires Inv(w) && w.core.state == HalfOpen && w.inFlight == {} && Run(w, events)
    ensures After(w, events).core.state == HalfOpen && After(w, events).inFlight == {}
    ensures After(w, events).admitted == w.admitted
    decreases |events|
  {
    if events != [] {
      InvNext(w, events[0]);
      LostProbeLocksBreaker(Next(w, events[0]), events[1..]);
    }
  }

  /** One filtered exception thrown by the first probe is enough to get there. */
  lemma FilteredProbeIsLost(clock: int)
    ensures var events := [Enters(clock), Fails(0, false, clock), Enters(clock), Fails(1, true, clock)];
            && Run(Start(1, 0, clock), events)
            && After(Start(1, 0, clock), events).core.state == HalfOpen
            && After(Start(1, 0, clock), events).inFlight == {}
  {
    var w0 := Start(1, 0, clock);
    var w1 := Next(w0, Enters(clock));
    var w2 := Next(w1, Fails(0, false, clock));
    var w3 := Next(w2, Enters(clock));
    var w4 := Next(w3, Fails(1, true, clock));
    assert w2.core == Core(Open, clock, 1);
    assert w3.core == Core(HalfOpen, clock, 1);
    InvNext(w0, Enters(clock));
    InvNext(w1, Fails(0, false, clock));
    InvNext(w2, Enters(clock));
    InvNext(w3, Fails(1, true, clock));
    Prepend(w3, Fails(1, true, clock), []);
    Prepend(w2, Enters(clock), [Fails(1, true, clock)]);
    Prepend(w1, Fails(0, false, clock), [Enters(clock), Fails(1, true, clock)]);
    Prepend(w0, Enters(clock), [Fails(0, false, clock), Enters(clock), Fails(1, true, clock)]);
  }

  lemma Prepend(w: World, e: Event, rest: seq<Event>)
    requires Inv(w) && Possible(w, e) && Inv(Next(w, e)) && Run(Next(w, e), rest)
    ensures Run(w, [e] + rest) && After(w, [e] + rest) == After(Next(w, e), rest)
  {
    assert ([e] + rest)[1..] == rest;
  }

  // ----- admission, read off the events

  /** The time of the latest failure that was not filtered. */
  function LatestFailure(events: seq<Event>): Option<int> {
    if events == [] then None
    else
      var last := events[|events| - 1];
      if last.Fails? && !last.filtered then Some(last.now) else LatestFailure(events[..|events| - 1])
  }

  /** Since the latest completion that was not filtered, a call came late enough to be let through as a probe. */
  predicate ProbeSince(events: seq<Event>, opensAt: int, delay: int) {
    events != [] &&
    var last, before := events[|events| - 1], events[..|events| - 1];
    match last
    case Succeeds(_) => false
    case Fails(_, filtered, _) => filtered && ProbeSince(before, opensAt, delay)
    case Enters(now) =>
      || ProbeSince(before, opensAt, delay)
      || (TrailingFailures(before) >= opensAt && LatestFailure(before).Some? && now - LatestFailure(before).value >= delay)
  }

  lemma {:induction false} FailuresHaveATime(events: seq<Event>)
    requires TrailingFailures(events) > 0
    ensures LatestFailure(events).Some?
  {
    if !(events[|events| - 1].Fails? && !events[|events| - 1].filtered) {
      FailuresHaveATime(events[..|events| - 1]);
    }
  }

  /** What the events make of the breaker. */
  predicate FieldsFollow(w: World, events: seq<Event>) {
    var opensAt := OpensAt(w.threshold);
    && w.failures == TrailingFailures(events)
    && (w.core.state ==
        if TrailingFailures(events) < opensAt then Closed else if ProbeSince(events, opensAt, w.delay) then HalfOpen else Open)
    && (LatestFailure(events).Some? ==> w.core.lastFail == LatestFailure(events).value)
  }

  lemma FieldsFollowEnters(w: World, events: seq<Event>, now: int)
    requires Inv(w) && Possible(w, Enters(now)) && FieldsFollow(w, events)
    ensures FieldsFollow(Next(w, Enters(now)), events + [Enters(now)])
  {
    OneMoreEvent(events, Enters(now));
    if TrailingFailures(events) > 0 {
      FailuresHaveATime(events);
    }
  }

  lemma FieldsFollowSucceeds(w: World, events: seq<Event>, p: nat)
    requires Inv(w) && Possible(w, Succeeds(p)) && FieldsFollow(w, events)
    ensures FieldsFollow(Next(w, Succeeds(p)), events + [Succeeds(p)])
  {
    OneMoreEvent(events, Succeeds(p));
  }

  lemma FieldsFollowFails(w: World, events: seq<Event>, p: nat, filtered: bool, now: int)
    requires Inv(w) && Possible(w, Fails(p, filtered, now)) && FieldsFollow(w, events)
    ensures FieldsFollow(Next(w, Fails(p, filtered, now)), events + [Fails(p, filtered, now)])
  {
    OneMoreEvent(events, Fails(p, filtered, now));
    InvNext(w, Fails(p, filtered, now));
  }

  lemma OneMoreEvent(events: seq<Event>, e: Event)
    ensures (events + [e])[..|events + [e]| - 1] == events && (events + [e])[|events + [e]| - 1] == e
  {
  }

  lemma FieldsFollowNext(w: World, events: seq<Event>, e: Event)
    requires Inv(w) && Possible(w, e) && FieldsFollow(w, events)
    ensures FieldsFollow(Next(w, e), events + [e])
  {
    match e
    case Enters(now) => FieldsFollowEnters(w, events, now);
    case Succeeds(p) => FieldsFollowSucceeds(w, events, p);
    case Fails(p, filtered, now) => FieldsFollowFails(w, events, p, filtered, now);
  }

  lemma {:induction false} FieldsFollowRun(w: World, events: seq<Event>)
    requires Inv(w) && Run(w, events) && FieldsFollow(w, [])
    ensures FieldsFollow(After(w, events), events)
    decreases |events|
  {
    if events != [] {
      var before := events[..|events| - 1];
      AfterOneMore(w, events);
      FieldsFollowRun(w, before);
      FieldsFollowNext(After(w, before), before, events[|events| - 1]);
      assert before + [events[|events| - 1]] == events;
    }
  }

  /**
   Whether a call is admitted, from the events alone: while fewer failures than the threshold have
   come since the last success, always; otherwise, if and only if no probe has been let through
   since the latest unfiltered failure and the delay has passed since it.
   */
  lemma AdmittedExactly(threshold: int, delay: int, clock: int, events: seq<Event>, now: int)
    requires IsInt32(threshold) && Run(Start(threshold, delay, clock), events)
    ensures TrailingFailures(events) >= OpensAt(threshold) ==> LatestFailure(events).Some?
    ensures Admits(After(Start(threshold, delay, clock), events), now) <==>
            || TrailingFailures(events) < OpensAt(threshold)
            || (!ProbeSince(events, OpensAt(threshold), delay) && now - LatestFailure(events).value >= delay)
  {
    var w := Start(threshold, delay, clock);
    FieldsFollowRun(w, events);
    FailuresAreCounted(w, events);
    if TrailingFailures(events) >= OpensAt(threshold) {
      FailuresHaveATime(events);
    }
  }

  /** The state and the time of the latest failure, from the events alone. */
  lemma StateExactly(threshold: int, delay: int, clock: int, events: seq<Event>)
    requires IsInt32(threshold) && Run(Start(threshold, delay, clock), events)
    ensures var core := After(Start(threshold, delay, clock), events).core;
            && (core.state == Closed <==> TrailingFailures(events) < OpensAt(threshold))
            && (core.state == HalfOpen <==>
                  TrailingFailures(events) >= OpensAt(threshold) && ProbeSince(events, OpensAt(threshold), delay))
            && (LatestFailure(events).Some? ==> core.lastFail == LatestFailure(events).value)
  {
    FieldsFollowRun(Start(threshold, delay, clock), events);
    FailuresAreCounted(Start(threshold, delay, clock), events);
  }

  // ----- who can come

  /** A call can come at any later time, and a call in flight can end in any way. */
  lemma EventsAreOpen(w: World, p: nat, filtered: bool, now: int)
    requires w.clock <= now
    ensures Possible(w, Enters(now))
    ensures p in w.inFlight ==> Possible(w, Succeeds(p)) && Possible(w, Fails(p, filtered, now))
  {
  }

  /** An admitted call is in flight until it ends. */
  lemma AdmittedIsInFlight(w: World, now: int)
    requires Inv(w) && w.clock <= now
    ensures Next(w, Enters(now)).inFlight == if Admits(w, now) then w.inFlight + {w.admitted} else w.inFlight
  {
  }
}
