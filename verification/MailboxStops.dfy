/**
 Exactly when a stop settles every item, and when it does so without cancelling any.
 */
module MailboxStops {
  import opened Common
  import opened Mailbox
  import opened MailboxInvariants
  import opened MailboxTheorems

  // ----- what the consumer has passed is linked

  /** How many nodes behind the first the consumer has taken, dropped, or stands at. */
  function Passed(h: History, c: Consumer): nat {
    |h.taken| + |h.dropped| + if c.Draining? && c.node.Some? then 1 else 0
  }

  /** The i-th node has been linked. */
  predicate IsLinked(order: seq<nat>, calls: seq<Call>, i: nat)
    requires i < |order|
  {
    order[i] < |calls| && !calls[order[i]].Swapped?
  }

  ghost predicate PassedLinked(order: seq<nat>, calls: seq<Call>, n: nat) {
    n < |order| && forall i :: 0 < i <= n ==> IsLinked(order, calls, i)
  }

  ghost predicate PassInv(s: State) {
    PassedLinked(s.history.order, s.calls, Passed(s.history, s.consumer))
  }

  lemma CallKeepsPass(s: State, p: nat)
    requires QueueInv(s) && PassInv(s) && p < |s.calls| && s.calls[p].Inside()
    ensures PassInv(StepCall(s, p))
  {
    var t, n := StepCall(s, p), Passed(s.history, s.consumer);
    forall i | 0 < i <= n ensures IsLinked(t.history.order, t.calls, i) {
      assert IsLinked(s.history.order, s.calls, i);
      assert t.history.order[i] == s.history.order[i];
      assert s.calls[p].Admitted? ==> s.history.order[i] != p;
    }
  }

  /** One node further on: it was reached through its predecessor's Next. */
  lemma PassOneMore(order: seq<nat>, calls: seq<Call>, l: Links, n: nat)
    requires OrderShape(order, calls, l.head) && LinkShape(order, calls, l) && PassedLinked(order, calls, n)
    requires l.Following(order[n]).Some?
    ensures PassedLinked(order, calls, n + 1)
  {
    FollowingIsNextInOrder(order, calls, l, n);
    assert LinkedAt(order, calls, l.next, n + 1);
    assert IsLinked(order, calls, n + 1);
  }

  /** By how much a step of the consumer moves on. */
  predicate MovesOn(s: State)
    requires ConsumerEnabled(s)
  {
    Passed(StepConsumer(s).history, StepConsumer(s).consumer) > Passed(s.history, s.consumer)
  }

  lemma ConsumerMovesOn(s: State)
    requires QueueInv(s) && ConsumerEnabled(s)
    ensures var n := Passed(s.history, s.consumer);
            && n < |s.history.order|
            && Passed(StepConsumer(s).history, StepConsumer(s).consumer) == n + (if MovesOn(s) then 1 else 0)
            && (MovesOn(s) ==> s.links.Following(s.history.order[n]).Some?)
  {
    var n := Passed(s.history, s.consumer);
    if s.consumer.Draining? && s.consumer.node.Some? {
      assert s.consumer.node.value == s.history.order[n];
    } else if !s.consumer.Draining? && !s.consumer.Ended? {
      assert s.links.tail == s.history.order[n];
    }
  }

  lemma ConsumerKeepsPass(s: State)
    requires QueueInv(s) && PassInv(s) && ConsumerEnabled(s)
    ensures PassInv(StepConsumer(s))
  {
    ConsumerMovesOn(s);
    assert StepConsumer(s).history.order == s.history.order && StepConsumer(s).calls == s.calls;
    if MovesOn(s) {
      PassOneMore(s.history.order, s.calls, s.links, Passed(s.history, s.consumer));
    }
  }

  lemma StartKeepsPass(s: State)
    requires QueueInv(s) && PassInv(s)
    ensures PassInv(Apply(s, Start))
  {
    var t := Apply(s, Start);
    forall i | 0 < i <= Passed(s.history, s.consumer) ensures IsLinked(t.history.order, t.calls, i) {
      assert IsLinked(s.history.order, s.calls, i);
    }
  }

  lemma {:induction false} PassInvRun(s: State, run: seq<Action>)
    requires Inv(s) && PassInv(s) && Follows(s, run)
    ensures PassInv(After(s, run))
    decreases |run|
  {
    if run != [] {
      InvStep(s, run[0]);
      match run[0] {
        case Start => StartKeepsPass(s);
        case Stop =>
        case Proceed(p) => CallKeepsPass(s, p);
        case Consume => ConsumerKeepsPass(s);
      }
      PassInvRun(Apply(s, run[0]), run[1..]);
    }
  }

  lemma ReachablePass(s: State)
    requires Reachable(s)
    ensures PassInv(s)
  {
    var run :| Follows(Init(s.kind), run) && After(Init(s.kind), run) == s;
    ReachableInit(s.kind);
    ReachableInv(Init(s.kind));
    PassInvRun(Init(s.kind), run);
  }

  // ----- what still happens once the consumer has left its loop

  /** The consumer has left its loop, and the token is cancelled. */
  predicate Left(s: State) {
    s.cancelled && (s.consumer.Draining? || s.consumer.Ended?)
  }

  /** A call that has not made its exchange yet, and will. */
  predicate Coming(s: State, p: nat) {
    p < |s.calls| && s.calls[p].Admitted?
  }

  /** What holds of t, some steps after s. */
  ghost predicate Later(s: State, t: State) {
    && Left(t) && t.history.ran == s.history.ran
    && s.history.order <= t.history.order && |s.calls| <= |t.calls|
    && ((forall p: nat :: !Coming(s, p)) ==> t.history.order == s.history.order && forall p: nat :: !Coming(t, p))
    && forall p: nat :: p < |s.calls| && !s.calls[p].Rejected? ==> !t.calls[p].Rejected?
  }

  lemma LaterOn(a: State, b: State, c: State)
    requires Later(a, b) && Later(b, c)
    ensures Later(a, c)
  {
  }

  lemma LeftStep(s: State, a: Action)
    requires Inv(s) && Left(s) && Enabled(s, a)
    ensures Later(s, Apply(s, a))
  {
    assert forall p: nat :: Coming(Apply(s, a), p) ==> Coming(s, p);
    if a.Proceed? && s.calls[a.call].Admitted? {
      assert Coming(s, a.call);
    }
  }

  lemma {:induction false} LeftRun(s: State, run: seq<Action>)
    requires Inv(s) && Left(s) && Follows(s, run)
    ensures Inv(After(s, run)) && Later(s, After(s, run))
    decreases |run|
  {
    if run != [] {
      InvStep(s, run[0]);
      LeftStep(s, run[0]);
      LeftRun(Apply(s, run[0]), run[1..]);
      LaterOn(s, Apply(s, run[0]), After(s, run));
    }
  }

  /** Once everybody has returned, more has been accepted exactly if some call was still to make its exchange. */
  lemma LateAcceptance(s: State, run: seq<Action>)
    requires Inv(s) && Left(s) && Follows(s, run) && Quiet(After(s, run))
    ensures |s.history.order| > 0 && s.history.order <= After(s, run).history.order
    ensures After(s, run).history.order == s.history.order <==> forall p: nat :: !Coming(s, p)
  {
    LeftRun(s, run);
    var t := After(s, run);
    if p: nat :| Coming(s, p) {
      assert t.calls[p].Exchanged() && p in t.history.order;
      assert p !in s.history.order;
    }
  }

  // ----- graceful stop, exactly

  lemma LeavingLeaves(s: State)
    requires Inv(s) && ConsumerEnabled(s) && Leaves(s)
    ensures Inv(StepConsumer(s)) && Left(StepConsumer(s))
    ensures StepConsumer(s).history.order == s.history.order && StepConsumer(s).calls == s.calls
    ensures StepConsumer(s).history.ran == s.history.ran == s.history.taken == s.history.order[1..|s.history.taken| + 1]
    ensures s.history.dropped == []
  {
    InvStep(s, Consume);
  }

  /**
   A stop is graceful if and only if at the consumer's last look nothing accepted is left unserved
   and no call is about to make its exchange. Holds for both queues.
   */
  lemma GracefulExactly(s: State, run: seq<Action>)
    requires Reachable(s) && ConsumerEnabled(s) && Leaves(s)
    requires Follows(StepConsumer(s), run) && Quiet(After(StepConsumer(s), run))
    ensures |After(StepConsumer(s), run).history.order| > 0
    ensures After(StepConsumer(s), run).history.ran == Accepted(After(StepConsumer(s), run)) <==>
            Unserved(s.history) == 0 && forall p: nat :: !Coming(s, p)
  {
    ReachableInv(s);
    LeavingLeaves(s);
    var t := StepConsumer(s);
    LateAcceptance(t, run);
    LeftRun(t, run);
    AllButLate(s.history.order, After(t, run).history.order, |s.history.taken|);
    assert forall p: nat :: Coming(t, p) <==> Coming(s, p);
  }

  // ----- every item settled, exactly

  /** After the drain's last look nothing changes for the items. */
  lemma {:induction false} DrainIsOver(s: State, run: seq<Action>)
    requires Inv(s) && Left(s) && (s.consumer == Draining(None) || s.consumer.Ended?) && Follows(s, run)
    ensures After(s, run).history.dropped == s.history.dropped
    decreases |run|
  {
    if run != [] {
      InvStep(s, run[0]);
      LeftStep(s, run[0]);
      DrainIsOver(Apply(s, run[0]), run[1..]);
    }
  }

  /** A call whose item the drain will not find: it is still before its link. */
  predicate Unlinked(s: State, p: nat) {
    p < |s.calls| && (s.calls[p].Admitted? || s.calls[p].Swapped?)
  }

  /** The drain takes its last look with this step. */
  predicate LastLook(s: State) {
    ConsumerEnabled(s) && StepConsumer(s).consumer == Draining(None)
  }

  /** What has run and been dropped is what was passed. */
  lemma RanAndDropped(s: State)
    requires Inv(s) && s.consumer == Draining(None)
    ensures Passed(s.history, s.consumer) < |s.history.order|
    ensures s.history.ran + s.history.dropped == s.history.order[1..Passed(s.history, s.consumer) + 1]
  {
    JoinSlices(s.history.order, |s.history.taken|, Passed(s.history, s.consumer));
  }

  lemma JoinSlices(order: seq<nat>, i: nat, n: nat)
    requires i <= n < |order|
    ensures order[1..i + 1] + order[i + 1..n + 1] == order[1..n + 1]
  {
  }

  lemma AllPassedAreLinked(order: seq<nat>, calls: seq<Call>, head: nat)
    requires OrderShape(order, calls, head) && PassedLinked(order, calls, |order| - 1)
    ensures forall p: nat | p < |calls| :: !calls[p].Swapped?
  {
    forall p: nat | p < |calls| && calls[p].Exchanged() ensures !calls[p].Swapped? {
      var i :| 0 <= i < |order| && order[i] == p;
      assert i > 0 ==> IsLinked(order, calls, i);
    }
  }

  /** The last look was at the Next of the last node passed, and found nothing. */
  lemma NothingBehind(s: State)
    requires QueueInv(s) && LastLook(s)
    ensures var n := Passed(StepConsumer(s).history, StepConsumer(s).consumer);
            n < |s.history.order| && s.links.Following(s.history.order[n]).None?
  {
    if s.consumer.Draining? {
      assert s.consumer.node.value == s.history.order[|s.history.taken| + |s.history.dropped| + 1];
    } else {
      assert s.links.tail == s.history.order[|s.history.taken|];
    }
  }

  lemma GapIsSwapped(order: seq<nat>, calls: seq<Call>, l: Links, n: nat)
    requires OrderShape(order, calls, l.head) && LinkShape(order, calls, l)
    requires n + 1 < |order| && l.Following(order[n]).None?
    ensures calls[order[n + 1]].Swapped?
  {
    assert LinkedAt(order, calls, l.next, n + 1);
  }

  /** What was passed is all there is if and only if nobody stands between exchange and link. */
  lemma LastLookSeesAll(s: State)
    requires Inv(s) && PassInv(s) && LastLook(s)
    ensures var t := StepConsumer(s);
            Passed(t.history, t.consumer) + 1 == |t.history.order| <==>
            forall p: nat | p < |s.calls| :: !s.calls[p].Swapped?
  {
    var t := StepConsumer(s);
    ConsumerKeepsPass(s);
    assert t.history.order == s.history.order && t.calls == s.calls;
    NothingBehind(s);
    var n := Passed(t.history, t.consumer);
    if n + 1 == |t.history.order| {
      AllPassedAreLinked(t.history.order, t.calls, s.links.head);
    } else {
      GapIsSwapped(s.history.order, s.calls, s.links, n);
    }
  }

  /** What the drain has passed at its end is all that is ever accepted, or not. */
  lemma PassedIsAll(t: State, run: seq<Action>)
    requires Inv(t) && Left(t) && t.consumer == Draining(None) && Follows(t, run) && Quiet(After(t, run))
    ensures var end := After(t, run);
            && |end.history.order| > 0
            && (end.history.ran + end.history.dropped == Accepted(end) <==>
                  Passed(t.history, t.consumer) + 1 == |t.history.order| && forall p: nat :: !Coming(t, p))
  {
    RanAndDropped(t);
    LateAcceptance(t, run);
    LeftRun(t, run);
    DrainIsOver(t, run);
    AllButLate(t.history.order, After(t, run).history.order, Passed(t.history, t.consumer));
  }

  /**
   Every accepted item was run or cancelled if and only if, at the drain's last look, no call stood
   before its link. Holds for both queues and every continuation to a state where all have returned.
   */
  lemma DrainSettlesExactly(s: State, run: seq<Action>)
    requires Reachable(s) && LastLook(s)
    requires Follows(StepConsumer(s), run) && Quiet(After(StepConsumer(s), run))
    ensures var end := After(StepConsumer(s), run);
            && |end.history.order| > 0
            && (end.history.ran + end.history.dropped == Accepted(end) <==> forall p: nat :: !Unlinked(s, p))
  {
    ReachableInv(s);
    ReachablePass(s);
    InvStep(s, Consume);
    LastLookSeesAll(s);
    PassedIsAll(StepConsumer(s), run);
    NoneUnlinked(s, StepConsumer(s));
  }

  lemma NoneUnlinked(s: State, t: State)
    requires t.calls == s.calls
    ensures (forall p: nat :: !Unlinked(s, p)) <==>
            (forall p: nat :: !Coming(t, p)) && forall p: nat | p < |s.calls| :: !s.calls[p].Swapped?
  {
    if forall p: nat :: !Unlinked(s, p) {
      forall p: nat ensures !Coming(t, p) {
        assert !Unlinked(s, p);
      }
      forall p: nat | p < |s.calls| ensures !s.calls[p].Swapped? {
        assert !Unlinked(s, p);
      }
    } else {
      var p: nat :| Unlinked(s, p);
      assert Coming(t, p) || s.calls[p].Swapped?;
    }
  }

  lemma AllButLate(order: seq<nat>, order': seq<nat>, n: nat)
    requires n < |order| && order <= order'
    ensures order[1..n + 1] == order'[1..] <==> n + 1 == |order| && order' == order
  {
    if order[1..n + 1] == order'[1..] {
      assert |order'| - 1 == n;
    }
  }

  // ----- the spinning queue stops at once

  /** Takes the consumer is bound to finish after a stop. */
  function Bound(c: Consumer): nat {
    if c.Taking? then 1 else 0
  }

  /** A stopped spinning mailbox in which nobody is inside Enqueue. */
  predicate Stopped(s: State) {
    s.kind.Spinning? && s.cancelled && Quiet(s)
  }

  lemma StoppedStep(s: State, a: Action)
    requires Inv(s) && Stopped(s) && Enabled(s, a)
    ensures Stopped(Apply(s, a)) && Apply(s, a).history.order == s.history.order
    ensures |Apply(s, a).history.taken| + Bound(Apply(s, a).consumer) == |s.history.taken| + Bound(s.consumer)
  {
  }

  lemma {:induction false} StoppedRun(s: State, run: seq<Action>)
    requires Inv(s) && Stopped(s) && Follows(s, run)
    ensures var t := After(s, run);
            && Inv(t) && t.history.order == s.history.order
            && |t.history.taken| + Bound(t.consumer) == |s.history.taken| + Bound(s.consumer)
    decreases |run|
  {
    if run != [] {
      InvStep(s, run[0]);
      StoppedStep(s, run[0]);
      StoppedRun(Apply(s, run[0]), run[1..]);
    }
  }

  /**
   A stop of the spinning queue runs every accepted item if and only if nothing is unserved when it
   comes, but for the one item the consumer is just taking.
   */
  lemma SpinningStopExactly(s: State, run: seq<Action>)
    requires Reachable(s) && s.kind.Spinning? && Quiet(s) && !s.cancelled
    requires Follows(Apply(s, Stop), run) && After(Apply(s, Stop), run).consumer.Ended?
    ensures var end := After(Apply(s, Stop), run);
            && |end.history.order| > 0
            && (end.history.ran == Accepted(end) <==> Unserved(s.history) == Bound(s.consumer))
  {
    ReachableInv(s);
    InvStep(s, Stop);
    StoppedRun(Apply(s, Stop), run);
    var end := After(Apply(s, Stop), run);
    RanAtTheEnd(end);
    assert s.history.dropped == [];
  }

  lemma RanAtTheEnd(s: State)
    requires QueueInv(s) && s.consumer.Ended?
    ensures |s.history.taken| < |s.history.order|
    ensures s.history.ran == Accepted(s) <==> |s.history.taken| + 1 == |s.history.order|
  {
    assert s.history.ran == s.history.order[1..|s.history.taken| + 1];
    if s.history.ran == Accepted(s) {
      assert |s.history.ran| == |s.history.order| - 1;
    }
  }

  // ----- the blocking queue can miss a late call, too

  /** A stopped blocking mailbox with one call. */
  function LateCall(call: Call, consumer: Consumer, signal: EventCount, links: Links, order: seq<nat>, bumps: nat): State {
    State(Blocking, links, signal, true, [Returned, call], consumer, History(order, [], [], [], bumps, false))
  }

  const AWAKE: EventCount := EventCount(0, 0, false, false, 0)
  const WAITING: EventCount := EventCount(0, 0, false, true, 0)

  /** The call has passed the token check; the consumer stands at c. */
  function Early(c: Consumer, signal: EventCount): State {
    LateCall(Admitted, c, signal, Links(0, 0, map[]), [0], 0)
  }

  lemma StopComesEarly()
    ensures Reachable(Early(Checking, AWAKE))
  {
    var s0 := Init(Blocking);
    var s1 := s0.(calls := [Returned, Admitted]);
    ReachableInit(Blocking);
    ReachableStep(s0, Start, s1);
    ReachableStep(s1, Stop, Early(Checking, AWAKE));
  }

  /** The consumer parks, finds itself stopped, and ends. */
  lemma ConsumerEndsFirst()
    ensures Reachable(Early(Ended, WAITING))
  {
    StopComesEarly();
    ReachableStep(Early(Checking, AWAKE), Consume, Early(Preparing, AWAKE));
    ReachableStep(Early(Preparing, AWAKE), Consume, Early(Announcing, AWAKE));
    ReachableStep(Early(Announcing, AWAKE), Consume, Early(Sampling, WAITING));
    ReachableStep(Early(Sampling, WAITING), Consume, Early(Rechecking, WAITING));
    ConsumerParks();
  }

  lemma ConsumerParks()
    requires Reachable(Early(Rechecking, WAITING))
    ensures Reachable(Early(Ended, WAITING))
  {
    ReachableStep(Early(Rechecking, WAITING), Consume, Early(Deciding, WAITING));
    ReachableStep(Early(Deciding, WAITING), Consume, Early(Parked, WAITING));
    assert Early(Parked, WAITING).calls[1].Inside();
    ReachableStep(Early(Parked, WAITING), Consume, Early(Draining(None), WAITING));
    ReachableStep(Early(Draining(None), WAITING), Consume, Early(Ended, WAITING));
  }

  /** The consumer has ended; the call stands at c. */
  function Ending(c: Call, signal: EventCount, bumps: nat): State {
    LateCall(c, Ended, signal, Links(1, 0, map[0 := 1]), [0, 1], bumps)
  }

  lemma CallLinksLate()
    ensures Reachable(Ending(Linked, WAITING, 0))
  {
    ConsumerEndsFirst();
    var swapped := LateCall(Swapped(0), Ended, WAITING, Links(1, 0, map[]), [0, 1], 0);
    ReachableStep(Early(Ended, WAITING), Proceed(1), swapped);
    ReachableStep(swapped, Proceed(1), Ending(Linked, WAITING, 0));
  }

  /** The item of that call is neither run nor cancelled, and the permit it releases wakes nobody. */
  lemma LateCallIsMissedWhenBlocking()
    ensures var end := Ending(Returned, EventCount(1, 0, false, false, 1), 1);
            Reachable(end) && AtRest(end) && Accepted(end) == [1]
  {
    CallLinksLate();
    var notified := EventCount(1, 0, false, false, 0);
    ReachableStep(Ending(Linked, WAITING, 0), Proceed(1), Ending(Notifying, WAITING, 0));
    ReachableStep(Ending(Notifying, WAITING, 0), Proceed(1), Ending(Releasing, notified, 1));
    ReachableStep(Ending(Releasing, notified, 1), Proceed(1), Ending(Returned, EventCount(1, 0, false, false, 1), 1));
  }
}
