/**
 What the mailbox and the fiber that owns it guarantee, for any number of calls and any
 interleaving of their steps with those of the consumer.
 */
module MailboxTheorems {
  import opened Common
  import opened Mailbox
  import opened MailboxInvariants

  predicate Distinct(items: seq<nat>) {
    forall i, j :: 0 <= i < j < |items| ==> items[i] != items[j]
  }

  /** The items accepted so far, in the order in which their calls exchanged _Head. */
  function Accepted(s: State): seq<nat>
    requires |s.history.order| > 0
  {
    s.history.order[1..]
  }

  // ----- order

  lemma Fifo(s: State)
    requires Reachable(s)
    ensures |s.history.order| > 0 && Distinct(Accepted(s))
    ensures s.history.taken <= Accepted(s)
    ensures s.history.taken == if s.consumer.Running? then s.history.ran + [s.consumer.item] else s.history.ran
    ensures forall p :: 0 < p < |s.calls| ==> (p in Accepted(s) <==> s.calls[p].Exchanged())
  {
    ReachableInv(s);
    forall p | 0 < p < |s.calls|
      ensures p in Accepted(s) <==> s.calls[p].Exchanged()
    {
      if s.calls[p].Exchanged() {
        var i :| 0 <= i < |s.history.order| && s.history.order[i] == p;
        assert Accepted(s)[i - 1] == p;
      }
    }
  }

  /** A gap in the list sits exactly behind a call between its exchange and its link. */
  lemma GapsAreUnlinkedCalls(s: State, i: nat)
    requires Reachable(s) && i < |s.history.order|
    ensures forall j :: 0 <= j < |s.history.order| ==> s.history.order[j] < |s.calls|
    ensures s.links.Following(s.history.order[i]).None? <==>
            i + 1 == |s.history.order| || s.calls[s.history.order[i + 1]].Swapped?
    ensures s.links.Following(s.history.order[i]).Some? ==>
              s.links.Following(s.history.order[i]).value == s.history.order[i + 1]
  {
    ReachableInv(s);
    FollowingIsNextInOrder(s.history.order, s.calls, s.links, i);
    if i + 1 < |s.history.order| {
      assert LinkedAt(s.history.order, s.calls, s.links.next, i + 1);
    }
  }

  /** The consumer never follows a null `Next`. */
  lemma TakesOnlyLinkedNodes(s: State)
    requires Reachable(s) && s.consumer.Taking?
    ensures s.links.TailLinked()
  {
    ReachableInv(s);
  }

  // ----- permits

  lemma PermitConservation(s: State)
    requires Reachable(s)
    ensures s.signal.permits + |Releasers(s.calls)| <= 1
    ensures forall p | 0 <= p < |s.calls| :: !s.calls[p].Faulted?
    ensures s.consumer.Pumping? ==> s.signal.permits + |Releasers(s.calls)| == 1
    ensures s.consumer.Deciding? ==> (s.signal.started == s.signal.epoch <==> s.history.bumps == 0)
  {
    ReachableInv(s);
    AtMostOnePermit(s);
  }

  lemma AtMostOnePermit(s: State)
    requires PermitInv(s) && KindShape(s)
    ensures s.signal.permits + |Releasers(s.calls)| <= 1
    ensures s.consumer.Pumping? ==> s.signal.permits + |Releasers(s.calls)| == 1
  {
    if s.kind.Spinning? {
      assert Releasers(s.calls) == {};
    }
  }

  // ----- wakeups

  lemma NoLostWakeup(s: State)
    requires Reachable(s) && AboutToPark(s.consumer) && s.links.TailLinked()
    ensures || s.signal.permits > 0
            || (exists p :: p in Releasers(s.calls))
            || (s.signal.inWait && exists p :: Undecided(s.calls, p))
  {
    ReachableInv(s);
    if !s.signal.inWait && s.signal.permits == 0 {
      assert |Releasers(s.calls)| == 1;
      var p :| p in Releasers(s.calls);
    }
  }

  // ----- progress

  /** Steps a call still has to make. */
  function StepsLeft(c: Call): nat {
    match c
    case Admitted => 5
    case Swapped(_) => 4
    case Linked => 3
    case Notifying => 2
    case Releasing => 1
    case _ => 0
  }

  function CallSteps(calls: seq<Call>): nat {
    if calls == [] then 0 else CallSteps(calls[..|calls| - 1]) + StepsLeft(calls[|calls| - 1])
  }

  lemma {:induction false} CallStepsAfterUpdate(calls: seq<Call>, p: nat, c: Call)
    requires p < |calls|
    ensures CallSteps(calls[p := c]) == CallSteps(calls) - StepsLeft(calls[p]) + StepsLeft(c)
  {
    var n := |calls| - 1;
    if p == n {
      assert calls[p := c][..n] == calls[..n];
    } else {
      CallStepsAfterUpdate(calls[..n], p, c);
      assert calls[p := c][..n] == calls[..n][p := c];
    }
  }

  /** How far the consumer is from its next blocking position. */
  function Rank(c: Consumer, spurious: bool): nat {
    match c
    case Running(_) => 25
    case Checking => 24
    case Awaiting => 24
    case Testing => 23
    case Preparing => if spurious then 12 else 20
    case Announcing => 19
    case Sampling => 18
    case Rechecking => 17
    case Deciding => 16
    case Retiring(_) => 15
    case Retreating(_) => 14
    case Locking(_) => 13
    case Pumping => 11
    case Parked => 10
    case Taking => 9
    case Draining(_) => 5
    case Ended => 0
  }

  function Unserved(h: History): nat {
    if |h.taken| + |h.dropped| < |h.order| then |h.order| - 1 - |h.taken| - |h.dropped| else 0
  }

  /** Falls with every step of a call or of the consumer. */
  function Variant(s: State): nat {
    1000 * CallSteps(s.calls)
    + 100 * Unserved(s.history)
    + Credit(s)
    + Rank(s.consumer, s.signal.spurious)
  }

  lemma CallStepMakesProgress(s: State, p: nat)
    requires p < |s.calls| && s.calls[p].Inside()
    ensures Variant(StepCall(s, p)) < Variant(s)
  {
    CallStepsAfterUpdate(s.calls, p, NextCall(s, s.calls[p]));
    assert StepsLeft(NextCall(s, s.calls[p])) < StepsLeft(s.calls[p]);
    assert Unserved(StepCall(s, p).history) <= Unserved(s.history) + 1;
    assert Credit(StepCall(s, p)) <= Credit(s) + 30;
  }

  /** Whether a consumer step settles, or starts to run, one more item. */
  predicate Serves(c: Consumer) {
    c.Taking? || (c.Draining? && c.node.Some?)
  }

  lemma ServingShrinksQueue(s: State)
    requires QueueInv(s) && ConsumerEnabled(s)
    ensures Unserved(StepConsumer(s).history) == Unserved(s.history) - (if Serves(s.consumer) then 1 else 0)
  {
    var h := s.history;
    FollowingIsNextInOrder(h.order, s.calls, s.links, |h.taken|);
  }

  /** Credit for a permit that the consumer will come to spend. */
  function Credit(s: State): nat {
    if s.kind.Blocking? && Owed(s.signal, s.consumer) then 30 else 0
  }

  lemma OtherStepsLowerRank(s: State)
    requires FlagShape(s.signal, s.consumer) && EpochShape(s.signal, s.consumer, s.history.bumps)
    requires KindShape(s) && ConsumerEnabled(s) && !Serves(s.consumer)
    requires s.consumer.Parked? && s.signal.permits > 0 ==> !s.signal.inWait
    ensures Credit(StepConsumer(s)) + Rank(StepConsumer(s).consumer, StepConsumer(s).signal.spurious)
            < Credit(s) + Rank(s.consumer, s.signal.spurious)
  {
  }

  lemma ConsumerStepMakesProgress(s: State)
    requires Inv(s) && ConsumerEnabled(s)
    ensures Variant(StepConsumer(s)) < Variant(s)
  {
    ServingShrinksQueue(s);
    assert StepConsumer(s).calls == s.calls;
    if Serves(s.consumer) {
      ServingRaisesRankLittle(s);
    } else {
      OtherStepsLowerRank(s);
    }
  }

  lemma ServingRaisesRankLittle(s: State)
    requires ConsumerEnabled(s) && Serves(s.consumer)
    ensures Credit(StepConsumer(s)) + Rank(StepConsumer(s).consumer, StepConsumer(s).signal.spurious)
            < 100 + Credit(s) + Rank(s.consumer, s.signal.spurious)
  {
  }

  predicate Internal(a: Action) {
    a.Proceed? || a.Consume?
  }

  function Count(run: seq<Action>, internal: bool): nat {
    if run == [] then 0
    else (if (if internal then Internal(run[0]) else run[0].Start?) then 1 else 0) + Count(run[1..], internal)
  }

  /** A call that starts brings its work; every other step of a thread does some. */
  lemma StepBound(s: State, a: Action)
    requires Inv(s) && Enabled(s, a)
    ensures Variant(Apply(s, a)) + (if Internal(a) then 1 else 0) <= Variant(s) + (if a.Start? then 5000 else 0)
  {
    match a
    case Start =>
      var c := if s.cancelled then Rejected else Admitted;
      assert (s.calls + [c])[..|s.calls|] == s.calls;
    case Stop =>
    case Proceed(p) => CallStepMakesProgress(s, p);
    case Consume => ConsumerStepMakesProgress(s);
  }

  /**
   Whatever the interleaving, the work done by calls and consumer together is bounded by the
   number of calls: no livelock, no spurious wakeup that feeds on itself.
   */
  lemma {:induction false} WorkIsBounded(s: State, run: seq<Action>)
    requires Inv(s) && Follows(s, run)
    ensures Count(run, true) + Variant(After(s, run)) <= Variant(s) + 5000 * Count(run, false)
    decreases |run|
  {
    if run != [] {
      InvStep(s, run[0]);
      StepBound(s, run[0]);
      WorkIsBounded(Apply(s, run[0]), run[1..]);
    }
  }

  /** No call and no consumer can move. */
  predicate AtRest(s: State) {
    Quiet(s) && !ConsumerEnabled(s)
  }

  /** A mailbox at rest has handed over, and finished, every accepted item, unless it was stopped. */
  lemma AtRestEverythingRan(s: State)
    requires Reachable(s) && AtRest(s)
    ensures |s.history.order| > 0
    ensures s.consumer.Ended? || s.history.ran == Accepted(s)
    ensures s.consumer.Parked? || s.consumer.Awaiting? || s.consumer.Ended?
  {
    ReachableInv(s);
    if !s.consumer.Ended? {
      assert Releasers(s.calls) == {};
      assert !s.links.TailLinked();
      QuietLinksAll(s, |s.history.taken|);
      assert s.history.taken == Accepted(s);
    }
  }

  // ----- stopping

  /** The step by which the consumer leaves its loop hands nothing to the drain when nobody is inside Enqueue. */
  lemma QuietExitLeavesNothing(s: State)
    requires Reachable(s) && s.kind.Blocking? && Leaves(s) && Quiet(s)
    ensures |s.history.order| > 0 && s.history.ran == Accepted(s)
    ensures s.links.Following(s.links.tail).None?
  {
    ReachableInv(s);
    assert Releasers(s.calls) == {};
    QuietLinksAll(s, |s.history.taken|);
    assert s.history.taken == Accepted(s);
  }

  lemma {:induction false} RanNeverShrinks(s: State, run: seq<Action>)
    requires Inv(s) && s.history.quiet && s.consumer == Draining(None) && Follows(s, run)
    ensures After(s, run).history.dropped == s.history.dropped
    ensures After(s, run).history.ran == s.history.ran
    ensures After(s, run).history.order == s.history.order
    decreases |run|
  {
    if run != [] {
      InvStep(s, run[0]);
      if run[0].Consume? {
        EndedIsFinal(Apply(s, run[0]), run[1..]);
      } else {
        RanNeverShrinks(Apply(s, run[0]), run[1..]);
      }
    }
  }

  lemma {:induction false} EndedIsFinal(s: State, run: seq<Action>)
    requires Inv(s) && s.history.quiet && s.consumer.Ended? && Follows(s, run)
    ensures After(s, run).history.dropped == s.history.dropped
    ensures After(s, run).history.ran == s.history.ran
    ensures After(s, run).history.order == s.history.order
    decreases |run|
  {
    if run != [] {
      InvStep(s, run[0]);
      EndedIsFinal(Apply(s, run[0]), run[1..]);
    }
  }

  /** Graceful stop: from a quiet exit on, every item ever accepted has run and none is ever cancelled. */
  lemma GracefulStop(s: State, run: seq<Action>)
    requires Reachable(s) && s.kind.Blocking? && Leaves(s) && Quiet(s)
    requires Follows(StepConsumer(s), run)
    ensures var end := After(StepConsumer(s), run);
            |end.history.order| > 0 && end.history.ran == Accepted(end) && end.history.dropped == []
  {
    ReachableInv(s);
    QuietExitLeavesNothing(s);
    InvStep(s, Consume);
    RanNeverShrinks(StepConsumer(s), run);
  }

  /** A spinning mailbox of which one call has returned. */
  function OneItemSpinning(consumer: Consumer, cancelled: bool, dropped: seq<nat>, quiet: bool): State {
    State(Spinning, Links(1, 0, map[0 := 1]), EventCount(0, 0, false, false, 0), cancelled,
          [Returned, Returned], consumer, History([0, 1], [], [], dropped, 0, quiet))
  }

  lemma OneItemWaits()
    ensures Reachable(OneItemSpinning(Awaiting, false, [], false))
  {
    var s0 := Init(Spinning);
    var s1 := s0.(calls := [Returned, Admitted]);
    var s2 := s1.(links := Links(1, 0, map[]), calls := [Returned, Swapped(0)], history := s0.history.(order := [0, 1]));
    ReachableInit(Spinning);
    ReachableStep(s0, Start, s1);
    ReachableStep(s1, Proceed(1), s2);
    ReachableStep(s2, Proceed(1), OneItemSpinning(Awaiting, false, [], false));
  }

  /** The spinning queue stops at once: an item accepted by a returned call is cancelled, not run. */
  lemma SpinningStopCancels()
    ensures Reachable(OneItemSpinning(Ended, true, [1], true))
  {
    OneItemWaits();
    ReachableStep(OneItemSpinning(Awaiting, false, [], false), Stop, OneItemSpinning(Awaiting, true, [], false));
    ReachableStep(OneItemSpinning(Awaiting, true, [], false), Consume, OneItemSpinning(Testing, true, [], false));
    ReachableStep(OneItemSpinning(Testing, true, [], false), Consume, OneItemSpinning(Draining(Some(1)), true, [], true));
    ReachableStep(OneItemSpinning(Draining(Some(1)), true, [], true), Consume, OneItemSpinning(Draining(None), true, [1], true));
    ReachableStep(OneItemSpinning(Draining(None), true, [1], true), Consume, OneItemSpinning(Ended, true, [1], true));
  }

  // ----- the fiber

  /**
   When the consumer left with nobody inside Enqueue, the end of the fiber finds every accepted
   item settled once: a prefix of the accepted items ran, one after the other, and the drain
   cancelled exactly the rest, in order. Holds for both queues.
   */
  lemma EachItemOnce(s: State)
    requires Reachable(s) && s.consumer.Ended? && s.history.quiet
    ensures |s.history.order| > 0
    ensures s.history.ran + s.history.dropped == Accepted(s)
    ensures forall p :: 0 < p < |s.calls| && s.calls[p].Exchanged() ==>
              (p in s.history.ran <==> p !in s.history.dropped)
  {
    Fifo(s);
    EndedHasAll(s);
    var h := s.history;
    forall p | 0 < p < |s.calls| && s.calls[p].Exchanged()
      ensures p in h.ran <==> p !in h.dropped
    {
      InOnePart(h.ran, h.dropped, p);
    }
  }

  lemma EndedHasAll(s: State)
    requires Reachable(s) && s.consumer.Ended? && s.history.quiet
    ensures |s.history.order| > 0 && s.history.ran + s.history.dropped == Accepted(s)
  {
    ReachableInv(s);
  }

  lemma InOnePart(a: seq<nat>, b: seq<nat>, p: nat)
    requires Distinct(a + b) && p in a + b
    ensures p in a <==> p !in b
  {
    forall i, j | 0 <= i < |a| && 0 <= j < |b| ensures a[i] != b[j] {
      assert (a + b)[i] == a[i] && (a + b)[|a| + j] == b[j];
    }
  }

  /** Without that hypothesis a call can slip past the drain: accepted, never run, never cancelled. */
  lemma LateCallIsMissed()
    ensures Reachable(OneItemSpinning(Ended, true, [], false))
    ensures AtRest(OneItemSpinning(Ended, true, [], false))
  {
    SpinningEndsFirst();
    var swapped := State(Spinning, Links(1, 0, map[]), EventCount(0, 0, false, false, 0), true, [Returned, Swapped(0)], Ended,
                         History([0, 1], [], [], [], 0, false));
    ReachableStep(StoppedEarly(Ended), Proceed(1), swapped);
    ReachableStep(swapped, Proceed(1), OneItemSpinning(Ended, true, [], false));
  }

  /** Stopped, with one call past the token check and nothing exchanged. */
  function StoppedEarly(c: Consumer): State {
    State(Spinning, Links(0, 0, map[]), EventCount(0, 0, false, false, 0), true, [Returned, Admitted], c,
          History([0], [], [], [], 0, false))
  }

  lemma SpinningEndsFirst()
    ensures Reachable(StoppedEarly(Ended))
  {
    var s0 := Init(Spinning);
    var s1 := s0.(calls := [Returned, Admitted]);
    ReachableInit(Spinning);
    ReachableStep(s0, Start, s1);
    ReachableStep(s1, Stop, StoppedEarly(Awaiting));
    ReachableStep(StoppedEarly(Awaiting), Consume, StoppedEarly(Testing));
    assert StoppedEarly(Testing).calls[1].Inside();
    ReachableStep(StoppedEarly(Testing), Consume, StoppedEarly(Draining(None)));
    ReachableStep(StoppedEarly(Draining(None)), Consume, StoppedEarly(Ended));
  }
}
