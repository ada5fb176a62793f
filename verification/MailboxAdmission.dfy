/**
 Which calls are accepted: all that look at the token before the stop, and no other.
 */
module MailboxAdmission {
  import opened Common
  import opened Mailbox
  import opened MailboxInvariants
  import opened MailboxTheorems

  // ----- the token

  /** The token is cancelled by a stop, and by nothing else. */
  lemma {:induction false} CancelledByStop(s: State, run: seq<Action>)
    requires Follows(s, run)
    ensures After(s, run).cancelled <==> s.cancelled || Stop in run
    decreases |run|
  {
    if run != [] {
      CancelledByStop(Apply(s, run[0]), run[1..]);
      assert run == [run[0]] + run[1..];
    }
  }

  // ----- what becomes of a call

  /** A call stays refused, or stays accepted. */
  lemma {:induction false} FateIsFixed(s: State, run: seq<Action>, p: nat)
    requires Follows(s, run) && p < |s.calls|
    ensures |s.calls| <= |After(s, run).calls|
    ensures After(s, run).calls[p].Rejected? <==> s.calls[p].Rejected?
    decreases |run|
  {
    if run != [] {
      FateIsFixed(Apply(s, run[0]), run[1..], p);
    }
  }

  /** A call is refused, for good, if and only if the token was cancelled when it started. */
  lemma RefusedExactly(s: State, run: seq<Action>)
    requires Follows(Apply(s, Start), run)
    ensures |s.calls| < |After(Apply(s, Start), run).calls|
    ensures After(Apply(s, Start), run).calls[|s.calls|].Rejected? <==> s.cancelled
  {
    FateIsFixed(Apply(s, Start), run, |s.calls|);
  }

  predicate NoneRefused(s: State) {
    forall p :: 0 <= p < |s.calls| ==> !s.calls[p].Rejected?
  }

  lemma {:induction false} NoneRefusedRun(s: State, run: seq<Action>)
    requires Follows(s, run) && NoneRefused(s) && !After(s, run).cancelled
    ensures NoneRefused(After(s, run))
    decreases |run|
  {
    if run != [] {
      CancelledByStop(s, run);
      NoneRefusedRun(Apply(s, run[0]), run[1..]);
    }
  }

  /** As long as nobody has stopped the fiber, no call is refused. */
  lemma NobodyIsRefused(s: State)
    requires Reachable(s) && !s.cancelled
    ensures NoneRefused(s)
  {
    var run :| Follows(Init(s.kind), run) && After(Init(s.kind), run) == s;
    NoneRefusedRun(Init(s.kind), run);
  }

  /** A mailbox nobody has stopped, at rest, has run the item of every call ever made. */
  lemma AtRestEveryCallRan(s: State, p: nat)
    requires Reachable(s) && !s.cancelled && AtRest(s) && 0 < p < |s.calls|
    ensures p in s.history.ran
  {
    NobodyIsRefused(s);
    AtRestEverythingRan(s);
    Fifo(s);
    ReachableInv(s);
    assert s.calls[p].Exchanged();
  }

  /** A call that starts after the stop never exchanges _Head. */
  lemma LateCallIsRefused(s: State, run: seq<Action>)
    requires Reachable(s) && s.cancelled && Follows(Apply(s, Start), run)
    ensures var end := After(Apply(s, Start), run);
            && |s.calls| < |end.calls| && !end.calls[|s.calls|].Exchanged() && !end.calls[|s.calls|].Inside()
            && |s.calls| !in end.history.order
  {
    RefusedExactly(s, run);
    ReachableInv(s);
    InvStep(s, Start);
    InvRun(Apply(s, Start), run);
  }

  /** A call that starts before the stop has its item accepted, once it has returned. */
  lemma EarlyCallIsAccepted(s: State, run: seq<Action>)
    requires Reachable(s) && !s.cancelled && Follows(Apply(s, Start), run)
    requires |s.calls| < |After(Apply(s, Start), run).calls| && !After(Apply(s, Start), run).calls[|s.calls|].Inside()
    ensures |s.calls| in After(Apply(s, Start), run).history.order
  {
    RefusedExactly(s, run);
    ReachableInv(s);
    InvStep(s, Start);
    InvRun(Apply(s, Start), run);
  }

  // ----- the end

  /** A stopped mailbox at rest has ended, and one that has ended was stopped. */
  lemma StoppedAtRestHasEnded(s: State)
    requires Reachable(s)
    ensures s.consumer.Ended? ==> s.cancelled
    ensures AtRest(s) && s.cancelled ==> s.consumer.Ended?
  {
    ReachableInv(s);
    if AtRest(s) {
      AtRestEverythingRan(s);
    }
  }

  // ----- who can move

  /**
   A call can be started at any time, and a stop asked for; a call inside Enqueue never waits; and
   the consumer waits in three places only, for a permit, a permit or the token, an item or the token.
   */
  lemma OnlyTheConsumerWaits(s: State)
    ensures Enabled(s, Start) && Enabled(s, Stop)
    ensures forall p: nat :: p < |s.calls| && s.calls[p].Inside() ==> Enabled(s, Proceed(p))
    ensures !Enabled(s, Consume) <==>
            || s.consumer.Ended?
            || (s.consumer.Pumping? && s.signal.permits == 0)
            || (s.consumer.Parked? && s.signal.permits == 0 && !s.cancelled)
            || (s.consumer.Awaiting? && s.links.tail !in s.links.next && !s.cancelled)
  {
  }

  /** An item that is linked when the consumer comes for the next one is taken without touching the event count. */
  lemma LinkedItemIsTakenAtOnce(s: State)
    requires Reachable(s) && s.consumer.Checking? && s.links.tail in s.links.next
    ensures var t := StepConsumer(s);
            && t.consumer.Taking? && t.signal == s.signal
            && StepConsumer(t).consumer == Running(s.links.next[s.links.tail]) && StepConsumer(t).signal == s.signal
            && StepConsumer(t).links.tail == s.links.next[s.links.tail]
  {
  }
}
