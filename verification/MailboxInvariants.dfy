/**
 What every step of the mailbox keeps: the shape of the linked queue, the account of permits,
 and the absence of lost wakeups.
 */
module MailboxInvariants {
  import opened Common
  import opened Mailbox

  // ----- the linked queue

  /** The exchanges so far: each exchanged call once, in a sequence that ends at _Head. */
  ghost predicate OrderShape(order: seq<nat>, calls: seq<Call>, head: nat) {
    && |calls| > 0 && calls[0] == Returned
    && |order| > 0 && order[0] == 0 && head == order[|order| - 1]
    && (forall i :: 0 <= i < |order| ==> order[i] < |calls| && calls[order[i]].Exchanged())
    && (forall i, j :: 0 <= i < j < |order| ==> order[i] != order[j])
    && (forall p :: 0 <= p < |calls| && calls[p].Exchanged() ==> p in order)
  }

  /** The i-th node is linked from its predecessor unless its call stands between exchange and link. */
  predicate LinkedAt(order: seq<nat>, calls: seq<Call>, next: map<nat, nat>, i: nat)
    requires 0 < i < |order| && order[i] < |calls|
  {
    if calls[order[i]].Swapped? then
      calls[order[i]].prev == order[i - 1] && order[i - 1] !in next
    else
      order[i - 1] in next && next[order[i - 1]] == order[i]
  }

  ghost predicate LinkShape(order: seq<nat>, calls: seq<Call>, l: Links)
    requires OrderShape(order, calls, l.head)
  {
    && (forall i :: 0 < i < |order| ==> LinkedAt(order, calls, l.next, i))
    && (forall n :: n in l.next ==> n in order && n != l.head)
  }

  ghost predicate TakenShape(h: History, tail: nat, c: Consumer) {
    && |h.taken| < |h.order| && tail == h.order[|h.taken|]
    && h.taken == h.order[1..|h.taken| + 1]
    && h.taken == if c.Running? then h.ran + [c.item] else h.ran
  }

  /** The drain walks on from where the loop stopped. */
  ghost predicate DropShape(h: History, c: Consumer) {
    && |h.taken| + |h.dropped| < |h.order|
    && h.dropped == h.order[|h.taken| + 1..|h.taken| + |h.dropped| + 1]
    && (!c.Draining? && !c.Ended? ==> h.dropped == [])
    && (c.Draining? && c.node.Some? ==>
          |h.taken| + |h.dropped| + 1 < |h.order| && c.node.value == h.order[|h.taken| + |h.dropped| + 1])
  }

  /** Positions at which the consumer relies on `_Tail.Next` being there. */
  predicate NeedsItem(c: Consumer) {
    c.Taking? || ((c.Retiring? || c.Retreating? || c.Locking?) && c.found)
  }

  predicate TakeShape(s: State) {
    && (NeedsItem(s.consumer) ==> s.links.TailLinked())
    && (s.consumer.Testing? ==> s.links.TailLinked() || s.cancelled)
  }

  predicate KindShape(s: State) {
    match s.consumer
    case Awaiting => s.kind.Spinning?
    case Testing => s.kind.Spinning?
    case Taking => true
    case Running(_) => true
    case Draining(_) => s.cancelled
    case Ended => s.cancelled
    case _ => s.kind.Blocking?
  }

  ghost predicate QueueInv(s: State) {
    && OrderShape(s.history.order, s.calls, s.links.head)
    && LinkShape(s.history.order, s.calls, s.links)
    && TakenShape(s.history, s.links.tail, s.consumer)
    && DropShape(s.history, s.consumer)
    && TakeShape(s) && KindShape(s)
  }

  lemma ExchangeKeepsOrder(order: seq<nat>, calls: seq<Call>, head: nat, p: nat)
    requires OrderShape(order, calls, head) && p < |calls| && calls[p].Admitted?
    ensures OrderShape(order + [p], calls[p := Swapped(head)], p)
  {
    var order' := order + [p];
    assert forall q :: q in order ==> q in order';
    assert order'[|order|] == p;
  }

  lemma ExchangeKeepsLinks(order: seq<nat>, calls: seq<Call>, l: Links, p: nat)
    requires OrderShape(order, calls, l.head) && LinkShape(order, calls, l) && p < |calls| && calls[p].Admitted?
    requires OrderShape(order + [p], calls[p := Swapped(l.head)], p)
    ensures LinkShape(order + [p], calls[p := Swapped(l.head)], l.(head := p))
  {
    var order', calls' := order + [p], calls[p := Swapped(l.head)];
    forall i | 0 < i < |order'|
      ensures LinkedAt(order', calls', l.next, i)
    {
      if i < |order| {
        assert LinkedAt(order, calls, l.next, i);
      }
    }
    assert forall n :: n in l.next ==> n in order' && n != p;
  }

  /** A call that moves on without exchanging leaves the order alone. */
  lemma MoveKeepsOrder(order: seq<nat>, calls: seq<Call>, head: nat, p: nat, c: Call)
    requires OrderShape(order, calls, head) && 0 < p < |calls| && calls[p].Exchanged() && c.Exchanged()
    ensures OrderShape(order, calls[p := c], head)
  {
  }

  lemma LinkKeepsLinks(order: seq<nat>, calls: seq<Call>, l: Links, p: nat, c: Call)
    requires OrderShape(order, calls, l.head) && LinkShape(order, calls, l) && p < |calls| && calls[p].Swapped?
    requires c.Exchanged() && !c.Swapped? && OrderShape(order, calls[p := c], l.head)
    ensures LinkShape(order, calls[p := c], l.(next := l.next[calls[p].prev := p]))
    ensures calls[p].prev !in l.next
  {
    var calls', next' := calls[p := c], l.next[calls[p].prev := p];
    var k :| 0 <= k < |order| && order[k] == p;
    assert LinkedAt(order, calls, l.next, k);
    forall i | 0 < i < |order|
      ensures LinkedAt(order, calls', next', i)
    {
      assert LinkedAt(order, calls, l.next, i);
      if i != k {
        assert order[i] != p && order[i - 1] != order[k - 1];
      }
    }
    assert order[k - 1] != order[|order| - 1];
  }

  lemma MoveKeepsLinks(order: seq<nat>, calls: seq<Call>, l: Links, p: nat, c: Call)
    requires OrderShape(order, calls, l.head) && LinkShape(order, calls, l)
    requires p < |calls| && calls[p].Exchanged() && !calls[p].Swapped?
    requires c.Exchanged() && !c.Swapped? && OrderShape(order, calls[p := c], l.head)
    ensures LinkShape(order, calls[p := c], l)
  {
    var calls' := calls[p := c];
    forall i | 0 < i < |order|
      ensures LinkedAt(order, calls', l.next, i)
    {
      assert LinkedAt(order, calls, l.next, i);
    }
  }

  lemma StartKeepsLinks(order: seq<nat>, calls: seq<Call>, l: Links, c: Call)
    requires OrderShape(order, calls, l.head) && LinkShape(order, calls, l) && (c.Rejected? || c.Admitted?)
    ensures OrderShape(order, calls + [c], l.head) && LinkShape(order, calls + [c], l)
  {
    var calls' := calls + [c];
    forall i | 0 < i < |order|
      ensures LinkedAt(order, calls', l.next, i)
    {
      assert LinkedAt(order, calls, l.next, i);
    }
  }

  lemma CallKeepsOrderAndLinks(s: State, p: nat)
    requires OrderShape(s.history.order, s.calls, s.links.head) && LinkShape(s.history.order, s.calls, s.links)
    requires p < |s.calls| && s.calls[p].Inside()
    ensures OrderShape(StepCall(s, p).history.order, StepCall(s, p).calls, StepCall(s, p).links.head)
    ensures LinkShape(StepCall(s, p).history.order, StepCall(s, p).calls, StepCall(s, p).links)
    ensures s.links.TailLinked() ==> StepCall(s, p).links.TailLinked()
  {
    var c, order := s.calls[p], s.history.order;
    if c.Admitted? {
      ExchangeKeepsOrder(order, s.calls, s.links.head, p);
      ExchangeKeepsLinks(order, s.calls, s.links, p);
    } else {
      MoveKeepsOrder(order, s.calls, s.links.head, p, NextCall(s, c));
      if c.Swapped? {
        LinkKeepsLinks(order, s.calls, s.links, p, NextCall(s, c));
      } else {
        MoveKeepsLinks(order, s.calls, s.links, p, NextCall(s, c));
      }
    }
  }

  lemma CallKeepsProgress(s: State, p: nat)
    requires TakenShape(s.history, s.links.tail, s.consumer) && DropShape(s.history, s.consumer)
    requires p < |s.calls| && s.calls[p].Inside()
    ensures TakenShape(StepCall(s, p).history, s.links.tail, s.consumer) && DropShape(StepCall(s, p).history, s.consumer)
  {
    OrderMayGrow(s.history, StepCall(s, p).history, s.links.tail, s.consumer);
  }

  lemma OrderMayGrow(h: History, h': History, tail: nat, c: Consumer)
    requires TakenShape(h, tail, c) && DropShape(h, c)
    requires h'.taken == h.taken && h'.ran == h.ran && h'.dropped == h.dropped && h.order <= h'.order
    ensures TakenShape(h', tail, c) && DropShape(h', c)
  {
    var n := |h.order|;
    assert h'.order[..n] == h.order;
    assert h'.order[1..|h.taken| + 1] == h.order[1..|h.taken| + 1];
    var i, j := |h.taken| + 1, |h.taken| + |h.dropped| + 1;
    assert h'.order[i..j] == h.order[i..j];
  }

  lemma FollowingIsNextInOrder(order: seq<nat>, calls: seq<Call>, l: Links, i: nat)
    requires OrderShape(order, calls, l.head) && LinkShape(order, calls, l) && i < |order|
    ensures l.Following(order[i]).Some? ==> i + 1 < |order| && l.Following(order[i]).value == order[i + 1]
  {
    if order[i] in l.next {
      assert LinkedAt(order, calls, l.next, i + 1);
    }
  }

  lemma ConsumerKeepsTaken(s: State)
    requires QueueInv(s) && ConsumerEnabled(s)
    ensures TakenShape(StepConsumer(s).history, StepConsumer(s).links.tail, StepConsumer(s).consumer)
  {
    var h := s.history;
    if s.consumer.Taking? && s.links.TailLinked() {
      FollowingIsNextInOrder(h.order, s.calls, s.links, |h.taken|);
      TakeOne(h, s.links.tail, h.order[|h.taken| + 1]);
    }
  }

  lemma TakeOne(h: History, tail: nat, item: nat)
    requires TakenShape(h, tail, Taking) && |h.taken| + 1 < |h.order| && item == h.order[|h.taken| + 1]
    ensures TakenShape(h.(taken := h.taken + [item]), item, Running(item))
  {
    OneMoreDropped(h.order, 1, |h.taken| + 1, h.taken);
  }

  lemma DrainKeepsDropped(h: History, node: nat, following: Option<nat>)
    requires DropShape(h, Draining(Some(node)))
    requires following.Some? ==>
               |h.taken| + |h.dropped| + 2 < |h.order| && following.value == h.order[|h.taken| + |h.dropped| + 2]
    ensures DropShape(h.(dropped := h.dropped + [node]), Draining(following))
  {
    OneMoreDropped(h.order, |h.taken| + 1, |h.taken| + |h.dropped| + 1, h.dropped);
  }

  /** Until the drain starts nothing is dropped, and it starts behind the last item taken. */
  lemma LoopKeepsDropped(s: State)
    requires QueueInv(s) && ConsumerEnabled(s) && !s.consumer.Draining?
    ensures DropShape(StepConsumer(s).history, StepConsumer(s).consumer)
  {
    var h, t := s.history, StepConsumer(s);
    FollowingIsNextInOrder(h.order, s.calls, s.links, |h.taken|);
    assert t.history.order == h.order && t.history.dropped == h.dropped;
    assert !s.consumer.Ended? ==> h.dropped == [];
  }

  lemma ConsumerKeepsDropped(s: State)
    requires QueueInv(s) && ConsumerEnabled(s)
    ensures DropShape(StepConsumer(s).history, StepConsumer(s).consumer)
  {
    if !s.consumer.Draining? {
      LoopKeepsDropped(s);
    } else if s.consumer.node.Some? {
      DrainStepKeepsDropped(s, s.consumer.node.value);
    }
  }

  lemma DrainStepKeepsDropped(s: State, node: nat)
    requires OrderShape(s.history.order, s.calls, s.links.head) && LinkShape(s.history.order, s.calls, s.links)
    requires DropShape(s.history, s.consumer) && s.consumer == Draining(Some(node))
    ensures DropShape(StepConsumer(s).history, StepConsumer(s).consumer)
  {
    var h := s.history;
    FollowingIsNextInOrder(h.order, s.calls, s.links, |h.taken| + |h.dropped| + 1);
    DrainKeepsDropped(h, node, s.links.Following(node));
  }

  lemma OneMoreDropped(order: seq<nat>, from: nat, to: nat, dropped: seq<nat>)
    requires from <= to < |order| && dropped == order[from..to]
    ensures dropped + [order[to]] == order[from..to + 1]
  {
  }

  lemma ConsumerKeepsControl(s: State)
    requires TakeShape(s) && KindShape(s) && ConsumerEnabled(s)
    ensures TakeShape(StepConsumer(s)) && KindShape(StepConsumer(s))
  {
  }

  lemma ConsumerKeepsQueue(s: State)
    requires QueueInv(s) && ConsumerEnabled(s)
    ensures QueueInv(StepConsumer(s))
  {
    ConsumerKeepsTaken(s);
    ConsumerKeepsDropped(s);
    ConsumerKeepsControl(s);
    ConsumerKeepsList(s);
  }

  lemma ConsumerKeepsList(s: State)
    requires OrderShape(s.history.order, s.calls, s.links.head) && LinkShape(s.history.order, s.calls, s.links)
    requires ConsumerEnabled(s)
    ensures var t := StepConsumer(s);
            OrderShape(t.history.order, t.calls, t.links.head) && LinkShape(t.history.order, t.calls, t.links)
  {
    var l, t := s.links, StepConsumer(s);
    assert t.links.head == l.head && t.links.next == l.next && t.calls == s.calls;
    assert t.history.order == s.history.order;
  }

  lemma CallKeepsQueue(s: State, p: nat)
    requires QueueInv(s) && p < |s.calls| && s.calls[p].Inside()
    ensures QueueInv(StepCall(s, p))
  {
    CallKeepsOrderAndLinks(s, p);
    CallKeepsProgress(s, p);
    var t := StepCall(s, p);
    assert t.links.tail == s.links.tail && t.consumer == s.consumer && t.kind == s.kind;
  }

  lemma QueueInvStep(s: State, a: Action)
    requires QueueInv(s) && Enabled(s, a)
    ensures QueueInv(Apply(s, a))
  {
    match a
    case Start => StartKeepsLinks(s.history.order, s.calls, s.links, if s.cancelled then Rejected else Admitted);
    case Stop =>
    case Proceed(p) => CallKeepsQueue(s, p);
    case Consume => ConsumerKeepsQueue(s);
  }

  // ----- the account of permits

  /** The calls that owe the semaphore a release. */
  ghost function Releasers(calls: seq<Call>): set<nat> {
    set p | 0 <= p < |calls| && calls[p].Releasing?
  }

  lemma ReleasersAfterUpdate(calls: seq<Call>, p: nat, c: Call)
    requires p < |calls|
    ensures |Releasers(calls[p := c])| ==
            |Releasers(calls)| - (if calls[p].Releasing? then 1 else 0) + (if c.Releasing? then 1 else 0)
  {
    var rest := Releasers(calls) - {p};
    assert Releasers(calls) == if calls[p].Releasing? then rest + {p} else rest;
    assert Releasers(calls[p := c]) == if c.Releasing? then rest + {p} else rest;
  }

  lemma ReleasersAfterStart(calls: seq<Call>, c: Call)
    requires !c.Releasing?
    ensures Releasers(calls + [c]) == Releasers(calls)
  {
  }

  /** Between setting `_InWait` and the end of the cycle, only these positions may see it true. */
  predicate InCycle(c: Consumer) {
    c.Sampling? || c.Rechecking? || c.Deciding? || c.Parked? || c.Retiring? || c.Retreating? || c.Locking?
  }

  /** Whether the semaphore holds, or is about to receive, one permit. */
  predicate Owed(e: EventCount, c: Consumer) {
    if c.Pumping? then true
    else if InCycle(c) || c.Draining? || c.Ended? then !e.inWait
    else e.spurious
  }

  /** Permits held plus releases in flight. */
  ghost predicate Account(s: State) {
    s.kind.Blocking? ==>
      s.signal.permits + |Releasers(s.calls)| == if Owed(s.signal, s.consumer) then 1 else 0
  }

  /** Which position goes with which flags. */
  predicate FlagShape(e: EventCount, c: Consumer) {
    && (e.inWait ==> InCycle(c) || c.Draining? || c.Ended?)
    && (e.spurious && (InCycle(c) || c.Pumping? || c.Announcing?) ==> c.Retreating? || c.Locking?)
    && (c.Retreating? || c.Locking? ==> e.spurious)
  }

  /** Retiring because the epoch moved, not because an item was found. */
  predicate GivingUp(c: Consumer) {
    (c.Retiring? || c.Retreating? || c.Locking?) && !c.found
  }

  /** The epoch moves at most once per open cycle, so the wrapping comparison is exact. */
  predicate EpochShape(e: EventCount, c: Consumer, bumps: nat) {
    && e.epoch < EPOCHS && e.started < EPOCHS
    && (InCycle(c) && !c.Sampling? ==>
          && bumps <= 1
          && e.epoch == (e.started + bumps) % EPOCHS
          && (e.inWait ==> bumps == 0))
    && (GivingUp(c) ==> !e.inWait)
  }

  /** The spinning queue touches the event count nowhere. */
  predicate SpinShape(s: State) {
    s.kind.Spinning? ==>
      && !s.signal.spurious && !s.signal.inWait && s.signal.permits == 0
      && forall q | 0 <= q < |s.calls| :: !s.calls[q].Linked? && !s.calls[q].Notifying? && !s.calls[q].Releasing?
  }

  predicate NoFault(calls: seq<Call>) {
    forall q | 0 <= q < |calls| :: !calls[q].Faulted?
  }

  ghost predicate PermitInv(s: State) {
    && FlagShape(s.signal, s.consumer)
    && EpochShape(s.signal, s.consumer, s.history.bumps)
    && SpinShape(s) && NoFault(s.calls) && Account(s)
  }

  lemma ConsumerKeepsFlags(s: State)
    requires FlagShape(s.signal, s.consumer) && EpochShape(s.signal, s.consumer, s.history.bumps)
    requires ConsumerEnabled(s)
    requires s.consumer.Parked? && s.signal.permits > 0 ==> !s.signal.inWait
    ensures FlagShape(StepConsumer(s).signal, StepConsumer(s).consumer)
    ensures EpochShape(StepConsumer(s).signal, StepConsumer(s).consumer, StepConsumer(s).history.bumps)
  {
  }

  lemma ConsumerKeepsAccount(s: State)
    requires Account(s) && FlagShape(s.signal, s.consumer) && KindShape(s) && ConsumerEnabled(s)
    ensures Account(StepConsumer(s))
  {
  }

  lemma CallKeepsFlags(s: State, p: nat)
    requires FlagShape(s.signal, s.consumer) && EpochShape(s.signal, s.consumer, s.history.bumps)
    requires p < |s.calls| && s.calls[p].Inside()
    ensures FlagShape(StepCall(s, p).signal, s.consumer)
    ensures EpochShape(StepCall(s, p).signal, s.consumer, StepCall(s, p).history.bumps)
  {
  }

  lemma CallKeepsAccount(s: State, p: nat)
    requires Account(s) && FlagShape(s.signal, s.consumer) && SpinShape(s)
    requires p < |s.calls| && s.calls[p].Inside()
    ensures Account(StepCall(s, p))
    ensures !NextCall(s, s.calls[p]).Faulted?
  {
    ReleasersAfterUpdate(s.calls, p, NextCall(s, s.calls[p]));
    if s.calls[p].Releasing? {
      assert p in Releasers(s.calls);
    }
  }

  lemma PermitInvStep(s: State, a: Action)
    requires PermitInv(s) && KindShape(s) && Enabled(s, a)
    ensures PermitInv(Apply(s, a))
  {
    match a
    case Start => ReleasersAfterStart(s.calls, if s.cancelled then Rejected else Admitted);
    case Stop =>
    case Proceed(p) =>
      CallKeepsFlags(s, p);
      CallKeepsAccount(s, p);
    case Consume =>
      ConsumerKeepsFlags(s);
      ConsumerKeepsAccount(s);
  }

  // ----- no lost wakeup

  /** The consumer saw an empty queue in this cycle and is about to park, or is parked. */
  predicate AboutToPark(c: Consumer) {
    c.Deciding? || c.Parked?
  }

  /** A call that linked its item and has not decided yet whether to notify. */
  predicate Undecided(calls: seq<Call>, p: nat) {
    p < |calls| && (calls[p].Linked? || calls[p].Notifying?)
  }

  ghost predicate WakeInv(s: State) {
    AboutToPark(s.consumer) && s.signal.inWait && s.links.TailLinked() ==> exists p :: Undecided(s.calls, p)
  }

  lemma CallKeepsWake(s: State, p: nat)
    requires QueueInv(s) && WakeInv(s) && p < |s.calls| && s.calls[p].Inside()
    ensures WakeInv(StepCall(s, p))
  {
    var t := StepCall(s, p);
    if AboutToPark(t.consumer) && t.signal.inWait && t.links.TailLinked() {
      if s.links.TailLinked() {
        var q :| Undecided(s.calls, q);
        assert Undecided(t.calls, q);
      } else {
        assert Undecided(t.calls, p);
      }
    }
  }

  lemma WakeInvStep(s: State, a: Action)
    requires QueueInv(s) && WakeInv(s) && Enabled(s, a)
    ensures WakeInv(Apply(s, a))
  {
    match a
    case Start =>
      if exists p :: Undecided(s.calls, p) {
        var p :| Undecided(s.calls, p);
        assert Undecided(Apply(s, a).calls, p);
      }
    case Stop =>
    case Proceed(p) => CallKeepsWake(s, p);
    case Consume =>
  }

  // ----- what a quiet exit means for the rest of the run

  /** Once the consumer left with nobody inside Enqueue, everything accepted is linked for good. */
  predicate ExitInv(s: State) {
    s.history.quiet ==>
      && (s.consumer.Draining? || s.consumer.Ended?)
      && Quiet(s) && s.cancelled
      && (s.consumer == Draining(None) || s.consumer.Ended? ==>
            |s.history.taken| + |s.history.dropped| + 1 == |s.history.order|)
  }

  lemma QuietLinksAll(s: State, i: nat)
    requires QueueInv(s) && Quiet(s) && i < |s.history.order|
    ensures i + 1 < |s.history.order| <==> s.links.Following(s.history.order[i]).Some?
  {
    FollowingIsNextInOrder(s.history.order, s.calls, s.links, i);
    if i + 1 < |s.history.order| {
      assert LinkedAt(s.history.order, s.calls, s.links.next, i + 1);
    }
  }

  lemma ConsumerKeepsExit(s: State)
    requires QueueInv(s) && ExitInv(s) && ConsumerEnabled(s)
    ensures ExitInv(StepConsumer(s))
  {
    if s.consumer.Draining? || s.consumer.Ended? {
      DrainKeepsExit(s);
    } else if Quiet(s) {
      QuietLinksAll(s, |s.history.taken|);
    }
  }

  lemma DrainKeepsExit(s: State)
    requires QueueInv(s) && ExitInv(s) && ConsumerEnabled(s) && s.consumer.Draining?
    ensures ExitInv(StepConsumer(s))
  {
    if Quiet(s) && s.consumer.node.Some? {
      QuietLinksAll(s, |s.history.taken| + |s.history.dropped| + 1);
    }
  }

  lemma ExitInvStep(s: State, a: Action)
    requires QueueInv(s) && ExitInv(s) && Enabled(s, a)
    ensures ExitInv(Apply(s, a))
  {
    if a.Consume? {
      ConsumerKeepsExit(s);
    }
  }

  // ----- everything together, over whole runs

  ghost predicate Inv(s: State) {
    QueueInv(s) && PermitInv(s) && WakeInv(s) && ExitInv(s)
  }

  lemma InvStep(s: State, a: Action)
    requires Inv(s) && Enabled(s, a)
    ensures Inv(Apply(s, a))
  {
    QueueInvStep(s, a);
    PermitInvStep(s, a);
    WakeInvStep(s, a);
    ExitInvStep(s, a);
  }

  lemma {:induction false} InvRun(s: State, run: seq<Action>)
    requires Inv(s) && Follows(s, run)
    ensures Inv(After(s, run))
    decreases |run|
  {
    if run != [] {
      InvStep(s, run[0]);
      InvRun(Apply(s, run[0]), run[1..]);
    }
  }

  /** A state some run of the given mailbox leads to. */
  ghost predicate Reachable(s: State) {
    exists run :: Follows(Init(s.kind), run) && After(Init(s.kind), run) == s
  }

  lemma ReachableInit(kind: Kind)
    ensures Reachable(Init(kind))
  {
    var none: seq<Action> := [];
    assert Follows(Init(kind), none) && After(Init(kind), none) == Init(kind);
  }

  lemma {:induction false} AfterOneMore(s: State, run: seq<Action>, a: Action)
    requires Follows(s, run) && Enabled(After(s, run), a)
    ensures Follows(s, run + [a]) && After(s, run + [a]) == Apply(After(s, run), a)
    decreases |run|
  {
    if run == [] {
      assert run + [a] == [a];
      assert Follows(Apply(s, a), []);
    } else {
      AfterOneMore(Apply(s, run[0]), run[1..], a);
      assert (run + [a])[1..] == run[1..] + [a];
    }
  }

  lemma ReachableStep(s: State, a: Action, t: State)
    requires Reachable(s) && Enabled(s, a) && t == Apply(s, a)
    ensures Reachable(t)
  {
    var run :| Follows(Init(s.kind), run) && After(Init(s.kind), run) == s;
    AfterOneMore(Init(s.kind), run, a);
  }

  lemma ReachableInv(s: State)
    requires Reachable(s)
    ensures Inv(s)
  {
    var run :| Follows(Init(s.kind), run) && After(Init(s.kind), run) == s;
    InitInv(s.kind);
    InvRun(Init(s.kind), run);
  }

  lemma InitInv(kind: Kind)
    ensures Inv(Init(kind))
  {
    assert Releasers([Returned]) == {};
    InitQueueInv(kind);
  }

  lemma InitQueueInv(kind: Kind)
    ensures QueueInv(Init(kind))
  {
  }
}
