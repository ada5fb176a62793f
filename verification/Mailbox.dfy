/**
 The mailbox behind a fiber as a step machine: the linked multi-producer queue, the event
 count that parks its consumer, and the consume / drain / stop loop of the fiber.

 Every access to shared memory is one step; the body of a `lock` is one step; releasing the
 semaphore is a step of its own. Calls to `Enqueue` are numbered in the order in which they
 start, and the node a call allocates carries the number of its call, so that a node, its item
 and its call share one name. Number 0 is the empty node the queue starts with.
 */
module Mailbox {
  import opened Common

  /** The two queues a fiber may own: the one that parks and the one that spins. */
  datatype Kind = Blocking | Spinning

  /** Where a call of `Enqueue` stands. */
  datatype Call =
    | Rejected                // the token was cancelled: nothing was enqueued
    | Admitted                // past the token check, node allocated
    | Swapped(prev: nat)      // _Head exchanged, prev.Next not written yet
    | Linked                  // prev.Next written, _InWait not read yet
    | Notifying               // _InWait was read as true, lock not taken yet
    | Releasing               // left the lock with the duty to release the semaphore
    | Returned
    | Faulted                 // the semaphore was already full
  {
    predicate Inside() {
      Admitted? || Swapped? || Linked? || Notifying? || Releasing?
    }

    predicate Exchanged() {
      !Rejected? && !Admitted?
    }
  }

  /** Where the consumer thread stands. */
  datatype Consumer =
    | Checking                // Next: early look at _Tail.Next
    | Preparing               // PrepareWait: reads _Spurious
    | Pumping                 // PrepareWait: waits for the spurious permit, no token
    | Announcing              // PrepareWait: sets _InWait
    | Sampling                // PrepareWait: copies _Epoch
    | Rechecking              // Next: looks at _Tail.Next again
    | Deciding                // Wait: compares the epochs
    | Parked                  // WaitAny over the semaphore and the token
    | Retiring(found: bool)   // RetireWait: sets _Spurious
    | Retreating(found: bool) // RetireWait: reads _InWait
    | Locking(found: bool)    // RetireWait: lock body
    | Awaiting                // spinning queue: until an item or the token shows up
    | Testing                 // spinning queue: throws when the token is cancelled
    | Taking                  // _Tail = _Tail.Next
    | Running(item: nat)      // onItem
    | Draining(node: Option<nat>) // walks what is left, cancelling each item
    | Ended                   // _EndFiber completed

  const EPOCHS: nat := 0x1_0000_0000

  /** The linked list: its two ends and the `Next` fields that are not null. */
  datatype Links = Links(head: nat, tail: nat, next: map<nat, nat>)
  {
    /** `Next` of a node, or nothing when it is null. */
    function Following(node: nat): Option<nat> {
      if node in next then Some(next[node]) else None
    }

    predicate TailLinked() {
      tail in next
    }
  }

  datatype EventCount = EventCount(epoch: nat, started: nat, spurious: bool, inWait: bool, permits: nat)

  /** What happened so far; no step reads it. */
  datatype History = History(
    order: seq<nat>,    // nodes in the order of their exchange
    taken: seq<nat>,    // items handed to onItem
    ran: seq<nat>,      // items whose Do returned
    dropped: seq<nat>,  // items whose Cancel was called by the drain
    bumps: nat,         // epoch increments since _EpochStarted was copied
    quiet: bool         // no call was inside Enqueue when the consumer left its loop
  )

  datatype State = State(
    kind: Kind,
    links: Links,
    signal: EventCount,
    cancelled: bool,
    calls: seq<Call>,
    consumer: Consumer,
    history: History
  )

  function Init(kind: Kind): State {
    State(kind, Links(0, 0, map[]), EventCount(0, 0, false, false, 0), false, [Returned],
          if kind.Blocking? then Checking else Awaiting,
          History([0], [], [], [], 0, false))
  }

  datatype Action =
    | Start                   // a thread calls Enqueue and looks at the token
    | Proceed(call: nat)      // a call inside Enqueue makes its next step
    | Stop                    // CompleteAdding
    | Consume                 // the consumer makes its next step

  predicate Quiet(s: State) {
    forall p | 0 <= p < |s.calls| :: !s.calls[p].Inside()
  }

  /** When the consumer can make a step: only three of its positions block. */
  predicate ConsumerEnabled(s: State) {
    match s.consumer
    case Pumping => s.signal.permits > 0
    case Parked => s.signal.permits > 0 || s.cancelled
    case Awaiting => s.links.TailLinked() || s.cancelled
    case Ended => false
    case _ => true
  }

  predicate Enabled(s: State, a: Action) {
    match a
    case Start => true
    case Stop => true
    case Proceed(p) => p < |s.calls| && s.calls[p].Inside()
    case Consume => ConsumerEnabled(s)
  }

  // ----- one step of a call

  /** Position of a call after its next step. */
  function NextCall(s: State, c: Call): Call
    requires c.Inside()
  {
    match c
    case Admitted => Swapped(s.links.head)
    case Swapped(_) => if s.kind.Blocking? then Linked else Returned
    case Linked => if s.signal.inWait then Notifying else Returned
    case Notifying => if s.signal.inWait then Releasing else Returned
    case Releasing => if s.signal.permits < 2 then Returned else Faulted
  }

  function CallLinks(l: Links, p: nat, c: Call): Links {
    match c
    case Admitted => l.(head := p)
    case Swapped(prev) => l.(next := l.next[prev := p])
    case _ => l
  }

  function CallSignal(e: EventCount, c: Call): EventCount {
    if c.Notifying? && e.inWait then
      e.(epoch := (e.epoch + 1) % EPOCHS, inWait := false)
    else if c.Releasing? && e.permits < 2 then
      e.(permits := e.permits + 1)
    else
      e
  }

  function CallHistory(h: History, e: EventCount, p: nat, c: Call): History {
    if c.Admitted? then h.(order := h.order + [p])
    else if c.Notifying? && e.inWait then h.(bumps := h.bumps + 1)
    else h
  }

  function StepCall(s: State, p: nat): State
    requires p < |s.calls| && s.calls[p].Inside()
  {
    var c := s.calls[p];
    s.(links := CallLinks(s.links, p, c),
       signal := CallSignal(s.signal, c),
       calls := s.calls[p := NextCall(s, c)],
       history := CallHistory(s.history, s.signal, p, c))
  }

  // ----- one step of the consumer

  /** What `RetireWait` returns to. */
  function AfterRetire(found: bool): Consumer {
    if found then Taking else Preparing
  }

  /** Whether the consumer leaves its loop by an OperationCanceledException in this step. */
  predicate Leaves(s: State) {
    // WaitAny prefers the lower index: a permit wins over the token
    && s.cancelled
    && (s.consumer.Testing? || (s.consumer.Parked? && s.signal.permits == 0))
  }

  function NextConsumer(s: State): Consumer
    requires ConsumerEnabled(s)
  {
    match s.consumer
    case Checking => if s.links.TailLinked() then Taking else Preparing
    case Preparing => if s.signal.spurious then Pumping else Announcing
    case Pumping => Announcing
    case Announcing => Sampling
    case Sampling => Rechecking
    case Rechecking => if s.links.TailLinked() then Retiring(true) else Deciding
    case Deciding => if s.signal.started == s.signal.epoch then Parked else Retiring(false)
    case Parked => if Leaves(s) then Draining(s.links.Following(s.links.tail)) else Preparing
    case Retiring(found) => Retreating(found)
    case Retreating(found) => if s.signal.inWait then Locking(found) else AfterRetire(found)
    case Locking(found) => AfterRetire(found)
    case Awaiting => Testing
    case Testing => if Leaves(s) then Draining(s.links.Following(s.links.tail)) else Taking
    case Taking => if s.links.TailLinked() then Running(s.links.next[s.links.tail]) else Taking
    case Running(_) => if s.kind.Blocking? then Checking else Awaiting
    case Draining(node) => if node.Some? then Draining(s.links.Following(node.value)) else Ended
  }

  function ConsumerSignal(e: EventCount, c: Consumer): EventCount
    requires c.Pumping? ==> e.permits > 0
  {
    match c
    case Preparing => e.(spurious := false)
    case Pumping => e.(permits := e.permits - 1)
    case Announcing => e.(inWait := true)
    case Sampling => e.(started := e.epoch)
    case Parked => if e.permits > 0 then e.(permits := e.permits - 1) else e
    case Retiring(_) => e.(spurious := true)
    case Locking(_) => if e.inWait then e.(inWait := false, spurious := false) else e
    case _ => e
  }

  function ConsumerHistory(s: State): History {
    var h := s.history;
    match s.consumer
    case Sampling => h.(bumps := 0)
    case Taking => if s.links.TailLinked() then h.(taken := h.taken + [s.links.next[s.links.tail]]) else h
    case Running(item) => h.(ran := h.ran + [item])
    case Draining(node) => if node.Some? then h.(dropped := h.dropped + [node.value]) else h
    case _ => if Leaves(s) then h.(quiet := Quiet(s)) else h
  }

  function StepConsumer(s: State): State
    requires ConsumerEnabled(s)
  {
    s.(links := if s.consumer.Taking? && s.links.TailLinked() then s.links.(tail := s.links.next[s.links.tail]) else s.links,
       signal := ConsumerSignal(s.signal, s.consumer),
       consumer := NextConsumer(s),
       history := ConsumerHistory(s))
  }

  function Apply(s: State, a: Action): State
    requires Enabled(s, a)
  {
    match a
    case Start => s.(calls := s.calls + [if s.cancelled then Rejected else Admitted])
    case Stop => s.(cancelled := true)
    case Proceed(p) => StepCall(s, p)
    case Consume => StepConsumer(s)
  }

  /** Whether a schedule can be followed from s, one enabled action after the other. */
  predicate Follows(s: State, run: seq<Action>)
    decreases |run|
  {
    run == [] || (Enabled(s, run[0]) && Follows(Apply(s, run[0]), run[1..]))
  }

  function After(s: State, run: seq<Action>): State
    requires Follows(s, run)
    decreases |run|
  {
    if run == [] then s else After(Apply(s, run[0]), run[1..])
  }
}
