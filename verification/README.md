# Verified models of ComposableAsync

A Dafny project that models the parts of this repository whose correctness rests on an invariant
over an unbounded run, and proves what they promise. `dafny verify dfyconfig.toml` checks all of it.

## What is modelled

**The mailbox behind a fiber** (`Mailbox`, `MailboxInvariants`, `MailboxTheorems`, `MailboxStops`,
`MailboxAdmission`, `WorkItems`, `Fiber`). Any number of threads call `Enqueue` while one consumer
spins, parks on the event count and is stopped. The model is a step machine: each access to shared
memory is one step, the body of a `lock` is one step, and `Semaphore.Release` is a step of its own.
Steps of all calls and of the consumer interleave freely. Memory is sequentially consistent, which
the interlocked exchange, the volatile fields and the barriers of `SimplifiedEventCount` are there
to provide. The epoch is a 32-bit counter that wraps. Work items race with their cancellation token
in a second step machine, and `Fiber` runs both together; the completion source and the plain work
item are classes.

**The search engine of the documentation site**, `docs/styles/lunr.js`. Token sets (`Automata`,
`Decimals`, `NodeKeys`, `BuilderSteps`, `TokenSetBuilder`, `TokenSets`, `TokenSetWords`,
`WordOrder`, `DigitClash`) are nodes that refer to one another by number, shared and updated in
place by the class `Builder`; the number of a node is its place in a sequence, and its `id` in the
original is that number plus the value `_nextId` had when the root was created. Wildcard patterns
and fuzzy strings become query automata (`Wildcards`, `Fuzzy`, `FuzzyEdits`, `EditScripts`, with
`Trees` and `Stacks` for the explicit stacks), `Intersection` builds the product, and `Search` puts
the pieces together. `SparseVectors` is the binary-searched flat array, over the reals, and
`DotProducts` says what its product is. `QueryLexers` and `QueryParsers` hold the lexer and the
parser as the classes they are, each proved against a grammar; `LaidLexemes`, `ParsedQueries`,
`QueryRoundTrips`, `BareEscapes` and `QueryWildcards` prove what that grammar means.

**The resilience dispatchers** (`CircuitBreaker`, `Retry`). The breaker is a class with its three
fields, and a machine of calls that enter and complete in any order under a clock that does not go
back. The retry loops are methods over an endless script of outcomes, with the 32-bit counter as it
is; composition with `Then` is a fold over dispatchers.

Exceptions that are thrown to the caller are modelled as results (`Option`, `Outcome`, `Ending`,
`ParseError`). Filters, lower-casing, the square root and the user's functions are parameters.

## Where the code does less than its words

- `TokenSet.toString` is not injective when a digit is a label beside a smaller label, and the builder
  then takes two different nodes for one. Call letters separable when no digit among them has a smaller
  letter beside it. Token sets hold exactly the words they were made from, for all lists over some
  letters, if and only if the letters are separable (`DigitClash.ExactForSeparableLetters`); for every
  digit and smaller letter, three words over the two and the first `_nextId` lose one of the three
  (`DigitClash.DigitsLoseWords`). Minimality needs no such condition.
- `intersect` never marks its root final, so a search never finds the empty word.
- `fromFuzzyString` does not accept every word within the edit distance: it tries no insertion after
  the last letter and not every run of deletions. It accepts them all only when no edit is allowed
  and the string is not empty (`FuzzyEdits.CompleteWithoutEditsOnly`). For one edit,
  `FuzzyEdits.OneEditIsExact` says which words are missing; for any distance
  `EditScripts.ReadsExactly` says which edits are tried.
- A filtered exception of the probe leaves the breaker in HalfOpen, for ever when no other call is in
  flight (`CircuitBreaker.LostProbeLocksBreaker`); `CircuitBreaker.IdleAdmissionExactly` says when an
  idle breaker admits a call.
- A call that has not linked its item when the drain looks for the last time is missed, with either
  queue (`MailboxTheorems.LateCallIsMissed`, `MailboxStops.LateCallIsMissedWhenBlocking`); every other
  accepted item is run or cancelled, so all are if and only if there is no such call
  (`MailboxStops.DrainSettlesExactly`). When a stop runs them all is said by
  `MailboxStops.GracefulExactly`, and for the spinning queue, as the stop comes, by
  `MailboxStops.SpinningStopExactly`.
- "For ever" is a maximum of `int.MaxValue` retries, so it ends after 2^31 invocations. With a negative
  maximum the retry counter runs through its overflow, and a schedule of waits taken from an array
  then throws (`Retry.ArrayBreaksOnOverflowOnly`).
- A search string whose last text is a lone escape character has a clause with an empty term, and
  that clause cannot be printed and parsed again (`BareEscapes.LoneEscapeIsLost`); all other search
  strings can (`BareEscapes.ParsedIsCanonical`).
- In HalfOpen a call that is refused invokes the open behaviour for actions before its own, so a
  behaviour that throws there hides the value a function would have returned.

## Model

| member | source | states |
|---|---|---|
| MailboxInvariants.InvStep | ComposableAsync.Concurrent/Collections/BlockingMpscQueue.cs:35-100 | every step of every call and of the consumer keeps the invariant on order, links, permits, wakeups and exit |
| MailboxTheorems.Fifo | ComposableAsync.Concurrent/Collections/BlockingMpscQueue.cs:35-84 | in every reachable state the items handed over are a prefix, without repeat or gap, of the exchanges of _Head, and those are exactly the accepted calls, each once; items run one at a time |
| MailboxTheorems.GapsAreUnlinkedCalls | ComposableAsync.Concurrent/Collections/BlockingMpscQueue.cs:40-41 | a node before the last has a null Next exactly while the next call stands between its exchange and its link |
| MailboxTheorems.TakesOnlyLinkedNodes | ComposableAsync.Concurrent/Collections/BlockingMpscQueue.cs:81-95 | when the consumer advances _Tail, Next is not null |
| MailboxTheorems.PermitConservation | ComposableAsync.Concurrent/Signals/SimplifiedEventCount.cs:12-83 | permits and releases in flight are never more than one together, so the semaphore never overflows; the wait for a spurious permit is entered only when one is there or on its way; the wrapping epoch comparison is exact |
| MailboxTheorems.NoLostWakeup | ComposableAsync.Concurrent/Signals/SimplifiedEventCount.cs:19-83 | a consumer about to park, or parked, on a queue with an item has a permit, a release in flight, or a call that is still to decide and will find _InWait set |
| MailboxTheorems.WorkIsBounded | ComposableAsync.Concurrent/Collections/BlockingMpscQueue.cs:64-100 | over any run, the steps of calls and consumer are bounded by the number of calls: no livelock |
| MailboxTheorems.AtRestEverythingRan | ComposableAsync.Concurrent/Collections/BlockingMpscQueue.cs:64-100 | when nobody can move, the consumer is blocked or has ended, and unless it has ended every accepted item has run |
| MailboxAdmission.CancelledByStop | ComposableAsync.Concurrent/Collections/BlockingMpscQueue.cs:46-50 | over any run, the token is cancelled if and only if there was a stop |
| MailboxAdmission.RefusedExactly | ComposableAsync.Concurrent/Collections/BlockingMpscQueue.cs:35-41 | a call is refused, for good, if and only if the token was cancelled when it started |
| MailboxAdmission.NobodyIsRefused | ComposableAsync.Concurrent/Collections/BlockingMpscQueue.cs:35-41 | as long as nobody has stopped the fiber, no call is refused |
| MailboxAdmission.AtRestEveryCallRan | ComposableAsync.Concurrent/Collections/BlockingMpscQueue.cs:35-100 | a mailbox nobody has stopped, at rest, has run the item of every call ever made |
| MailboxAdmission.LateCallIsRefused | ComposableAsync.Concurrent/Collections/BlockingMpscQueue.cs:37-37 | a call that starts after the stop never exchanges _Head, whatever follows |
| MailboxAdmission.EarlyCallIsAccepted | ComposableAsync.Concurrent/Collections/BlockingMpscQueue.cs:35-44 | a call that starts before the stop has its item accepted once it has returned |
| MailboxAdmission.StoppedAtRestHasEnded | ComposableAsync.Concurrent/Fibers/MonoThreadedFiber.cs:99-123 | a stopped mailbox at rest has ended, and one that has ended was stopped |
| MailboxAdmission.OnlyTheConsumerWaits | ComposableAsync.Concurrent/Signals/SimplifiedEventCount.cs:19-83 | calls and stops can come at any time, calls never wait, and the consumer waits in three places only |
| MailboxAdmission.LinkedItemIsTakenAtOnce | ComposableAsync.Concurrent/Collections/BlockingMpscQueue.cs:75-85 | an item linked when the consumer comes for the next one is taken at once, without the event count |
| MailboxTheorems.QuietExitLeavesNothing | ComposableAsync.Concurrent/Signals/WaitHandleExtension.cs:8-15 | since a permit wins over cancellation, a consumer that leaves while nobody is inside Enqueue has run every accepted item |
| MailboxTheorems.GracefulStop | ComposableAsync.Concurrent/Fibers/MonoThreadedFiber.cs:99-118 | from such an exit on, for every continuation, all accepted items have run and none is ever cancelled |
| MailboxTheorems.SpinningStopCancels | ComposableAsync.Concurrent/Collections/SpinningMpscQueue.cs:57-66 | the spinning queue gives no such promise: a reachable end in which an accepted item was cancelled |
| MailboxTheorems.EachItemOnce | ComposableAsync.Concurrent/Fibers/MonoThreadedFiber.cs:99-118 | after a quiet exit of either queue a prefix of the accepted items ran, in order, and the drain cancelled exactly the others, each once |
| MailboxTheorems.LateCallIsMissed | ComposableAsync.Concurrent/Collections/SpinningMpscQueue.cs:30-37 | without the quiet exit an accepted item can be neither run nor cancelled, with nobody left to move |
| MailboxStops.DrainSettlesExactly | ComposableAsync.Concurrent/Fibers/MonoThreadedFiber.cs:99-118 | for both queues, every accepted item is run or cancelled if and only if no call stood before its link when the drain looked for the last time |
| MailboxStops.GracefulExactly | ComposableAsync.Concurrent/Fibers/MonoThreadedFiber.cs:99-118 | for both queues, every accepted item runs if and only if, when the consumer leaves its loop, nothing accepted is unserved and no call is before its exchange |
| MailboxStops.SpinningStopExactly | ComposableAsync.Concurrent/Collections/SpinningMpscQueue.cs:57-66 | a stop of the spinning queue with nobody inside Enqueue runs every accepted item if and only if nothing is unserved when it comes, but for the item just being taken |
| MailboxStops.LateCallIsMissedWhenBlocking | ComposableAsync.Concurrent/Collections/BlockingMpscQueue.cs:35-44 | the blocking queue can miss an accepted item, too, and the permit released for it wakes nobody |
| MailboxStops.PassInvRun | ComposableAsync.Concurrent/Collections/BlockingMpscQueue.cs:53-61 | what the consumer has taken, dropped or stands at has been linked, over every run |
| Fiber.FiberStep | ComposableAsync.Concurrent/Fibers/MonoThreadedFiber.cs:99-118 | in the machine of mailbox and items together, every step keeps each item where the mailbox says it is: waiting, inside Do or Cancel, run or dropped |
| Fiber.ItemsFollowTheMailbox | ComposableAsync.Concurrent/Fibers/MonoThreadedFiber.cs:103-114 | a function is called only while its item runs; what ran went through Do, what was dropped through Cancel alone |
| Fiber.HowItEnded | ComposableAsync.Concurrent/WorkItems/CancellableWorkItem.cs:26-45 | a dropped item's task is cancelled; that of an item that ran under no cancelled token reports how its function ended |
| Fiber.AnsweredExactly | ComposableAsync.Concurrent/Fibers/MonoThreadedFiber.cs:51-118 | when the fiber has ended and no token callback is owed, a task is settled, exactly once, if and only if its item was run or dropped or its token was cancelled |
| Fiber.NoCallerIsLeftWaiting | ComposableAsync.Concurrent/Fibers/MonoThreadedFiber.cs:51-118 | after a quiet exit and once token callbacks have run, the task of every accepted item is settled exactly once |
| Fiber.CancelledWhileWaiting | ComposableAsync.Concurrent/WorkItems/CancellableWorkItem.cs:31-36 | an item whose token was cancelled before the consumer stood at it is never called, in any continuation, and its task ends cancelled |
| Fiber.RanIsCalled | ComposableAsync.Concurrent/WorkItems/CancellableWorkItem.cs:31-45 | an item that ran and whose token was never cancelled was called |
| Fiber.EveryCallerIsAnswered | ComposableAsync.Concurrent/Fibers/MonoThreadedFiber.cs:51-62 | on a fiber nobody has stopped, at rest, every item has run and every caller's task is settled once its token owes no callback |
| Fiber.LateCallerIsRefused | ComposableAsync.Concurrent/Fibers/MonoThreadedFiber.cs:58-61 | the caller of a call that starts after the stop sees a cancelled task, and its function is never called |
| Fiber.CallersNeverWait | ComposableAsync.Concurrent/Fibers/MonoThreadedFiber.cs:51-62 | calls, stops and tokens can come at any time, whatever the fiber's thread is doing |
| Fiber.NeverStuckInItem | ComposableAsync.Concurrent/WorkItems/CancellableWorkItem.cs:26-46 | inside an item the fiber's thread can go on, or a callback it waits for can |
| WorkItems.CompletionSource.TrySet | ComposableAsync.Concurrent/WorkItems/WorkItem.cs:21-36 | the first status wins and stays, and only the first caller is told so |
| WorkItems.WorkItem.Do | ComposableAsync.Concurrent/WorkItems/WorkItem.cs:26-36 | nothing escapes: the task gets the result or the exception, unless it was settled before |
| WorkItems.WorkItem.Cancel | ComposableAsync.Concurrent/WorkItems/WorkItem.cs:21-24 | a task that is not settled is cancelled |
| WorkItems.StatusIsFinal | ComposableAsync.Concurrent/WorkItems/CancellableWorkItem.cs:16-45 | under every interleaving of Do, Cancel and the token callback the task takes at most one terminal status and keeps it |
| WorkItems.TaskIsSettled | ComposableAsync.Concurrent/WorkItems/CancellableWorkItem.cs:26-45 | when Do or Cancel has returned and no callback is owed, the task is settled, by exactly one success |
| WorkItems.ReportsWhatRan | ComposableAsync.Concurrent/WorkItems/CancellableWorkItem.cs:31-45 | a result or fault means the function was called; a called function is reported unless the callback was first |
| WorkItems.SettingReportsOutcome | ComposableAsync.Concurrent/WorkItems/CancellableWorkItem.cs:38-45 | the task reports the very outcome of the function, or the cancellation that was first |
| WorkItems.RequestedByRequest | ComposableAsync.Concurrent/WorkItems/CancellableWorkItem.cs:16-22 | over any run, the token of an item is cancelled if and only if it was so from the start or there was a request |
| WorkItems.CreatedCancelled | ComposableAsync.Concurrent/WorkItems/CancellableWorkItem.cs:16-22 | an item made with a cancelled token is cancelled at once and stays so |
| WorkItems.CancelledIsNotCalled | ComposableAsync.Concurrent/WorkItems/CancellableWorkItem.cs:31-36 | an item whose token is cancelled before Do looks at it is never called, and ends cancelled |
| WorkItems.GivenIsCalled | ComposableAsync.Concurrent/WorkItems/CancellableWorkItem.cs:31-45 | an item given to Do whose token is never cancelled has its function called before Do returns, and reported |
| WorkItems.ReportsReturn | ComposableAsync.Concurrent/WorkItems/CancellableWorkItem.cs:38-45 | its task reports the very value or exception with which the function ended |
| WorkItems.OnlyDisposingWaits | ComposableAsync.Concurrent/WorkItems/CancellableWorkItem.cs:31-46 | tokens are free to be cancelled at any time, and the fiber's thread waits for nothing but a running callback |
| NodeKeys.KeyDeterminesNode | docs/styles/lunr.js:1461-1486 | over separable letters two nodes with the same key are equal, although ids and labels are run together |
| NodeKeys.ClashingNodes | docs/styles/lunr.js:1478-1483 | for any smaller label beside any digit there are two different nodes with the same key |
| NodeKeys.KeysAreFaithfulExactly | docs/styles/lunr.js:1461-1486 | keys tell nodes apart exactly when the letters are separable |
| BuilderSteps.FreezeKeepsLanguage | docs/styles/lunr.js:1611-1628 | freezing or merging one node changes the language of no node |
| BuilderSteps.MergeKeepsShape | docs/styles/lunr.js:1616-1617 | sending the parent's edge to the registered node keeps register and path well shaped |
| BuilderSteps.KeepKeepsShape | docs/styles/lunr.js:1618-1624 | registering a node keeps them well shaped: frozen nodes lead to nodes frozen before them, and the register maps each key to the one node that has it |
| BuilderSteps.FinalizeAddsWord | docs/styles/lunr.js:1603-1604 | marking the last node final adds the word just spelled and nothing else, at every node of the path |
| TokenSetBuilder.Builder.KeyOf | docs/styles/lunr.js:1461-1486 | the loop computes the key |
| TokenSetBuilder.Builder.FreezeLast | docs/styles/lunr.js:1612-1627 | one turn of minimize is the freezing step on the whole state |
| TokenSetBuilder.Builder.Minimize | docs/styles/lunr.js:1611-1628 | the unchecked path is cut to the given length by freezing steps, and the builder still accepts exactly the words inserted |
| TokenSetBuilder.Builder.AgreesUpTo | docs/styles/lunr.js:1575-1578 | the length of the longest common prefix with the previous word |
| TokenSetBuilder.Builder.Extend | docs/styles/lunr.js:1582-1601 | one new node for each further letter; the language does not change |
| TokenSetBuilder.Builder.Insert | docs/styles/lunr.js:1567-1605 | a word out of order is refused and changes nothing; any other is added, and over separable letters the root accepts exactly the words so far |
| WordOrder.LessExactly | docs/styles/lunr.js:1571-1573 | one word is less than another if and only if some place k has the same letters before it and the first word ends there or has the smaller letter |
| WordOrder.Trichotomy | docs/styles/lunr.js:1571-1573 | of less, equal and greater exactly one holds |
| WordOrder.LessIsTransitive | docs/styles/lunr.js:1571-1573 | the order is transitive |
| WordOrder.PrefixIsLess | docs/styles/lunr.js:1571-1573 | a word comes before its extensions |
| WordOrder.InOrderPairs | docs/styles/lunr.js:1184-1193 | words are in order if and only if each is the same as, or before, every later one |
| WordOrder.SortedListExists | docs/styles/lunr.js:2247-2250 | every finite set of words has a list in order that names each of them once, so a token set can be made of it |
| WordOrder.SortedListIsUnique | docs/styles/lunr.js:2247-2250 | there is only one such list |
| TokenSetBuilder.Builder.Finish | docs/styles/lunr.js:1607-1609 | every node is frozen and the words are the same |
| TokenSetBuilder.InsertedIsCut | docs/styles/lunr.js:1567-1605 | the same of the whole insertion as a function of the builder's state |
| TokenSetBuilder.TokenSetIsExact | docs/styles/lunr.js:1184-1193 | for words in order over separable letters, the finished root accepts exactly the words |
| TokenSets.TokenSetIsMinimal | docs/styles/lunr.js:1567-1628 | for any words in order the finished nodes are acyclic, minimal and trim |
| DigitClash.DigitsLoseWords | docs/styles/lunr.js:1482-1483 | for every digit and every smaller letter, a list of three words in order whose token set does not accept the third |
| DigitClash.ExactForSeparableLetters | docs/styles/lunr.js:1184-1193 | every list over some letters, whatever the first id, becomes a token set for exactly its words, if and only if the letters are separable |
| TokenSets.BuiltIsMinimal | docs/styles/lunr.js:1567-1628 | any two nodes reachable from the root accept different sets of suffixes, for any letters |
| TokenSets.BuiltIsTrim | docs/styles/lunr.js:1567-1628 | every reachable node leads to some word |
| TokenSets.FewestStates | docs/styles/lunr.js:1567-1628 | no deterministic automaton for the same words has fewer states |
| TokenSets.FromArray | docs/styles/lunr.js:1184-1193 | fails exactly on words out of order; otherwise acyclic, minimal, trim, and over separable letters it accepts exactly the words |
| TokenSetWords.ToArray | docs/styles/lunr.js:1421-1449 | terminates on an acyclic set and lists each accepted word exactly once |
| Wildcards.FromString | docs/styles/lunr.js:1376-1408 | the query automaton of a pattern accepts exactly the words that match it with '*' as any run of characters; that of the empty pattern accepts none |
| Wildcards.PatternAutomatonIsExact | docs/styles/lunr.js:1388-1405 | the extra '*' edges back to the root accept nothing that does not match |
| Intersection.Intersect | docs/styles/lunr.js:1498-1559 | terminates on an acyclic token set; the output accepts exactly the non-empty words that both accept, and is acyclic |
| Intersection.VisitLabel | docs/styles/lunr.js:1523-1554 | the inner loop keeps the product invariant and takes the step for every label that goes with the query's |
| Intersection.ProductIsExact | docs/styles/lunr.js:1498-1559 | with an empty stack, a non-empty word is accepted if and only if both operands accept it |
| Search.FromClause | docs/styles/lunr.js:1204-1210 | the automaton of a clause accepts the non-empty words the clause asks for |
| Search.ExpandTerm | docs/styles/lunr.js:1800-1801 | a term is expanded to exactly the non-empty words the token set holds that match the pattern, or that the fuzzy string reads, each once; over separable letters these are words of the index |
| Search.ListAgain | docs/styles/lunr.js:1184-1193 | toArray after fromArray lists each word the token set holds exactly once; over separable letters, each distinct word |
| Search.FuzzySearchStaysNear | docs/styles/lunr.js:1204-1210 | what a fuzzy clause asks for is within its edit distance |
| Fuzzy.FromFuzzyString | docs/styles/lunr.js:1227-1364 | the loop terminates, and the tree accepts exactly the label strings the edit steps lead to |
| Fuzzy.Expand | docs/styles/lunr.js:1236-1359 | the six blocks of the loop take each step of the frame once, pushing at most one frame each with less to do |
| Fuzzy.PerformKeepsComplete | docs/styles/lunr.js:1240-1260 | after a block, all it leads to is accepted or waits on the stack |
| FuzzyEdits.FuzzyIsSound | docs/styles/lunr.js:1227-1364 | every word accepted for a string without '*' is at most k insertions, deletions, substitutions or adjacent swaps away |
| FuzzyEdits.CompleteWithoutEditsOnly | docs/styles/lunr.js:1315-1334 | all words within the distance are accepted if and only if no edit is allowed and the string is not empty |
| FuzzyEdits.OneEditIsExact | docs/styles/lunr.js:1236-1359 | with one edit exactly the words one edit away are accepted, except those with a new, different last letter |
| FuzzyEdits.AppendedIsMissed | docs/styles/lunr.js:1315-1334 | k letters appended to a non-empty string are k edits and not accepted, for every k above 0 and letter other than the last |
| FuzzyEdits.DoubleDeletionIsMissed | docs/styles/lunr.js:1261-1292 | "c" is two deletions from "abc" and not accepted, whatever the distance allowed |
| EditScripts.ReadsExactly | docs/styles/lunr.js:1227-1364 | for every distance, a word is accepted if and only if some script of at most that many edits makes it of the string in which each deletion is followed by a letter kept or is last, and the last edit is no insertion unless it is the only one |
| EditScripts.ScriptIsWithin | docs/styles/lunr.js:1215-1226 | a script makes only words that are as many edits away as it costs |
| SparseVectors.Vector.PositionForIndex | docs/styles/lunr.js:562-603 | the search terminates at the one place where the index belongs |
| SparseVectors.PositionIsUnique | docs/styles/lunr.js:562-603 | there is only one such place |
| SparseVectors.Vector.Upsert | docs/styles/lunr.js:628-637 | acts as a map update with the combining function, keeps indices strictly sorted, forgets the cached magnitude |
| SparseVectors.Vector.Insert | docs/styles/lunr.js:614-618 | adds a new index; refuses an index already there, without changing the contents |
| SparseVectors.Vector.Magnitude | docs/styles/lunr.js:644-656 | the root of the sum of squares of the present contents, cached or not |
| SparseVectors.Vector.Dot | docs/styles/lunr.js:664-685 | the two-pointer walk is the sum of products over common indices |
| SparseVectors.Vector.Similarity | docs/styles/lunr.js:695-697 | undefined exactly when a vector is zero; otherwise the cosine, in [-1, 1], and not negative when the dot product is not |
| SparseVectors.MergedIsSum | docs/styles/lunr.js:664-685 | the merge of two sorted lists of entries meets every common index once |
| SparseVectors.DotIsSymmetric | docs/styles/lunr.js:664-685 | the dot product is symmetric |
| SparseVectors.CauchySchwarz | docs/styles/lunr.js:664-697 | its square is at most the product of the sums of squares |
| DotProducts.DotAdds | docs/styles/lunr.js:664-685 | the dot product is additive |
| DotProducts.DotScales | docs/styles/lunr.js:664-685 | and homogeneous |
| DotProducts.UnitPicksValue | docs/styles/lunr.js:664-685 | and with a unit vector it is the value at that index, so it is the dot product and no multiple of it |
| DotProducts.SelfProduct | docs/styles/lunr.js:644-685 | the product of a vector with itself is the sum of squares that the magnitude is the root of |
| DotProducts.EqualsAreSimilar | docs/styles/lunr.js:695-697 | the similarity of non-zero vectors of the same contents is exactly 1 |
| DotProducts.MultiplesAreParallel | docs/styles/lunr.js:695-697 | its square is 1 for non-zero vectors one of which is a multiple of the other |
| SparseVectors.SimilarityIsBounded | docs/styles/lunr.js:695-697 | the similarity of non-zero vectors lies in [-1, 1] |
| SparseVectors.SimilarityOfScores | docs/styles/lunr.js:695-697 | with values that are not negative it lies in [0, 1] |
| QueryLexers.QueryLexer.SliceString | docs/styles/lunr.js:2514-2529 | joins the parts between the recorded escape characters |
| QueryLexers.PartsAreUnescaped | docs/styles/lunr.js:2514-2545 | those parts are the text with each escape character removed and the character behind it kept, even at the end of the string |
| QueryLexers.QueryLexer.AcceptDigitRun | docs/styles/lunr.js:2573-2584 | stops behind the longest run of digits, also at the end of the string |
| QueryLexers.QueryLexer.ScanText | docs/styles/lunr.js:2649-2687 | reads up to the first character that ends a text and is not escaped, recording the escape characters passed |
| QueryLexers.QueryLexer.RunText | docs/styles/lunr.js:2649-2687 | enters the state for what ends the text, with the term in front of a number emitted, on the course of the grammar |
| QueryLexers.QueryLexer.RunField | docs/styles/lunr.js:2596-2601 | the text before ':' becomes a field and the rest is lexed by the grammar |
| QueryLexers.QueryLexer.RunTerm | docs/styles/lunr.js:2603-2614 | the text before a separator, if any, becomes a term |
| QueryLexers.QueryLexer.RunNumber | docs/styles/lunr.js:2616-2628 | the mark is skipped and the digits behind it become an edit distance or boost |
| QueryLexers.QueryLexer.RunEOS | docs/styles/lunr.js:2630-2634 | a text at the end becomes a term |
| QueryLexers.QueryLexer.Run | docs/styles/lunr.js:2506-2512 | terminates on every string with the lexemes of the grammar, positions included |
| LaidLexemes.LexemesExactly | docs/styles/lunr.js:2596-2687 | the lexemes of a string are the one list that lies in it: texts and numbers in order at the places named, each as long as can be, with their marks, and nothing but separators between them |
| LaidLexemes.PlainMeansItself | docs/styles/lunr.js:2514-2529 | a text without escape characters means itself |
| LaidLexemes.EscapedMeansCharacter | docs/styles/lunr.js:2657-2660 | an escape character and the character behind it mean that character, whatever it is |
| LaidLexemes.SeparatorsAre | docs/styles/lunr.js:268-268 | the separators are white space and the hyphen, by their code points |
| QueryParsers.Query.AddClause | docs/styles/lunr.js:2433-2461 | adds one clause, completed with the defaults and the automatic wildcards |
| QueryParsers.QueryParser.RunFieldOrTerm | docs/styles/lunr.js:2725-2746 | goes on with a field or a term, ends, or fails on anything else |
| QueryParsers.QueryParser.RunField | docs/styles/lunr.js:2748-2778 | accepts a known field followed by a term, with the errors of the original otherwise |
| QueryParsers.QueryParser.RunTerm | docs/styles/lunr.js:2780-2815 | sets the term in lower case, and no pipeline when it has a wildcard; then modifiers or the next clause |
| QueryParsers.QueryParser.RunEditDistance | docs/styles/lunr.js:2817-2855 | sets the edit distance, or fails when there is no digit |
| QueryParsers.QueryParser.RunBoost | docs/styles/lunr.js:2857-2895 | sets the boost, or fails when there is no digit |
| QueryParsers.QueryParser.NextClause | docs/styles/lunr.js:2719-2723 | the current clause is added and a fresh one begun |
| QueryParsers.QueryParser.Parse | docs/styles/lunr.js:2696-2707 | terminates on every string; adds the clauses of the grammar up to the first error, and reports that error |
| ParsedQueries.ParsedExactly | docs/styles/lunr.js:2725-2895 | for any lexemes, the error is that of the first lexeme with a problem, and the clauses are those of the terms whose modifiers end before it, each with its own field, the last number of each kind and the defaults |
| ParsedQueries.ParseIntExactly | docs/styles/lunr.js:2824-2829 | a number is read if and only if the text begins with a digit |
| QueryRoundTrips.RoundTrip | docs/styles/lunr.js:2506-2895 | any list of clauses with known fields and non-empty lower-case terms, printed with every character escaped, is lexed and parsed back to the same clauses completed with the defaults |
| BareEscapes.EmptyTermExactly | docs/styles/lunr.js:2514-2545 | a search string that is parsed has a clause with an empty term if and only if its last text is a lone escape character |
| BareEscapes.ParsedIsCanonical | docs/styles/lunr.js:2506-2895 | the clauses of a search string that is parsed, printed and parsed again, are the same clauses if and only if the string does not end in a lone escape character |
| BareEscapes.FailedIsCanonical | docs/styles/lunr.js:2506-2895 | the clauses in front of a parse error always come back |
| BareEscapes.LoneEscapeIsLost | docs/styles/lunr.js:2630-2634 | the string of one escape character is parsed to a clause with an empty term that does not come back |
| QueryRoundTrips.UnescapeEscaped | docs/styles/lunr.js:2514-2545 | escaping every character is undone by the lexer |
| QueryRoundTrips.ParseDecimal | docs/styles/lunr.js:2824-2831 | the decimal digits of a number are read as that number |
| Decimals.DecimalValueGrows | docs/styles/lunr.js:2824-2824 | a digit more makes the number ten times as large and adds the digit |
| QueryWildcards.TrailingMatchesPrefixes | docs/styles/lunr.js:2454-2456 | with the trailing wildcard a term matches the words it matches a prefix of |
| QueryWildcards.LeadingMatchesSuffixes | docs/styles/lunr.js:2450-2452 | with the leading wildcard a term matches the words it matches a suffix of |
| QueryWildcards.BothMatchParts | docs/styles/lunr.js:2450-2456 | with both a term matches the words it matches a part of |
| QueryWildcards.CompletedTerm | docs/styles/lunr.js:2450-2456 | each of the two wildcards is added where it is asked for and not there yet |
| QueryWildcards.LiteralMatchesItself | docs/styles/lunr.js:1376-1408 | a pattern without wildcards is matched by itself alone |
| QueryWildcards.MatchesInTwoExactly | docs/styles/lunr.js:1376-1408 | a pattern in two parts is matched exactly by what is a match of the one followed by a match of the other |
| CircuitBreaker.CircuitBreakerDispatcher.UnsafeEnter | ComposableAsync.Resilient/CircuitBreaker/CircuitBreakerDispatcher.cs:170-205 | admits when closed, refuses when half open, and when open admits one call after the delay, then half open; which open behaviours are invoked, two of them in HalfOpen unless the first throws |
| CircuitBreaker.CircuitBreakerDispatcher.CheckException | ComposableAsync.Resilient/CircuitBreaker/CircuitBreakerDispatcher.cs:106-132 | a filtered exception changes nothing; another stamps the time, and counts when closed or reopens |
| CircuitBreaker.CircuitBreakerDispatcher.OnSuccess | ComposableAsync.Resilient/CircuitBreaker/CircuitBreakerDispatcher.cs:207-214 | closes the breaker and clears the count |
| CircuitBreaker.RefinesHistory | ComposableAsync.Resilient/CircuitBreaker/CircuitBreakerDispatcher.cs:106-132 | over any interleaving the counter is the smaller of the threshold and the unfiltered failures since the last success, and the state is not Closed exactly when that number has reached the threshold; for thresholds below 1 too, through the overflow |
| CircuitBreaker.AdmittedExactly | ComposableAsync.Resilient/CircuitBreaker/CircuitBreakerDispatcher.cs:106-214 | from the events alone: a call is admitted if and only if fewer failures than the threshold have come since the last success, or no probe was let through since the latest unfiltered failure and the delay has passed since it |
| CircuitBreaker.StateExactly | ComposableAsync.Resilient/CircuitBreaker/CircuitBreakerDispatcher.cs:106-214 | state and time of the latest failure, from the events alone |
| CircuitBreaker.EventsAreOpen | ComposableAsync.Resilient/CircuitBreaker/CircuitBreakerDispatcher.cs:32-104 | a call can come at any later time, and a call in flight can end in any way |
| CircuitBreaker.AdmittedIsInFlight | ComposableAsync.Resilient/CircuitBreaker/CircuitBreakerDispatcher.cs:32-104 | exactly the calls admitted are in flight until they end |
| CircuitBreaker.ProbeRate | ComposableAsync.Resilient/CircuitBreaker/CircuitBreakerDispatcher.cs:184-205 | in a stretch without success, any two calls let through while not Closed lie as many delays apart as their places in the stretch |
| CircuitBreaker.ProbesInWindow | ComposableAsync.Resilient/CircuitBreaker/CircuitBreakerDispatcher.cs:184-205 | so at most window / delay + 1 of them fall in a window |
| CircuitBreaker.HalfOpenAwaitsProbe | ComposableAsync.Resilient/CircuitBreaker/CircuitBreakerDispatcher.cs:106-205 | while nothing is filtered, HalfOpen means that the latest probe is in flight |
| CircuitBreaker.IdleBreakerAdmits | ComposableAsync.Resilient/CircuitBreaker/CircuitBreakerDispatcher.cs:184-205 | while nothing is filtered, an idle breaker admits a call once the delay has passed |
| CircuitBreaker.IdleAdmissionExactly | ComposableAsync.Resilient/CircuitBreaker/CircuitBreakerDispatcher.cs:184-205 | with filters, it does so if and only if there was no probe, or an unfiltered completion came after the latest |
| CircuitBreaker.LostProbeLocksBreaker | ComposableAsync.Resilient/CircuitBreaker/CircuitBreakerDispatcher.cs:106-110 | an idle breaker in HalfOpen never admits a call again |
| CircuitBreaker.FilteredProbeIsLost | ComposableAsync.Resilient/CircuitBreaker/CircuitBreakerDispatcher.cs:106-110 | a run of four events gets it there |
| Retry.RetryDispatcher.Enqueue | ComposableAsync.Resilient/Retry/RetryDispatcher.cs:21-93 | invocations and ending in closed form, for every script, filter, cancellation and 32-bit maximum |
| Retry.RetryDispatcherAsync.Enqueue | ComposableAsync.Resilient/Retry/RetryDispatcherAsync.cs:24-117 | the same ending as without waits unless the schedule throws, and the waits asked for, in order |
| Retry.InvocationsWithoutCancellation | ComposableAsync.Resilient/Retry/RetryDispatcher.cs:21-98 | the last invocation is the first success or filtered failure, or the maximum, whichever is first, and no other |
| Retry.LastIndexExactly | ComposableAsync.Resilient/Retry/RetryDispatcher.cs:21-98 | with cancellation, too: the loop ends at the first invocation that is cancelled, succeeds or fails with a filtered exception, or at the maximum, the 32-bit one read as unsigned |
| Retry.CounterStaysInRange | ComposableAsync.Resilient/Retry/RetryDispatcherAsync.cs:40-40 | with a maximum of 0 or more the counter never overflows |
| Retry.ArrayScheduleClamps | ComposableAsync.Resilient/Retry/TimeOuts/ArrayTimeOutProvider.cs:21-25 | throws on an empty array only; past the end the last entry is repeated |
| Retry.ArrayBreaksOnOverflowOnly | ComposableAsync.Resilient/Retry/TimeOuts/ArrayTimeOutProvider.cs:21-25 | with a non-empty array both dispatchers agree up to 2^31 retries, and after that the waiting one throws |
| Retry.WaitsAddUp | ComposableAsync.Resilient/Retry/TimeOuts/ArrayTimeOutProvider.cs:21-25 | the waits sum to waits[min(i, last)] over the retries made |
| Retry.TotalWaitExactly | ComposableAsync.Resilient/Retry/TimeOuts/ArrayTimeOutProvider.cs:21-25 | that sum in closed form: the array as far as it goes, then its last entry once for every retry beyond |
| Retry.FunctionScheduleShifts | ComposableAsync.Resilient/Retry/TimeOuts/FunctionTimeOutProvider.cs:13-13 | a function is asked for the next retry number, which wraps behind the largest |
| Retry.NegativeRetryBreaks | ComposableAsync.Resilient/Retry/TimeOuts/ArrayTimeOutProvider.cs:21-25 | an array has no wait for a negative retry number |
| Retry.ShiftDoesNotOverflow | ComposableAsync.Resilient/Retry/TimeOuts/FunctionTimeOutProvider.cs:13-13 | the shifted retry number never overflows while retries are left |
| Retry.EnqueueIsRetried | ComposableAsync.Resilient/Retry/RetryDispatcher.cs:21-98 | without cancellation the loop is the function that the results on chains speak of |
| Retry.RetriesNest | ComposableAsync.Core/Dispatcher/ComposedDispatcher.cs:23-41 | a retry of n around a retry of m is one retry of (n+1)(m+1)-1, whatever it is given to do |
| Retry.ComposedAssociates | ComposableAsync.Core/Dispatcher/ComposedDispatcher.cs:23-41 | composition of any dispatchers, each with its own filter, is associative |
| Retry.FirstIsOuter | ComposableAsync.Core/Dispatcher/ComposedDispatcher.cs:23-41 | and not commutative: the first dispatcher is the outer one |
| Retry.ThenBuildsChain | ComposableAsync.Core/DispatcherExtension.cs:59-68 | the fold builds the left-nested composition |
| Retry.ChainIsOneRetry | ComposableAsync.Core/DispatcherExtension.cs:59-68 | folding retries with Then is one retry of maximum (n1+1)...(nk+1)-1, for any work and shared filter |
| Retry.RetryChainsMultiply | ComposableAsync.Core/DispatcherExtension.cs:59-68 | same invocations and same result or last exception as that one retry, for every script |

## Left out

- TokenSets.FromArray: which words a list over letters that are not separable loses depends on the ids that `_nextId` happens to give; that some list loses one is shown, for which lists it happens is not.
- Search.ExpandTerm: for the same reason its exactness is stated for separable letters, and so is that of Search.ListAgain.
- TokenSetWords.ToArray: the order of the words is that of `Object.keys`, which the model leaves open; on a cyclic set the original does not end, so an acyclic one is required.
- Intersection.Intersect: as there, an acyclic token set is required.
- QueryParsers.QueryParser.Parse: numbers are naturals; the rounding of `parseInt` beyond 2^53 is not modelled, nor the text of the error messages.
- Retry.RetryDispatcherAsync.Enqueue: a token cancelled during a wait is seen at the next check, and negative waits, which `Task.Delay` refuses, are not modelled.
- SparseVectors.Vector.Magnitude: over the reals; rounding and the loss of accuracy of `Math.sqrt` are not modelled.
- Characters are those of the language, not UTF-16 units, so a surrogate pair counts as one.
- The cached string `_str` of a frozen node: it is the key of a node that no longer changes.
- Tree nodes refer to one another by number, and the token set handed to a method is a value; that two token sets may share nodes in memory is not captured.
- The fields of the queue and of the event count are changed by several threads at once, so they are parts of a state that steps change, not fields of a class with methods that run to the end.
- Weak memory beyond the barriers of the source; clocks that go back; the duration of the spin phase of `Next`, which is one early look here.
- Async work items, synchronization contexts, `DispatchItem`, whose exceptions escape the consumer loop, and the fibers built on task schedulers.
- Disposal of the semaphore and the token source while calls are still under way, finalizers, creation of threads.
- The values that the open behaviours of a breaker return, and the builders of dispatchers.
- The proxy factory, `Concurrent.Flow`, `Concurrent.Channel` and the ASP and WPF adapters.
- The stemmer, the tokenizer, the scoring and the serialization of the search index.
