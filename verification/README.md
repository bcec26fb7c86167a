# Verified models of the agent stack

Dafny models of the parts of this repository whose correctness depends on
interleavings, on SQL's three-valued logic or on how text is read back:

* **Node graphs** (`Graphs`, `NodeGraph`, `Schedule`, `Interleavings`, `Deliveries`,
  `Executor`). Validation by three-colour depth-first search, Kahn's sort, and the
  concurrent executor. `Schedule` is a step system in which dispatcher, workers and main
  loop move in any order; `Interleavings` and `Deliveries` prove facts about every run of
  it; `Executor` holds the imperative `Execute` and `cascadeSkip`, whose every step is a
  step of that system.
* **The leased job queue** (`A2AJobs`, `A2ARuns`, `A2AOperations`, `A2ACallbacks`,
  `A2AService`). Each mutex-protected method is one atomic step on the job table, with a
  clock that never goes back. A run keeps, for each job, a history of claim intervals,
  completions, status changes and callback outcomes.
* **Conditional writes** (`SqlCodec`, `AtomicWrites`, `SqlTables`, `TenantScope`,
  `RevisionRuns`). Go values become cells through a codec; conditions are syntax trees
  evaluated in three-valued logic; table classes build them in the source's loops.
* **Text** (`Text`, `BalancedJson`, `StringOrder`, `CanonicalJson`, `IndexDDL`,
  `IndexReader`, `IndexLetters`). The balanced-object scanner, the canonical JSON printer
  and the index-statement normaliser, each against a reader, a printer or a builder that
  it must agree with.
* **Tool calls** (`AgentLoop`, `AnthropicMessages`), **rate limits** (`RateLimits`) and
  **proof of work** (`ProofOfWork`), with `Arithmetic` and `Options` shared by all.

Where the source updates objects the model has classes and loops, proved against
functions or step relations. What those functions and relations mean is then proved apart
from them: by a reader of the text they produce, by what a caller sees before and after,
or by what every run keeps.

## Results worth knowing

* `Execute` ends in every interleaving exactly when the shared state holds no result for
  a node that has dependencies (`ReturnsIffNoStaleDependents`). The orchestrator passes
  one state to several rounds, so node ids must not be reused between rounds.
* A second failure, an overlapping skip and duplicate entries in `DependsOn` are harmless:
  the final statuses depend only on how the executed nodes ended (`ScheduleIndependent`).
* `RecordA2ACallbackOutcome` looks neither at the job's status nor at the callback's.
  `ClosedFallsDueIff` says over every run when a delivered or dead-lettered callback falls due
  again: a failure with retries left is recorded for a finished job (`UndueFailureReopens`), or the
  outcome was recorded before the job was finished and then it is (`EarlyRecordIsLost`; attempts can
  pass 12 that way). A dead letter of a finished job stays one (`DeadLetterIsFinal`).
* A rate limit of zero (a tier without an entry) still admits one request per window
  (`DecisionFromLog`).
* A tool call inside a thought part, or in a content whose role is not the model's, is
  executed but never emitted as a `tool_use` block; and two calls of one content can be emitted under
  the same id (`UseIDsClash`). `AnsweredIffAnnounced` proves that these are the only two ways in which
  a paired history becomes messages whose results do not match their calls.
* Ids made up for calls without an id clash exactly for calls of one content whose names are
  the same after trimming, where a blank name counts as `tool` (`SyntheticIdsClash`).
* The comment on `sqlEquivalent` speaks of ignoring whitespace; the code collapses each run
  of blanks to one space. A statement stored without the blank before its column list is never equivalent
  to the one built (`TightDiffers`), and an extra blank between tokens goes unnoticed exactly next
  to another blank or at the ends (`ExtraBlank`).
* An index stored under the same name in other letter case is neither compared nor replaced, and
  the call still reports success (`EnsureUniqueIndexWhere`).

## Model

| member | source | states |
|---|---|---|
| `NodeGraph.CycleFinder.HasCycle` | agent_node/graph.go:49-64 | The recursive search reports true only if there is a cycle; otherwise the node is black, everything finished stays finished, and the stack is unchanged. Terminates on the uncoloured nodes. |
| `NodeGraph.FindCycle` | agent_node/graph.go:36-72 | Over all roots the search is sound and complete: it finds a cycle iff there is one. |
| `NodeGraph.FindDuplicate` | agent_node/graph.go:17-25 | Accepts iff ids are unique; a rejected id really occurs twice. |
| `NodeGraph.FindUnknown` | agent_node/graph.go:27-34 | Accepts iff every dependency is a node; a rejected edge really leaves the graph. |
| `NodeGraph.Validate` | agent_node/graph.go:16-75 | Nil iff ids are unique, dependencies known and the relation acyclic; each error kind occurs exactly in its own case, with a true witness. |
| `NodeGraph.IndexGraph` | agent_node/graph.go:80-91 | In-degrees count dependency entries with repetition, and the dependents lists hold each link as often as it is declared. |
| `NodeGraph.Release` | agent_node/graph.go:107-112 | Decrements by multiplicity and frees each node once, exactly when its degree falls from positive to zero. |
| `NodeGraph.KahnStep` | agent_node/graph.go:102-113 | One dequeue keeps the invariant: the queue is exactly the unsorted nodes without pending dependencies, degrees count what is pending. |
| `NodeGraph.KahnEnd` | agent_node/graph.go:115-119 | When the queue is empty, all nodes are sorted iff dependencies are known and there is no cycle. |
| `NodeGraph.TopologicalSort` | agent_node/graph.go:79-120 | For unique ids: succeeds iff dependencies are known and acyclic, so it agrees with Validate; then it is a permutation with every dependency before its dependents. |
| `Schedule.WorkerStepInv` | agent_node/executor.go:84-101 | Dispatch, launch, completion (done or failed) and exit in any order keep the bookkeeping invariant and leave the ledger alone. |
| `Schedule.MainDoneInv` | agent_node/executor.go:105-132 | Receiving a success keeps the invariant; freed nodes are waiting, not skipped and not already active, with duplicate dependencies counted. |
| `Schedule.MainFailedInv` | agent_node/executor.go:105-124 | Receiving a failure keeps the invariant: the count skipped is exactly what leaves `remaining`. |
| `Schedule.NextInv` | agent_node/executor.go:56-138 | Every step keeps: each node is settled or in flight at most once, `remaining` counts the unsettled, degrees count unsucceeded dependencies, skips come from failures. |
| `Interleavings.RunInv` | agent_node/executor.go:56-138 | The invariant holds after every run from the initial state. |
| `Interleavings.ChannelsNeverFill` | agent_node/executor.go:74-130 | In every run the ready and done channels, sized to the graph, never hold more than that, so no send blocks, and at most `maxConcurrency` workers hold a slot. |
| `Interleavings.RunsAreBounded` | agent_node/executor.go:104-132 | Every run has at most six steps a node, at most one main-loop iteration a node. |
| `Interleavings.Progress` | agent_node/executor.go:104-132 | While `remaining` is positive some node is ready, held, running or waiting in done; this uses acyclicity. |
| `Interleavings.NoDeadlock` | agent_node/executor.go:56-138 | No run of a valid graph gets stuck, given no stale result on a node with dependencies. |
| `Interleavings.ReturnsIffNoStaleDependents` | agent_node/executor.go:142-167 | That condition is exact: with a stale result on such a node some run gets stuck. |
| `Interleavings.DependenciesInStore` | agent_node/executor.go:84-132 | A node is only ever ready, held, running or finished once all its dependencies are Done in the store. |
| `Interleavings.RunResolves` | agent_node/executor.go:65-138 | When `remaining` is zero each node has one result, was executed exactly once iff not skipped, and not skipped iff all its dependencies ended Done. |
| `Interleavings.NothingInFlight` | agent_node/executor.go:104-137 | When `remaining` is zero nothing is queued, held or running, and the launches are exactly the executed nodes, once each. |
| `Interleavings.SkippedIffUpstreamFailed` | agent_node/executor.go:142-167 | A node is skipped iff some transitive dependency failed. |
| `Interleavings.ScheduleIndependent` | agent_node/executor.go:56-138 | Two runs in which the commonly executed nodes end alike give every node the same status. |
| `Deliveries.SentArrives` | agent_node/executor.go:95-109 | At every moment of every run, what workers have sent is exactly what is in the done channel or stored, unaltered, under its own node. |
| `Deliveries.StoredAsSent` | agent_node/executor.go:104-167 | After a finished run the entry of every node that was not skipped is the only result any worker sent for it; a skipped node was sent none, and its entry names a failed node it depends on. |
| `Executor.CascadeSkip` | agent_node/executor.go:142-167 | The breadth-first cascade writes a skip on exactly the nodes that reach the failed one through nodes without a result and returns their number; each new entry is for its own node and names the failed one, and every other entry stays. |
| `Executor.GraphExecutor.Receive` | agent_node/executor.go:105-132 | One iteration of the main loop: the result is stored as it was received; after a failure the other new entries are skips that name it, after a success there are none; counters and freed nodes are those of the step system. |
| `Executor.GraphExecutor.Execute` | agent_node/executor.go:56-138 | Errors iff the graph is invalid, then changing nothing; otherwise terminates with every node resolved and the results of other ids unchanged. It has followed a run of the step system, and each node's entry is the one result sent for it in that run, or a skip that names a failed node it depends on. |
| `A2AJobs.CallbackBackoff` | agent_net/service_a2a.go:475-499 | The delay is the backoff base plus the jitter drawn, jitter being at most a fifth. |
| `A2AJobs.BackoffDoubles` | agent_net/service_a2a.go:475-499 | Attempt k waits between b and 1.2b for b = min(2^(k-1), 1024) seconds; the half-hour cap never takes effect. |
| `A2ARuns.EffectInv` | agent_net/service_a2a.go:158-574 | Every operation of the service keeps the invariant that ties a job to its history. |
| `A2ARuns.RunKeepsJobInv` | agent_net/service_a2a.go:38-574 | The invariant holds for every job after every run. |
| `A2ARuns.LeaseExclusivity` | agent_net/service_a2a.go:195-339 | Claim-to-last-expiry intervals of a job are pairwise disjoint; at most one completion is accepted, inside the current interval; at most 11 claims and 22 status changes. |
| `A2ARuns.ReachableShape` | agent_net/service_a2a.go:112-293 | In every reachable state: claimed iff leased iff claimed by the recipient, completion time iff succeeded or failed, exactly the matching result or error text, at most 10 redeliveries. |
| `A2ARuns.TerminalIsFinal` | agent_net/service_a2a.go:514-561 | Succeeded, failed and expired are absorbing, and the reported result, error and completion time never change again. |
| `A2ARuns.CleanupIsComplete` | agent_net/service_a2a.go:501-563 | After a cleanup no job is left to expire, requeue or fail, a second pass changes nothing, and the expiry branch inside claim cannot fire. |
| `A2AOperations.OrderIsFixed` | agent_net/service_a2a.go:38-574 | In every run sender, recipient, key, request, callback URL, creation and expiry of a job never change. |
| `A2AOperations.ChangesAreDated` | agent_net/service_a2a.go:195-574 | An operation that changes a job stores the time of the change with it. |
| `A2AOperations.CleanupMeans` | agent_net/service_a2a.go:501-563 | A queued or claimed job past its expiry expires; a claimed one past its lease is queued again up to ten times and then fails with LEASE_TIMEOUT, its callback due at once; no other job changes. |
| `A2AOperations.ClaimTakesOldest` | agent_net/service_a2a.go:158-231 | A claim takes the recipient's oldest jobs that are queued or abandoned with redeliveries left, all of them up to the number asked for (5 if none, 20 at most). |
| `A2AOperations.ClaimLeases` | agent_net/service_a2a.go:165-225 | Each is claimed by the recipient and leased from now for the seconds asked for (120 if none, 600 at most). |
| `A2AOperations.CompletionStores` | agent_net/service_a2a.go:234-309 | An accepted report is stored word for word as result or error (`{}` for no result), the other text emptied, completed now; the callback is due at once iff there is a URL. |
| `A2AOperations.ReportStays` | agent_net/service_a2a.go:234-309 | In every run a completed job holds exactly what its holder reported, from then on. |
| `A2ACallbacks.RunKeepsCallbackInv` | agent_net/service_a2a.go:376-463 | With outcomes recorded only for due jobs, attempts equal recorded outcomes, all but the last failed, and they are spaced by the backoff. |
| `A2ACallbacks.AttemptsBounded` | agent_net/service_a2a.go:444-463 | Attempts never exceed 12. |
| `A2ACallbacks.DeadLetterReason` | agent_net/service_a2a.go:444-463 | A dead letter has only failures, and either the last came over 24 hours after completion or there were 12 over at least 2047 seconds. |
| `A2ACallbacks.SettledStays` | agent_net/service_a2a.go:376-393 | A delivered or dead-lettered callback keeps its status and is never due again. |
| `A2ACallbacks.UndueFailureReopens` | agent_net/service_a2a.go:418-463 | Whatever job and callback were, a recorded failure leaves the callback due, then or later, iff there is a URL, the job is finished, and attempts and window leave room. |
| `A2ACallbacks.EarlyRecordIsLost` | agent_net/service_a2a.go:257-463 | An outcome recorded while the job is claimed does not survive completion: the callback is due at once, a recorded delivery is forgotten, and the twelfth attempt is followed by a thirteenth. |
| `A2ACallbacks.ClosedFallsDueIff` | agent_net/service_a2a.go:257-463 | In any run, with outcomes recorded at any time, a delivered or dead-lettered callback falls due again iff it has a URL and: the job was finished and a failure with retries left was recorded, or the job was not finished and became so. |
| `A2ACallbacks.DeadLetterIsFinal` | agent_net/service_a2a.go:376-463 | In any run, the dead letter of a finished job never falls due again. |
| `A2AService.CountersAddUp` | agent_net/service_a2a.go:501-563 | Expired plus requeued plus failed leases is the number of jobs cleanup changes. |
| `A2AService.Service.SubmitJob` | agent_net/service_a2a.go:38-143 | Finds an existing job iff the caller is admitted and the sender's key is in use, and answers the newest; creates one iff admitted, no such job, the request is JSON within the size and the id is new. A new job waits for the trimmed recipient and nobody else, for 24 hours, is found under its sender and key, holds the request and the URL, and is the only change. |
| `A2AService.SubmitTwice` | agent_net/service_a2a.go:93-102 | A second admitted submit by the sender under a non-blank key answers with the job of the first. |
| `A2AService.Service.CleanupQueue` | agent_net/service_a2a.go:501-574 | The pass over the jobs equals cleaning each; the counters are the jobs that went from queued or claimed to expired, from claimed to queued, and from claimed to failed; the due count is the number of due callbacks, at most 1000, and none of those listed is dead. |
| `A2AService.Service.QueryQueued` | agent_net/service_a2a.go:184-191 | The query returns the oldest queued jobs of the recipient, in order, up to the limit. |
| `A2AService.Service.ClaimJobs` | agent_net/service_a2a.go:158-231 | One claim step: the recipient's oldest claimable jobs, up to the number asked for, are leased to it for the seconds asked for; every other job is only cleaned up. |
| `A2AService.Service.CompleteClaim` | agent_net/service_a2a.go:234-309 | Succeeds iff the caller holds an unexpired lease and the report is well formed (a result that fits or none; an error with a message and a payload that fits); then only that job changes and it holds the report, else none does. |
| `A2AService.Service.ExtendLease` | agent_net/service_a2a.go:312-346 | Succeeds iff the caller holds an unexpired lease; then only its end changes, which counts from now for the seconds asked for (120 if none, 600 at most), so it may be earlier than before. |
| `A2AService.Service.DueCallbacks` | agent_net/service_a2a.go:356-415 | Returns the due callbacks by due time, unset first, and by age where equal, at most the limit (50 if none), and leaves out only ones that are no more urgent. |
| `A2AService.Service.RecordCallbackOutcome` | agent_net/service_a2a.go:418-473 | One attempt is counted on the named job, whatever its status: delivered, or dead after twelve attempts or a day, or to be retried after the backoff; the message is kept for a failure and cleared for a delivery; nothing else changes. |
| `SqlCodec.ReadableFixed` | data/sqlite.go:265-415 | A value that a read can return is returned again after being written. |
| `SqlCodec.Reencode` | data/sqlite.go:265-415 | What is written reads back as itself: strings, numbers and flags exactly, times to the second in their zone, documents with the same JSON, pointers as pointers to that; and writing it again gives the same cell. |
| `SqlCodec.ConditionMeansRead` | data/atomic.go:87-119 | For NULL or written cells, the condition for one column is true iff reading the cell gives exactly the expected value; this covers zero matching NULL and its exemption for pointers. |
| `AtomicWrites.TestMeans` | data/atomic.go:100-117 | The generated test, evaluated in three-valued logic over its positional parameter, is true iff the column holds. |
| `SqlTables.SqlTable.PrepareInsert` | data/sql_common.go:168-184 | Columns and encoded values line up field by field. |
| `SqlTables.SqlTable.ExpectedConditions` | data/atomic.go:87-119 | Fails iff an unknown column is named; otherwise, whatever the map order, the conjunction selects exactly the keyed row in which every expected column holds, and earlier arguments keep their positions. |
| `SqlTables.SqlTable.UpdateIf` | data/atomic.go:24-49 | Writes iff the row exists and every expected column holds; then each field's column gets its encoding and other columns and rows stay. |
| `SqlTables.SqlTable.DeleteIf` | data/atomic.go:51-58 | Removes exactly that row under exactly that condition. |
| `SqlTables.SqlTable.InsertIfAbsent` | data/atomic.go:13-22 | Inserts iff the key is absent and never changes an existing row. |
| `SqlTables.SqlTable.Upsert` | data/atomic.go:60-82 | Writes iff the key is absent or the guard column matches; the effect is the model's columns over the row. |
| `SqlTables.SqlTable.Get` | data/sql_common.go:89-101 | No rows iff the key is absent; otherwise every field is the decoded cell, or the read fails. |
| `TenantScope.ConditionsMeanGet` | data/atomic.go:87-119 | All expected columns hold iff Get would show exactly the expected values. |
| `TenantScope.UpdateIfIsCompareAndSwap` | data/atomic.go:24-49 | UpdateIf is compare-and-swap on what Get returns, and afterwards Get returns what was written. |
| `TenantScope.ScopedUpdateIsCompareAndSwap` | data/atomic.go:137-162 | The scoped UpdateIf writes iff the scoped Get would return a row showing exactly the expected values (an expected owner is replaced by the scope's), and afterwards Get returns the caller's model field by field, the owner being the scope's user. |
| `TenantScope.UserTable.InsertIfAbsent` | data/atomic.go:129-135 | Refused iff the model has no user field; inserts iff the key is free; the new row holds the caller's model and the scope's user, and no other row changes. |
| `TenantScope.UserTable.UpdateIf` | data/atomic.go:137-143 | Refused iff the model has no user field or an unknown column is named; otherwise writes iff the user has the row and every column the caller expects holds; the row then holds the caller's model and the scope's user, and other columns and rows stay. |
| `TenantScope.UserTable.DeleteIf` | data/atomic.go:145-147 | Refused iff an unknown column is named; removes exactly that row iff all columns and the owner hold. Rows of other or no user are unchanged. |
| `TenantScope.UserTable.Upsert` | data/atomic.go:149-155 | Refused iff the model has no user field; writes iff the key is free or the row is the user's; the row then holds the caller's model and the scope's user, and other columns and rows stay. |
| `TenantScope.UserTable.ScopedModel` | data/atomic.go:172-188 | A copy that has the scope's user in UserID and every other field as the caller's, refused iff the model has no such string field. |
| `TenantScope.UserTable.Get` | data/sql_common.go:283-296 | No rows iff there is no such row of the user; otherwise found iff every cell decodes, with the decoded fields. |
| `RevisionRuns.RevisionCountsWrites` | data/atomic.go:24-49 | In any interleaving of clients that expect revision b and write b+1, the final revision is the initial one (NULL read as zero) plus the number of successes. |
| `RevisionRuns.OneWinnerPerRevision` | data/atomic.go:24-49 | Two successful writers never used the same revision; later winners used larger ones. |
| `RevisionRuns.FreshReadWins` | data/atomic.go:24-49 | An attempt succeeds iff its base is the current revision. |
| `BalancedJson.ExtractBalancedJSONObject` | claudellm/parse.go:385-423 | The two nested loops return the scan-and-close specification. |
| `BalancedJson.CloseFromIffBalances` | claudellm/parse.go:393-419 | From a brace, the inner loop closes at an end iff the string-aware depth first returns to zero there; the end is unique. |
| `BalancedJson.ExtractsFirstBalanced` | codexllm/parse.go:396-445 | The result is the balanced region with the smallest start. |
| `BalancedJson.ExtractsNothing` | codexllm/parse.go:407-445 | The result is empty iff no region of the text balances. |
| `BalancedJson.NeutralValue` | claudellm/parse.go:393-419 | Printed JSON of any kind, with any whitespace and escapes, brings the scanner back to its state without going below its depth. |
| `BalancedJson.ExtractInvertsPrint` | codexllm/parse.go:407-445 | For every JSON object (RFC 8259), every prefix without an opening brace and every suffix, the printed object is extracted. |
| `StringOrder.AscendingUnique` | agent_net/pow.go:106-111 | A set of keys has one ascending enumeration, in whatever order it was collected. |
| `StringOrder.Sort` | agent_net/pow.go:111 | Different keys come out complete and ascending: each is a proper prefix of a later one, or smaller where they first differ. |
| `StringOrder.LessComesBefore` | agent_net/pow.go:111 | The comparison puts a before b iff a is a proper prefix of b or has the smaller character at the first difference. |
| `CanonicalJson.MarshalCanonical` | agent_net/pow.go:103-151 | The text depends only on the value, not on map iteration order. |
| `CanonicalJson.ReadsBack` | agent_net/pow.go:103-151 | A JSON reader recovers the value from its canonical text and stops right after it. |
| `CanonicalJson.CanonicalIsInjective` | agent_net/pow.go:103-151 | Two values have the same canonical text iff they are equal. |
| `CanonicalJson.KeysAscend` | agent_net/pow.go:106-132 | A reader of the text meets each member of an object once, in ascending order of names. |
| `CanonicalJson.TextIsSafe` | agent_net/pow.go:103-151 | However deep a string stands, no text contains a control character, `<`, `>`, `&` or the separators U+2028 and U+2029. |
| `CanonicalJson.EscapeForms` | agent_net/pow.go:121-149 | The escape of each character, as encoding/json writes it; all others stand for themselves. |
| `IndexDDL.NormalizeIndexDDL` | data/indexes.go:197-257 | The copying and collapsing loops compute the token-wise normal form. |
| `IndexDDL.ExecEquivalentToBase` | data/indexes.go:123-130 | For every index, table, columns and predicate, the statement executed is equivalent to the one compared. |
| `IndexDDL.BaseIdentity` | data/indexes.go:97-130 | Two built statements are equivalent iff they have the same trimmed index, table and columns and predicates that normalise alike. |
| `IndexReader.BuiltReads` | data/indexes.go:97-122 | A reader of the statements built, compared or executed, finds the trimmed index, table, columns in order and predicate, each where it belongs. |
| `IndexDDL.LiteralsAreExact` | data/indexes.go:186-195 | Two statements that differ only inside one terminated literal, anywhere outside other literals, are equivalent iff the literals are identical. |
| `IndexLetters.OnlyCaseIsIgnored` | data/indexes.go:186-257 | Two statements that differ in one character outside literals are equivalent iff the characters are one letter in two cases. |
| `IndexDDL.TightDiffers` | data/indexes.go:186-257 | For every definition, the statement without the blank before the column list is not equivalent to the one built. |
| `IndexDDL.ExtraBlank` | data/indexes.go:186-257 | A blank added between tokens and outside literals keeps a statement equivalent iff it stands beside another blank or has only white space on one side. |
| `IndexDDL.QuotedPrefix` | data/indexes.go:290-296 | Where a quoted identifier ends, and what it names, is determined by the text. |
| `IndexDDL.IndexCatalog.EnsureUniqueIndexWhere` | data/indexes.go:80-155 | On SQLite succeeds iff no name is blank, the statement runs and no different definition is stored under exactly that name; then adds the index unless the name is taken in some letter case, and changes nothing else. |
| `IndexDDL.EnsureTwice` | data/indexes.go:132-150 | A second definition under a name just created is accepted iff it defines the same index, and changes nothing. |
| `RateLimits.RateLimiter.CheckLimit` | agent_net/rate_limiter.go:24-39 | Minute first, then hour; refusal names the window and its retry time. |
| `RateLimits.RateLimiter.RecordRequest` | agent_net/rate_limiter.go:42-56 | Both counters of the key are bumped, nothing else changes. |
| `RateLimits.RateLimiter.Cleanup` | agent_net/rate_limiter.go:185-209 | Exactly the counters over two hours old go, the others stay as they are, and the number removed is returned. |
| `RateLimits.TableRefinesLog` | agent_net/rate_limiter.go:91-121 | After every run each stored count is the number of logged requests in its window, and none is later. |
| `RateLimits.CountsCurrentWindow` | agent_net/rate_limiter.go:59-121 | The count used for a decision is the number of logged requests in the aligned window of now. |
| `RateLimits.DecisionFromLog` | agent_net/rate_limiter.go:59-88 | A window admits iff it has no logged request or fewer than the limit. |
| `RateLimits.VerdictFromLog` | agent_net/rate_limiter.go:24-88 | From the log alone: refused for the minute if its limit was reached since the last full minute, else for the hour likewise, with the time until that window is over; else allowed. The limits are 1 and 10 for the free tier, 60 and 600 for premium. |
| `RateLimits.RetryAfterIsExact` | agent_net/rate_limiter.go:78-85 | The retry time is positive and at most a window, and without new requests the check passes from then on and not before. |
| `RateLimits.CleanupIsInvisible` | agent_net/rate_limiter.go:185-209 | Cleanup changes no later decision, counter or count. |
| `RateLimits.WindowBound` | agent_net/rate_limiter.go:24-121 | With at most c overlapping requests, at most max(1, limit) + c - 1 get through per window and twice that in any interval of a window's length; c = 1 is check-then-record. |
| `AgentLoop.ToolRunner.ExecuteToolsParallel` | agentic_loop/loop_run.go:282-333 | In any order of goroutines, slot i holds the id and name of call i and its result, or the notice if it is a deep_research_ tool called more than ten times; every call is counted, and over a whole run such a tool really runs min(calls, 10) times and any other every time. |
| `AgentLoop.RunLoop` | agentic_loop/loop_run.go:24-274 | The reported history is the given one, then each tool turn's reply and answers, then the closing contents of the reason it stopped; that reason is the true one, a context limit being a prompt over nine tenths of the context; every history sent to the model is paired; each tool is counted once per call of those turns. |
| `AgentLoop.ReportedText` | agentic_loop/loop_run.go:85-274 | The final text is the text of everything the run added to the history, in order, apart from the notice of the turn limit. |
| `AgentLoop.TranscriptPaired` | agentic_loop/loop_run.go:101-192 | Tool turns keep a history paired: every call answered once, at once and in order. |
| `AgentLoop.ReportsPaired` | agentic_loop/loop_run.go:101-274 | The reported history is paired whichever way the loop stops. |
| `AgentLoop.ModelRole` | agentic_loop/anthropic.go:206-207 | A role is the model's iff it is that word in any case between any white space. |
| `AnthropicMessages.SyntheticIdsClash` | agentic_loop/provider_http.go:18-24 | Made-up ids are equal iff position and name are, the name trimmed and `tool` where blank. |
| `AnthropicMessages.UseIDsClash` | agentic_loop/anthropic.go:281-285 | Two calls of one content are emitted under one id iff they carry the same id, or carry none and go by the same name, or one carries the id made up for the other. |
| `AnthropicMessages.PendingCalls.ConsumePendingToolCall` | agentic_loop/provider_http.go:26-42 | Removes and returns the first pending call of the trimmed name, else the oldest, else nothing; the others stay in order. |
| `AnthropicMessages.OrphansAreNumbered` | agentic_loop/anthropic.go:177-204 | A response for which no call is pending gets the id made up from its own place and name. |
| `AnthropicMessages.AnthropicAssistantBlocks` | agentic_loop/anthropic.go:268-298 | Text and tool_use blocks of the parts that are no thoughts, with the calls that become pending under the ids emitted. |
| `AnthropicMessages.ContentsToAnthropicMessages` | agentic_loop/anthropic.go:159-236 | The loop over pending calls and pending results computes the converted messages, which say all that the contents say and none of which is empty. |
| `AnthropicMessages.ConversionKeepsContent` | agentic_loop/anthropic.go:159-298 | For every history the messages say, in order and in the role of the content, exactly: the texts that are no thoughts, the user's images without text, each call with its own id, name and arguments, and the payload of each response. |
| `AnthropicMessages.GroupConverts` | agentic_loop/anthropic.go:173-234 | A run of responses becomes one user message right after the message of the content before it. |
| `AnthropicMessages.AssignedByName` | agentic_loop/provider_http.go:26-42 | For permuted results, the k-th response of a name gets the id of the k-th pending call of that name. |
| `AnthropicMessages.PermutedResults` | agentic_loop/anthropic.go:177-204 | The same inside a conversion. |
| `AnthropicMessages.EachResultNamesItsCall` | agentic_loop/anthropic.go:159-236 | In a paired group the k-th tool_result carries the id emitted for call k and the payload that answers it. |
| `AnthropicMessages.AnsweredIffAnnounced` | agentic_loop/anthropic.go:159-298 | For paired histories, every assistant message's calls have different ids and are answered exactly, in order, in the next message and nowhere else, iff no call is in a thought or outside a model content and no two calls of a content share an id. |
| `AnthropicMessages.LoopToProvider` | agentic_loop/loop_run.go:24-274 | The same for whatever history the loop reports. |
| `ProofOfWork.CountLeadingZeroBits` | agent_net/pow.go:65-82 | The count reaches d iff the bytes, read as a big-endian number, are below 2^(8n-d). |
| `ProofOfWork.TopBit` | agent_net/pow.go:65-82 | A number whose top bit is bit n-1 meets exactly the difficulties up to 8 times its length minus n. |

## Left out

- `Executor.GraphExecutor.Execute`: one main-loop iteration is one step, so a worker's channel operation is not interleaved between the writes of one cascade; workers read results only through their own dependencies, which the cascade does not touch.
- `AgentLoop.RunLoop`: compaction, events and token totals are not modelled; histories hold no nil contents or parts, and the model's replies are assumed to contain no function responses.
- `RateLimits.WindowBound`: each check and each record is one step; two processes that lose an update of the same counter are not modelled.
- `A2AService.Service.SubmitJob`: concurrent submits with one idempotency key can both insert in the source, where lookup and insert are outside the mutex; here a submit is one step, and the size checks of the envelope enter as one accept-or-reject value.
- `A2AService.Service.DueCallbacks`: which of several equally due callbacks come first is left open; in the source it is the order in which the database returns them.
- `SqlTables.SqlTable.UpdateIf`: conditions and assignments are syntax trees with positional parameters, not SQL text; the database's evaluation of them is the evaluator here.
- `IndexDDL.IndexCatalog.EnsureUniqueIndexWhere`: PostgreSQL, which skips the comparison, is not modelled; whether the database runs the statement is an input.
- The event channel of `Execute`, prompts, model calls, command-line processes, HTTP, SQL drivers and blockchain calls.
- Executing a node and running a tool: their outcomes are arbitrary.
- Cryptography: Ed25519, Argon2, SHA-256, HMAC and key derivation. Rate-limit records are keyed by the pair that the source hashes.
- Stored times of jobs are rounded down to a tick that divides a second (whole seconds on SQLite); PostgreSQL's rounding is not modelled, and job copies returned to callers carry the unrounded times in the source.
- The event audit table of jobs and job retrieval by id.
- The SQLite codec is known by its laws: a value that its text can represent can be read back and written again with the same text. Years past 9999, offsets of a day or more and integers beyond float64 inside `any` are outside the laws; integer widths, NaN, and pointers to the empty string (which SQLite reads back as nil) are left out; expected times are in whole seconds.
- Unique constraints other than the key, transactions, and the scoped `Update`, which delegates without a filter.
- Aliasing of the caller's model by scoped writes: models are values here, so the copy in `scopedModel` cannot leak.
- The query for remaining requests, and `VerifyPoW` around the bit count, which only compare values already described.
- Message rate windows, where the hour window falls into the default duration of a minute.
- `CanonicalJson.CanonicalIsInjective`: a JSON number stands for its token; the round trip through float64 before printing (agent_net/pow.go:84-100), which merges integers beyond its precision, is not modelled.
- The media type of an image, which stands here for its data.
- OpenAI and Gemini conversions, which use the same pending list.
- `deep_research`, knowledge graphs, pollers and the other applications.
