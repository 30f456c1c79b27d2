# A verified model of the agent runtime's concurrent and text-handling cores

This project models, in Dafny, the parts of the agent factory whose behaviour is hardest to see by reading one
function at a time, and proves what they promise for every input, run and interleaving.

- **Cleanup mutations** (`CleanupMutationPolicy.dfy`): a guard runs a caller-supplied executor it does not trust. The
  executor is an arbitrary trace of invocations, settlements of the mutation and settlements of its own.
- **The Linear call governor** (`RateLimiter.dfy`, `CircuitBreaker.dfy`, `AgentClient.dfy`): a token bucket with
  a queue, a timer and penalties; a breaker with lazy half-open probes and backoff; and the client whose guarded calls
  nest, run against arbitrary surroundings that use the same breaker wherever a call waits for a token, a reply or
  a delay. Times are real numbers, and a run is a sequence of events at non-decreasing times.
- **Comments** (`FenceScan.dfy`, `CommentSplitter.dfy`, `CompletionComments.dfy`): splitting long texts at boundaries
  outside code blocks, as the code's own scan for triple backticks sees them, and the completion comments on top.
- **Checkboxes** (`Checkboxes.dfy`): parsing and updating markdown checkboxes by index.
- **Status streams** (`SseStream.dfy`): the polling event source and the relay that sends its events to a client.
- **Observation clustering** (`Clustering.dfy`, `ObservationPass.dfy`): greedy clustering by Jaccard similarity, the
  confidence of clusters, and the pass that contributes or discards them.
- **Daemon** (`WorkerSpawner.dfy`, `Daemon.dfy`): the session table under accept, exit, error, drain and expiry, and
  the daemon's `stop` and `update` on top of it.

Where the source updates state, a class with the same fields has methods proved equal to one step of a pure
specification, and where it loops, a method has the same loop; the properties are lemmas about the specification's
runs. Strings are sequences of characters of one UTF-16 code unit each, numbers are `int` or `real`.

## Where the code differs from what is said about it

- The splitting strategy states that code blocks are never split (`packages/linear/src/utils.ts:187`). Two branches do, and
  `CommentSplitter.SplitInsideLaw` and `CommentSplitter.SplitInsideByInput` say exactly when: the last resort, when the
  target is inside a block (`CommentSplitter.SolidBlockIsBroken`) or in the middle of a fence that closes one
  (`CommentSplitter.ClosingFenceIsCut`), and the search for the end of the block, when further fences follow on the
  line (`CommentSplitter.BlockEndSplitsInside`). `CommentSplitter.SafeCutLaw` adds the cuts through a fence that opens a
  block (`CommentSplitter.OpeningFenceIsCut`).
- Comments can exceed the maximum length: `CommentSplitter.LengthLaw` says exactly when,
  `CommentSplitter.LongFenceLineIsTooLong` gives inputs.
- The splitting path of the completion comments can yield a single part: `CompletionComments.SingleCommentLaw` says
  exactly when, `CompletionComments.DoneAndBlanks` gives inputs.
- A continuation marker in the summary itself, or completed by it behind the header, is removed with the splitter's own:
  `CompletionComments.SummaryIsPreserved` says exactly when a part is intact, `CompletionComments.ContinuedIsLost`
  gives inputs.
- A failed half-open probe is said to reopen the breaker (`packages/linear/src/circuit-breaker.ts:13-14`). Only an auth failure
  does; an error of another kind is not reported, and the breaker then admits nobody until a reset or a report from
  elsewhere: `AgentClient.LeafProbe`, `CircuitBreakers.UnreportedProbeBlocks`. A status change as the probe always ends in
  an error: `AgentClient.StatusChangeProbe`.
- One auth error of a nested call counts twice, exactly as `AgentClient.AuthErrorLaw` states.
- A later penalty replaces an earlier one, also a longer one: `RateLimiter.PenaltyLaw` says exactly when the earlier
  one is still honoured.
- The value of a fresh cleanup result is the executor's claim: `CleanupMutationPolicy.FreshValueIsTheExecutorsClaim`.
- An observation repeated at once always joins its own cluster, but one repeated later need not:
  `Clustering.LaterRepeatLaw`, `Clustering.LaterRepeatMayNotJoin`.
- An expired drain is said to be logged and not thrown again (`packages/daemon/src/daemon.ts:414`). It is thrown exactly if
  nobody listens for `error`: `Daemons.DaemonService.AfterDrain`; `stop` then rejects and, without another `stop`, the
  daemon never stops: `Daemons.UnheardExpiryNeverStops`.
- Sessions are keyed by id alone, so that the capacity bounds entries rather than processes:
  `WorkerSpawners.ExactTableBoundsChildren` and `Daemons.DaemonExactness` say exactly when these are as many,
  `WorkerSpawners.LiveChildrenExceedCapacity` and `Daemons.ShadowedChildSurvivesStop` what happens otherwise.

## Model

| member | source | states |
|---|---|---|
| CleanupMutationPolicy.ValidationLaw | packages/server/src/cleanup-mutation-policy.ts:69-98 | Any value an executor returns is accepted as a result exactly if an honest executor may report that result and the value is an object that agrees with it in verdict, code and detail, or replay flag and presence of a value; further fields do not matter. |
| CleanupMutationPolicy.ValidateInvertsEncode | packages/server/src/cleanup-mutation-policy.ts:69-98 | The executor's own object for a result is accepted as that result if it is honest, and otherwise not at all. |
| CleanupMutationPolicy.FlagsTellTheTrace | packages/server/src/cleanup-mutation-policy.ts:157-196 | As long as the guard has not decided, its flags are what the trace says: `entered` is at least one invocation, `duplicateAttempted` at least two, also swallowed ones, `completed` that the mutation has succeeded, and the mutation was started once exactly if the closure was invoked. |
| CleanupMutationPolicy.DecisionIsFinal | packages/server/src/cleanup-mutation-policy.ts:161-166 | After settlement no invocation starts the mutation, and no later event changes the outcome. |
| CleanupMutationPolicy.DecidedOutcome | packages/server/src/cleanup-mutation-policy.ts:186-258 | For every trace the outcome is a function of the invocations, the fate of the mutation and the first settlement before the guard goes on. |
| CleanupMutationPolicy.FreshSuccessLaw | packages/server/src/cleanup-mutation-policy.ts:198-257 | A fresh success is returned if and only if the executor settled with that valid fresh result, invoked the closure once and only once, and the mutation had succeeded by then. |
| CleanupMutationPolicy.FailClosed | packages/server/src/cleanup-mutation-policy.ts:198-258 | For every trace: a refusal or a replay is returned if and only if the closure was never invoked, in which case the mutation has not started and never will; once started, the outcome is a fresh success or a thrown execution error. |
| CleanupMutationPolicy.UninvokedResult | packages/server/src/cleanup-mutation-policy.ts:204-251 | Without an invocation the caller gets the executor's own valid refusal or replay unchanged, and for anything else a refusal with code `mutation_executor_failed` whose detail is the executor's message, or says that its value was malformed or that it claimed a fresh result without invoking. |
| CleanupMutationPolicy.AmbiguousReason | packages/server/src/cleanup-mutation-policy.ts:198-256 | With an invocation and no fresh success, for every trace, which error is thrown: a second invocation comes first, then the executor's own failure, then malformed output, a refusal or a replay, and last a mutation that had not succeeded. |
| CleanupMutationPolicy.AtMostOneStart | packages/server/src/cleanup-mutation-policy.ts:161-184 | Whatever the executor does, before or after settlement, the raw mutation starts at most once. |
| CleanupMutationPolicy.FreshValueIsTheExecutorsClaim | packages/server/src/cleanup-mutation-policy.ts:221-257 | The value of a fresh success is not checked against the mutation's: any value the executor claims after a proper run is passed on. |
| CleanupMutationPolicy.GuardedMutation.Invoke | packages/server/src/cleanup-mutation-policy.ts:161-175 | An invocation is rejected after settlement, then as a second one, each with its own error, and otherwise starts the mutation. |
| CleanupMutationPolicy.GuardedMutation.MutationSettles | packages/server/src/cleanup-mutation-policy.ts:175-183 | The settling of the raw mutation sets `completed` only for a success. |
| CleanupMutationPolicy.GuardedMutation.Settled | packages/server/src/cleanup-mutation-policy.ts:186-194 | The first settlement of the executor is the one that counts. |
| CleanupMutationPolicy.GuardedMutation.Conclude | packages/server/src/cleanup-mutation-policy.ts:194-258 | Deactivates the closure and reaches the specified outcome. |
| CleanupMutationPolicy.GuardedMutation.Judge | packages/server/src/cleanup-mutation-policy.ts:198-258 | The chain of decisions, branch by branch, gives the specified outcome. |
| CleanupMutationPolicy.ExecuteCleanupMutation | packages/server/src/cleanup-mutation-policy.ts:139-258 | Driven by an arbitrary trace the guard object ends with the specified outcome, has started the mutation at most once, and not at all for a refusal or replay. |
| CleanupMutationPolicy.ExecuteUnderPolicy | packages/server/src/cleanup-mutation-policy.ts:104-154 | Without an executor the mutation starts exactly if there is no policy or it answers with a truthy `permitted`; a refusal with a code that is not blank is returned with its own code and detail; a blank or missing code and a throwing policy become refusals with code `pre_mutation_predicate_failed`. |
| RateLimiter.InvRun | packages/linear/src/rate-limiter.ts:38-113 | In every run the tokens stay between 0 and the maximum, the bucket is empty while its baseline is in the future, and a timer is pending exactly while somebody waits. |
| RateLimiter.GrantsCostCredit | packages/linear/src/rate-limiter.ts:38-119 | Grants are paid for: grants plus the credit left are at most the credit before plus what the time between refills, a baseline in the future counting as frozen. |
| RateLimiter.RateBound | packages/linear/src/rate-limiter.ts:38-119 | In every run, whatever the requests, firings, reads and penalties of at least 0, the grants in a window from t0 to t1, in milliseconds, are at most `maxTokens + refillRate * (t1 - t0) / 1000`. |
| RateLimiter.FullBurst | packages/linear/src/rate-limiter.ts:29-76 | From construction on, any requests made at one moment, as many as the maximum at most, are all granted at once and in order. |
| RateLimiter.BurstLaw | packages/linear/src/rate-limiter.ts:38-96 | Requests made at one moment of an idle bucket in any state are granted exactly as far as the whole tokens refilled by then go, the first ones; the others wait in order, with a timer due 1000 / `refillRate` ms later. |
| RateLimiter.PenaltySignLaw | packages/linear/src/rate-limiter.ts:108-113 | For every setting, penalties of a length let some run exceed the bound if and only if that length is below 0 and the bucket can hold a token. |
| RateLimiter.FirstComeFirstServed | packages/linear/src/rate-limiter.ts:52-76 | Those served followed by those waiting are those who waited before followed by the newcomers: arrival order, no overtaking, nobody lost or served twice. |
| RateLimiter.ArmedRun | packages/linear/src/rate-limiter.ts:79-113 | In every run, when the pending timer fires, or one token's time after the last penalty ended if that is later, there will be a token for the first waiter. |
| RateLimiter.TimelyFiringServes | packages/linear/src/rate-limiter.ts:84-95 | A firing at least one token's time after the last penalty ended serves somebody. |
| RateLimiter.FiringsServe | packages/linear/src/rate-limiter.ts:84-95 | Without penalties each such firing serves a waiter, until the original queue is empty. |
| RateLimiter.BoundedWaiting | packages/linear/src/rate-limiter.ts:52-96 | In every run from construction a waiter at position k is served within k + 1 firings that come one token's time after the last penalty. |
| RateLimiter.BoundedWaitingWithoutPenalties | packages/linear/src/rate-limiter.ts:52-96 | Without penalties every firing counts: a waiter at position k is served within k + 1 firings. |
| RateLimiter.PenaltyHolds | packages/linear/src/rate-limiter.ts:108-113 | After a penalty of s seconds nothing is granted before its end and one token's time more, in any run whose further penalties do not end earlier. |
| RateLimiter.PenaltyLaw | packages/linear/src/rate-limiter.ts:108-113 | Exactly when a penalty is honoured although others follow: in every run from construction, after any events before its end, nothing can be granted before its end and one token's time more if and only if the last penalty given since ends no earlier than it does. |
| RateLimiter.LaterPenaltyReplacesLonger | packages/linear/src/rate-limiter.ts:108-113 | For instance a shorter penalty given right after a longer one lets a request through while the longer one has yet to end. |
| RateLimiter.TokenBucket.RefillTokens | packages/linear/src/rate-limiter.ts:38-49 | Refilling skips a baseline in the future and caps at the maximum. |
| RateLimiter.TokenBucket.Drain | packages/linear/src/rate-limiter.ts:52-58 | The draining loop serves the specified waiters in order. |
| RateLimiter.TokenBucket.Schedule | packages/linear/src/rate-limiter.ts:81-85 | At most one timer is pending, and a new one is due after 1000 / `refillRate` ms. |
| RateLimiter.TokenBucket.AcquireToken | packages/linear/src/rate-limiter.ts:64-76 | A request is granted at once only if a token is there and nobody waits; otherwise it is queued with a timer. |
| RateLimiter.TokenBucket.OnTimer | packages/linear/src/rate-limiter.ts:86-95 | A firing refills, drains and reschedules. |
| RateLimiter.TokenBucket.PenalizeFor | packages/linear/src/rate-limiter.ts:108-113 | A penalty of s seconds empties the bucket and moves the baseline to s * 1000 ms from now. |
| RateLimiter.TokenBucket.AvailableTokens | packages/linear/src/rate-limiter.ts:116-119 | Reading refills, and returns the whole tokens. |
| CircuitBreakers.InvRun | packages/linear/src/circuit-breaker.ts:43-105 | In every reachable state closed is the same as failures below the threshold, a probe is in flight only when half-open, and the timeout is between the plain and the greatest one. |
| CircuitBreakers.BackoffLaw | packages/linear/src/circuit-breaker.ts:75-105 | After k failed probes since the last close the reset timeout is the plain one times the multiplier to the k, capped. |
| CircuitBreakers.TripsAtThreshold | packages/linear/src/circuit-breaker.ts:88-105 | From closed, without a success, the breaker is closed exactly while the failures are below the threshold, and until then every single call is admitted. |
| CircuitBreakers.OpenBlocks | packages/linear/src/circuit-breaker.ts:43-70 | Until its timeout is over an open breaker admits nobody, in every run without a success or reset, whatever late failures arrive. |
| CircuitBreakers.OpenAdmitsOneProbe | packages/linear/src/circuit-breaker.ts:43-70 | In every run of an open breaker without a report exactly one call is admitted: the first to ask at or after the end of the timeout. |
| CircuitBreakers.FirstAskingIsFirst | packages/linear/src/circuit-breaker.ts:56-70 | That is the first event of the run which asks at or after that time, and none if there is no such event. |
| CircuitBreakers.TripBlocks | packages/linear/src/circuit-breaker.ts:88-105 | An auth failure that reaches the threshold, or comes half-open or open, refuses everybody from its own time on for the plain timeout, the multiplied and capped one, or the present one; with no report, the first to ask after that is the one admitted. |
| CircuitBreakers.CloseForgets | packages/linear/src/circuit-breaker.ts:75-82 | After a success or a reset every run admits exactly what it admits of a new breaker: everything, and closed, until the failures since reach the threshold. |
| CircuitBreakers.AdmissionSpacing | packages/linear/src/circuit-breaker.ts:43-105 | In a stretch that starts not closed and has no success and no reset, whatever late failures arrive, admissions are apart by at least the sum of the successively longer timeouts between them. |
| CircuitBreakers.PatienceAtLeast | packages/linear/src/circuit-breaker.ts:75-105 | That sum is at least as many plain timeouts. |
| CircuitBreakers.AdmissionsInWindow | packages/linear/src/circuit-breaker.ts:43-105 | A window of such a stretch too short for n of the growing timeouts has at most n admissions. |
| CircuitBreakers.AdmissionRate | packages/linear/src/circuit-breaker.ts:43-105 | A window of length L of such a stretch has at most 1 + L / resetTimeoutMs admissions. |
| CircuitBreakers.ReportLeavesHalfOpen | packages/linear/src/circuit-breaker.ts:75-105 | A reported outcome always leaves half-open: to closed after a success or reset, to open with the longer timeout after an auth failure. |
| CircuitBreakers.UnreportedProbeBlocks | packages/linear/src/circuit-breaker.ts:43-70 | While a probe is in flight and nobody reports, nothing changes and nobody is admitted, at any time. |
| CircuitBreakers.CircuitBreaker.GetState | packages/linear/src/circuit-breaker.ts:43-50 | Reading the state makes an open breaker half-open exactly from `openedAt` plus the timeout on. |
| CircuitBreakers.CircuitBreaker.MayProceed | packages/linear/src/circuit-breaker.ts:56-70 | Admits everybody when closed and changes nothing, when open exactly from the end of the timeout on, and one probe when half-open. |
| CircuitBreakers.CircuitBreaker.OnSuccess | packages/linear/src/circuit-breaker.ts:75-82 | A success closes, clears failures and probe, and resets the timeout. |
| CircuitBreakers.CircuitBreaker.OnAuthFailure | packages/linear/src/circuit-breaker.ts:88-105 | A failure counts and clears the probe; half-open or at the threshold the breaker is open from now, and otherwise as before. |
| CircuitBreakers.CircuitBreaker.ResetToClosed | packages/linear/src/circuit-breaker.ts:151-156 | A reset restores the initial state. |
| AgentClient.CallsAreOrderly | packages/linear/src/agent-client.ts:92-145 | In every call, nested ones included, with any surroundings: each start follows one admission and one token; a refusal costs no token and ends the loop and the whole call. |
| AgentClient.LeafCost | packages/linear/src/retry.ts:77-124 | A plain call uses at most one token an attempt, and a successful fetch of statuses fills the cache. |
| AgentClient.StatusCost | packages/linear/src/agent-client.ts:207-256 | The remaining attempts of a status change cost their own tokens and the update's, and the fetch's only until the cache is filled. |
| AgentClient.StatusChangeTokens | packages/linear/src/agent-client.ts:229-256 | One `updateIssueStatus` uses at most (R + 1)(R + 3) tokens when the issue stays in one team, and at most (R + 1)(2R + 3) in any case. |
| AgentClient.StartsUseTokens | packages/linear/src/agent-client.ts:92-106 | Every start in an orderly log has used one token, and at most one token waits for its start. |
| AgentClient.StartsWithinRate | packages/linear/src/rate-limiter.ts:38-76 | So the limiter bounds the starts of any number of calls: those whose tokens are grants of one bucket in a window from t0 to t1 are at most `maxTokens + refillRate * (t1 - t0) / 1000`. |
| AgentClient.LeafRetries | packages/linear/src/retry.ts:77-124 | A plain call is tried again exactly while its attempts fail retryably, attempts are left and the breaker admits; its whole log is that of its attempts with the waits between them: the server's delay or the backed-off one is slept, and each server delay, in order and divided by 1000, is a penalty in seconds, with no other penalty. |
| AgentClient.ServerDelayIsHonoured | packages/linear/src/agent-client.ts:127-136 | Once the limiter has taken such a penalty it grants nothing before the server's delay has passed, in every run whose later penalties end no earlier. |
| AgentClient.DelayRecurrence | packages/linear/src/retry.ts:25-32 | The first backed-off delay is the initial one and each next one the one before times the multiplier, both capped. |
| AgentClient.DelaysLaw | packages/linear/src/retry.ts:25-32 | For every setting backed-off delays are at most the maximum; they never get shorter with a multiplier of at least 1, and never longer with one between 0 and 1. |
| AgentClient.SuccessesAreCounted | packages/linear/src/agent-client.ts:107-113 | The call counter grows by one for each guarded call that succeeds, nested ones included, and by nothing else. |
| AgentClient.CleanStatusChange | packages/linear/src/agent-client.ts:207-256 | When nothing goes wrong a status change fetches the team's statuses exactly if they are not cached, then updates the issue, each nested call with its own admission and token, and succeeds last. |
| AgentClient.AuthErrorLaw | packages/linear/src/agent-client.ts:107-125 | How often an auth error that ends an attempt of a status change is recorded, for every setting and surrounding: once if it comes from one of its own two lookups, and twice in a row, for the nested call and for the status change, if it comes from the update or from fetching the statuses. |
| AgentClient.StatusErrors | packages/linear/src/agent-client.ts:229-256 | A status change one of whose own lookups fails ends with that error. |
| AgentClient.TwoFailures | packages/linear/src/circuit-breaker.ts:88-105 | Two reports in a row add two failures, and trip a closed breaker two short of its threshold. |
| AgentClient.NestedAuthErrorCountsTwice | packages/linear/src/agent-client.ts:229-256 | For instance, with nobody else at the breaker, a single auth error of the nested update adds two failures. |
| AgentClient.RefusedDuringProbe | packages/linear/src/agent-client.ts:94-105 | While a probe is out every guarded call is refused at once and leaves no trace but the refusal. |
| AgentClient.LeafProbe | packages/linear/src/agent-client.ts:107-125 | A plain call as probe closes the breaker, reopens it, or with an error that is not an auth error leaves the probe out. |
| AgentClient.StatusChangeProbe | packages/linear/src/agent-client.ts:229-256 | A status change as probe never succeeds, since its nested calls are refused; it reopens the breaker after an auth error of its own and in all other cases leaves the probe out. |
| AgentClient.StatusChangeBlocksBreaker | packages/linear/src/agent-client.ts:229-256 | So the whole call, with all its retries, ends in an error with the breaker half-open and its probe out. |
| AgentClient.LinearAgentClient.WithRetry | packages/linear/src/retry.ts:77-124 | The retry loop: attempts, the last error, no retry for an error that is not retryable, penalty and wait in between. |
| AgentClient.LinearAgentClient.AttemptOnce | packages/linear/src/agent-client.ts:92-126 | One attempt: breaker, token, call, report. |
| AgentClient.LinearAgentClient.ReportOutcome | packages/linear/src/agent-client.ts:107-125 | Success and auth errors are reported, anything else is not. |
| AgentClient.LinearAgentClient.WaitAfter | packages/linear/src/retry.ts:98-121 | The wait between attempts equals the specified one, which `LeafRetries` pins: penalty in seconds, then sleep, for the server's delay, or capped exponential backoff. |
| AgentClient.LinearAgentClient.Execute | packages/linear/src/agent-client.ts:166-256 | The bodies of the three calls, the status cache included. |
| FenceScan.IsInsideCodeBlock | packages/linear/src/utils.ts:118-130 | The toggle loop answers as the recursive scan does. |
| FenceScan.TickRun | packages/linear/src/utils.ts:118-130 | A run of k backticks counts as k / 3 fences, each of which turns code on or off. |
| FenceScan.PlainRun | packages/linear/src/utils.ts:118-130 | Text without backticks leaves the scan state alone. |
| FenceScan.ScanIsPrefixReading | packages/linear/src/utils.ts:118-130 | At a position where the scan lands its answer depends on the text before it only. |
| FenceScan.LandsBeforeNonTick | packages/linear/src/utils.ts:118-130 | The scan lands before and after each character that is not a backtick. |
| FenceScan.CutReading | packages/linear/src/utils.ts:118-130 | Cutting a text where the scan lands cuts the reading of it, character by character, in two. |
| FenceScan.BlankReading | packages/linear/src/utils.ts:118-130 | White space has no influence on the scan. |
| FenceScan.ReadsUpTo | packages/linear/src/utils.ts:118-130 | The text before a position ends inside a code block exactly if the check for the position says so and stops there, or says the opposite and stops later, behind a fence the position is in the middle of. |
| FenceScan.ReadsOn | packages/linear/src/utils.ts:118-130 | The text before any later position ends inside one by the check's answer and the parity of the fences counted from where it stopped. |
| CommentSplitter.LastAtIsLast | packages/linear/src/utils.ts:140-167 | `lastIndexOf` finds the last occurrence. |
| CommentSplitter.FirstAtIsFirst | packages/linear/src/utils.ts:118-172 | `indexOf` finds the first occurrence. |
| CommentSplitter.SplitPointBounds | packages/linear/src/utils.ts:135-177 | A split point is inside the text, after its start, and at most one past the target unless the end of a code block was looked for. |
| CommentSplitter.CleanSplit | packages/linear/src/utils.ts:140-167 | At a paragraph, sentence, line or word the scan lands on the split point, outside every code block. |
| CommentSplitter.SplitPreference | packages/linear/src/utils.ts:135-167 | Of the usable boundaries (the last one up to the target, far enough and outside code blocks) a paragraph is taken before a sentence, a line before a word; each exactly if no better kind has a usable one. |
| CommentSplitter.LastResorts | packages/linear/src/utils.ts:169-176 | Without a usable boundary a target inside a block is moved to the line end behind the next fence, if that begins before one and a half times the target; otherwise the split is at the target. |
| CommentSplitter.TurnCuts | packages/linear/src/utils.ts:209-220 | A turn of the loop drops nothing but white space around the split point. |
| CommentSplitter.OneTurn | packages/linear/src/utils.ts:207-220 | The loop's body computes that turn. |
| CommentSplitter.SplitIntoComments | packages/linear/src/utils.ts:189-246 | The loops of the splitter compute the specified comments. |
| CommentSplitter.NumberAll | packages/linear/src/utils.ts:231-245 | The final pass numbers and marks the chunks. |
| CommentSplitter.PiecesConserve | packages/linear/src/utils.ts:200-229 | Whatever the lengths, the characters of the pieces that are not white space, followed by those of what is left over, are those of the text. |
| CommentSplitter.NothingLeftOver | packages/linear/src/utils.ts:204-229 | For a maximum length of at least 133 every turn shortens the text: with a comment allowed for each character nothing is left over. |
| CommentSplitter.PartsAreNumbered | packages/linear/src/utils.ts:194-245 | The parts are numbered 1 to n out of n, and n is at most the maximum if more than one; a text that fits with room to spare for the markers is a single comment unchanged. |
| CommentSplitter.DecimalValue | packages/linear/src/utils.ts:231-245 | A part number is written as the digits that stand for it, without a leading zero. |
| CommentSplitter.CommentContents | packages/linear/src/utils.ts:222-245 | Comment i of a split text is its piece, truncated visibly if it is the last and text is left over, and among several followed by the continuation marker on all but the last and by i + 1 and their count, in this order. |
| CommentSplitter.SinglePartLaw | packages/linear/src/utils.ts:189-246 | A text too long for one comment yields a single part if and only if it is not empty and only one is allowed or all behind the first split point is white space. |
| CommentSplitter.SinglePartByLength | packages/linear/src/utils.ts:189-246 | In terms of lengths: a text that without white space at its end is at most three tenths of the target yields a single part, one without fences that exceeds the target by more than one yields several. |
| CommentSplitter.SafeCutsAgree | packages/linear/src/utils.ts:204-229 | When no cut is inside a code block or a fence, whatever branch chose it, reading the chunks one by one agrees with reading the whole text despite trimming, and each chunk but one that ends the text begins and ends outside a code block. |
| CommentSplitter.FenceSafety | packages/linear/src/utils.ts:204-229 | That holds when every split is at a paragraph, sentence, line or word. |
| CommentSplitter.SolidBlockIsBroken | packages/linear/src/utils.ts:169-176 | A text that opens a code block and then holds no blank, line end, period or backtick is split inside the block, at every target of at least three that is shorter than the text. |
| CommentSplitter.SplitInsideLaw | packages/linear/src/utils.ts:135-177 | Exactly when the text before a split ends inside a code block: never at a boundary; at the last resort if the target is inside, or is taken to be outside while it is in the middle of a fence; behind the next fence if an even number of fences is counted from the target to there. |
| CommentSplitter.SplitInsideByInput | packages/linear/src/utils.ts:135-177 | The same in terms of the text, the target, the next fence and the line end behind it only. |
| CommentSplitter.SafeCutLaw | packages/linear/src/utils.ts:135-177 | Exactly when a split spares code blocks and fences, branch by branch. |
| CommentSplitter.BlockEndSplitsInside | packages/linear/src/utils.ts:169-172 | An input for which the search for the end of a code block splits inside one. |
| CommentSplitter.ClosingFenceIsCut | packages/linear/src/utils.ts:169-176 | An input for which the last resort cuts a closing fence that the check takes to be passed: the text before the split ends inside the block. |
| CommentSplitter.OpeningFenceIsCut | packages/linear/src/utils.ts:169-176 | An input for which it cuts an opening fence: the text before ends outside, but the cut does not spare the fence. |
| CommentSplitter.NoFenceNoneAfterFence | packages/linear/src/utils.ts:169-172 | Text without fences never takes the branch without an upper bound. |
| CommentSplitter.PieceLengths | packages/linear/src/utils.ts:204-229 | Every piece fits, and those that get a continuation marker leave room for it but for one character. |
| CommentSplitter.LengthBudget | packages/linear/src/utils.ts:189-246 | With a maximum length of at least 133 every comment is within it, unless the end of a code block was looked for. |
| CommentSplitter.LongTurnLaw | packages/linear/src/utils.ts:207-220 | A turn's chunk is longer than the boundaries allow exactly if no boundary is usable, the split goes behind the next fence, and its line holds something but white space from that length on. |
| CommentSplitter.LengthLaw | packages/linear/src/utils.ts:189-246 | Exactly when a comment exceeds the maximum length, for every part of every text that is split: if the turn that took it went behind the next fence and the line of that fence holds something but white space where the comment with its markers is full. |
| CommentSplitter.LongFenceLineIsTooLong | packages/linear/src/utils.ts:189-246 | Texts for which the first comment does, for every maximum length of at least 139. |
| CompletionComments.TruncateLength | packages/linear/src/utils.ts:18-28 | A cut text is exactly as long as allowed, or as the marker if even that does not fit. |
| CompletionComments.CommentBudget | packages/linear/src/utils.ts:38-104 | The single completion comment is within the maximum length, for every summary and plan, if and only if the truncation marker fits. |
| CompletionComments.CommentShape | packages/linear/src/utils.ts:38-104 | The single comment is everything if that fits; else header, summary or more than 100 of its characters with the truncation marker, abbreviated plan and session; else the beginning of everything and the marker. |
| CompletionComments.PlanIsListed | packages/linear/src/utils.ts:56-59 | The full plan is one line for each item in order, icon and title, and splits into just these lines. |
| CompletionComments.AbbreviatedCounts | packages/linear/src/utils.ts:61-71 | The abbreviated plan gives the numbers of completed, pending and canceled items, the latter two only if not 0. |
| CompletionComments.BuildersAgree | packages/linear/src/utils.ts:290-300 | When neither form has to be cut, building several comments gives the single comment and nothing else. |
| CompletionComments.SingleCommentLaw | packages/linear/src/utils.ts:303-354 | On the splitting path a single comment comes out if and only if the summary is not empty and all of it behind its first split point is white space. |
| CompletionComments.SingleCommentByLength | packages/linear/src/utils.ts:303-354 | In terms of lengths, as for the splitter. |
| CompletionComments.DoneAndBlanks | packages/linear/src/utils.ts:303-354 | Inputs for which it does, for every plan: one word followed by as many blanks as the maximum length. |
| CompletionComments.CompletionBudget | packages/linear/src/utils.ts:255-357 | With room beside header and suffix, and if no turn looked for the end of a code block, every completion comment is within the maximum length. |
| CompletionComments.StripInvertsMarker | packages/linear/src/utils.ts:302-357 | Removing a part marker undoes adding it. |
| CompletionComments.PiecesAreParts | packages/linear/src/utils.ts:204-229 | Every piece is a contiguous part of the text. |
| CompletionComments.RebuiltIsExpected | packages/linear/src/utils.ts:322-354 | Taking the splitter's markers off a part and putting new ones on leaves its piece of the summary intact if and only if it is the only part or the continuation marker does not occur in its own text. |
| CompletionComments.SummaryIsPreserved | packages/linear/src/utils.ts:303-356 | So it is for every part of every summary on the splitting path, of which the pieces are exactly the splitter's. |
| CompletionComments.PartBody | packages/linear/src/utils.ts:322-354 | An intact part is the header if it is the first, its piece, plan and session if it is the last, and among several the continuation marker on all but the last and its number and theirs. |
| CompletionComments.FreeSummaryIsPreserved | packages/linear/src/utils.ts:303-356 | A summary without the continuation marker, behind the header, is preserved in every part. |
| CompletionComments.ContinuedIsLost | packages/linear/src/utils.ts:322-339 | Summaries whose beginning is lost, for every plan: they complete the continuation marker behind the header's line ends. |
| CompletionComments.BuildComments | packages/linear/src/utils.ts:255-357 | The imperative builder computes the specified comments. |
| CompletionComments.RebuildAll | packages/linear/src/utils.ts:302-357 | So does its loop over the chunks. |
| Checkboxes.JoinInvertsSplit | packages/linear/src/checkbox-utils.ts:51-97 | Splitting into lines and joining again is the identity. |
| Checkboxes.SplitInvertsJoin | packages/linear/src/checkbox-utils.ts:93-99 | Joining lines and splitting again is, too. |
| Checkboxes.Parse | packages/linear/src/checkbox-utils.ts:50-73 | The parsing loop computes the specified items. |
| Checkboxes.CheckboxShape | packages/linear/src/checkbox-utils.ts:42 | A line is a checkbox exactly if it is put together from white space, hyphen, blank, a mark in brackets, blank and text without line terminators. |
| Checkboxes.ItemOfShape | packages/linear/src/checkbox-utils.ts:59-69 | The item of such a line is checked exactly for x or X, is indented by that white space and has that text without the white space around it. |
| Checkboxes.ItemFacts | packages/linear/src/checkbox-utils.ts:50-73 | Item k has index k and describes the k-th checkbox line. |
| Checkboxes.OwnMark | packages/linear/src/checkbox-utils.ts:93-97 | The first bracketed mark of a checkbox line is its own. |
| Checkboxes.RoundTrip | packages/linear/src/checkbox-utils.ts:83-100 | Parsing an updated text gives the old items with that item's flag and raw line changed, all other lines are the same, the changed one differs in its mark only, and an index that is not there changes nothing. |
| Checkboxes.UpdateInPlace | packages/linear/src/checkbox-utils.ts:83-100 | The update on an array of lines computes the specified text. |
| Checkboxes.ApplyUpdates | packages/linear/src/checkbox-utils.ts:138-153 | The loop over updates by index computes the specified text. |
| Checkboxes.BatchEffect | packages/linear/src/checkbox-utils.ts:138-153 | A batch writes to each checkbox line the state last written to its index and leaves all other lines alone. |
| Checkboxes.LastWriterWins | packages/linear/src/checkbox-utils.ts:138-153 | Batches that last write the same state to each index have the same result, in whatever order and however often they write. |
| Checkboxes.TwoUpdates | packages/linear/src/checkbox-utils.ts:138-153 | Updates of different indices commute, and of two updates of one index the second counts. |
| SseStream.StatusTable | packages/server/src/a2a-callback-bridge.ts:107-125 | What a client is told of each session status; final are exactly the statuses past finalizing, unlisted ones included; a failure of the source is a final failed status. |
| SseStream.ArtifactTable | packages/server/src/a2a-sse-stream.ts:71-88 | An artifact is a file exactly if it has a MIME type that is not empty, and text otherwise; it is never final. |
| SseStream.SourceEndLaw | packages/server/src/a2a-sse-stream.ts:142-176 | The source finishes exactly if some poll finds the session past finalizing before the store fails, throws exactly if the store fails without that, and else stays open. |
| SseStream.Subscribe | packages/server/src/a2a-sse-stream.ts:142-176 | The polling loop announces exactly the changes of status through the first terminal one, and ends, fails or goes on polling accordingly. |
| SseStream.Relay | packages/server/src/a2a-sse-stream.ts:236-302 | The event loop sends the known events through the first final one, adds a final failure if the source throws before that, and closes the stream then or when the source ends. |
| SseStream.AtMostOneFinal | packages/server/src/a2a-sse-stream.ts:236-302 | For any source of events, artifacts and unknown ones included, at most one event sent is final; it is the last; and there is one exactly if a terminal status came or the source threw. |
| SseStream.StreamRefinesPolls | packages/server/src/a2a-sse-stream.ts:142-302 | Source and relay together send the polled statuses without gaps and adjacent repeats, cut after the first terminal one, plus one failure if the store fails before that, and stay open exactly while nothing final was sent. |
| SseStream.NothingIsRetracted | packages/server/src/a2a-sse-stream.ts:142-302 | More polls only append to the stream, and change nothing after a final event. |
| SseStream.StreamIsCurrent | packages/server/src/a2a-sse-stream.ts:152-163 | While the stream is open its last event reports the latest status polled. |
| SseStream.ClientsSeeRepeats | packages/server/src/a2a-sse-stream.ts:53-66 | Repeats are those of session statuses: two that map to the same task status are sent as two equal events. |
| SseStream.CreateSseStream | packages/server/src/a2a-sse-stream.ts:209-302 | An unknown task is answered as not found, any other with the specified stream. |
| Clustering.JaccardSimilarity | packages/architectural-intelligence/src/cluster.ts:291-301 | The counting loop computes intersection over union: times the size of the union it is the size of the intersection, and 0 for two empty sets. |
| Clustering.JaccardRange | packages/architectural-intelligence/src/cluster.ts:291-301 | The similarity is between 0 and 1; a set is fully similar to itself unless it is empty. |
| Clustering.JoiningOnlyHelps | packages/architectural-intelligence/src/cluster.ts:203-232 | A text is at least as similar to a cluster after joining it. |
| Clustering.BuildClusters | packages/architectural-intelligence/src/cluster.ts:203-232 | The nested loops over parallel lists compute the specified clusters. |
| Clustering.ClusterIsItsShare | packages/architectural-intelligence/src/cluster.ts:203-232 | Each cluster is exactly the items whose home it is, in their order and never none, and its token set is the union of theirs; so each item lies in exactly one cluster. |
| Clustering.HomeIsFirstFit | packages/architectural-intelligence/src/cluster.ts:203-232 | An item's home is the first cluster whose members so far are together similar enough, or a new one if there is none. |
| Clustering.ClustersConserveItems | packages/architectural-intelligence/src/cluster.ts:203-232 | No item is lost or duplicated. |
| Clustering.KindIsToken | packages/architectural-intelligence/src/cluster.ts:266-282 | The word for an observation's kind passes the tokenizer's filter. |
| Clustering.TokensAreTokens | packages/architectural-intelligence/src/cluster.ts:243-282 | All tokens of an observation are such as the tokenizer returns, and there is one at least. |
| Clustering.RepeatJoins | packages/architectural-intelligence/src/cluster.ts:203-232 | An observation repeated at once joins the same cluster if and only if the threshold is at most 1. |
| Clustering.LaterRepeatLaw | packages/architectural-intelligence/src/cluster.ts:203-232 | One repeated later, after any further observations, joins it if and only if its tokens are at least the threshold's part of all tokens in the cluster by then and no earlier cluster has become similar enough. |
| Clustering.LaterRepeatMayNotJoin | packages/architectural-intelligence/src/cluster.ts:203-232 | Observations for which, with the default threshold, it does not. |
| ObservationPass.StrongestIsFirstMaximum | packages/architectural-intelligence/src/cluster.ts:151-155 | The representative is the first of the members with the greatest confidence. |
| ObservationPass.ResultLaw | packages/architectural-intelligence/src/cluster.ts:150-187 | A cluster's result is its first member of greatest confidence, changed in confidence only, with the cluster's size, and decayed exactly if that member is older than the decay period in days of 86400000 ms. |
| ObservationPass.WithinCapLaw | packages/architectural-intelligence/src/cluster.ts:157-180 | Cluster confidence stays within 0 and the cap, for all observations of confidence at least 0, if and only if the cap is 0, or positive and the decay period not negative. |
| ObservationPass.OlderIsWeaker | packages/architectural-intelligence/src/cluster.ts:163-173 | Confidence never rises with age. |
| ObservationPass.SupportSaturates | packages/architectural-intelligence/src/cluster.ts:157-180 | More members and reinforcements never lower the confidence; from the sixth member and the fifth reinforcement on they no longer raise it. |
| ObservationPass.SupportAdds | packages/architectural-intelligence/src/cluster.ts:157-180 | Below the cap a young cluster gains 0.02 for each member after the first up to five, and 0.01 for each reinforcement up to five. |
| ObservationPass.DecayIsLinear | packages/architectural-intelligence/src/cluster.ts:163-173 | From the decay period on confidence falls linearly, to 0 at twice the period. |
| ObservationPass.Partition | packages/architectural-intelligence/src/cluster.ts:117-128 | The first loop separates authored from inferred observations, keeping their order. |
| ObservationPass.PartitionLaw | packages/architectural-intelligence/src/cluster.ts:117-128 | The authored ones are exactly those so marked, in order, and with the others they are all the observations. |
| ObservationPass.ResultOf | packages/architectural-intelligence/src/cluster.ts:150-187 | The steps of the loop's body give the specified result. |
| ObservationPass.ClusterObservations | packages/architectural-intelligence/src/cluster.ts:109-190 | The loops give the authored observations followed by one result for each cluster. |
| ObservationPass.SizesSumToInput | packages/architectural-intelligence/src/cluster.ts:109-190 | The sizes of the results add up to the number of observations. |
| ObservationPass.ConfidenceThroughClustering | packages/architectural-intelligence/src/cluster.ts:109-190 | An authored observation comes out unmerged with confidence exactly 1; any other result is an input observation, changed in its confidence only, which is within 0 and the cap. |
| ObservationPass.HelperAgrees | packages/architectural-intelligence/src/cluster.ts:312-330 | `effectiveConfidence` agrees with clustering that observation alone, if it was never reinforced. |
| ObservationPass.Gather | packages/architectural-intelligence/src/pipeline.ts:233-249 | The observations of the diffs, recorded now, are followed by the extra ones. |
| ObservationPass.GatheredLaw | packages/architectural-intelligence/src/pipeline.ts:233-249 | All observations of all diffs in order, recorded now and never reinforced, then the extra ones unchanged. |
| ObservationPass.CountMerges | packages/architectural-intelligence/src/pipeline.ts:260-264 | Counts the clusters of more than one member. |
| ObservationPass.MergesLaw | packages/architectural-intelligence/src/pipeline.ts:260-264 | The count is the number of results with more than one member. |
| ObservationPass.Contribute | packages/architectural-intelligence/src/pipeline.ts:266-276 | Contributes exactly the representatives that reach the floor, in order, and counts the others as discarded. |
| ObservationPass.SurvivorsLaw | packages/architectural-intelligence/src/pipeline.ts:266-276 | Contributed are exactly the results whose confidence reaches the floor, in order. |
| ObservationPass.RunObservationPass | packages/architectural-intelligence/src/pipeline.ts:216-284 | Contributed and discarded add up to the number of clusters of the gathered observations. |
| ObservationPass.PassAccounting | packages/architectural-intelligence/src/pipeline.ts:257-284 | Clusters and merges together are at most the observations, all of them different clusters exactly if nothing merged; with a floor of at most 1 all authored observations are contributed, first and in order. |
| WorkerSpawners.InvRun | packages/daemon/src/worker-spawner.ts:77-143 | Over every interleaving the table is within capacity, each entry is a live child under its own id, and no drain waits while the table is empty. |
| WorkerSpawners.ExactnessLaw | packages/daemon/src/worker-spawner.ts:206-229 | From a table that holds exactly the live children a step keeps it so if and only if it does not meet another child's entry: no accept under an id in the table, no end of a child while another one holds its id. |
| WorkerSpawners.ExactnessOfRuns | packages/daemon/src/worker-spawner.ts:206-229 | The same for whole runs: always exact if and only if no step meets another's entry. |
| WorkerSpawners.ExactTableBoundsChildren | packages/daemon/src/worker-spawner.ts:77-97 | There are at least as many live children as entries, and exactly as many if and only if the table is exact; then the capacity bounds the processes. |
| WorkerSpawners.LiveChildrenExceedCapacity | packages/daemon/src/worker-spawner.ts:77-97 | Otherwise it need not: with a maximum of two or more, one id accepted n times has n live children. |
| WorkerSpawners.MatchesLaw | packages/daemon/src/worker-spawner.ts:237-246 | A project serves a repository exactly if they are equal or one of them is the other behind a path and a slash. |
| WorkerSpawners.AcceptLaw | packages/daemon/src/worker-spawner.ts:77-97 | Work is accepted exactly while accepting, with room, and for a repository that some listed project equals or relates to by a path; else the first of these that fails is the reason and nothing changes; the new child is under the first project that serves its repository. |
| WorkerSpawners.ChildrenAreListed | packages/daemon/src/worker-spawner.ts:77-97 | In every run each child ever spawned was requested in it and is under a listed project that serves its repository. |
| WorkerSpawners.ExpirySignals | packages/daemon/src/worker-spawner.ts:118-125 | An expiring drain signals exactly the children in the table and changes nothing else but its own state. |
| WorkerSpawners.WorkerSpawner.AcceptWork | packages/daemon/src/worker-spawner.ts:77-97 | Checks in the source's order, the search for the project included, then enters the child in the same step. |
| WorkerSpawners.WorkerSpawner.SpawnWorker | packages/daemon/src/worker-spawner.ts:170-212 | A new child, for its session, repository and project, replaces the entry under its id. |
| WorkerSpawners.WorkerSpawner.OnExit | packages/daemon/src/worker-spawner.ts:216-221 | The exit listener, heard once, removes the entry under the id and tells the drains. |
| WorkerSpawners.WorkerSpawner.OnError | packages/daemon/src/worker-spawner.ts:223-228 | The error listener does the same. |
| WorkerSpawners.WorkerSpawner.Remove | packages/daemon/src/worker-spawner.ts:125-133 | The listeners of waiting drains resolve exactly when the table is empty. |
| WorkerSpawners.WorkerSpawner.Drain | packages/daemon/src/worker-spawner.ts:110-137 | A drain stops acceptance and resolves at once for an empty table. |
| WorkerSpawners.WorkerSpawner.ResumeWork | packages/daemon/src/worker-spawner.ts:141-143 | Resuming changes the flag only. |
| WorkerSpawners.WorkerSpawner.OnDrainTimeout | packages/daemon/src/worker-spawner.ts:118-125 | An expired drain is rejected after signalling the children in the table. |
| WorkerSpawners.WorkerSpawner.Terminate | packages/daemon/src/worker-spawner.ts:118-123 | The loop signals exactly the children in the table. |
| Daemons.DaemonInvRun | packages/daemon/src/daemon.ts:241-417 | Over every interleaving: work is accepted exactly while running, running lasts until the first `stop` or `update`, and the daemon is stopped exactly if a `stop` got past its drain, its loops torn down. |
| Daemons.DaemonSafety | packages/daemon/src/daemon.ts:241-417 | In every run after a start the table is within capacity, a drain that did not expire is resolved exactly if the table is empty, and a stopped daemon none of whose drains expired has an empty table. |
| Daemons.DaemonDrivesSpawner | packages/daemon/src/daemon.ts:241-417 | Every run of the daemon drives its spawner through one of the runs possible for it. |
| Daemons.DaemonAcceptLaw | packages/daemon/src/daemon.ts:241-249 | The daemon accepts work exactly while running, with room, and for a listed repository. |
| Daemons.OnlyListedWorkRuns | packages/daemon/src/daemon.ts:241-249 | In every run after a start each child ever spawned was offered as work and is under a listed project that serves its repository. |
| Daemons.DaemonExactness | packages/daemon/src/daemon.ts:241-417 | Over every run of the daemon the table holds exactly the live children all along if and only if no event meets another child's entry. |
| Daemons.CapacityBoundsProcesses | packages/daemon/src/daemon.ts:241-417 | In such a run after a start the live children are as many as the entries and within the capacity, and unless a drain expired none outlives a stop. |
| Daemons.NothingStartsAfterLeaving | packages/daemon/src/daemon.ts:278-291 | After `stop` or `update` no run spawns a child or adds or replaces an entry, although `_drain` begins with `resume()`. |
| Daemons.DrainsEnd | packages/daemon/src/daemon.ts:407-417 | After a run in which the children in the table exit, the table is empty and no drain waits. |
| Daemons.StoppedStays | packages/daemon/src/daemon.ts:339-354 | Stopped is final until the next start. |
| Daemons.UnheardExpiryNeverStops | packages/daemon/src/daemon.ts:407-417 | A `stop` whose drain expires while nobody listens for `error` never stops the daemon, whatever happens later short of another `stop`. |
| Daemons.ExpiredStopKeepsItsTable | packages/daemon/src/daemon.ts:339-354 | With a listener it does stop, with the signalled session still in the table. |
| Daemons.ShadowedChildSurvivesStop | packages/daemon/src/worker-spawner.ts:206-221 | Two sessions under one id: after the first child exits, `stop` drains and stops with the second child alive and never signalled. |
| Daemons.DaemonService.Accept | packages/daemon/src/daemon.ts:241-249 | Work is refused unless running, and otherwise left to the spawner. |
| Daemons.DaemonService.DrainSpawner | packages/daemon/src/daemon.ts:407-411 | Resuming and draining in one step leaves the spawner closed. |
| Daemons.DaemonService.BeginStop | packages/daemon/src/daemon.ts:339-345 | `stop` up to its wait. |
| Daemons.DaemonService.BeginUpdate | packages/daemon/src/daemon.ts:278-291 | `update` up to its wait; it throws when stopped. |
| Daemons.DaemonService.AfterDrain | packages/daemon/src/daemon.ts:411-417 | What follows a drain: an expired one goes on only if somebody listens for `error`. |

## Left out

- Network, SDK, file system, process launch, logging and storage: each is an arbitrary reply, event or parameter.
- CleanupMutationPolicy: results with accessors, prototypes or NaN, and the wording of errors other than refusals.
- RateLimiter: a refill rate of 0 or less or a negative maximum, for which the source sets no rule; the reading of the
  Retry-After header (section 10.2.3 of RFC 9110), which enters as an optional delay; the timer may fire late but not early.
- CircuitBreakers: a multiplier below 1, a reset timeout above the greatest one or a threshold below 1; the
  laws assume `Sensible` settings, which the constructor does not check. `createOpenError` and `getStatus` only report.
- AgentClient: the limiter appears as token and penalty entries of the log, its waiting as a stop; nothing else is
  assumed to happen between the report of a nested call and that of the call around it; which errors are auth errors
  or retryable is part of the reply; of the client's many calls the three that nest are modelled.
- CommentSplitter: characters beyond the Basic Multilingual Plane, whose two code units are surrogates, which Dafny's
  characters exclude; the code treats every code unit alike.
- CommentSplitter.LengthBudget: maximum comment counts of more than 24 digits; for turns that look for the end of a code
  block see `CommentSplitter.LengthLaw`.
- CompletionComments.CompletionBudget: one way only; such a turn may or may not make a completion comment too long.
- CompletionComments: of a plan item only state and title appear; the icon of two code units is two
  characters of the private use area; a state that names a built-in property of objects is not modelled.
- Checkboxes: updates by text pattern, which build a regular expression from unescaped text, and `getCheckboxSummary`, a count.
- SseStream: a client that cancels, and a second subscriber of one session, whose entry in the subscription table
  replaces the first one's; the encoding of events as text.
- Clustering: how title, description or JSON text are cut into tokens; an observation carries its kind and a set of words
  of the form the tokenizer keeps. Array sort is its stable specification.
- ObservationPass: reading observations from diffs, and a `contribute` that throws, which ends the pass.
- WorkerSpawners: the environment of children but for session, repository and project, and their output; a spawn that
  throws at once. A child counts as live until its first `exit` or `error` event; Node also emits `error` when a signal
  cannot be delivered, so that there may then be more running processes than live children.
- Daemons: `start` overlapping `stop` or `update`, and starting again after a stop, which makes a fresh spawner; what
  `update` does after its drain except ending the loops; heartbeat and capacity reports.
