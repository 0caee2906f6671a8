# Buzz: verified models of the agent harness

This project models the parts of Buzz whose correctness spans several functions, and proves
what they promise for every input, every run and every reachable state.

**The ACP client turn protocol** (`crates/buzz-acp/src/acp.rs`, `acp_frame_writer.rs`). One
client owns an agent's stdin and stdout and speaks JSON-RPC 2.0 in newline-delimited frames.
`AcpTypes` holds frames and traces, `AcpMachine` the client as a step machine, and
`AcpInvariant` the invariant that every step keeps. `AcpReplies` states on the trace what
each thing that can happen must lead to: which answer is returned, which request is replied
to, which steer is acked. `AcpTheorems` and `AcpDrain` hold the guarantees over whole runs.
The environment is arbitrary: any frames from the agent, any passage of time, any write
failing or timing out after any number of bytes, steer requests at any moment, and the
running future dropped at any await point. A trace records what crossed the wire, what was
answered and what was returned. `Good` says of a trace that each observation in it is
justified by the history before it. `AcpClient` gives the client its own imperative form, a
class with its read loops as loops. Each handler is proved equal to its part of the machine,
and each whole operation (a request, a prompt, a cancellation) to a run of it that keeps the
invariant. `RunsCompose` joins such runs, so the theorems about runs are about the class.
The machine logs each call of the frame writer. `FrameWriter` is that writer on bytes, and
`AcpBytes` proves of every run that the bytes which the logged calls put on the pipe read
exactly as the frames of the trace, and that the agent's own requests are answered in turn.

**Configuration merging** (`DeepMerge`): the recursive JSON merge and the Codex
configuration built with it. **Subscription rules** (`Subscription`): the ordered,
fail-closed matcher, and the wire filters resolved from the same rules;
`SubscriptionHistory` says over whole histories of calls what the counters stand for. **Lazy
pool** (`PoolLifecycle`): tokens, backoff, and ownership of the pool. **Git environment**
(`GitEnv`): the `GIT_CONFIG_*` block, its read-back, and what Git makes of it in agent and
user mode; `GitKeys` says the same by the text of the keys alone, and `GitNesting` takes it
through any depth of harnesses started by harnesses, each with its own relay, identity and
key file. **Scripts**: BIP-340 signatures over abstract group laws (`Schnorr`), Rust
literals and comments (`RustTokens`), their blanking with brace matching (`RustScan`), and
the Redis wire protocol (`Resp`). `Decimal` and `Prelude` are shared.

Instants and durations are natural numbers of nanoseconds. JSON text, hashes, the curve,
UUID texts and filter expressions enter as arbitrary functions or values. Where a premise
about one of them is needed, it is a named predicate (`Lawful`, `Faithful`, `Sane`).

## Where the code and its comments differ

- The comments at acp.rs:1405-1408 and 1411-1417 say that every return path of the read
  loop answers the steer in flight. The two `?` at lines 1789 and 1803 do not. The model
  follows the code. `ReturnWithoutDrain` is a concrete run, and `ClosedExactly` says for
  every state and event when a steer is dropped unanswered.
- A drain is bounded by the deadline it starts with exactly if no steer receiver was
  installed when the cancellation began, or the deadline had passed when the drain started:
  `DrainFixedExactly`. `DrainsHaveNoReceiver` and `GraceReplies` take the dispatch discipline
  as premise, and `DisciplineIsNeeded` is a run without it in which `GraceReplies` fails.
- pool_lifecycle.rs:97-98 promises that results of older attempts are rejected. Tokens
  restart in each generation and saturate within one. `LateResultAcceptedExactly` says for
  every run when a late result is accepted; `StaleAcrossGenerations` and
  `SaturatedTokensClash` are runs for its two ways.
- filter.rs:357-363 argues rule by rule that a failing evaluation never widens the
  subscription. That holds in one call (`FailsClosed`). Over several it can fail, since an
  error may keep a later rule from being disabled (`TakenTimeoutAdmits`).
  `FailsClosedOverCalls` says when it holds, and `HistoriesDifferExactly` when it does not.
- A nested harness adds entries at every level, and none reads more than 1024 of them.
  `NestingLimit` gives the exact depth at which it stops, in either mode.

## Model

| member | source | states |
|---|---|---|
| AcpInvariant.StepKeeps | crates/buzz-acp/src/acp.rs:859-1812 | every event of the environment keeps the invariant: a justified trace, and fields that agree with it |
| AcpInvariant.RunKeeps | crates/buzz-acp/src/acp.rs:859-1812 | so does every run |
| AcpReplies.AnswerIsReturned | crates/buzz-acp/src/acp.rs:1757-1771 | in both read loops the answer to the awaited request, result or error, is returned at once and ends the loop, with the steer in flight released |
| AcpReplies.InitializeRecords | crates/buzz-acp/src/acp.rs:682-693 | an error-less answer to `initialize` records the capability it carries, and is returned |
| AcpReplies.SteerAnswerIsAcked | crates/buzz-acp/src/acp.rs:1646-1755 | the answer to the steer in flight is acked at once with its verdict, and the loop goes on without it |
| AcpReplies.RequestIsAnswered | crates/buzz-acp/src/acp.rs:2014-2089 | in both read loops, with stdin open and the write whole, a permission request is answered by its chosen option, and an unknown request by method-not-found, right behind the request; the loop goes on |
| AcpReplies.ClosedSlotFailsReply | crates/buzz-acp/src/acp.rs:1795-1805 | with the slot closed the owed reply fails at once, and the call with it |
| AcpReplies.BrokenReplyEndsCall | crates/buzz-acp/src/acp.rs:1795-1805 | a reply whose write breaks closes the slot, and the call fails with the write or disappears with it |
| AcpReplies.UnanswerableFailsCall | crates/buzz-acp/src/acp.rs:2036-2068 | a permission request without an id or without a permitted option writes nothing and fails the call |
| AcpReplies.OtherFramesAreOnlyRead | crates/buzz-acp/src/acp.rs:1774-1808 | any other frame writes and answers nothing and leaves the loop waiting |
| AcpReplies.OwesOne | crates/buzz-acp/src/acp.rs:1774-1808 | no frame is owed two different replies |
| AcpReplies.ActivityExactly | crates/buzz-acp/src/acp.rs:1642-1808 | every frame read counts as activity when it is read, and a tool call once more when it was handled |
| AcpReplies.SteerWaits | crates/buzz-acp/src/acp.rs:1468-1481 | a steer request is taken only with a receiver and no steer in flight |
| AcpReplies.SteerIsSent | crates/buzz-acp/src/acp.rs:1482-1544 | a steer that some transport can carry goes out at once, by Goose with a run id and else by the advertised extension, and is then the one in flight |
| AcpReplies.SteerWriteFails | crates/buzz-acp/src/acp.rs:1545-1561 | a steer whose frame breaks closes the slot and is acked as a transport failure, or dropped with the future |
| AcpReplies.SteerIsTurnedDown | crates/buzz-acp/src/acp.rs:1482-1566 | a steer that no transport can carry is turned down, and nothing is written |
| AcpReplies.LoopEndsWith | crates/buzz-acp/src/acp.rs:1594-1614 | what else ends a loop, and the error it reports, with the steer in flight released |
| AcpReplies.DeadlineEndsLoop | crates/buzz-acp/src/acp.rs:1439-1462 | a loop whose deadline passes reports the timeout that is due |
| AcpReplies.RequestTimesOut | crates/buzz-acp/src/acp.rs:1176-1206 | a plain request whose timeout fires reports that |
| AcpReplies.SkippedLine | crates/buzz-acp/src/acp.rs:1615-1640 | a blank or unparseable line changes nothing but the clock |
| AcpReplies.DroppedFutureIsSilent | crates/buzz-acp/src/acp.rs:1395-1812 | a dropped future writes and reports nothing |
| AcpReplies.OperationGoesOut | crates/buzz-acp/src/acp.rs:1176-1206 | an operation's request goes out whole under the next id, and its loop waits for that id |
| AcpReplies.OperationFails | crates/buzz-acp/src/acp.rs:859-903 | a request that fails to go out is reported, and leaves no prompt in flight |
| AcpReplies.PromptDroppedInWrite | crates/buzz-acp/src/acp.rs:859-903 | a prompt dropped inside its write counts as in flight, on a closed slot |
| AcpReplies.CancelDrainsExactly | crates/buzz-acp/src/acp.rs:1096-1144 | a cancellation drains if and only if a prompt is in flight and all it has to write goes out |
| AcpReplies.CancelWithoutPrompt | crates/buzz-acp/src/acp.rs:1096-1107 | without a prompt in flight a cancellation writes nothing and forgets the stored deadline |
| AcpTheorems.SteerResolvedOnce | crates/buzz-acp/src/acp.rs:1395-1812 | in every run each steer request taken is resolved exactly once, by one ack or by a closed channel, except the one in flight, which has no resolution yet |
| AcpTheorems.OneSteerAtATime | crates/buzz-acp/src/acp.rs:1468-1481 | a steer request is taken only when all earlier ones are resolved |
| AcpTheorems.SuccessMeansDelivered | crates/buzz-acp/src/acp.rs:1646-1755 | `Success` is acked only if the last frame read is a method-less, error-less response with the id of that steer's frame, read after the whole frame went out, on Goose or with a recognised outcome |
| AcpTheorems.AcksAreTrue | crates/buzz-acp/src/acp.rs:1482-1755 | every ack says what happened: a rejection carries the error of the agent's answer, read after that very steer went out; a rejected outcome was such an answer on the extension, unrecognised; a missing run id means that none was known and the capability last recorded was off; a neutral release means that the steer's frame is out and no answer to it was read since |
| AcpTheorems.NeutralReleaseReturns | crates/buzz-acp/src/acp.rs:1446-1462 | a neutral release is followed at once by the return of the call, in every run |
| AcpTheorems.SilentAfterTransportFailure | crates/buzz-acp/src/acp.rs:1545-1561 | after a steer was acked as a transport failure the slot is closed, and in no run does a frame reach the agent any more |
| AcpTheorems.TransportFailureMayDeliver | crates/buzz-acp/src/acp.rs:1545-1561 | yet wherever a steer can be taken, one acked so may have arrived whole |
| AcpTheorems.SteerFrameFits | crates/buzz-acp/src/acp.rs:1482-1561 | a steer frame names the freshest run id; the extension method is written only without one and if the capability last recorded was on |
| AcpTheorems.CapabilityCameFromAgent | crates/buzz-acp/src/acp.rs:682-693 | the steering capability is recorded only from an error-less answer to `initialize`, read after that request went out, with the value it carried |
| AcpTheorems.ClosedExactly | crates/buzz-acp/src/acp.rs:1395-1812 | exactly which events leave a steer unanswered: the future dropped with one in hand, or an error of the permission handler or the -32601 write propagated past one in flight |
| AcpTheorems.BreaksExactly | crates/buzz-acp/src/acp.rs:1774-1808 | a step towards `ClosedExactly`: dispatching a frame fails or is cut off exactly for an unanswerable permission request or a broken or impossible reply write |
| AcpDrain.ReturnWithoutDrain | crates/buzz-acp/src/acp.rs:1788-1790 | a run in which a permission request without id makes the loop return with the steer's channel closed instead of acked |
| AcpTheorems.PermissionAnsweredAtMostOnce | crates/buzz-acp/src/acp.rs:2014-2089 | in every run a permission response goes out only while the latest permission event with its id is a request; after it, that id is owed nothing until it is asked again |
| AcpTheorems.AnswersNeverExceedRequests | crates/buzz-acp/src/acp.rs:2014-2089 | so at every moment each id has at most as many complete responses on the wire as requests read, and fewer while one is owed |
| AcpTheorems.AnswersAreForTheRequestRead | crates/buzz-acp/src/acp.rs:2036-2068 | a granting answer on the wire goes to the permission request just read, with an option that request permits; a -32601 reply goes to the unknown request just read |
| AcpInvariant.ChooseExactly | crates/buzz-acp/src/acp.rs:2036-2068 | the option chosen is the first `allow_once`, or without any the first `reject_once` with its default id; in every other case none is |
| AcpTheorems.PendingMeansUnanswered | crates/buzz-acp/src/acp.rs:1108-1121 | a permission kept as pending is not marked responded, and while stdin is open its latest request is unanswered |
| AcpTheorems.RequestIdsIncrease | crates/buzz-acp/src/acp.rs:1176-1206 | request ids on the wire strictly increase over any run |
| AcpTheorems.OneRequestPerId | crates/buzz-acp/src/acp.rs:1176-1206 | two requests on the wire with one id are the same request |
| AcpTheorems.ReplyBelongsToCall | crates/buzz-acp/src/acp.rs:1651-1771 | a result or agent error that a call returns is the last frame read, read after the call's own request went out; every request on the wire that it answers is that request, never a steer or a request that timed out or was cancelled; and no answer to it was returned before |
| AcpTheorems.HardMovesExactly | crates/buzz-acp/src/acp.rs:1695-1727 | the hard deadline moves exactly on a Goose success or an `injected` response that would move it forward, never on `startedNewTurn`; the loop's other parameters never change |
| AcpTheorems.HardNeverDecreases | crates/buzz-acp/src/acp.rs:1714-1727 | over a whole loop the hard deadline never decreases |
| AcpTheorems.PromptDeadlines | crates/buzz-acp/src/acp.rs:859-921 | in every prompt the client's stored deadline mirrors the loop's, and the idle deadline is the last activity plus the idle timeout |
| AcpTheorems.PromptStarts | crates/buzz-acp/src/acp.rs:859-903 | a step towards `PromptBudget`: a prompt under way went out whole under a fresh id, took the installed receiver, and counts its deadlines from the start |
| AcpDrain.PromptBudget | crates/buzz-acp/src/acp.rs:859-903 | through a whole prompt the hard deadline is at least its start plus its budget, and exactly that without a receiver |
| AcpTheorems.PromptEnds | crates/buzz-acp/src/acp.rs:904-921 | after a prompt returned, it still counts as in flight, with its deadline kept, exactly if it timed out |
| AcpTheorems.LateIterationTimesOut | crates/buzz-acp/src/acp.rs:1439-1462 | a step towards `NoLateIteration`: an iteration that begins past its deadline reads nothing, acks the steer in flight neutrally and times out |
| AcpTheorems.NoLateIteration | crates/buzz-acp/src/acp.rs:1429-1462 | however fast the agent emits output, no iteration of a loop that goes on begins past its deadline, so at most the outcome awaited when it passed is still handled |
| AcpTheorems.TimeoutsAreDue | crates/buzz-acp/src/acp.rs:1446-1462 | a loop reports a timeout only as the one classified at the top of the iteration, and once that deadline passed |
| AcpTheorems.TimeoutsAreTrue | crates/buzz-acp/src/acp.rs:1567-1583 | an idle timeout means that much silence, a hard timeout that the hard deadline passed |
| AcpDrain.DrainsHaveNoReceiver | crates/buzz-acp/src/acp.rs:1096-1144 | in every run that installs a receiver only with no prompt in flight, every drain has no receiver and no steer in flight |
| AcpDrain.NoReceiverFixed | crates/buzz-acp/src/acp.rs:1395-1812 | a loop without a receiver and without a steer in flight keeps its hard deadline through every continuation |
| AcpDrain.ReceiverRenews | crates/buzz-acp/src/acp.rs:1395-1812 | from every loop with a receiver that can still iterate on an open slot, three events renew its hard deadline |
| AcpDrain.DrainFixedExactly | crates/buzz-acp/src/acp.rs:1096-1144 | in every continuation a drain keeps its deadline, if and only if no receiver was installed when the cancellation began or the deadline had passed when the drain started |
| AcpDrain.CancelDrainsTo | crates/buzz-acp/src/acp.rs:1036-1144 | a cancel drains for the cancelled prompt's id, to now plus the grace, or to the larger of the stored deadline and now plus 30 s |
| AcpDrain.GraceIsKept | crates/buzz-acp/src/acp.rs:1080-1094 | a bounded cancel without a receiver begins no iteration after its grace, counted from the call |
| AcpDrain.CancelTellsAgent | crates/buzz-acp/src/acp.rs:1108-1125 | before the drain a permission still owed an answer is answered `cancelled`, then the cancel notice goes out whole, and nothing else |
| AcpDrain.GraceReplies | crates/buzz-acp/src/acp.rs:1080-1094 | a bounded cancel never returns a hard timeout, and with a grace of at most 30 s no idle timeout |
| AcpDrain.DisciplineIsNeeded | crates/buzz-acp/src/acp.rs:999-1006 | a run in which a receiver installed during a cancelled prompt renews a 30 s drain, which then ends in an idle timeout, against `GraceReplies` |
| AcpClient.Client.WriteNdjson | crates/buzz-acp/src/acp.rs:1150-1162 | does what the machine's write does: the whole frame or a closed stdin |
| AcpClient.Client.HandlePermissionRequest | crates/buzz-acp/src/acp.rs:2014-2089 | does the machine's permission step, with its choice of option and its error paths: the step that `RequestIsAnswered` and `UnanswerableFailsCall` state on the trace |
| AcpClient.Client.HandleSessionUpdate | crates/buzz-acp/src/acp.rs:1828-1934 | records or clears the active run id, and reports a tool call |
| AcpClient.Client.HandleMessage | crates/buzz-acp/src/acp.rs:1774-1808 | dispatches a notification or agent request as the machine does |
| AcpClient.Client.TakeSteerRequest | crates/buzz-acp/src/acp.rs:1468-1566 | the steer arm: the machine's transport choice, write and ack |
| AcpClient.Client.RouteSteerResponse | crates/buzz-acp/src/acp.rs:1651-1755 | the steer response: the machine's verdict, deadline renewal and ack |
| AcpClient.Client.HandleLine | crates/buzz-acp/src/acp.rs:1642-1808 | one frame read: activity, then steer response, prompt response or dispatch, as in the machine: the step that `AnswerIsReturned`, `SteerAnswerIsAcked`, `RequestIsAnswered` and `OtherFramesAreOnlyRead` state on the trace |
| AcpClient.Client.Iterate | crates/buzz-acp/src/acp.rs:1429-1810 | one pass through the read loop is one turn of the machine |
| AcpClient.Client.ReadWithIdleTimeout | crates/buzz-acp/src/acp.rs:1429-1812 | from wherever it stands, the read loop is a run of the machine, up to its end or to where the environment leaves it |
| AcpClient.Client.StartRequest | crates/buzz-acp/src/acp.rs:1176-1200 | issues the next id and writes its request; the read timeout counts from after the write |
| AcpClient.Client.HandleRpcLine | crates/buzz-acp/src/acp.rs:1271-1362 | one frame read by the plain loop: the answer, or dispatch |
| AcpClient.Client.IterateRpc | crates/buzz-acp/src/acp.rs:1271-1362 | one pass through the plain loop, under the request timeout, is one turn of the machine |
| AcpClient.Client.ReadPlain | crates/buzz-acp/src/acp.rs:1271-1362 | the plain loop is a run of the machine |
| AcpClient.Client.SendPrompt | crates/buzz-acp/src/acp.rs:859-903 | a prompt up to its read loop, as in the machine |
| AcpClient.Client.CancelWithCleanupUntil | crates/buzz-acp/src/acp.rs:1096-1144 | answers a pending permission unless answered, notifies, and starts the drain, as in the machine |
| AcpClient.Client.StartDrain | crates/buzz-acp/src/acp.rs:1036-1094 | a cancellation with or without a grace, up to its drain, as in the machine |
| AcpClient.Client.SendRequest | crates/buzz-acp/src/acp.rs:1176-1206 | a whole request is a run of the machine and keeps the invariant |
| AcpClient.Client.SessionPrompt | crates/buzz-acp/src/acp.rs:859-921 | a whole prompt, with its steers, is a run of the machine and keeps the invariant |
| AcpClient.Client.CancelWithCleanup | crates/buzz-acp/src/acp.rs:1036-1144 | a whole cancellation with its drain is a run of the machine and keeps the invariant |
| AcpClient.Client.SessionCancel | crates/buzz-acp/src/acp.rs:931-936 | a bare cancel notice is a run of the machine, keeps the invariant, and reports how its write ended |
| AcpClient.Client.InstallSteerRx | crates/buzz-acp/src/acp.rs:999-1006 | installing a receiver is a run of the machine and keeps the invariant |
| AcpClient.Client.ClearSteerRx | crates/buzz-acp/src/acp.rs:1014-1016 | clearing it is a run of the machine and keeps the invariant |
| AcpClient.RunsCompose | crates/buzz-acp/src/acp.rs:859-1206 | operations in sequence make one longer run |
| FrameWriter.StdinSlot.WriteFrame | crates/buzz-acp/src/acp_frame_writer.rs:10-25 | wherever it is cut, delivers that part, and keeps the writer only if nothing was cut |
| FrameWriter.ClosedForGood | crates/buzz-acp/src/acp_frame_writer.rs:14-19 | after an incomplete call no later call delivers a byte |
| FrameWriter.OkExactly | crates/buzz-acp/src/acp_frame_writer.rs:10-25 | in every sequence of calls, the ones that return Ok are exactly those before the first cut |
| FrameWriter.WireContents | crates/buzz-acp/src/acp_frame_writer.rs:10-25 | for every sequence of calls the wire holds the Ok calls' bodies, each with a line feed, in order, then a prefix of at most one further frame |
| FrameWriter.AgentReadsOkBodies | crates/buzz-acp/src/acp_frame_writer.rs:10-25 | with bodies free of line feeds, splitting the wire at line feeds yields exactly the Ok bodies, plus the cut one if all its bytes arrived |
| AcpReplies.SmallOperations | crates/buzz-acp/src/acp.rs:931-1016 | a bare cancel notice goes out, and a receiver is installed or cleared, with nothing else changed |
| AcpBytes.WriteRefines | crates/buzz-acp/src/acp.rs:1150-1162 | the machine's frame-level write is represented by the byte-level write, wherever that is cut |
| AcpBytes.StepSound | crates/buzz-acp/src/acp.rs:859-1812 | whatever a step does, the frames of the trace and the state of the slot are what the calls logged so far make them, and no frame comes between a request of the agent and the reply it is owed |
| AcpBytes.AgentReadsTrace | crates/buzz-acp/src/acp.rs:1150-1162 | in every run, wherever the broken ones among the calls it made are cut, the bytes those calls put on the pipe read exactly as the frames of the trace, in order, and the pipe is open if and only if the slot is |
| AcpBytes.AgentIsAnsweredInTurn | crates/buzz-acp/src/acp.rs:1774-1808 | in every run the first frame that reaches the agent after a request of its own is the reply owed to it; if none reached it by the end of the run, the slot is closed |
| DeepMerge.DeepMergeInto | crates/buzz-acp/src/acp.rs:233-253 | in whatever order the overlay is visited, the result is the merged tree |
| DeepMerge.MergeAtPath | crates/buzz-acp/src/acp.rs:233-253 | what a merge holds at every path, in terms of both trees |
| DeepMerge.LeavesOfMerge | crates/buzz-acp/src/acp.rs:233-253 | an overlay leaf always wins; a base leaf survives if and only if the overlay's walk stops at an object without the next key, or ends at the same leaf |
| DeepMerge.MergeIdempotent | crates/buzz-acp/src/acp.rs:233-253 | merging the same overlay again changes nothing |
| DeepMerge.CoversExactly | crates/buzz-acp/src/acp.rs:233-253 | exactly when an overlay replaces a base entirely |
| DeepMerge.MergeAssociativeExactly | crates/buzz-acp/src/acp.rs:233-253 | the merge of three trees is associative if and only if, wherever the middle one holds a non-object between two objects, the last covers the first |
| DeepMerge.UnobstructedAssociates | crates/buzz-acp/src/acp.rs:233-253 | in particular whenever the middle tree never holds a non-object where both outer trees hold objects |
| DeepMerge.ForceNetwork | crates/buzz-acp/src/acp.rs:352-370 | succeeds exactly if the sandbox setting is absent or an object, and is the merge with the forced setting |
| DeepMerge.BuildCodexConfigEnv | crates/buzz-acp/src/acp.rs:282-370 | nothing without a generated overlay or entries; otherwise the first bad entry, a bad parent or a bad sandbox is reported, or the result is the left fold of all entries and the parent with the forced setting |
| DeepMerge.EntriesInPlace | crates/buzz-acp/src/acp.rs:294-299 | each variable named CODEX_CONFIG, and no other, gives its value, in the order of the variables |
| DeepMerge.LastSourceWins | crates/buzz-acp/src/acp.rs:327-350 | a leaf of one source stands in the fold if all later sources, the parent being the last, lack its path |
| DeepMerge.ForcedPaths | crates/buzz-acp/src/acp.rs:352-370 | network access is on in the result, and every path apart from that setting reads as in the fold |
| Subscription.RuleSet.MatchEvent | crates/buzz-acp/src/filter.rs:368-460 | returns rule i with its prompt tag if and only if that rule hears the event, its filter is absent or enabled and holds, and every earlier rule either does not hear it or has an enabled filter that fails; updates exactly the counters of the rules it evaluates |
| Subscription.RecountedExactly | crates/buzz-acp/src/filter.rs:401-447 | only an evaluation moves a counter: an answer clears it, a timeout adds one, an error leaves it |
| Subscription.Stop | crates/buzz-acp/src/filter.rs:376-457 | the first rule that does not let the event fall through |
| Subscription.WinnerExactly | crates/buzz-acp/src/filter.rs:343-367 | a rule wins if and only if it passes and all rules before it let the event fall through |
| Subscription.FailsClosed | crates/buzz-acp/src/filter.rs:357-363 | in one call, turning any evaluations into errors or timeouts admits no new event and hands none to another rule |
| Subscription.FailsClosedOverCalls | crates/buzz-acp/src/filter.rs:343-460 | the same over any sequence of calls, as long as the failures take away no timeout of a rule that is not yet disabled |
| Subscription.HistoriesDifferExactly | crates/buzz-acp/src/filter.rs:401-415 | for any two states of the counters, an event that one admits fares otherwise with the other if and only if it passes the filter of a rule that the other disables |
| Subscription.TakenTimeoutAdmits | crates/buzz-acp/src/filter.rs:426-446 | two calls in which an error in the first keeps a rule from its fifth timeout, and the second event is then admitted where it would not have been |
| Subscription.CountersOverCalls | crates/buzz-acp/src/filter.rs:341-436 | over any sequence of calls no counter exceeds five, and one at five stays there |
| Subscription.DisabledForever | crates/buzz-acp/src/filter.rs:401-415 | once a counter is at five, after any further calls, no event that reaches that rule's filter is matched |
| SubscriptionHistory.CounterIsStreak | crates/buzz-acp/src/filter.rs:401-447 | after any sequence of calls from zero, every counter is the number of timeouts that the rule's evaluations gave since they last gave an answer |
| SubscriptionHistory.DisabledExactly | crates/buzz-acp/src/filter.rs:401-447 | a rule is disabled if and only if five of its evaluations timed out with no answer among or between them |
| SubscriptionHistory.ChosenAfterCalls | crates/buzz-acp/src/filter.rs:368-460 | after any sequence of calls, which rule takes an event, in terms of the verdicts of all calls alone |
| Subscription.MergedMeaning | crates/buzz-acp/src/config.rs:1428-1464 | the merged filter exists if and only if a rule applies; it is a wildcard if and only if one of them is, else holds exactly their kinds; it asks for a mention if and only if all do |
| Subscription.MergeRules | crates/buzz-acp/src/config.rs:1428-1464 | the merge loop computes that filter |
| Subscription.ResolveDynamicChannelFilter | crates/buzz-acp/src/config.rs:1478-1551 | the answer for one channel in each mode, with override and defaults |
| Subscription.MentionsModeDelivers | crates/buzz-acp/src/config.rs:1478-1551 | in Mentions mode exactly the wanted channels' events of the chosen or the four default kinds are delivered, with a mention unless that is switched off |
| Subscription.AllModeDelivers | crates/buzz-acp/src/config.rs:1478-1551 | in All mode exactly the wanted channels' events of the chosen kinds, or of any |
| Subscription.ConfigModeDelivers | crates/buzz-acp/src/config.rs:1428-1464 | in Config mode exactly the events whose kind some applicable rule names or leaves open, with a mention if all applicable rules ask for one |
| Subscription.ResolveChannelFilters | crates/buzz-acp/src/config.rs:1383-1467 | at every discovered channel, in every mode, the startup map holds exactly what the dynamic resolver answers, and it holds no other channel |
| Subscription.Targets | crates/buzz-acp/src/config.rs:1388-1396 | an override keeps exactly the discovered channels it names |
| Subscription.WireNeverHides | crates/buzz-acp/src/config.rs:1428-1464 | in Config mode, if the matcher admits an event then its channel has a filter and the event passes it |
| PoolLifecycle.RetryDelayExact | crates/buzz-acp/src/pool_lifecycle.rs:123-132 | for every attempt n of at least 1 the delay is min(300, 5 * 2^(n-1)) seconds, despite capped exponent and saturation |
| PoolLifecycle.Lifecycle.StartWakeIfDue | crates/buzz-acp/src/pool_lifecycle.rs:37-58 | the new state and token |
| PoolLifecycle.Lifecycle.TakeReady | crates/buzz-acp/src/pool_lifecycle.rs:60-68 | hands out a ready pool and listens again, else changes nothing |
| PoolLifecycle.Lifecycle.CompleteWake | crates/buzz-acp/src/pool_lifecycle.rs:99-120 | accepts a result only while waking with that token |
| PoolLifecycle.Lifecycle.CancelWake | crates/buzz-acp/src/pool_lifecycle.rs:91-93 | completes the wake with an error |
| PoolLifecycle.StepKeeps | crates/buzz-acp/src/pool_lifecycle.rs:37-120 | every operation keeps the invariant on pools, tokens and spacing |
| PoolLifecycle.PoolsConserved | crates/buzz-acp/src/pool_lifecycle.rs:60-120 | over every run each pool accepted is handed out once, in order, or still held |
| PoolLifecycle.AcceptedExactly | crates/buzz-acp/src/pool_lifecycle.rs:99-120 | in every run a result is accepted if and only if the pool is waking and the token is that of the generation's latest start; a refusal changes nothing |
| PoolLifecycle.TokensCount | crates/buzz-acp/src/pool_lifecycle.rs:37-58 | the n-th start of a generation gets token n, saturating |
| PoolLifecycle.StartsExactly | crates/buzz-acp/src/pool_lifecycle.rs:37-58 | a wake starts if and only if there is work and the pool listens or a failure's wait is over; otherwise nothing changes |
| PoolLifecycle.RestartsExactly | crates/buzz-acp/src/pool_lifecycle.rs:37-58 | after the n-th failure in a row the next attempt starts if and only if there is work and min(300, 5 * 2^(n-1)) seconds have passed |
| PoolLifecycle.RetriesAreSpaced | crates/buzz-acp/src/pool_lifecycle.rs:123-132 | the n-th attempt of a generation, for all n of at least 7, starts no earlier than 315 + 300 (n - 7) seconds after the first |
| PoolLifecycle.LateResultAcceptedExactly | crates/buzz-acp/src/pool_lifecycle.rs:99-120 | in every run, the late result of an attempt is accepted if and only if an attempt is under way then with the same count of starts in its generation, or both counts have reached the largest token |
| PoolLifecycle.StaleAcrossGenerations | crates/buzz-acp/src/pool_lifecycle.rs:60-68 | a run in which the late result of a cancelled attempt is accepted as the next generation's |
| PoolLifecycle.SaturatedTokensClash | crates/buzz-acp/src/pool_lifecycle.rs:50 | a run in which two attempts of one generation share the largest token and the earlier one's late result is accepted |
| Schnorr.PointMul | scripts/buzz-mint-auth-tag.py:57-64 | double-and-add is k-fold addition, for every k |
| Schnorr.NormalLifts | scripts/buzz-mint-auth-tag.py:67-101 | the secret or its complement, chosen by parity, yields exactly the point that lifting the x coordinate recovers |
| Schnorr.BytesRoundTrip | scripts/buzz-mint-auth-tag.py:112-121 | a number that fits reads back from its big-endian bytes |
| Schnorr.VerificationEquation | scripts/buzz-mint-auth-tag.py:112-131 | s*G - e*P recovers k*G |
| Schnorr.SignatureVerifies | scripts/buzz-mint-auth-tag.py:87-115 | for every secret, message, aux value and hash, signing fails exactly for a secret out of range or a zero nonce, never at its own check, and what it returns verifies |
| Schnorr.VerifyExactly | scripts/buzz-mint-auth-tag.py:118-131 | a 64-byte signature is accepted if and only if both points lift, r and s are in range and s*G = R + e*P |
| Schnorr.LawsCanHold | scripts/buzz-mint-auth-tag.py:41-74 | a group with all the laws assumed of the curve exists |
| RustTokens.StringEndExactly | scripts/check-postgres-test-discovery.py:84-93 | a string ends at e if and only if e is behind its first unescaped quote, or is the end of a text without one |
| RustTokens.BlockEndExactly | scripts/check-postgres-test-discovery.py:43-55 | a comment ends at e if and only if its body, by the grammar of nested comments, does, or is unclosed and e is the end |
| RustTokens.RawEndExactly | scripts/check-postgres-test-discovery.py:69-80 | a raw string ends at e if and only if e is behind the first quote with as many hashes, or is the end of a text without one |
| RustTokens.RawQuoteExactly | scripts/check-postgres-test-discovery.py:22 | a raw string opens exactly at `r` or `br`, up to 255 hashes, and a quote |
| RustTokens.CharEndExactly | scripts/check-postgres-test-discovery.py:23 | a character literal is exactly one plain character, or one of the three kinds of escapes, between quotes |
| RustTokens.TokenExactly | scripts/check-postgres-test-discovery.py:35-98 | a token of the scanner ends at e if and only if one of the five kinds of tokens, said without scanning, does |
| RustScan.SkipBlockComment | scripts/check-postgres-test-discovery.py:43-55 | the loop ends a comment behind the closer that balances it, with whole comments nested inside, or with the text if there is none |
| RustScan.SkipString | scripts/check-postgres-test-discovery.py:84-93 | the loop ends a string behind the first quote that follows an even run of backslashes, or with the text if there is none |
| RustScan.ScanToken | scripts/check-postgres-test-discovery.py:35-98 | finds the literal or comment at a position if and only if there is one, with its exact end, and tells which may span lines |
| RustScan.SanitizeRust | scripts/check-postgres-test-discovery.py:30-99 | terminates on every text and blanks exactly what lies in literals and comments |
| RustScan.BlankedExactly | scripts/check-postgres-test-discovery.py:30-99 | a character is blanked if and only if it lies in a token that reading the text from its start stops at, and is no newline |
| RustScan.SanitizedShape | scripts/check-postgres-test-discovery.py:30-31 | same length, same newlines, and only spaces put in |
| RustScan.NothingLeft | scripts/check-postgres-test-discovery.py:30-99 | no string quote and no comment opener is left |
| RustScan.NoCharLeft | scripts/check-postgres-test-discovery.py:61-67 | no character literal is left, and blanking makes no new one |
| RustScan.SanitizeIdempotent | scripts/check-postgres-test-discovery.py:30-99 | sanitizing twice is sanitizing once |
| RustScan.BracePairs | scripts/check-postgres-test-discovery.py:154-160 | the stack finds exactly the brace pairs that enclose balanced text |
| RustScan.PartnerUnique | scripts/check-postgres-test-discovery.py:154-160 | an opening brace has at most one partner |
| RustScan.PairsAreLaminar | scripts/check-postgres-test-discovery.py:152-168 | any two pairs are equal, nested or disjoint |
| RustScan.NoHeadInsideHead | scripts/check-postgres-test-discovery.py:18 | no module head starts inside another |
| RustScan.HeadExactly | scripts/check-postgres-test-discovery.py:18 | the module pattern matches if and only if the text is `mod` as a word, blanks, an identifier, blanks or none, and a brace |
| RustScan.HeadsExactly | scripts/check-postgres-test-discovery.py:163 | so going on behind each match finds all places where the pattern matches |
| RustScan.FindHeads | scripts/check-postgres-test-discovery.py:163 | the scan yields those matches |
| RustScan.HeadsIncrease | scripts/check-postgres-test-discovery.py:163-164 | in increasing order of their braces |
| RustScan.RangesExactly | scripts/check-postgres-test-discovery.py:162-168 | a range is listed if and only if a module head opens it and its braces enclose balanced text |
| RustScan.ModuleRanges | scripts/check-postgres-test-discovery.py:152-168 | the ranges of a source are those of its sanitized text, in the order of the heads |
| GitEnv.SameKeyIsEquality | crates/buzz-acp/src/git.rs:180-191 | key equality is an equivalence on the keys with a dot |
| GitKeys.SameKeyExactly | crates/buzz-acp/src/git.rs:172-192 | two keys are equal if and only if their texts are equal up to ASCII case, and equal as they stand from the first dot to the last |
| GitKeys.IncludeExactly | crates/buzz-acp/src/git.rs:195-205 | an include is exactly `include.path`, or at least 15 characters from `includeif.` to `.path`, up to ASCII case |
| GitKeys.DroppedExactly | crates/buzz-acp/src/git.rs:73-85 | the keys that user mode drops, by their text |
| GitEnv.Retained | crates/buzz-acp/src/git.rs:73-85 | user mode keeps exactly the entries that are no include, no author or committer key and no managed key; which texts those are is `DroppedExactly` |
| GitNesting.RetainedInPlace | crates/buzz-acp/src/git.rs:73-85 | each entry is kept or dropped by itself, in its place |
| GitEnv.BuildGitEnv | crates/buzz-acp/src/git.rs:360-380 | the variables are the count and the numbered pairs of inherited, credential and managed entries, in that order |
| GitKeys.CredentialsExactly | crates/buzz-acp/src/git.rs:365-372 | the credential entries, by their text: the helper reset, then set, and the HTTP path on |
| GitKeys.PairsAt | crates/buzz-acp/src/git.rs:374-378 | the variables are name and value of every entry, numbered in order, and no others |
| GitKeys.ReadExactly | crates/buzz-acp/src/git.rs:117-132 | an environment is read, and as these entries, if and only if its count parses to their number, at most 1024, and the numbered variables hold them |
| GitKeys.EnvVarExactly | crates/buzz-acp/src/git.rs:117-132 | a variable has the value it was last set to |
| GitEnv.ConfigRoundTrip | crates/buzz-acp/src/git.rs:117-132 | reading the composed variables back, over whatever the environment held before and beside any others not named GIT_CONFIG_*, yields exactly the entries in order, or its error if they are more than 1024 or than a machine word counts |
| GitEnv.AgentModeMeaning | crates/buzz-acp/src/git.rs:329-380 | with the last entry winning, every key equal to an attribution or signing key takes the agent's value whatever was inherited, and every other key keeps its own |
| GitKeys.AgentModeExactly | crates/buzz-acp/src/git.rs:329-380 | what Git sees of every key in agent mode, by its text: name, mail, signing program, format, key and key file of the agent, and all others as before |
| GitEnv.UserEntriesClean | crates/buzz-acp/src/git.rs:70-86 | in user mode no entry but the fresh key file is an include, an author or committer key, or key-equal to an agent key |
| GitEnv.UserModeMeaning | crates/buzz-acp/src/git.rs:62-86 | in user mode, for every key: the fresh key file, nothing for the other dropped keys, and for all remaining keys exactly what the operator's own configuration and the relay's credentials say |
| GitKeys.UserModeExactly | crates/buzz-acp/src/git.rs:62-86 | what Git sees of every key in user mode, by its text |
| GitNesting.NestedAgentMeaning | crates/buzz-acp/src/git.rs:62-132 | through any sequence of nested harnesses in agent mode, every key equal to a managed one takes the innermost identity's value, and every other key what the operator's configuration and the relays' credentials say |
| GitNesting.NestedUserMeaning | crates/buzz-acp/src/git.rs:62-132 | the same in user mode: the innermost key file, nothing for the other dropped keys, and for the rest what the operator's configuration and the relays' credentials say |
| GitNesting.UserLayers | crates/buzz-acp/src/git.rs:70-86 | nested user modes stack the credential entries on what is retained and replace the key file |
| GitNesting.CredentialsPresent | crates/buzz-acp/src/git.rs:360-380 | every level's credential entries are in the innermost configuration |
| GitNesting.NestedSizeExact | crates/buzz-acp/src/git.rs:70-86 | each level adds exactly eleven entries in agent mode; in user mode it adds three to what is retained, and replaces the key file |
| GitNesting.NestingLimit | crates/buzz-acp/src/git.rs:117-132 | in either mode, whatever the levels' relays and identities and the process's environment, the innermost configuration is read back if and only if that many entries fit under 1024 |
| GitNesting.LaunchExactly | crates/buzz-acp/src/git.rs:62-132 | a chain of processes, each reading its environment and setting the next one's, breaks off exactly at the first whose configuration is over the limit; until then each reads what nesting says |
| Decimal.ShowThenRead | crates/buzz-acp/src/git.rs:374-378 | a printed number reads back |
| Resp.EncodeCommand | perf/relay_bus_scaling.py:110-117 | the loop writes the array of bulk strings |
| Resp.Stream.TakeLine | perf/relay_bus_scaling.py:120-126 | a line from the stream and the position after it, or its error |
| Resp.Stream.TakeValue | perf/relay_bus_scaling.py:129-153 | the recursive stateful reader returns the value at the position, with its error cases, and stops right after it |
| Resp.CommandRoundTrip | perf/relay_bus_scaling.py:110-153 | wherever a command's frame stands in a stream, reading returns its parts and consumes exactly the frame, whatever bytes the parts hold |
| Resp.PipelineRoundTrip | perf/relay_bus_scaling.py:110-153 | any pipeline of commands reads back as its commands, to the byte |
| Resp.ReadLineExactly | perf/relay_bus_scaling.py:120-126 | a line is read if and only if it stands there, free of line feeds, with its terminator |
| Resp.ReplyRoundTrip | perf/relay_bus_scaling.py:129-153 | every reply, of texts, integers, bulks, missing values and arrays nested to any depth, reads back as itself, to the byte |
| Resp.ErrorReply | perf/relay_bus_scaling.py:135-136 | a server error is reported with its message |
| Resp.NilReply | perf/relay_bus_scaling.py:139-152 | both forms of the missing value |
| Resp.PipelineUnique | perf/relay_bus_scaling.py:110-117 | different pipelines never share an encoding |

## Left out

- The audio worklet `desktop/public/worklet.js`, bech32 and nsec decoding, and NIP-01 event checks: each would add only short members.
- Usage tracking, stop-reason parsing, observers and logging in acp.rs: they do not affect the turn protocol.
- Process spawning, environment inheritance, process groups and version probes: operating-system effects.
- What the dispatch loop does with a steer's ack, and the queue and pool behind it.
- JSON text: a frame enters already read, with its id, method kind, error and the parts of its result that are used; a blank or unparseable line is the outcome `Skip`.
- The order in which a biased select tries ready arms: any ready arm may be taken, so the theorems hold for more runs than the code has.
- The assertion in `install_steer_rx` that no receiver is installed: installing twice leaves the model with one.
- A request timeout that fires while the plain read loop is writing a reply: the model lets the future disappear there, and does not record the timeout as its result.
- Wrap-around of the 64-bit request id and overflow of instants: ids and clocks are unbounded.
- In-place update of nested maps in `deep_merge`: the nested map is returned by value.
- Concurrent calls of `match_event` on shared counters: calls are sequential.
- SHA-256, the tagged hashes and the XOR with the aux hash: the nonce and the challenge are arbitrary functions of their inputs; the arithmetic of secp256k1 enters through its group laws.
- Byte/text conversion: the UTF-8 encoding of command parts and decoding of replies, Python's limit on the digits of an integer, and non-UTF-8 environment variables.
- The rest of git.rs: keyfile handling, PATH, display-name sanitizing and the URL of the relay; the identity's values are given.
- Multi-valued Git keys: `Effective` is the single value Git uses; the resetting of a helper list by an empty entry is not modelled.
- Python's word and whitespace classes are given; `RustScan.RangesExactly` assumes of them that identifier characters are word characters, and that neither they nor braces are whitespace.
- A change of mode between a harness and one nested in it: the mode is forwarded (git.rs:101-106), so all levels share it.
