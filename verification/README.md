# Messaging platform: verification model

This project models the parts of the messaging platform where mistakes are hardest to see, and proves what they
keep. Each module follows one part of the repository:

- **MessageQueue, Consent, Webhooks** hold the queue table, the suppression table and the event store, one function per SQL
  statement on one row, and classes whose methods are the statements.
- **Delivery, DeliveryRuns** put those statements into one transition system: any number of workers claim, run gates,
  refresh, hand over, record, crash, while rows are reclaimed, cancelled, receipted and opted out. Every claim opens a
  session (an epoch) that is kept as history. `provider.send` is a step of its own. Theorems are about every run.
  **DeliveryWrites** says what each step of a run leaves in the columns, and which row a message id names.
- **Orchestrator** is the worker's code, statement by statement, with everyone else free to run between two statements.
  Each statement it issues is shown to be a step of the transition system, so the theorems about runs hold of it.
- **FlowGraph, Linearise, FlowSync** are the journey compiler: the loop search, the path compiler, and the transaction that
  renumbers rows in place under a UNIQUE constraint that is checked row by row. **SendConditions** says what the messages of a
  journey mean: who meets their condition, how long they wait, what they hold.
- **Audience, SqlText, LikePattern, AudienceCompiler, AudienceMeaning, CompileAudience, AudienceResolver** are the segment
  language: what a rule asks (NULLs included), the text and parameters it compiles to, how that text reads back under
  NOT before AND before OR, what Postgres answers, and the explanation of a refusal. **AudienceReadings** says what each
  operator asks, by kind of field, in terms of what the contact holds.
- **Renderer, RenderOnce, RenderSlots, SmsSegments** render templates through sentinels, say what ends up in each slot, and
  count SMS segments.
- **QuietHours, RateBucket, TokenLedger, RateLimiter** schedule and limit.

What the model takes for granted, throughout: the clock never goes back; all callers of the queue use one `maxAttempts`,
at least 1; two live claims of one row never share a worker id; a claim is one atomic step on rows that are pending and
due; a node id occurs once per campaign and stored sequence numbers are positive before a save (the API that creates
messages enforces both); instants are integers, in milliseconds (seconds, as reals, in RateBucket).

Some statements in the code's comments go further than the code. "A failed message was never sent" does not hold: a
provider's `failed` receipt sets that status on a sent row. "A cancelled message is never sent" does not hold of a worker
already past `refreshClaim`. Neither is claimed here. Four narrower promises fail, and where they do is proved below:

- A `none` group is to accept the contacts that none of its rules describes. `NoneCanBeUndecided` has a contact without a
  first name that one neither accepts nor rejects. `PlainExactlyWhenSettled` says, for every definition and contact, when
  the answer is the plain one: exactly when no leaf that asks about a missing value can change the outcome.
- `render` is to treat text as text. `NulMovesTheLink` is a template in which a NUL lets a value out of its place, and
  `RendersOnce` covers every template with no raw block behind a NUL. A stored template holds no NUL, as a Postgres text
  cannot; `validateTemplate` (renderer.ts:276) renders an SMS body that it was given, which can.
- A rate limit's wait is to be enough. A stored rate that was rounded up makes it too short
  (`RoundedUpRateWaitsTooShort`; `RetryAtAnyRate` says exactly when), and otherwise it is enough exactly from a capacity
  of one on (`RetryIsHonoured`).
- The walk over fourteen dates is to see each of them. Gaps of up to half a day let it, longer ones need not
  (`LongGapsSkipADate`), and `StepsOneDateOrTwo` says at which step.

## Model

| member | source | states |
|---|---|---|
| MessageQueue.Queue.Enqueue | packages/core/src/queue/message-queue.ts:84-115 | a row is inserted exactly when no stored row has its tenant and dedup key; keys stay unique |
| MessageQueue.SelectEarliest | packages/core/src/queue/message-queue.ts:141-146 | the rows taken are distinct claimable rows, earliest first, and none left out is earlier than one taken; fewer than the limit only when nothing is left |
| MessageQueue.EarliestExists | packages/core/src/queue/message-queue.ts:144 | a non-empty set of rows has one that no other precedes in scheduled order |
| MessageQueue.EarliestMeans | packages/core/src/queue/message-queue.ts:131-160 | spelled out: a row is taken only if it is pending, its send time is past and its retry time, if any, is too; those taken are in order of send time, and none left behind has an earlier one |
| MessageQueue.Queue.ClaimBatch | packages/core/src/queue/message-queue.ts:131-160 | exactly those rows, among the pending, due and unlocked, take status, stamp, worker and one more attempt, and no other column; no other row changes |
| MessageQueue.Queue.ClaimSpecific | packages/core/src/queue/message-queue.ts:179-213 | the same claim for all named rows that are claimable, and no others |
| MessageQueue.Queue.Record | packages/core/src/queue/message-queue.ts:239-459 | a recording write matches exactly when worker, status and (where the code asks) an empty sent_at fit; then, write by write, which columns take which value, and that every other column and row stays |
| MessageQueue.Queue.ReclaimStale | packages/core/src/queue/message-queue.ts:251-291 | every stale processing row moves to exactly one of pending and failed, by its attempts, with these columns written and no others; every other row is untouched |
| MessageQueue.ReclaimDelayDoubles | packages/core/src/queue/message-queue.ts:264-265 | the wait of a reclaimed row is one minute at no attempts, doubles with each attempt, and stops at an hour |
| MessageQueue.Queue.CancelQueuedForContact | packages/core/src/queue/message-queue.ts:468-488 | exactly the contact's queued rows on the channel are cancelled, claim stamps left in place |
| Delivery.FenceIsEpoch | packages/core/src/queue/message-queue.ts:333-350 | the ownership test passes only for the session that opened the row's current epoch |
| Delivery.WriteKeepsRow | packages/core/src/queue/message-queue.ts:306-459 | a write that passes keeps claims = attempts + deferrals (the clip at zero never acts), the attempt bound and the status rules |
| Delivery.WorkKeepsInv | packages/core/src/delivery/orchestrator.ts:597-842 | no step of any session breaks the row invariant |
| Delivery.PerformedKeepsInv | packages/core/src/queue/message-queue.ts:131-488 | no claim, write, reclaim, cancellation, receipt or anchor breaks the row invariant |
| Delivery.InvAlongRun | packages/core/src/queue/message-queue.ts:131-459 | the row invariant holds of every row in every state of every run |
| Delivery.SendsWithinAttempts | packages/core/src/delivery/orchestrator.ts:712-735 | hand-overs never exceed attempts: one per claim, none in a deferred one |
| Delivery.HandedOverAtMostMaxAttempts | packages/core/src/queue/message-queue.ts:131-330 | in every interleaving with crashes, a message is handed to the provider at most maxAttempts times, claims = attempts + deferrals, and without deferrals it is claimed at most maxAttempts times |
| DeliveryRuns.PerformedIsLater | packages/core/src/queue/message-queue.ts:131-488 | one step never revives a session, never rewrites sent_at, never brings a row back to the queue |
| DeliveryRuns.RunIsLater | packages/core/src/queue/message-queue.ts:131-488 | the same between any two states of a run |
| DeliveryRuns.LeavesTheQueueForGood | packages/core/src/queue/message-queue.ts:333-459 | sent_at is written at most once; a row that leaves pending/processing never returns and is never claimed again; pending means no claim stamp and no sent_at; delivered means sent_at <= delivered_at |
| DeliveryRuns.OnlyTheLatestEpochWrites | packages/core/src/queue/message-queue.ts:333-350 | a session's step changes the row only if its claim is the row's latest |
| DeliveryRuns.RequeuedClaimableExactly | packages/core/src/queue/message-queue.ts:258-272 | a reclaimed row is claimable exactly from next_attempt_at on, one minute to one hour later |
| DeliveryRuns.RetriedClaimableExactly | packages/core/src/queue/message-queue.ts:411-439 | a retried row is claimable exactly from its retry time on, whichever of the two columns was later before |
| DeliveryRuns.DeferredClaimableExactly | packages/core/src/queue/message-queue.ts:306-330 | a deferred row is claimable exactly from `until` on and has its attempt back |
| DeliveryRuns.NoRowStranded | packages/core/src/queue/message-queue.ts:251-291 | after both reclaim statements, whatever ran between them, no row is still stale |
| DeliveryRuns.PermanentAlong | packages/core/src/consent/consent.ts:96-149 | a permanent suppression survives every later call and the nightly sweep with its first reason, until an explicit delete |
| DeliveryRuns.UncheckedStaysBlocked | packages/core/src/delivery/orchestrator.ts:257-274 | a session that had not read the suppression table when the suppression began never hands the message over |
| DeliveryRuns.OptOutCancelsForGood | packages/core/src/consent/consent.ts:207-290 | in every later state the covered rows are still cancelled and no session that had not passed refreshClaim has sent them |
| DeliveryRuns.OptOutSuppressesUntilLifted | packages/core/src/consent/consent.ts:207-290 | after a channel-wide opt-out the address tests suppressed at every instant until deleted, and nothing to it, transactional or not, is sent by a session that had not passed the gate |
| DeliveryRuns.SessionIsPrivate | packages/core/src/delivery/orchestrator.ts:597-842 | only its own worker moves a session along |
| DeliveryWrites.WriteLeaves | packages/core/src/queue/message-queue.ts:306-459 | in any run, a worker's statement writes only the row it holds: what a success, an error (given up or retried), a deferral, a cancellation and a caught exception leave in its columns; a deferral gives back exactly one attempt, a retry never moves the send time forward |
| DeliveryWrites.MatchesWhileHeld | packages/core/src/queue/message-queue.ts:333-459 | a worker's write matches exactly while the row is processing under its name |
| DeliveryWrites.EventMakes | packages/core/src/queue/message-queue.ts:131-488 | in any run, what every other statement makes of each row, column by column |
| DeliveryWrites.ProtectionAfter | packages/core/src/consent/consent.ts:96-174 | in any run, an address is protected after a step exactly if it was before, but for an opt-out, a new suppression that is taken, and an explicit delete; and it carries the reason given |
| DeliveryWrites.IdComesFromItsSend | packages/core/src/queue/message-queue.ts:352-384 | every message id in the table was written by a recorded success of that very row |
| DeliveryWrites.IdNamesItsRow | packages/core/src/queue/message-queue.ts:352-384 | from a recorded success on, the row carries its instant and message id for good, and no other row does when the provider never repeats an id |
| Orchestrator.ClaimIsStep | packages/core/src/queue/message-queue.ts:131-160 | the claiming statement is one step of the transition system |
| Orchestrator.RunExtends | packages/core/src/delivery/orchestrator.ts:597-842 | a statement enabled now lengthens the run it was issued in |
| Orchestrator.Database.ClaimBatch | packages/core/src/delivery/orchestrator.ts:862-873 | claims the earliest rows and opens one session on each, owned by the caller |
| Orchestrator.Database.Issue | packages/core/src/delivery/orchestrator.ts:699-720 | a statement of the code is a step of the run, and reports whether it matched |
| Orchestrator.NotSuppressed | packages/core/src/delivery/orchestrator.ts:257-274 | the gate passes only an address that is not suppressed when read, and refuses only one that is, at that moment, naming that entry's reason |
| Orchestrator.RunGates | packages/core/src/delivery/orchestrator.ts:480-488 | the first gate that does not pass decides; the chain passes only after the suppression gate was read, and a refusal that no other gate gave comes from a suppression in force during this run |
| Orchestrator.DeliverClaimed | packages/core/src/delivery/orchestrator.ts:597-842 | with everyone else interleaved, and an exception possible before and after every write: sends only after every gate, a sender and a refreshed claim; a result that is returned, and the last statement issued with its reason or time, are the ones the circumstances call for, a suppression reason only if the address was suppressed for it meanwhile; and the claim is settled |
| Orchestrator.Conclude | packages/core/src/delivery/orchestrator.ts:651-680 | the write that ends a delivery and the log after it: an exception before the write leaves the claim open, one after it leaves the write in force |
| Orchestrator.SendIfStillOurs | packages/core/src/delivery/orchestrator.ts:682-735 | past the gates: cancelled exactly without a sender, left alone exactly when the refreshed claim no longer matches, handed over otherwise |
| Orchestrator.HandOver | packages/core/src/delivery/orchestrator.ts:722-842 | one call of the provider, then the write its result asks for: sent, retry, or failed when terminal or out of attempts |
| Orchestrator.DeliverOneSafely | packages/core/src/delivery/orchestrator.ts:905-950 | never an exception, and the session is over whatever happened; after an exception the outcome is failed if the row was recorded as failed inside (or that write failed too), and sent only if the row was no longer the worker's |
| Orchestrator.CaughtNow | packages/core/src/delivery/orchestrator.ts:905-950 | the write that records an exception fails the row, or the row was lost before it |
| Orchestrator.Drain | packages/core/src/delivery/orchestrator.ts:875-888 | every claimed row is finished, whatever went wrong with the others; the counters are the tally of the outcomes; without an exception a row counted as sent was handed over and accepted, and one counted as skipped was not handed over and has a cause: no recipient, a gate that refuses, no sender, a claim that was lost, or a suppression in force in a state of this run; with one, every outcome is such a one or that of a caught exception |
| Orchestrator.ProcessQueue | packages/core/src/delivery/orchestrator.ts:862-889 | a worker that may not send live touches no row; otherwise the earliest claimable rows, up to a batch and none left out while there is room, are claimed and all of them finished, every outcome with its cause as in Drain |
| Orchestrator.FlushMessages | packages/core/src/delivery/orchestrator.ts:972-1002 | takes exactly the claimable ones among the first batchSize rows named, and finishes all of them the same way, every outcome with its cause |
| Orchestrator.AMessageGetsThrough | packages/core/src/delivery/orchestrator.ts:597-735 | the rules leave room: there is a run in which a message is sent once and recorded as sent at its first attempt |
| Consent.AddNeverUnprotects | packages/core/src/consent/consent.ts:96-149 | no call shortens a protection in force, and none touches another address |
| Consent.AddProtectsExactly | packages/core/src/consent/consent.ts:118-149 | after a call the address is protected at an instant exactly if it was, or the new entry covers it and took the row: a longer temporary one does not extend an active one |
| Consent.SweepIsInvisible | packages/core/src/consent/consent.ts:151-174 | no query can tell whether the expiry job ran |
| Consent.ReasonCodesTell | packages/core/src/consent/consent.ts:177-180 | the code of a refusal tells the reason of the suppression, and is never the one of a missing consent |
| Consent.ConsentStore.AddSuppression | packages/core/src/consent/consent.ts:96-149 | the upsert, case by case; a permanent one always leaves the address permanently suppressed |
| Consent.ConsentStore.OptOut | packages/core/src/consent/consent.ts:207-290 | ledger entry, suppression unless scoped to a category, and cancellation, with its code, of exactly the contact's queued rows on the channel that are not transactional and are in the category, if one is named |
| Webhooks.EventStore.ApplyProviderEvent | packages/api/src/routes/webhooks.ts:244-335 | an event counts at most once by its provider id, and changes only a row of the tenant with its message id: bounced, complained and failed set that status and the error code, delivered sets the status of a sent row and the later of its instant and the send's; a bounce or complaint suppresses the address |
| Webhooks.ReceiptFindsItsMessage | packages/api/src/routes/webhooks.ts:250-271 | whatever happens after a recorded success, an event with its message id is accepted on that row, and on no other when ids are not repeated |
| FlowGraph.ReachableFrom | packages/core/src/campaigns/flow.ts:234-246 | the set returned is exactly what edges reach from the start |
| FlowGraph.Explore | packages/core/src/campaigns/flow.ts:272-303 | one depth-first search with explicit stack: a loop found is a loop, and without one every node it closes is finished for good |
| FlowGraph.FindCycle | packages/core/src/campaigns/flow.ts:260-306 | a list returned is a genuine closed path over distinct declared nodes; none is returned exactly when no such loop exists; it terminates |
| FlowGraph.NoCycleLeft | packages/core/src/campaigns/flow.ts:260-306 | when every node is finished in order, no loop exists |
| Linearise.CollectExact | packages/core/src/campaigns/flow.ts:316-377 | the enumeration holds exactly the send visits on walks of at most 64 edges that stop at exits |
| Linearise.CollectInOrder | packages/core/src/campaigns/flow.ts:316-377 | and lists them depth first, edges in order |
| Linearise.Compiler.Walk | packages/core/src/campaigns/flow.ts:316-377 | the recursive closure appends exactly those messages, numbered on, each with its path's delay, branch and condition |
| Linearise.LineariseFlow | packages/core/src/campaigns/flow.ts:308-380 | the i-th message is the one of the i-th send walk: its number, its node's columns, the summed delay and the last condition's (possibly negated) branch |
| Linearise.CompilesToOne | packages/core/src/campaigns/flow.ts:308-380 | a graph compiles to one list of messages only |
| Linearise.SendWalksExact | packages/core/src/campaigns/flow.ts:308-380 | what is compiled is exactly the send walks of at most 64 edges from the trigger, in depth-first order |
| Linearise.BeforeIsStrict | packages/core/src/campaigns/flow.ts:316-377 | depth-first order is strict, so no path is emitted twice |
| Linearise.AcyclicWalksAreShort | packages/core/src/campaigns/flow.ts:323-325 | without a loop a walk is shorter than the node list (pigeonhole) |
| Linearise.DepthBoundDropsNothing | packages/core/src/campaigns/flow.ts:323-325 | with no loop and at most 65 nodes the depth cut drops nothing |
| SendConditions.NegationSplits | packages/core/src/campaigns/flow.ts:382-401 | of a condition and its negation, as the gate reads them, every recipient meets exactly one, but for `always` |
| SendConditions.ConditionsDiffer | packages/core/src/delivery/orchestrator.ts:386-462 | no two conditions are met by the same recipients |
| SendConditions.EdgeTells | packages/core/src/campaigns/flow.ts:333-377 | what leaving a node by an edge adds to the messages behind it: the minutes of a delay or of a condition's wait, the side (`yes` unless the handle is `no`), and the recipients the node asks for or all others (`opened_previous` unless it says); of several condition nodes on a walk only the last one counts |
| SendConditions.SidesShareTheRecipients | packages/core/src/campaigns/flow.ts:354-363 | of two messages of one journey whose walks part at a condition node, one goes to exactly the recipients the node asks for and the other to exactly the rest |
| SendConditions.DelayIsSum | packages/core/src/campaigns/flow.ts:333-357 | a message waits for the sum of the minutes of the nodes on its walk |
| SendConditions.MessageTells | packages/core/src/campaigns/flow.ts:338-352 | every message is that of the last node with its id: number, channel, body, and subject and HTML for email only |
| SendConditions.FirstTriggerIsFirst | packages/core/src/campaigns/flow.ts:311-312 | the walks start at the first trigger, if there is one |
| FlowSync.CollapseRejoins | packages/core/src/campaigns/flow.ts:431-451 | one message per node in first-seen order, with the earliest delay, and the common branch and condition or else always and none; numbered 1 to k |
| FlowSync.CollapseIsDetermined | packages/core/src/campaigns/flow.ts:431-451 | that description has one solution: the same paths always collapse to the same messages |
| FlowSync.PlanMessageSync | packages/core/src/campaigns/flow.ts:453-475 | update and create split the messages by whether their node is stored; disable is exactly the stored nodes no longer emitted |
| FlowSync.CampaignMessages.Park | packages/api/src/routes/flow.ts:122-126 | every positive number is negated, nothing else changes |
| FlowSync.CampaignMessages.UpdateNode | packages/api/src/routes/flow.ts:128-137 | exactly the node's row takes the message's columns and is enabled |
| FlowSync.CampaignMessages.LiftOrphans | packages/api/src/routes/flow.ts:173-192 | what is still parked moves above the live range, disabled |
| FlowSync.CampaignMessages.UpdateAll | packages/api/src/routes/flow.ts:128-137 | each update keeps the table a stage of the transaction and collides with no row still parked |
| FlowSync.CampaignMessages.InsertAll | packages/api/src/routes/flow.ts:139-146 | each insert keeps it so and meets no row of its node |
| FlowSync.CampaignMessages.Save | packages/api/src/routes/flow.ts:111-195 | the transaction leaves the table as `Saved` says, and every statement between can write its rows in any order without meeting a taken number |
| FlowSync.CampaignMessages.SaveFlow | packages/api/src/routes/flow.ts:85-195 | the same from the graph on: what is saved is what the graph compiles to, and the table is the one `SavedFlow` describes for the graph and the old table |
| FlowSync.RowByRowMeansAnyOrder | packages/api/src/routes/flow.ts:119-126 | whatever part of a statement's rows is written already, numbers are unique |
| FlowSync.StagesDoNotCollide | packages/api/src/routes/flow.ts:119-146 | two tables of the transaction never give one number to two rows |
| FlowSync.SavedIsSound | packages/api/src/routes/flow.ts:149-192 | enabled rows are exactly one per emitted node, numbered 1 to k, and each carries its message's channel, delay, condition, branch and texts; all others kept, disabled, above k, in their old order; numbers positive and unique |
| FlowSync.RankStable | packages/api/src/routes/flow.ts:173-192 | a removed row's place among removed rows does not move on the next save |
| FlowSync.SavingAgainIsIdentity | packages/api/src/routes/flow.ts:111-195 | saving the same messages again changes nothing |
| FlowSync.SavingTwiceIsSavingOnce | packages/api/src/routes/flow.ts:111-195 | for one list of compiled paths: saving it again changes nothing, whatever was stored before the first save |
| FlowSync.SavingAFlowAgain | packages/api/src/routes/flow.ts:85-195 | saving a graph and then saving it again leaves the table as the first save did, whatever was stored before: the second `SaveFlow` is the identity |
| Audience.NoNoneIsPlain | packages/core/src/audience/compiler.ts:381-405 | without a `none` group, acceptance under NULLs is the plain Boolean reading |
| Audience.UnknownIsBlank | packages/core/src/audience/compiler.ts:216-379 | a leaf has no answer exactly when its operator is a positive one other than is_set and the contact has no value for its field |
| Audience.ReadingIsOutcome | packages/core/src/audience/compiler.ts:381-405 | every rule, `none` groups nested in any way: its answer is its plain Boolean outcome when no blank leaf can change that (`Settled`), and NULL when one can |
| Audience.PlainExactlyWhenSettled | packages/core/src/audience/compiler.ts:417-438 | every definition: the answer is the plain one exactly when it is settled, and there is none otherwise; it never accepts a contact that the plain reading turns away |
| Audience.PlainUnlessUndecided | packages/core/src/audience/compiler.ts:417-438 | where `none` groups stand at the top only, that comes down to this: answer and plain reading part exactly when everything else accepts and a `none` rule is not settled |
| Audience.NoneCanBeUndecided | packages/core/src/audience/compiler.ts:400-402 | a contact the table can hold (an email, no first name) that "none of first_name = x" neither accepts nor rejects, although no rule of it is true |
| Audience.NeverAborts | packages/core/src/audience/compiler.ts:357-370 | the reading of a rule that compiles is always a truth value |
| AudienceReadings.FieldsResolve | packages/core/src/audience/compiler.ts:95-124 | each of the twelve columns has its one path |
| AudienceReadings.AttributesResolve | packages/core/src/audience/compiler.ts:44-122 | an attribute has a key of 1 to 64 letters, digits, underscores, dots and hyphens, the first a letter, digit or underscore |
| AudienceReadings.LeafAccepted | packages/core/src/audience/compiler.ts:216-379 | which operators with which values a field of each kind takes; every other leaf is refused |
| AudienceReadings.PresenceSays | packages/core/src/audience/compiler.ts:231-244 | is_set exactly if the contact has the value: a tag at least, a column that is not NULL, an attribute that is not null |
| AudienceReadings.NumberSays | packages/core/src/audience/compiler.ts:333-358 | the six comparisons of a number column |
| AudienceReadings.TimeSays | packages/core/src/audience/compiler.ts:333-361 | the six comparisons of a timestamp column with the instant written |
| AudienceReadings.AgeSays | packages/core/src/audience/compiler.ts:246-269 | within so many days of 24 hours, to the millisecond, boundary included |
| AudienceReadings.TextEqualitySays | packages/core/src/audience/compiler.ts:333-352 | text is equal character by character, an email address whatever its case; a missing value differs from everything |
| AudienceReadings.TextOrderSays | packages/core/src/audience/compiler.ts:354-378 | text is put in order by the collation |
| AudienceReadings.EmailOrderSays | packages/core/src/audience/compiler.ts:354-378 | email addresses are put in order without their case |
| AudienceReadings.ContainsSays | packages/core/src/audience/compiler.ts:271-290 | contains finds the text literally, somewhere, whatever its case |
| AudienceReadings.TagSays | packages/core/src/audience/compiler.ts:271-278 | a tag is contained exactly if the contact has it |
| AudienceReadings.TagListSays | packages/core/src/audience/compiler.ts:292-300 | in: the contact has a tag of the list |
| AudienceReadings.TextListSays | packages/core/src/audience/compiler.ts:318-331 | in: the text is one of the list, its case included |
| AudienceReadings.NumberListSays | packages/core/src/audience/compiler.ts:301-314 | in: the number is one of the list, which holds numbers only |
| AudienceReadings.TimeListSays | packages/core/src/audience/compiler.ts:315-320 | in: the list names the instant |
| AudienceReadings.AttributeTextSays | packages/core/src/audience/compiler.ts:271-378 | equality, substrings and order of an attribute, by the text Postgres gives for it |
| AudienceReadings.AttributeListSays | packages/core/src/audience/compiler.ts:318-331 | in: that text is one of the list |
| AudienceReadings.BooleansSay | packages/core/src/audience/compiler.ts:333-352 | an attribute that holds a Boolean equals it and not the other |
| AudienceReadings.AttributeNumberSays | packages/core/src/audience/compiler.ts:362-374 | against a number only a stored number compares; any other stored value is a definite no |
| AudienceReadings.NothingStoredSays | packages/core/src/audience/compiler.ts:271-378 | what is asked of an absent or null attribute |
| LikePattern.PatternIsSubstring | packages/core/src/audience/compiler.ts:199-207 | the escaped pattern finds exactly the texts that contain the needle literally, wildcards included |
| LikePattern.UnescapedFindsMore | packages/core/src/audience/compiler.ts:199-207 | and without escaping they would find more: an underscore any character, a percent sign any text |
| LikePattern.EscapedIsPrefix | packages/core/src/audience/compiler.ts:199-207 | an escaped needle matches itself and nothing else |
| SqlText.ParsesAsMeant | packages/core/src/audience/compiler.ts:381-405 | the parenthesised text, read under NOT before AND before OR, is the intended tree |
| SqlText.ReadsBack | packages/core/src/audience/compiler.ts:381-405 | every phrase reads back as meant inside any text that goes on after it |
| AudienceMeaning.LeafMeans | packages/core/src/audience/compiler.ts:216-379 | each operator on each kind of field, evaluated by Postgres with its own placeholders, answers what the operator asks |
| AudienceMeaning.PresenceMeans | packages/core/src/audience/compiler.ts:231-244 | is_set and is_not_set, with an empty tag list counting as not set |
| AudienceMeaning.AgeMeans | packages/core/src/audience/compiler.ts:246-269 | within_days and its denial, which takes in the missing dates |
| AudienceMeaning.ContainsMeans | packages/core/src/audience/compiler.ts:271-290 | contains and its denial, on tags and on text |
| AudienceMeaning.ListMeans | packages/core/src/audience/compiler.ts:292-331 | in and not_in on text, numbers and timestamps |
| AudienceMeaning.EqualityMeans | packages/core/src/audience/compiler.ts:333-352 | eq and neq, with neq accepting missing values |
| AudienceMeaning.OrderMeans | packages/core/src/audience/compiler.ts:354-378 | the orderings, text and numeric |
| AudienceMeaning.GuardedCast | packages/core/src/audience/compiler.ts:361-370 | the type test keeps the numeric cast from failing the query on a stored text |
| AudienceMeaning.RuleMeans | packages/core/src/audience/compiler.ts:397-405 | a whole rule tree, evaluated in three-valued logic, equals its direct three-valued reading |
| AudienceMeaning.PlaceholdersExact | packages/core/src/audience/compiler.ts:72-78 | a rule's text holds exactly the placeholders of its own parameters |
| CompileAudience.FaultIffRefused | packages/core/src/audience/compiler.ts:397-405 | a rule is refused exactly if one of its leaves is |
| CompileAudience.Numbers | packages/core/src/audience/compiler.ts:301-309 | a list for a number field is taken exactly if every item is a number |
| CompileAudience.CompileLeaf | packages/core/src/audience/compiler.ts:216-379 | a leaf compiles exactly when its field and value suit its operator; its text depends on its shape, its parameters come key first |
| CompileAudience.Combine | packages/core/src/audience/compiler.ts:381-395 | a group compiles to its identity when empty, else to its parts in parentheses; the first fault stops it |
| CompileAudience.CompileRule | packages/core/src/audience/compiler.ts:397-405 | text by shape, parameters in order, or the path of the first fault in reading order |
| AudienceResolver.Compile | packages/core/src/audience/compiler.ts:417-438 | the text is a function of the definition's shape alone, never of a value or an attribute key |
| AudienceResolver.CompiledIsReading | packages/core/src/audience/compiler.ts:417-438 | the text, read back and evaluated with its parameters inside any larger query, answers exactly what the definition asks |
| AudienceResolver.DefinitionPlaceholders | packages/core/src/audience/compiler.ts:72-78 | placeholders are exactly 1 to the number of parameters |
| AudienceResolver.Evaluate | packages/core/src/audience/resolver.ts:152-169 | a contact is returned exactly when the definition is true of it |
| AudienceResolver.FirstAnswering | packages/core/src/audience/resolver.ts:203-218 | the loop stops at the first rule that gives the answer looked for |
| AudienceResolver.Explain | packages/core/src/audience/resolver.ts:184-224 | the rule named really turns the contact away, and no earlier one does |
| AudienceResolver.Matches | packages/core/src/audience/resolver.ts:96-106 | matched exactly when accepted, otherwise with such an explanation |
| AudienceResolver.UnexplainedExactly | packages/core/src/audience/resolver.ts:220-222 | the last-resort explanation of a refusal occurs exactly when `all` and any non-empty `any` accept, no `none` rule is true, and `any` is the empty list or a `none` rule is unknown |
| Renderer.EscapeIsPerCharacter | packages/core/src/rendering/renderer.ts:68-75 | the five passes equal one per-character map |
| Renderer.EscapeRoundTrip | packages/core/src/rendering/renderer.ts:68-75 | reading the entities back gives the original text |
| Renderer.MergeValue | packages/core/src/rendering/renderer.ts:197-199 | a merge value never holds NUL |
| Renderer.Render | packages/core/src/rendering/renderer.ts:201-223 | the sentinels are put back in order, each at its first occurrence |
| RenderOnce.SameToken | packages/core/src/rendering/renderer.ts:201-213 | taking raw blocks out first neither makes nor breaks a token |
| RenderOnce.RestoresOne | packages/core/src/rendering/renderer.ts:215-222 | replacing the first sentinel left puts the value where its block stood, never into another slot |
| RenderOnce.RendersOnce | packages/core/src/rendering/renderer.ts:197-223 | for any values and every template without a raw block behind a NUL (none without NUL has one, nor one without raw blocks), rendering equals the one-pass reading: literal text verbatim, values as data, never scanned again |
| RenderOnce.NulMovesValue | packages/core/src/rendering/renderer.ts:201-223 | with the first sentinel written in the template ahead of a raw block that has a value, the value moves there and the block keeps the sentinel |
| RenderOnce.NulMovesTheLink | packages/core/src/rendering/renderer.ts:201-223 | such a template: the sentinel, then `{{{unsubscribe_url}}}`, with the address `u` |
| RenderSlots.SlotsAreFilled | packages/core/src/rendering/renderer.ts:65-223 | a template of words, merge fields and raw blocks renders to its words and, in each slot, the value that its path names: as it is in a raw block or without escaping, and otherwise as text without `<`, `>` or quotes that reads back as the value; braces around anything but a path stay |
| RenderSlots.LookupFinds | packages/core/src/rendering/renderer.ts:77-86 | which value a path names: the two addresses, `contact.key` and `order.key` (what stands behind a second dot is not looked at), and nothing else |
| SmsSegments.PackSegments | packages/core/src/rendering/renderer.ts:173-185 | the least number of consecutive groups that fit, one when all fits, and (segments-1)*(multi-1) < units <= segments*multi |
| SmsSegments.GreedyIsLeast | packages/core/src/rendering/renderer.ts:173-185 | no way of packing needs fewer segments, nor leaves the last one emptier |
| SmsSegments.GreedyPacks | packages/core/src/rendering/renderer.ts:160-172 | whole characters in order, every segment within its size |
| SmsSegments.GreedyBounds | packages/core/src/rendering/renderer.ts:173-185 | every closed segment wastes at most one unit |
| SmsSegments.CountSegments | packages/core/src/rendering/renderer.ts:126-156 | GSM-7 exactly when every character is in the tables; one unit for each character and one more for each of the second table, or outside the basic plane; one segment exactly when the units fit |
| SmsSegments.DoublesPack | packages/core/src/rendering/renderer.ts:160-172 | of two-unit characters only half the size fits in a segment |
| SmsSegments.EuroSigns | packages/core/src/rendering/renderer.ts:168-171 | the text of 153 euro signs takes three segments although 306 divides by 153 |
| QuietHours.EffectiveWindow | packages/core/src/scheduling/quiet-hours.ts:91-111 | a minute is in the window exactly if floor and campaign both allow it; refused exactly if none is |
| QuietHours.ResolveSendTime | packages/core/src/scheduling/quiet-hours.ts:188-237 | eligible exactly inside the window on a permitted day; otherwise the opening of the first of fourteen dates that is permitted and opens |
| QuietHours.WeekdaysFollow | packages/core/src/scheduling/quiet-hours.ts:113-116 | the weekdays of the calendar, 0 for Sunday |
| QuietHours.OpeningIsInSlot | packages/core/src/scheduling/quiet-hours.ts:173-177 | with gaps under a day, an opening that is accepted lies in the window on its own date |
| QuietHours.DecisionHolds | packages/core/src/scheduling/quiet-hours.ts:188-243 | whatever is decided lies in the window on a permitted weekday, and asking again about it says eligible |
| QuietHours.ScheduleWithin | packages/core/src/scheduling/quiet-hours.ts:240-243 | the instant stored is in the window on a permitted weekday, and is the target itself when that already is |
| QuietHours.StepsOneDateOrTwo | packages/core/src/scheduling/quiet-hours.ts:216-232 | with gaps under a day a step of the walk goes to the next date, or past it exactly when a gap carries the same time of the next day into the day after; it never repeats a date |
| QuietHours.LongGapsSkipADate | packages/core/src/scheduling/quiet-hours.ts:216-232 | a zone with gaps of twenty hours where the walk skips a date that has instants |
| QuietHours.DatesInOrder | packages/core/src/scheduling/quiet-hours.ts:216-232 | with gaps of at most half a day (not: under a day), each step goes to the next date |
| QuietHours.AlwaysASlot | packages/core/src/scheduling/quiet-hours.ts:216-236 | in any zone, it never fails when a weekday is permitted and at most one date of the fortnight is skipped by the walk or has no opening |
| QuietHours.AlwaysASlotInOrder | packages/core/src/scheduling/quiet-hours.ts:216-236 | with gaps of at most half a day nothing is skipped: one date of the fortnight may have no opening |
| QuietHours.EarliestInFixedZone | packages/core/src/scheduling/quiet-hours.ts:188-237 | in a zone without changes the result is the earliest eligible instant at or after the target |
| QuietHours.FixedZoneAlwaysDecides | packages/core/src/scheduling/quiet-hours.ts:216-236 | and such a zone always has one, when any weekday is permitted |
| RateBucket.Buckets.TryAcquire | packages/providers/src/rate-limit.ts:47-143 | refused exactly for a configuration that is not positive or that the table does not store; otherwise one attempt takes a token and stamps the row, stored to four decimals, or leaves the row as it is and names a wait |
| RateBucket.GrantsBounded | packages/providers/src/rate-limit.ts:47-114 | from any row, any interval grants at most capacity + rate * length, plus 0.00005 for each grant (what rounding the stored balance can give back), however attempts are spaced |
| RateBucket.DenialIsInvisible | packages/providers/src/rate-limit.ts:116-122 | a denied attempt changes no later answer, even if it created the bucket |
| RateBucket.RetryIsHonoured | packages/providers/src/rate-limit.ts:123-142 | with a stored rate not rounded above the configured one, waiting as told is enough exactly when the capacity is at least one |
| RateBucket.RetryAtAnyRate | packages/providers/src/rate-limit.ts:123-142 | with any stored rate, the wait is what is missing over the stored rate, and an attempt after it succeeds exactly when the configured rate has made that up |
| RateBucket.RoundedUpRateWaitsTooShort | packages/providers/src/rate-limit.ts:123-142 | a rate of 0.00006 is stored as 0.0001, and the wait it names is not enough |
| RateBucket.GrantsSometimes | packages/providers/src/rate-limit.ts:52-60 | a bucket ever grants exactly when its capacity is at least one |
| TokenLedger.Ledger.Reserve | packages/triage/src/budget.ts:104-142 | a reservation is booked exactly when the sum stays within the budget |
| TokenLedger.Ledger.CallWithBudget | packages/triage/src/classifier.ts:231-256 | refused exactly beyond the budget; a vendor error costs nothing; a response costs what it used |
| TokenLedger.StepKeepsInv | packages/triage/src/budget.ts:104-191 | no step of any call breaks the ledger's balance or needs the clamp |
| TokenLedger.LedgerIsExact | packages/triage/src/budget.ts:104-191 | along every interleaving, crashes included, tokens_used = settled actuals + tokens still reserved, and the clamp at zero never acts |
| TokenLedger.WithinBudget | packages/triage/src/budget.ts:104-191 | usage passes the budget by no more than calls used beyond their reservations, so not at all when none did |
| RateLimiter.Limiter.Sweep | packages/api/src/middleware/rate-limit.ts:43-45 | exactly the ended windows are deleted |
| RateLimiter.Limiter.Check | packages/api/src/middleware/rate-limit.ts:40-57 | the request is counted in its key's open window or opens one |
| RateLimiter.Limiter.RateLimit | packages/api/src/middleware/rate-limit.ts:87-119 | passes exactly up to the limit; the wait named is at least one second and the least whole number that outlasts the window |
| RateLimiter.SweepingIsInvisible | packages/api/src/middleware/rate-limit.ts:35-60 | every request sees the window it would see if nothing were ever deleted |
| RateLimiter.AtMostTwiceTheLimit | packages/api/src/middleware/rate-limit.ts:47-57 | at most twice the limit passes in any interval as long as a window |
| RateLimiter.LimiterHolds | packages/api/src/middleware/rate-limit.ts:35-119 | from an empty limiter that sweeps: at most the limit per window and twice that per interval of its length |

## Left out

- The content of enqueued messages, `updated_at`, `order_id` and the anchor tables: no property here depends on them. A row's
  campaign category is carried on the row.
- `consent_state`, gate bodies other than the suppression gate, error tables, backoff values, decision log, metrics and
  events: gate verdicts, error classes, delays and escaping exceptions are arbitrary inputs of a delivery.
- Row locks and isolation inside Postgres: a claim sees the rows no other transaction holds and is one step.
- Provider and model clients, HTTP handlers, authentication, webhook signatures, the web client.
- Orchestrator.Drain: the SENT counter also counts a caught exception on a row that was no longer the worker's, as in the source; it proves no send. The same loop stands for both callers.
- Consent.ConsentStore.OptOut: the evidence and source columns of the ledger entry are not modelled.
- FlowSync.CampaignMessages.Save: the columns `delay_anchor` and `preview_text`, which the transaction does not write, and template validation before it.
- Flow validation: node and edge limits, and the warnings about unreachable nodes; a send deeper than 64 edges, or behind an exit, can be reachable and still not compile.
- SendConditions.EdgeTells: which message is the recipient's previous one, and how opens, clicks and replies are recorded, are given.
- Linearise.LineariseFlow: the source builds its lookup from an object map; delays are integers of any sign.
- CompileAudience.CompileLeaf: error messages are not modelled, only the path of the rule they name. Field names that every JavaScript object inherits (such as `constructor`) are unknown fields here; the source's record lookup finds an inherited member for them. Numbers are finite reals, and instants outside JavaScript's range do not occur.
- AudienceMeaning.LeafMeans: a timestamp text that JavaScript parses and Postgres does not, or an unchecked text in a timestamp list, would fail the query; the cast is total here. AND is evaluated from the left, which Postgres usually does but does not promise. The `tags` column is never NULL.
- AudienceResolver.Evaluate: the tenant scope and the contact id are the choice of the contact, not part of the predicate. The sample and count of `estimate` are not modelled.
- Renderer.Render: regular expressions are matched by hand-written matchers for the two token forms; merge values are text; keys inherited by every JavaScript object are absent.
- SmsSegments.CountSegments: a text is a sequence of Unicode scalar values; lone surrogates do not occur.
- Link rewriting, template validation, opt-out text detection and address normalisation: mostly library and regular-expression behaviour.
- QuietHours.ResolveSendTime: 'HH:mm' texts are given as minutes of the day. Outside zones without changes the result need not be the earliest instant, nor, in an ambiguous hour, at or after the target.
- RateBucket.Buckets.TryAcquire: changes of a bucket's configuration within a run of attempts; an attempt is one step; the rounding of the wait, itself a numeric quotient, is not modelled.
- TokenLedger.LedgerIsExact: one tenant, one period, a fixed budget; a settlement that falls into the next month, and costs in dollars, are not modelled.
- RateLimiter.Limiter.Check: the source hands out the stored window object itself, to be read at once; the model returns its value. Client identity and response headers are not modelled.
