# core-dashboard: verified model of the live pipeline and its guards

core-dashboard shows the containers of a homelab in real time. This project models, in
Dafny, the parts of it whose guarantees depend on interleavings, on time, or on how bytes
happen to be cut, and proves those guarantees for every run.

**The live-log pipeline** is the centre. A container's log stream arrives as chunks of
bytes (`DockerFrames.dfy`: frame parser), becomes text (`Utf8.dfy`) and lines per source
(`LogLines.dfy`: splitter and timestamp; `PayloadCuts.dfy`: what the cuts do to it), goes
through a bounded queue with acknowledgements, watermarks and drop accounting
(`SessionRuns.dfy`, `SessionGuarantees.dfy`, `LogSession.dfy`), and ends in the browser's
ring buffer (`LogPipeline.dfy`). What the repository's load test states for one run,
delivered + dropped = produced, is `LogPipeline.NothingMissesUncounted` for all of them.

**The stateful services** around it: the restart limiter (`ActionsService.dfy`), the
die/restart coalescer and alert cooldown (`AlertRuns.dfy`, `AlertNotices.dfy`), the alert
feed poller (`AlertsPoller.dfy`), the single-flight token cache (`TaskforgeClient.dfy`), the
registry of log sessions (`LogsService.dfy`), metric rollups and retention
(`RollupRuns.dfy`, `MetricsService.dfy`). **The client folds**: the live grid
(`LiveState.dfy`) and the merge of chart series (`MergeSeries.dfy`).

## How it is built

JavaScript runs each segment between two awaits without interruption. A service is
therefore a step function over such segments, and a *run* is any sequence of them; the
theorems quantify over runs. Code that updates fields in place is also a class whose
methods refine the steps: each method's postcondition equates the object's new state with
the step applied to the old one, and the lemmas about runs apply to it. `flush`
(apps/api/src/logs/log-session.ts:97-121) suspends inside its loop, so `LogSession.Turn` is one
turn of that loop and `Acknowledged` and `AckExpired` are its two ways to resume. What
leaves an object (emitted batches, calls on a source, notices) is recorded in fields that
only grow.

Assumptions, each where it is used: options satisfy 1 <= batchSize, 1 <= maxQueue and
lowWater < highWater (the type `SessionRuns.Options`, whose witness is the repository's
default); callbacks do not re-enter the session; the clock does not go back (`Clocked`);
socket identifiers do not contain the character `|`; `localeCompare` is a total preorder; the
alert feed only grows and its identifiers are distinct. Which strings are dates is a parameter.

Where the code does not do what one might expect, the exact condition is proved:

- Every payload is decoded on its own. A source whose bytes are well-formed UTF-8 is read as
  the text they encode iff none of its frames starts inside a character
  (`StreamIsReadWholeIff`, `CutsAreInvisibleIff`); U+00E9 cut in two arrives as two U+FFFD
  (`LetterCutInTwo`).
- The first `start` seen of a container does not cancel its pending die. A container that
  dies and starts again is reported as down iff it had not been seen starting before
  (`StartSupersedesIff`, `RedeployIsReportedDownIff`; a run: `FirstRedeployIsReportedDown`).
- What the poller publishes is in the feed's order, without repetition and with nothing from
  before the first response, iff no non-empty response is older than where the poller
  stands (`OnceInOrderIff`; a run: `OutOfOrderRepeats`); handling responses in the order
  of what they saw suffices (`InOrderIsNeverStale`). It misses nothing iff besides no gap
  exceeds a page (`NothingMissedIff`).
- `subscribe` does not check again after its lookup. The registry's map holds exactly the
  open sessions iff every registration finds its key free (`MapIsExactIff`; runs:
  `OverlapLosesASession`, `LostSessionUnmapsAnother`). No socket has more than three open
  sessions iff every registration finds fewer than three (`BoundHoldsIff`); with overlapping
  lookups there is no other bound (`OverlapExceedsBound`), even where the code counts one
  session (`OneKeyManySessions`). Both hold iff the code's two checks would pass once more at
  every registration (`BothHoldIff`); one lookup at a time per socket suffices
  (`OneCheckSuffices`).
- After a disconnect or an unsubscription nothing of that client is open again, in any run, iff
  none of its lookups was pending and its open sessions were in the map
  (`NothingLeftHangingIff`; runs: `SessionOutlivesItsSocket`, `LostSessionOutlivesItsSocket`).
- Updates of two services commute in the live grid iff the two do not compare equal
  (`UpdatesCommuteIff`; two replicas: `ReplicasKeepOrder`).

## Model

| member | source | states |
|---|---|---|
| SessionRuns.RunSound | apps/api/src/logs/log-session.ts:36-128 | Every reachable state keeps the control invariants and the ledger of accepted, emitted, dropped and queued lines |
| SessionGuarantees.GapExactDelivery | apps/api/src/logs/log-session.ts:59-121 | In every run, each batch is a contiguous block of the accepted lines, its `dropped` is exactly the gap since the previous batch, and while open accepted = covered by batches + pending drops + queued, the queue being the tail |
| SessionGuarantees.AcceptedLines | apps/api/src/logs/log-session.ts:59-66 | The accepted lines are the arriving lines, all of them while the session is open and a prefix once it closed |
| SessionGuarantees.OneBatchInFlight | apps/api/src/logs/log-session.ts:97-114 | Flow control by acknowledgement: the batches emitted are those answered plus one exactly while the session is sending |
| SessionGuarantees.BatchesAreProper | apps/api/src/logs/log-session.ts:101-107 | No batch is empty, none exceeds `batchSize`, all carry the session's container |
| SessionGuarantees.NeverStalls | apps/api/src/logs/log-session.ts:59-127 | In every reachable open state: not sending implies nothing queued, source not paused and not ending; paused implies a batch in flight and more than `lowWater` queued; not paused implies below `highWater`; the queue never exceeds `maxQueue`; `onClose` ran once iff closed |
| SessionGuarantees.PausedIsResumed | apps/api/src/logs/log-session.ts:59-114 | However lines and acknowledgements interleave after a pause: once the acknowledged batches could carry what was queued and what has come since, `resume()` has been called |
| SessionGuarantees.ClosedIsSilent | apps/api/src/logs/log-session.ts:85-127 | From any closed session on, whatever happens, nothing is accepted, nothing emitted, and `onClose` is never called again |
| SessionGuarantees.TimeoutCuts | apps/api/src/logs/log-session.ts:115-127 | In any run, an acknowledgement that expires closes an open session and destroys the source it holds; `onClose` has then run once for good and nothing more is accepted or emitted |
| SessionGuarantees.CancellationCuts | apps/api/src/logs/log-session.ts:85-91 | The same for a cancellation, whenever it comes: closed for good, `onClose` once, one `destroy()` on the source held, nothing more accepted or emitted |
| SessionGuarantees.ClosesExactlyWhen | apps/api/src/logs/log-session.ts:78-127 | In every run, an open session closes at a cancellation, at a timeout of the batch in flight, at the end of its source when nothing is in flight, or at the last acknowledgement after that end, and at nothing else |
| SessionGuarantees.WatermarksDecide | apps/api/src/logs/log-session.ts:61-112 | In every run, the source is paused exactly when a line brings the queue to `highWater`, and resumed exactly when a batch leaves a paused session with `lowWater` lines or fewer |
| SessionGuarantees.BurstKeepsNewest | apps/api/src/logs/log-session.ts:61-65 | During one flight, a burst of any length leaves the newest `maxQueue` lines queued and counts exactly the rest; it loses lines iff they do not fit |
| SessionGuarantees.NoLossIfPauseIsRespected | apps/api/src/logs/log-session.ts:61-69 | If after each `pause()` the source delivers at most `maxQueue - highWater` lines before `resume()`, nothing is ever dropped, in any interleaving |
| SessionGuarantees.EverythingIsDelivered | apps/api/src/logs/log-session.ts:59-114 | From such a source, the batches delivered followed by the queue are exactly the lines that arrived, in order, while the session is open, and a prefix of them is delivered when it closes |
| SessionGuarantees.PauseAndResumeAlternate | apps/api/src/logs/log-session.ts:51-71 | One source, attached at any moment: the pause and resume calls it receives strictly alternate (pause first unless already paused), destroy comes last, and it always ends up held, ended or destroyed |
| SessionGuarantees.GracefulCloseLosesNothing | apps/api/src/logs/log-session.ts:78-127 | A session neither timed out nor cancelled closes only when every accepted line was delivered or reported |
| SessionGuarantees.EndDrainsEverything | apps/api/src/logs/log-session.ts:78-127 | After `end()` the session closes after exactly the acknowledgement in flight plus one per remaining batch, not before, calls `onClose` once, and has accounted for every line that arrived |
| SessionGuarantees.RoundsIsCeiling | apps/api/src/logs/log-session.ts:101-102 | The number of remaining batches is the queue length divided by `batchSize`, rounded up |
| LogSessions.LogSession.Push | apps/api/src/logs/log-session.ts:59-71 | Refines the arrival of a line and keeps gap-exactness and the control invariants |
| LogSessions.LogSession.End | apps/api/src/logs/log-session.ts:78-83 | Refines the end of the source, keeping the invariants |
| LogSessions.LogSession.AttachSource | apps/api/src/logs/log-session.ts:51-57 | Refines attaching a source: destroyed at once if the session is closed |
| LogSessions.LogSession.Acknowledged | apps/api/src/logs/log-session.ts:101-120 | Refines the resumption of flush after a confirmed batch |
| LogSessions.LogSession.AckExpired | apps/api/src/logs/log-session.ts:115-120 | Refines the resumption of flush after a timeout: the session is closed |
| LogSessions.LogSession.Cancel | apps/api/src/logs/log-session.ts:85-91 | Refines close: idempotent, queue discarded, source destroyed, `onClose` called |
| Frames.ChunkingIsInvisible | apps/api/src/logs/docker-frames.ts:13-23 | For every split of any byte stream into chunks, the frames handed over and the bytes kept are those of the whole stream |
| Frames.FramesSurviveChunking | apps/api/src/logs/docker-frames.ts:13-23 | For every list of frames with payloads under 2^32 bytes and every chunking of their encoding, exactly those frames come out, in order, and the buffer ends empty |
| Frames.ParseOfEncoded | apps/api/src/logs/docker-frames.ts:15-22 | Parsing inverts encoding, with any unfinished frame behind |
| Frames.EncodeOfParsed | apps/api/src/logs/docker-frames.ts:15-22 | On any bytes, re-encoding the parsed frames and appending the kept bytes gives the stream back, and what is kept holds no whole frame |
| Frames.DockerFrameParser.Push | apps/api/src/logs/docker-frames.ts:13-23 | The loop terminates and leaves the parser with exactly what the whole stream so far parses to; each source has been handed what it wrote |
| Frames.HandedPerSource | apps/api/src/logs/docker-frames.ts:18-21 | For any frames, stderr is handed the payloads of the frames of kind 2, and stdout those of all others, in order |
| Frames.OneFrame | apps/api/src/logs/docker-frames.ts:15-22 | Eight header bytes with a big-endian size and that many payload bytes are one frame of its source, with nothing left over |
| LogLines.LinesPerSource | apps/api/src/logs/docker-frames.ts:33-41 | For every interleaving of the two sources and every cut into payloads, each source's lines are the non-empty complete lines of its concatenated text, one trailing CR off, and what is kept is its unfinished line |
| LogLines.SplitOfJoined | apps/api/src/logs/docker-frames.ts:35-36 | Splitting is the only way to cut a text at all its newlines |
| LogLines.JoinOfSplit | apps/api/src/logs/docker-frames.ts:35-36 | The pieces joined with newlines are the text |
| LogLines.TailIsAfterLastNewline | apps/api/src/logs/docker-frames.ts:36 | What is kept back is exactly the text after the last newline |
| LogLines.CleanTakesOneReturn | apps/api/src/logs/docker-frames.ts:38 | Exactly one trailing carriage return is taken off a line |
| LogLines.BlankLinesAreSkipped | apps/api/src/logs/docker-frames.ts:37-40 | The lines emitted show, in order, exactly the complete lines that are not blank, each without its trailing CR and tagged with its source |
| PayloadCuts.CutsAreInvisibleIff | apps/api/src/logs/docker-frames.ts:34-41 | For well-formed bytes in any number of payloads, any text around the cuts and any state before: the lines and the unfinished line are those of one payload iff no payload starts with a continuation byte |
| PayloadCuts.LetterCutInTwo | apps/api/src/logs/docker-frames.ts:34 | The bytes of U+00E9 and a newline give that letter in one payload and two U+FFFD when cut between its bytes; U+20AC cut in three gives three |
| Utf8.DecodeOfEncoded | apps/api/src/logs/docker-frames.ts:34 | Decoding inverts UTF-8 encoding (RFC 3629, section 3) on every text, and encodings are well formed |
| Utf8.EncodeOfDecoded | apps/api/src/logs/docker-frames.ts:34 | Well-formed bytes are the encoding of their decoding |
| Utf8.CutCharacterShows | apps/api/src/logs/docker-frames.ts:34 | A character cut anywhere shows as one U+FFFD for its beginning and one for each byte cut off |
| LogLines.ParsedShowsTheRawLine | apps/api/src/logs/docker-frames.ts:45-54 | No character of a line is lost by telling timestamp and text apart |
| LogLines.TimestampComesBack | apps/api/src/logs/docker-frames.ts:45-54 | Timestamp and text come back iff the timestamp is a non-empty date without a space |
| LogLines.LogLineSplitter.Push | apps/api/src/logs/docker-frames.ts:33-41 | Refines the absorption of one payload |
| LogPipeline.StreamLinesPerSource | apps/api/src/logs/docker-frames.ts:13-41 | Demultiplexing and splitting together: for any interleaving of frames and any chunking of their bytes, the lines of stderr are the complete lines of the payloads of kind 2, those of stdout the complete lines of all others |
| LogPipeline.StreamIsReadWholeIff | apps/api/src/logs/docker-frames.ts:13-41 | From bytes to lines, for any interleaving of frames and any chunking: a source whose payloads (kind 2, or all others) are well-formed UTF-8 together is read as the text they encode, lines and unfinished line, iff none of them starts inside a character |
| LogPipeline.OnData | apps/api/src/logs/logs.service.ts:102-104 | A chunk's lines reach the session in order in one segment, and the splitter has absorbed exactly what the parser handed over |
| LogsBuffers.BufferShowsNewest | apps/web/src/lib/live/logs-buffer.ts:12-19 | Folding batches keeps the last `max` delivered lines, and count + kept = everything the batches account for |
| LogPipeline.NothingMissesUncounted | apps/api/src/logs/logs.load.e2e.spec.ts:142-151 | End to end, for any chunking, any interleaving with acknowledgements and a graceful end: lines on screen + counted drops = lines of the stream, and the last line on screen is the stream's last |
| LogPipeline.NothingIsMissed | apps/api/src/logs/log-session.ts:59-127 | End to end with a source that respects `pause()`: after a graceful end the batches delivered are exactly the lines of the stream, in order, and the screen shows its last `max` lines |
| RestartLimiter.RestartsAreLimited | apps/api/src/actions/actions.service.ts:79-111 | In every run of concurrent requests, any half-open five-minute window holds at most ten granted restarts, two of one container are thirty seconds apart, the list never exceeds forty |
| RestartLimiter.GrantsAreRecorded | apps/api/src/actions/actions.service.ts:45-50 | What the limiter has recorded are exactly the restarts it granted, in order |
| RestartLimiter.AnsweredAsDeserved | apps/api/src/actions/actions.service.ts:39-50 | In every run, each request gets the one answer it deserves given the restarts granted before it: granted iff the container is managed, outside the protected projects, not cooling down, and the budget is not spent; the announced wait is the least that ends the cooldown |
| RestartLimiter.DecidesLikeFullHistory | apps/api/src/actions/actions.service.ts:79-96 | The three verdicts, taken on the pruned list and the map, are those of all restarts granted so far: cooling down iff one of the container is under 30 s old, budget spent iff ten or more lie in the last five minutes |
| RestartLimiter.PruneLeavesFew | apps/api/src/actions/actions.service.ts:102-110 | A prune leaves at most twenty entries and forgets only restarts outside the window |
| RestartLimiter.WaitIsExact | apps/api/src/actions/actions.service.ts:82-87 | Waiting the announced seconds ends the cooldown; one second less does not; it is between 1 and 30 |
| RestartLimiter.OnlyEligibleAreRestarted | apps/api/src/actions/actions.service.ts:39-50 | Every granted restart comes from a request about a managed container outside the protected projects |
| ActionsServices.ActionsService.RestartContainer | apps/api/src/actions/actions.service.ts:39-50 | Refines one request's segment: answers and records as the run does |
| AlertRuns.DiesArePartitioned | apps/api/src/alerts/alerts.service.ts:45-103 | In every run, each die is exactly one of: the one pending die of its container, superseded by a later die, restart, redeploy or shutdown, or fired at least 3 s later with none of these in between |
| AlertRuns.FiringsTrack | apps/api/src/alerts/alerts.service.ts:82-95 | Timers fire for exactly the dies that waited them out, none twice |
| AlertNotices.DownNoticesAreUnexplainedDies | apps/api/src/alerts/alerts.service.ts:50-95 | Every "down" notice stems from such a die, so a die explained in time never produces one; no two notices stem from one event |
| AlertNotices.EveryCauseMakesOneCall | apps/api/src/alerts/alerts.service.ts:50-95 | Every restart, redeploy and expired timer asks for its alert exactly once |
| AlertNotices.NoticesAreSpaced | apps/api/src/alerts/alerts.service.ts:105-127 | Whatever the order in which lookups answer, notices of one kind about one container are at least 60 s apart |
| AlertNotices.AnswerDecides | apps/api/src/alerts/alerts.service.ts:105-127 | An answered lookup sends its notice iff the setting is on and no such notice is less than 60 s old; every other pending lookup stays pending |
| AlertNotices.CallsArePartitioned | apps/api/src/alerts/alerts.service.ts:105-117 | In every run, at every later moment, each call made by a restart, a redeploy or a due timer is either pending or was taken by exactly one answer |
| AlertNotices.CauseIsReportedIff | apps/api/src/alerts/alerts.service.ts:105-127 | Once answered, a cause has its notice, for good and no other, iff the setting was on and no notice of its kind about its container was less than 60 s old |
| AlertNotices.StartSupersedesIff | apps/api/src/alerts/alerts.service.ts:75-80 | A start takes the pending die of its container out of the map iff it is not the first start seen of it; otherwise the entry stays as it is |
| AlertNotices.RedeployIsReportedDownIff | apps/api/src/alerts/alerts.service.ts:45-103 | Die, start, due timer, with anything else in between that does not explain the die: the timer asks for the "down" alert iff the container had not been seen starting before, and otherwise does nothing |
| AlertNotices.FirstRedeployIsReportedDown | apps/api/src/alerts/alerts.service.ts:75-80 | The run in which the first start does not |
| AlertsServices.AlertsService.HandleUpdate | apps/api/src/alerts/alerts.service.ts:50-67 | Refines an update from Docker |
| AlertsServices.AlertsService.TimerFired | apps/api/src/alerts/alerts.service.ts:84-93 | Refines a due timer |
| AlertsServices.AlertsService.SettingAnswered | apps/api/src/alerts/alerts.service.ts:112-116 | Refines the segment after the lookup; notifies iff a notice was added; the other lookups stay |
| PollRuns.PublishesPositions | apps/api/src/alerts/alerts-poller.service.ts:32-59 | Over any sequence of failed and successful polls, in whatever order responses are handled, the items published are those at the positions determined by the sizes of the responses |
| PollRuns.PollPublishesNews | apps/api/src/alerts/alerts-poller.service.ts:38-58 | A response publishes the last min(20, g) of the g items that are new to the poller, oldest first; a non-empty one that is older than where the poller stands publishes its whole page again and moves the poller back; an empty one changes nothing |
| PollRuns.OnceInOrderIff | apps/api/src/alerts/alerts-poller.service.ts:38-58 | What is published increases strictly in the feed and starts after the first response iff no non-empty response is older than where the poller stands |
| PollRuns.InOrderIsNeverStale | apps/api/src/alerts/alerts-poller.service.ts:49-58 | Handling responses in the order of what they saw of the feed meets that condition |
| PollRuns.NoItemTwice | apps/api/src/alerts/alerts-poller.service.ts:49-58 | Under that condition two published items are two items of the feed, the earlier one first |
| PollRuns.NothingMissedIff | apps/api/src/alerts/alerts-poller.service.ts:49-58 | The whole emission is the feed between the first response and the poller's stand iff no response is stale and no gap exceeds a page |
| PollRuns.OutOfOrderRepeats | apps/api/src/alerts/alerts-poller.service.ts:38-58 | A run of four responses, one of them late, that publishes an item twice |
| AlertsPollers.AlertsPollerService.Poll | apps/api/src/alerts/alerts-poller.service.ts:32-59 | Refines one poll, with its search and emission loops |
| TokenRuns.OneRequestOutstanding | apps/api/src/jobs/taskforge-client.service.ts:107-117 | In every interleaving at most one token request is outstanding, the newest, held in `pendingToken` |
| TokenRuns.CallersShareTheRequest | apps/api/src/jobs/taskforge-client.service.ts:107-117 | A caller gets the cached token iff fresh; otherwise it waits for the pending request, and a new one starts only when none is pending |
| TokenRuns.ServedFromCacheIff | apps/api/src/jobs/taskforge-client.service.ts:108-111 | A call is served from the cache iff the newest token issued has more than 30 s left, counted from its request |
| TokenRuns.CacheFollowsCompletions | apps/api/src/jobs/taskforge-client.service.ts:107-155 | In every run, each request has the answer it was given, and the cache holds the token of the last request that was granted one, good from the time of that request |
| TokenRuns.ClearingDiscardsNothingNewer | apps/api/src/jobs/taskforge-client.service.ts:113-115 | When a request's callback clears `pendingToken`, the field holds that request |
| TokenRuns.FailureAllowsRetry | apps/api/src/jobs/taskforge-client.service.ts:113-150 | Whatever happens between a request's refusal and its callback, the cache stays as it was and callers get the cached token or wait for that request; after the callback the next caller that needs a token starts a new one |
| TokenRuns.CacheServesWithMargin | apps/api/src/jobs/taskforge-client.service.ts:108-111 | A token served from the cache has more than 30 s before its true expiry |
| TaskforgeClients.TaskforgeClient.GetAccessToken | apps/api/src/jobs/taskforge-client.service.ts:107-117 | Refines a call and keeps the single-flight invariant |
| TaskforgeClients.TaskforgeClient.FetchCompleted | apps/api/src/jobs/taskforge-client.service.ts:152-155 | Refines the completion of a request |
| RegistryRuns.MapIsExactIff | apps/api/src/logs/logs.service.ts:31-76 | In every run, the map holds exactly the open sessions at every moment iff every registration finds its key free |
| RegistryRuns.BoundHoldsIff | apps/api/src/logs/logs.service.ts:31-76 | In every run, no socket has more than three open sessions at any moment, in the map or not, iff every registration finds fewer than three open |
| RegistryRuns.KeysCountSessions | apps/api/src/logs/logs.service.ts:129-135 | The keys of a socket never count more than its open sessions, and count them all when all are in the map |
| RegistryRuns.BothHoldIff | apps/api/src/logs/logs.service.ts:35-48 | In every run, the map is exact and no socket has more than three open sessions, throughout, iff both checks of subscribe would pass once more at every registration |
| RegistryRuns.OneCheckSuffices | apps/api/src/logs/logs.service.ts:31-76 | When no two lookups of one socket overlap, all of this holds throughout |
| RegistryRuns.SubscriptionIsAdmittedIff | apps/api/src/logs/logs.service.ts:35-38 | In every run, a subscription goes on when the socket has no open session for the container and fewer than three in all; when the socket's open sessions are in the map, only then |
| RegistryRuns.DisconnectClosesItsOwnIff | apps/api/src/logs/logs.service.ts:72-76 | In every run, a disconnect touches no other socket's session, and closes all of its own iff the open ones are in the map |
| RegistryRuns.NothingLeftHangingIff | apps/api/src/logs/logs.service.ts:35-76 | In every run, after a disconnect or an unsubscription no session of that client is open in any continuation without a new subscription iff none of its lookups was pending and every open session of it was in the map |
| RegistryRuns.SessionOutlivesItsSocket | apps/api/src/logs/logs.service.ts:41-60 | A run without overlap that leaves a socket that is gone with an open session and its stream |
| RegistryRuns.LostSessionOutlivesItsSocket | apps/api/src/logs/logs.service.ts:35-76 | A run with nothing pending in which a disconnect leaves open the session that had lost its key |
| RegistryRuns.StreamsAreOwned | apps/api/src/logs/logs.service.ts:89-115 | Whatever overlaps, every opened stream is held by an open session, ended, or destroyed |
| RegistryRuns.ClosesExactlyWhen | apps/api/src/logs/logs.service.ts:27-115 | In every run, an open session closes when it ends or its stream fails, when Docker cannot open it, when its client leaves or the module shuts down while it is in the map, and at nothing else |
| RegistryRuns.StreamFollows | apps/api/src/logs/logs.service.ts:89-115 | In every run, a stream is held from its opening until it ends or its session closes; in the second case it is destroyed |
| RegistryRuns.SubscriptionGoesThrough | apps/api/src/logs/logs.service.ts:31-60 | An admissible subscription that nothing interrupts opens its session and stream under its key; for an unknown container it leaves the registry as it was; a stream that cannot be opened leaves a closed session and nothing in the map |
| RegistryRuns.LateStreamIsDestroyed | apps/api/src/logs/log-session.ts:51-57 | When a stream opens and its session was closed at any time before, the stream is destroyed and stays so in every continuation of the run |
| RegistryRuns.OverlapLosesASession | apps/api/src/logs/logs.service.ts:35-48 | A run of two overlapping subscriptions to one container that leaves an open session outside the map |
| RegistryRuns.LostSessionUnmapsAnother | apps/api/src/logs/logs.service.ts:44-48 | When that session closes by itself it takes the key of the other, which stays open outside the map |
| RegistryRuns.OverlapExceedsBound | apps/api/src/logs/logs.service.ts:35-48 | However many subscriptions of one socket are looked up before the first registers, to whichever containers, each gets its open session |
| RegistryRuns.OneKeyManySessions | apps/api/src/logs/logs.service.ts:35-48 | With one container for all of them, n sessions are open while the code counts one at most |
| LogsServices.LogsService.DestroyForSocket | apps/api/src/logs/logs.service.ts:72-76 | The loop over the keys, each close deleting its own, closes all sessions of the socket |
| LogsServices.LogsService.SessionCountFor | apps/api/src/logs/logs.service.ts:129-135 | The loop counts the socket's keys |
| LogsServices.LogsService.Subscribe | apps/api/src/logs/logs.service.ts:31-38 | Refines subscribe up to its first await, with its three immediate replies |
| LogsServices.LogsService.ContainerFound | apps/api/src/logs/logs.service.ts:39-48 | Refines subscribe between its awaits: unknown containers are refused, others get their session |
| RollupRuns.PurgeIsInvisible | apps/api/src/metrics/metrics.service.ts:100-143 | In every run, any history of at most 720 hours is the one the same run gives without purges |
| RollupRuns.HistoryIsExact | apps/api/src/metrics/metrics.service.ts:100-107 | A history is strictly increasing in time and holds exactly the rows asked for |
| RollupRuns.HistoryHasNoHoles | apps/api/src/metrics/metrics.service.ts:109-135 | A container sampled at ticks at most 300 s apart has a point for every bucket between them |
| RollupRuns.NoBucketIsSkipped | apps/api/src/metrics/metrics.service.ts:110-112 | Ticks at most 300 s apart visit every bucket |
| RollupRuns.OldRowsAreGone | apps/api/src/metrics/metrics.service.ts:137-143 | A row older than thirty days at a purge is there afterwards only if a later tick inserted it |
| RollupRuns.BucketIsClosed | apps/api/src/metrics/metrics.service.ts:110-112 | A tick's bucket is the aligned one that closed last |
| RollupRuns.EveryMetricOnce | apps/api/src/metrics/metrics.service.ts:114-115 | Each metric is asked for once |
| RollupRuns.BucketsAreAlignedAndClosed | apps/api/src/metrics/metrics.service.ts:110-112 | Every row's bucket starts at a multiple of 300 s and was over when the row was written |
| RollupRuns.InsertionIsIdempotent | apps/api/src/metrics/metrics.service.ts:126-131 | Rolling the same containers up again changes no row |
| RollupRuns.RowsComeFromSamples | apps/api/src/metrics/metrics.service.ts:115-124 | Every row was sampled, with its value, by a tick of its bucket |
| RollupTicks.PurgeIsInvisible | apps/api/src/metrics/metrics.service.ts:100-143 | Purging is as invisible for ticks as they run: suspended at every query and every write, overlapping, failing and interleaved with purges in any way |
| RollupTicks.TickHasWritten | apps/api/src/metrics/metrics.service.ts:109-135 | Wherever a tick stops, each row of a metric it is done with is in the table until it is thirty days old; a tick that returned is done with all four |
| RollupTicks.SampledIsWritten | apps/api/src/metrics/metrics.service.ts:109-135 | In every run, when the response to a tick's query names a container with a value, the row of that container, metric and the tick's bucket is in the table from the moment the tick is done with the metric until it is thirty days old |
| RollupTicks.RowsComeFromResponses | apps/api/src/metrics/metrics.service.ts:115-131 | Every row has the value that a response to the query of its metric by a tick of its bucket gave |
| RollupTicks.LoneTick | apps/api/src/metrics/metrics.service.ts:109-135 | A tick that nothing interrupts asks for each metric, writes all rows in order, and returns how many were new |
| RollupTicks.FailureEndsTick | apps/api/src/metrics/metrics.service.ts:116-131 | A failed query or write ends its tick for good and changes nothing else |
| RollupTicks.NoEmptyWrite | apps/api/src/metrics/metrics.service.ts:125-131 | The database is never asked to write nothing |
| RollupTicks.CountsBalance | apps/api/src/metrics/metrics.service.ts:109-143 | At every moment, the rows counted by all ticks are those in the table plus those counted by purges |
| MetricsServices.MetricsService.SamplesArrived | apps/api/src/metrics/metrics.service.ts:116-126 | Refines the segment from a response to its write, the next query or the end |
| MetricsServices.MetricsService.RowsWritten | apps/api/src/metrics/metrics.service.ts:126-134 | Refines the write and the segment after it, with the count of rows that were new |
| MetricsServices.MetricsService.RollupFailed | apps/api/src/metrics/metrics.service.ts:116-131 | Refines a failing query or write: the tick ends and keeps what it wrote |
| MetricsServices.MetricsService.PurgeOldRollups | apps/api/src/metrics/metrics.service.ts:137-143 | Deletes exactly the rows older than thirty days and returns how many |
| LiveState.LastWriterWins | apps/web/src/lib/live/state.ts:10-21 | From any snapshot with distinct names and after any updates, the grid is ordered by project and within a project by service, its names are distinct, and it holds for each name its latest update or else its snapshot entry |
| LiveState.UpdatesCommuteIff | apps/web/src/lib/live/state.ts:17-21 | Updates of different names commute, in any list, iff the two services do not compare equal |
| LiveState.ReplicasKeepOrder | apps/web/src/lib/live/state.ts:17-21 | Two replicas of one service stand in the order of their updates |
| LiveState.SortPermutes | apps/web/src/lib/live/state.ts:10-14 | Sorting is a permutation |
| SeriesMerge.MergeSeries | apps/web/src/components/metrics-panel.tsx:67-77 | For any series, rows strictly increasing in t; t occurs iff some series has a point there; each row holds exactly the kinds with a point at t, with the last such value |
| SeriesMerge.JoinIsUnique | apps/web/src/components/metrics-panel.tsx:67-77 | That description determines the rows |

## Left out

- ContainersService: its newline buffer repeats the splitter's lemma, and its updates are published after an asynchronous inspection, so no order of updates is claimed.
- HTTP clients, Prometheus, Docker, Prisma, Socket.IO and Redis: only what they answer appears, as arbitrary events or parameters; a table is a map on its unique key.
- Authentication, roles, guards, request validation and pagination: library calls or single branches; a subscription request is already parsed or absent.
- React components, hooks, translations and formatting.
- Client and server agreement after a reconnect: the snapshot is taken before the rooms are joined, so updates in between are missed.
- RetentionService, JobsService, TaskforgeStatusService and health checks: cutoffs and aggregation that would only add easy members.
- Restart audit entries and the outcome of the restart itself: they follow the recorded restart and do not influence later verdicts.
- Utf8.Decode: a string is a sequence of scalar values, where JavaScript counts UTF-16 units; the byte-order mark that `toString` keeps is a character like any other.
- Text of timestamps, exit codes in alert messages and values of metrics: carried or opaque, never computed with.
- LogsServices.LogsService.Subscribe: sessions are positions in a table, and the registry knows of a session only whether it is closed and what became of its stream; queueing inside a session is the subject of SessionRuns.
- MetricsServices.MetricsService.RollupFailed: a write that fails has written nothing; an answer lost after the database has written is not modelled.
- RollupRuns.BucketStart: the code divides floating-point seconds; the model divides integers.
