# irc-lens: the model and its proofs

irc-lens is a web console over IRC. This project models the state machines, caches, rate limits,
concurrent protocols and codecs whose guarantees hold over whole runs, and proves those
guarantees. `dafny verify dfyconfig.toml` checks everything.

Two conventions run through the modules. A component whose methods update fields is a `class`; the
`ensures` of each method ties the new fields to a function of the old ones, and the results about
runs are lemmas about that function. Concurrency is a transition system: a block under a lock, a
store transaction, or a stretch between two awaits is one step, and a result holds for every
sequence of enabled steps. Clocks are integer arguments, nondecreasing where the code needs that;
what SHA-256 and the secret generator give is stood for by values that are equal only if their
sources are, and new when issued.

## What is modelled

- **Wire layer.** `LineFramer` reads a byte stream in chunks of any size; whatever the cuts, the
  parser gets the same lines. `IrcMessage` prints and parses messages (section 2.3.1 of RFC 2812
  and the IRCv3 message-tags escaping) and proves when the round trip holds.
- **Mail ceiling.** `SendCeiling`, on the rolling-window arithmetic of `SlidingWindow`, which the
  sign-in budget, the validator caps and the assessment cap share.
- **Guest store.** One module per table with its calls (`SigninTokens`, `AppSessions`,
  `TrustedDevices`, `AttemptRows`), the two-mode budget over the attempt rows (`SigninBudget`), the
  store object (`GuestStore`), in `RetentionSweep` the simulation that makes the expiry half of the
  sweep invisible to every later call; `StoredBudget` and `StoreAnswers` carry the budget and the
  tables' own results to whole runs of the swept store.
- **Threat alerts.** `ThreatCounters` and `RuleMonitor` are the objects; `ThreatDetection` follows
  which windows closed, were checked and were alerted; `DeciderClient` is the race of worker and
  timer threads for one callback; `VerdictCaller` caps assessments; `ThreatDelivery` follows an
  alert to its notification; `ThreatAlerts` joins them end to end, one hand-on at a time.
- **Message validator.** `MessageValidator` is the per-guest lock table with calls that outlive
  their checks; `ValidatorCaps` the two rolling caps.
- **Session.** `EventBus` (bounded, drop-oldest), `QueryProtocol` (LIST/WHO/HISTORY on one reply
  stream without query identifiers), `CoalescedRefresh` (roster and mesh refreshes),
  `RevocationSweep` (sweeping only when the access store changed).
- **Access store.** `AccessUsers`, `Nickname` and `AgentCredentials` are the tables, `AccessStore`
  the object and what joins them; `AccessPolicy` is the plain default-deny policy, `ReadCache`
  the stamped cache over it, and `PinnedChecks` says what a pinned stamp does to the policy.
- **Chat rendering and agent inbox.** `HtmlText`, `ChatPieces`, `ChatNicks` and `ChatRender` escape,
  linkify and mark a chat line; `MediaMessage` composes an outgoing media line; `AgentInbox` filters
  what an agent receives and drains it with watermarks over an evicting queue.

## Where the code falls short of its word

Each of these is stated with a run that shows it and, beside it, the exact condition under which the
promise does hold.

- A queue of size one loses the event just published: the notice is put in its place, although the
  comment in `publish` says that the error is skipped there (`EventBus.SizeOneLosesNewest`,
  `EventBus.NewestSurvivesExactly`).
- A cached check inside a pinned block can pair a newer user row with older grants, stored by another
  thread that began to read them before, and so allow what no uncached check from the pin on would
  allow (`PinnedChecks.PinnedCheckMayMixVersions`), or deny what every one would. It never does without a commit between the pin and the return of the user
  read (`PinnedChecks.PinnedCheckIsUncached`), nor for a user who was approved and no admin at the pin
  (`PinnedChecks.PinOfMemberIsUncached`); in all other cases it can, from every pin
  (`PinnedChecks.PinOfOutsiderCanMix`, `PinnedChecks.PinOfAdminCanMix`).
- A join whose check and completion straddle a revocation and a line survives any number of lines
  until the store changes again (`RevocationSweep.RacingJoinSurvives`,
  `RevocationSweep.UnsafeJoinSurvives`, `RevocationSweep.JoinAgreesExactlyWhenSafe`).
- Touching a session that is idle too long but not too old revives it unless a sweep came first
  (`AppSessions.TouchRevivesAnIdleSession`, `AppSessions.TouchIsVisibleExactlyWhenUnsafe`).
- A last parameter with white space but no space does not survive the wire
  (`IrcMessage.TabSplitsLastParameter`, `IrcMessage.RoundTrip`).
- If the timer thread of a decider call cannot be started, its callback never runs and the client
  refuses every later call (`DeciderClient.TimerStartCanFail`, `DeciderClient.DeadWorkerBlocksClient`);
  if the worker thread cannot, every later call is refused with none outstanding
  (`DeciderClient.FailedSpawnBlocksClient`). With all its threads started a call always gets its
  callback (`DeciderClient.CallbackExactlyOnce`).
- After a query times out or is cancelled once its request is written, late rows can end up in the next query of the same key
  (`QueryProtocol.LateRowAfterTimeOut`); they do not if no earlier answer of the key is owed when it
  starts, and otherwise they can (`QueryProtocol.QueryIsolation`, `QueryProtocol.DirtyStartCanPollute`).
- A refresh request is lost if its pass is cancelled and no other request follows
  (`CoalescedRefresh.CancelLosesARequest`, `CoalescedRefresh.ServedExactlyUnlessCancelled`).
- The pattern that is to allow only http and https ignores case, and so takes a long s (U+017F) for the
  s of https (`ChatPieces.LongSIsLinked`); nothing else passes (`ChatPieces.LinksAreHttpExactly`).

## Model

| member | source | states |
|---|---|---|
| LineFramer.ChunkIndependence | src/irc_lens/irc/transport.py:213-226 | any two ways of cutting one byte stream, a CRLF split across two reads included, hand the parser the same lines: the non-blank segments between CR and LF bytes |
| LineFramer.WrittenLinesComeBack | src/irc_lens/irc/transport.py:213-226 | lines without CR or LF that hold more than white space, each written with CR LF after it, come back one by one however the stream is cut |
| LineFramer.LinesExactly | src/irc_lens/irc/transport.py:213-226 | each CR or LF byte ends a line, white space alone is none, and what none of them ends yet stays open |
| LineFramer.FeedStepMeaning | src/irc_lens/irc/transport.py:213-226 | each read appends exactly the lines its bytes complete and keeps exactly the unterminated tail |
| LineFramer.NormaliseKeepsLines | src/irc_lens/irc/transport.py:220 | rewriting CRLF and CR to LF loses nothing but empty segments, whatever segment was left open before |
| LineFramer.TerminatedConcat | src/irc_lens/irc/transport.py:213-226 | the terminated segments of two pieces of a stream are those of the first, then those of the second continued from the open tail |
| LineFramer.Framer.Feed | src/irc_lens/irc/transport.py:217-226 | the inner loop, which rewrites the buffer and splits it line by line, meets the stream reading of one chunk |
| LineFramer.Framer.ReadLoop | src/irc_lens/irc/transport.py:213-226 | the whole loop up to end of stream hands over the lines of all the bytes received and keeps their tail |
| IrcMessage.RoundTrip | src/irc_lens/irc/message.py:80-135 | printing then parsing gives the message back if and only if its last parameter is representable (holds a space, or no white space, and no line end where it would be stripped); tags, prefix, command and middle parameters come back in any case, and the last one stripped or split into words |
| IrcMessage.TabSplitsLastParameter | src/irc_lens/irc/message.py:124-135 | a tab in a last parameter without a space comes back as two parameters |
| IrcMessage.WordsExactly | src/irc_lens/irc/message.py:100 | words are what white space of any length separates |
| IrcMessage.LastPieceWins | src/irc_lens/irc/message.py:58-78 | however a tag block is put together, a key has the value of its last piece |
| IrcMessage.MalformedExactly | src/irc_lens/irc/message.py:80-104 | a line with nothing but tags or a prefix, or nothing at all, is read as a message without a command |
| IrcMessage.TagValueRoundTrip | src/irc_lens/irc/message.py:20-43 | every tag value survives escaping and unescaping, and its wire form holds no semicolon, space, CR or LF |
| IrcMessage.TagBlockParses | src/irc_lens/irc/message.py:58-78 | a printed tag block followed by a space and anything parses to exactly those tags and that rest |
| IrcMessage.UnescapeTagValue | src/irc_lens/irc/message.py:20-34 | the index loop computes the unescaping that the round trip is about; an unknown escape drops its backslash |
| IrcMessage.EscapeTagValue | src/irc_lens/irc/message.py:36-43 | the append loop computes the escaping that the round trip is about |
| IrcMessage.ParseTagBlockOf | src/irc_lens/irc/message.py:58-78 | the loop over tag pieces computes the tag block reading, malformed and missing blocks included |
| IrcMessage.ParseLine | src/irc_lens/irc/message.py:80-108 | parsing step by step, each malformed input included, is the parse the round trip is about |
| IrcMessage.FormatMessage | src/irc_lens/irc/message.py:110-135 | appending the parts one by one is the printed form the round trip is about |
| SendCeiling.CeilingHolds | src/irc_lens/mail.py:275-291 | in any span of one window at most `limit` sends are admitted, and at most `limit - limit // 4` ordinary ones |
| SendCeiling.AdmittedExactlyWhen | src/irc_lens/mail.py:275-291 | after any run in clock order, priority mail passes exactly while fewer than the limit were sent in the last window, other mail exactly while fewer than the limit less its quarter were |
| SendCeiling.AdmittedIsCounted | src/irc_lens/mail.py:275-291 | an admitted send counts from then on under its own time, and a refused one never does |
| SendCeiling.OrdinaryMailLeavesHeadroom | src/irc_lens/mail.py:275-291 | after any run of ordinary requests, every later run of at most `limit // 4` priority requests passes whole, whenever its requests come |
| SendCeiling.Ceiling.Take | src/irc_lens/mail.py:275-291 | the pruned deque answers exactly as counting all admitted sends of the window would |
| SlidingWindow.RollingBoundsEverySpan | src/irc_lens/mail.py:275-291 | if each admission left at most `cap` in the window ending at it, every span of one window holds at most `cap` |
| SlidingWindow.PruneHolds | src/irc_lens/mail.py:282-284 | dropping old entries from the left keeps the deque equal to the recent part of the full history |
| SigninTokens.SigninAcceptedExactlyWhen | src/irc_lens/guest_store.py:324-424 | a sign-in token is accepted, and a peek promises so, exactly when it was issued for that email and purpose, was not used up or erased since, has not expired, and the pending cookie was last bound to it |
| SigninTokens.ConsumedExactlyWhen | src/irc_lens/guest_store.py:324-377 | consuming or peeking by purpose alone yields the email of a token still standing, unexpired and for that purpose, and nothing otherwise |
| SigninTokens.PeeksLeaveNoTrace | src/irc_lens/guest_store.py:347-424 | leaving the peeks out of a run changes neither the table nor what still stands |
| SigninTokens.VerifiedExactlyWhen | src/irc_lens/guest_store.py:336-345 | over every run a token is verified exactly when it was issued for that very email and purpose, was not used up by any of the calls nor its email erased since, and has not expired |
| SigninTokens.SingleUse | src/irc_lens/guest_store.py:336-377 | whichever of the three consuming calls try it, a token is used up at most once |
| SigninTokens.CallAgrees | src/irc_lens/guest_store.py:324-424 | a swept token table answers every call as the unswept one and stays in agreement with it |
| AppSessions.GoneStaysGone | src/irc_lens/guest_store.py:427-475 | a session that is not found, expired or deleted, is never found again, if it is touched only while it may still be found |
| AppSessions.SessionsAreBounded | src/irc_lens/guest_store.py:427-469 | however often and whenever touched, a session is found at most 30 days after it was made and at most 7 days after its last touch |
| AppSessions.FoundExactlyWhen | src/irc_lens/guest_store.py:427-476 | over every run a session is found exactly when it was made, neither it nor its email's sessions were deleted since, and both expiry rules hold |
| AppSessions.TouchIsVisibleExactlyWhenUnsafe | src/irc_lens/guest_store.py:465-469 | touching a session is visible through a sweep exactly when it is idle too long but not yet too old, so the condition put on callers is exact |
| AppSessions.TouchRevivesAnIdleSession | src/irc_lens/guest_store.py:465-469 | a session idle for 8 days and then touched is found again, unless a sweep came first |
| AppSessions.CallAgrees | src/irc_lens/guest_store.py:427-476 | a swept session table answers every call as the unswept one |
| TrustedDevices.TrustNeedsARecentSignin | src/irc_lens/guest_store.py:479-517 | moving never extends trust: a browser is trusted for an email only within a year of a trusting sign-in for that email |
| TrustedDevices.TrustedExactlyWhen | src/irc_lens/guest_store.py:479-527 | over every run with new ids a browser is trusted for an email exactly when it carries, through replacements of ids, the trust of a sign-in for it within the year that was not deleted since |
| TrustedDevices.ReplacingHandsTrustOver | src/irc_lens/guest_store.py:479-506 | replacing a browser id kills the old id and hands exactly its live trust for other emails to the new one |
| TrustedDevices.TouchExactly | src/irc_lens/guest_store.py:519-523 | touching notes the use of that row and changes nothing else |
| TrustedDevices.CallAgrees | src/irc_lens/guest_store.py:479-527 | a swept table of trusted browsers answers every call as the unswept one |
| AttemptRows.DropLatestSplits | src/irc_lens/guest_store.py:580-591 | a refund takes the newest row of its key, from the rows a sweep kept if any is there |
| AttemptRows.DropLatestTakesNewest | src/irc_lens/guest_store.py:580-591 | a refund removes the newest row of its key, keeps all others in order, and with no such row removes nothing |
| AttemptRows.KeepFromDropsPrefix | src/irc_lens/guest_store.py:795-797 | on rows written in clock order a sweep deletes a prefix of rows too old for any window |
| AttemptRows.CountsWhatWasRecorded | src/irc_lens/guest_store.py:567-591 | over every run a count answers how many attempts of that kind and key were recorded in the window, without those refunded or erased |
| AttemptRows.CallAgrees | src/irc_lens/guest_store.py:530-591 | swept attempt and budget rows count, refund and admit as unswept ones |
| RetentionSweep.SweepIsInvisible | src/irc_lens/guest_store.py:783-808 | sweeps, however many and whenever, change no answer of any proper run of token, binding, session, trusted-browser, attempt and sign-in-budget calls |
| RetentionSweep.CallAgrees | src/irc_lens/guest_store.py:783-808 | every call on the swept store answers as on the unswept one and keeps the two in agreement |
| StoreAnswers.StoreAnswersByTable | src/irc_lens/guest_store.py:324-591 | after any proper run of the whole store, sweeps included, a call answers what its table would after its own calls alone |
| StoreAnswers.StoreVerifiesExactly | src/irc_lens/guest_store.py:336-345 | so in the swept store a token is verified exactly when it stands for that email and purpose |
| StoreAnswers.StoreCountsExactly | src/irc_lens/guest_store.py:567-595 | and a rate limit counts exactly the attempts recorded in its window and not taken back |
| StoreAnswers.TablesFollowTheirCalls | src/irc_lens/guest_store.py:324-591 | without sweeps each table is what its own calls make of it |
| SigninBudget.NormalBudgetHolds | src/irc_lens/guest_store.py:530-591 | over any run of takes, recorded attempts, refunds and erasures of one email at most 3 admissions that stand fall in any 900 seconds |
| SigninBudget.StrictBudgetHolds | src/irc_lens/guest_store.py:530-591 | over such runs, in any half hour every instant of which has a refusal less than 24 hours before it, at most 2 admissions that stand fall |
| SigninBudget.StrictAdmissionLeavesTwo | src/irc_lens/guest_store.py:546-565 | less than 24 hours after a refusal a take passes exactly with at most one admission in the half hour before it, so leaves at most two; a refusal restarts the strict day |
| SigninBudget.TakeExactlyWhen | src/irc_lens/guest_store.py:530-565 | after any run a take passes exactly with fewer than 2 standing attempts in the last half hour if a refusal came less than 24 hours ago, and otherwise with fewer than 3 in the last 15 minutes |
| SigninBudget.RunKeepsInv | src/irc_lens/guest_store.py:530-591 | each admission of a run left at most 3 in its quarter hour, and if made while strict at most 2 in its half hour |
| SigninBudget.LastBlockDecides | src/irc_lens/guest_store.py:546-550 | keeping only the last refusal decides strictness as the whole history of refusals would |
| SigninBudget.TakeRefines | src/irc_lens/guest_store.py:530-565 | the stored rows admit and change exactly as the budget of the theorems |
| SigninBudget.RefundRefines | src/irc_lens/guest_store.py:580-591 | taking back the newest attempt of the email is the budget refund |
| SigninBudget.OpRefines | src/irc_lens/guest_store.py:530-591 | every operation on the attempt rows is, for the budget of every email, one of its events or nothing, and a take answers as the budget does |
| StoredBudget.StoredBudgetHolds | src/irc_lens/guest_store.py:530-591 | over any proper run of the whole store, with sweeps at any time and the calls of everybody else, both bounds hold of the admissions of an email that stand, read off the calls and the answers of the store |
| StoredBudget.SweptHistoryIsRun | src/irc_lens/guest_store.py:530-591 | the history of an email read off a swept store is the run of its budget over the events of the calls |
| GuestStore.GuestStore.ConsumeToken | src/irc_lens/guest_store.py:360-377 | select then update gives the answer and the tables of one atomic consume |
| GuestStore.GuestStore.VerifySigninToken | src/irc_lens/guest_store.py:390-407 | one conditional update accepts and marks exactly a live, matching, bound token |
| GuestStore.GuestStore.VerifyToken | src/irc_lens/guest_store.py:336-345 | the conditional update of the theorems: true iff a live row of this email and purpose was marked used |
| GuestStore.GuestStore.PeekToken | src/irc_lens/guest_store.py:347-358 | reading a live row leaves it usable |
| GuestStore.GuestStore.GetSession | src/irc_lens/guest_store.py:437-449 | a session is found exactly while both expiry rules hold |
| GuestStore.GuestStore.AddTrustedDevice | src/irc_lens/guest_store.py:479-506 | moving the good rows one by one, deleting what the earlier id still has and inserting the new row is the replacement whose effect on trust the theorems state |
| GuestStore.GuestStore.SigninBudgetTake | src/irc_lens/guest_store.py:530-565 | the transaction picks its limit and window, counts, and records or blocks as the budget does |
| GuestStore.GuestStore.UnrecordAttempt | src/irc_lens/guest_store.py:580-591 | the search from the newest row removes the newest row of the key and keeps the others in order, or finds none and changes nothing |
| GuestStore.GuestStore.SweepRows | src/irc_lens/guest_store.py:783-808 | the deletions of the six tables, row by row and in the order of the code, leave the store that is invisibly swept and report exactly how many rows each table lost |
| ThreatCounters.DistinctSourcesAreExactUpToCap | src/irc_lens/threat.py:149-155 | the count of distinct sources is exact up to the cap and the flag says exactly when it is not |
| ThreatCounters.CountsAreTotals | src/irc_lens/threat.py:90-117 | over any run of updates inside one window every count grows by exactly what the run was worth, and the window and the completed snapshot stay |
| ThreatCounters.WindowsCloseExactly | src/irc_lens/threat.py:157-168 | an update 15 minutes or more after the window began closes it with its counts and sources and begins another, and an earlier one does not |
| ThreatCounters.ClosedWindowHasItsTotals | src/irc_lens/threat.py:90-168 | a window closes with exactly what the updates since it began were worth and the number of different sources they showed, up to the cap |
| ThreatCounters.Counters.RollWindow | src/irc_lens/threat.py:157-167 | an elapsed window becomes the completed snapshot and everything restarts at zero; otherwise nothing changes |
| ThreatCounters.Counters.ObserveRequest | src/irc_lens/threat.py:99-117 | rolling, four increments and the source set together are one observation |
| ThreatCounters.Counters.Snapshots | src/irc_lens/threat.py:126-140 | the completed and the current window are read as one pair |
| RuleMonitor.Monitor.Check | src/irc_lens/rules.py:68-88 | the two looks alert on exactly the snapshots that cross a threshold in a window not alerted yet, in order |
| RuleMonitor.TriggeredExactly | src/irc_lens/rules.py:122-126 | a window triggers exactly if the count of one of the five watched signals is at its own threshold or above |
| ThreatDetection.AlertedExactlyWhenTriggered | src/irc_lens/rules.py:74-88 | a completed window is alerted at most once, only if some signal reached its threshold in the final counts, and always if one did and a check saw it before the next completed |
| ThreatDetection.CheckedKeepsInv | src/irc_lens/rules.py:68-88 | a check alerts only windows without an alert, at most two, and they differ |
| ThreatDetection.RolledKeepsInv | src/irc_lens/threat.py:157-167 | a window that closes keeps its alert and its counts, whenever it rolls |
| VerdictCaller.DailyCapHolds | src/irc_lens/decider.py:263-290 | at most 24 assessments start in any 24 hours |
| VerdictCaller.SubmitsExactlyWhen | src/irc_lens/decider.py:263-291 | after any run in clock order the client is asked exactly about a window newer than all before, while fewer than 24 calls started in the last 24 hours |
| VerdictCaller.EachWindowAskedOnce | src/irc_lens/decider.py:263-286 | no window is asked about twice, nor after a later one, whatever the client answers |
| VerdictCaller.ThreatVerdictCaller.AssessWindow | src/irc_lens/decider.py:263-290 | pruning, the window test and the cap decide in the order of the code; a client that refuses or raises is not counted |
| DeciderClient.CallbackExactlyOnce | src/irc_lens/decider.py:139-208 | each accepted submission is answered through its callback at most once, and when its threads have ended exactly once unless its timer thread could not be started; with none if the timer delivered, and otherwise with exactly what the poster gave |
| DeciderClient.AnswerInTimeIsDelivered | src/irc_lens/decider.py:164-208 | an answer that comes while the timer still waits is what the callback gets, whatever the threads do afterwards |
| DeciderClient.SlowPosterTimesOut | src/irc_lens/decider.py:164-202 | while the poster has given nothing the timer can run out, and then it delivers, with none |
| DeciderClient.OneInFlight | src/irc_lens/decider.py:139-194 | at most one worker is outstanding, and the flag is set whenever one is |
| DeciderClient.RefusesExactlyWhile | src/irc_lens/decider.py:139-194 | in every interleaving a submission is refused exactly while a call is outstanding, or for good after a thread could not be started; an accepted one is a new call |
| DeciderClient.StaleTimerIsHarmless | src/irc_lens/decider.py:196-202 | a timer of an earlier generation changes no flag and consumes no callback |
| DeciderClient.DeadWorkerBlocksClient | src/irc_lens/decider.py:164-178 | if the timer thread of a call cannot be started its callback never runs and every later submission is refused |
| DeciderClient.TimerStartCanFail | src/irc_lens/decider.py:164-178 | one submission whose timer thread fails to start is such a run |
| DeciderClient.FailedSpawnBlocksClient | src/irc_lens/decider.py:146-162 | if the worker thread itself cannot be started, from whatever idle state, every later submission is refused although no call is outstanding |
| DeciderClient.StepKeepsInv | src/irc_lens/decider.py:139-208 | every step of every thread keeps the relation between flags, generation and outstanding jobs |
| DeciderClient.Client.Submit | src/irc_lens/decider.py:146-162 | the locked block of a submission |
| DeciderClient.Client.Finish | src/irc_lens/decider.py:186-194 | the locked block of a finishing worker, and whether it delivers |
| DeciderClient.Client.TimeOut | src/irc_lens/decider.py:196-202 | the locked block of a firing timer, and whether it delivers |
| ThreatDelivery.NotifiedExactlyOnce | src/irc_lens/rules.py:90-120 | an alert is notified at most once, and when its threads have ended exactly once unless its timer thread could not be started; the notice carries what the poster gave for this very alert, or none |
| ThreatDelivery.AskedExactlyWhen | src/irc_lens/rules.py:90-105 | the decider is asked about an alert exactly when there is one, its threads start, the window is new, the day has calls left and none is in flight; otherwise the notification goes out at once |
| ThreatDelivery.AlertKeepsInv | src/irc_lens/rules.py:90-105 | each way of handing an alert on gives it exactly one route to a notification |
| ThreatAlerts.EndToEnd | src/irc_lens/rules.py:68-120 | over every interleaving of counting, checking, handing on each alert, and decider threads: a window seen by a check before the next completed is alerted once if and only if a final count reached its threshold; an alert is notified at most once, with the verdict of its own call, and exactly once when handed on and its threads ended, unless its timer thread could not start |
| MessageValidator.EntryCountsChecks | src/irc_lens/web/message_check.py:179-200 | a guest has a lock entry exactly while a check of it is inside; its count is the number of those checks, all share one lock and at most one holds it |
| MessageValidator.OneUnfinishedCall | src/irc_lens/web/message_check.py:179-233 | at most one call of a guest is unfinished, even when calls outlive the checks that made them |
| MessageValidator.StillRunningExactly | src/irc_lens/web/message_check.py:214-219 | in every interleaving a guest counts as having a call running exactly while one of its calls has not ended |
| MessageValidator.AsksExactlyWhen | src/irc_lens/web/message_check.py:175-219 | in every interleaving a check that gets the lock asks exactly when its guest has no unfinished call, the accepted calls of the last day are below both caps, and the pool takes the call |
| MessageValidator.ChecksCanGoOn | src/irc_lens/web/message_check.py:175-199 | a waiting check can go on exactly while no check of its guest asks, and nothing else holds it up |
| MessageValidator.EventsExactly | src/irc_lens/web/message_check.py:175-236 | entering adds a waiting check, an answer, a timeout or a cancellation takes it out, a call that ends leaves its guest without an unfinished one, and none of these uses up a call of the day |
| MessageValidator.DailyCapsHold | src/irc_lens/web/message_check.py:202-212 | accepted calls stay within the global and the guest cap in any day of any interleaving |
| MessageValidator.LeaveUndoesEnter | src/irc_lens/web/message_check.py:183-197 | entering and leaving again restores the lock table |
| MessageValidator.NextKeepsInv | src/irc_lens/web/message_check.py:179-233 | every step, timeouts, cancellations and late ends included, keeps counts, locks and running calls consistent |
| MessageValidator.MessageValidator.TakeCall | src/irc_lens/web/message_check.py:202-212 | pruning both deques and testing both caps accepts exactly when neither is reached |
| MessageValidator.MessageValidator.EnterTable | src/irc_lens/web/message_check.py:183-184 | the table, the next lock and the lock handed out are those of the step that enters, for every state of the system with this table |
| MessageValidator.MessageValidator.LeaveTable | src/irc_lens/web/message_check.py:191-195 | the table is that of the step that leaves, for every state of the system with this table |
| ValidatorCaps.CapsHold | src/irc_lens/web/message_check.py:202-212 | both caps follow from what every accepted call keeps |
| ValidatorCaps.AcceptsExactly | src/irc_lens/web/message_check.py:201-212 | a call is accepted exactly while the accepted calls of the last day are below both caps |
| EventBus.BusKeepsNewest | src/irc_lens/session.py:119-156 | for every queue size but one: the bound holds, the events waiting are exactly the end of the published stream, and one notice was injected per burst of overflows |
| EventBus.PublishPutsInjected | src/irc_lens/session.py:123-150 | a publish leaves the entries it did not drop, then the notice it is counted as injecting, if any, then the event |
| EventBus.NewestSurvivesExactly | src/irc_lens/session.py:123-156 | the event just published is last in the queue unless the queue has size one, is full, and no burst is under way |
| EventBus.SizeOneLosesNewest | src/irc_lens/session.py:123-156 | two publishes on a queue of size one leave only the notice |
| EventBus.ConsumptionIsInOrder | src/irc_lens/session.py:158-161 | a consumer sees the published stream in order, with gaps only where events were dropped |
| EventBus.Subscriber.PublishEvent | src/irc_lens/session.py:123-156 | the nested puts and drops of one publish |
| QueryProtocol.QueryIsolation | src/irc_lens/session.py:1674-1809 | however many queries run and however the server interleaves answers, a query whose key had no unfinished answer when it started returns exactly the well-formed rows sent for it, and can resume exactly when its answer has ended |
| QueryProtocol.QueryReturnsTheRowsWritten | src/irc_lens/session.py:1756-1809 | a query that started clean returns, field by field, the LIST, WHO or HISTORY rows the server wrote for it |
| QueryProtocol.RowRoundTrip | src/irc_lens/session.py:1756-1809 | a row written as the server writes it, WHO rows without flags or real name included, is read back as that row under the key it answers |
| QueryProtocol.RowsAreWritten | src/irc_lens/session.py:1760-1803 | and every message that is put in a buffer is such a row |
| QueryProtocol.EndsNameTheirQuery | src/irc_lens/session.py:1766-1809 | an end of reply resolves the query whose target or channel it names |
| QueryProtocol.NoTimeoutsNoMixing | src/irc_lens/session.py:1674-1749 | if no query of a key was given up after its request was written, every result is exactly its own rows |
| QueryProtocol.EveryEndFreesItsKey | src/irc_lens/session.py:1725-1745 | however a query ends, another of its key can start at once |
| QueryProtocol.OtherKeysAreLeftAlone | src/irc_lens/session.py:1725-1809 | an event of one key leaves the buffers, futures and locks of all others alone |
| QueryProtocol.DirtyStartCanPollute | src/irc_lens/session.py:1707-1749 | the condition is exact: from any state with an earlier request still owed an answer, a run follows in which the new query returns a row not sent for it |
| QueryProtocol.LateRowAfterTimeOut | src/irc_lens/session.py:1733-1744 | for any key, a query that times out and one more make a run in which the late row of the first is the result of the second |
| QueryProtocol.ListIsSortedAndPermitted | src/irc_lens/session.py:1674-1683 | a LIST that started clean returns each permitted channel as often as it was listed for it, in order |
| QueryProtocol.Session.Begin | src/irc_lens/session.py:1725-1731 | staging the buffer and the future under the lock of the key |
| QueryProtocol.Session.Drain | src/irc_lens/session.py:1737-1745 | what follows the wait, resolved or timed out |
| QueryProtocol.Session.OnRplList | src/irc_lens/session.py:1760-1764 | a short LIST row is dropped, another goes to the LIST buffer if there is one |
| QueryProtocol.Session.OnRplWhoReply | src/irc_lens/session.py:1771-1784 | a WHO row goes to the buffer of the target it names |
| QueryProtocol.Session.OnRplEndOfWho | src/irc_lens/session.py:1786-1790 | an end resolves the future of the target it names, if any |
| QueryProtocol.Session.OnHistory | src/irc_lens/session.py:1792-1803 | a HISTORY row goes to the buffer of the channel it names |
| CoalescedRefresh.ServedExactlyUnlessCancelled | src/irc_lens/session.py:714-764 | at rest every request was served by a pass that began after it and ended, if and only if the last pass was not cancelled |
| CoalescedRefresh.CancelLosesARequest | src/irc_lens/session.py:501-518 | one request and one cancellation make a run at whose end the request was never served |
| CoalescedRefresh.PassesAreCoalesced | src/irc_lens/session.py:714-733 | there are never more passes than requests, and a running pass goes round again exactly when a request came after it began |
| CoalescedRefresh.RequestsWaitTheirTurn | src/irc_lens/session.py:714-733 | a request while a pass runs or is about to leaves it alone and is noted, and at rest begins one |
| CoalescedRefresh.SettlesInTwo | src/irc_lens/session.py:1621-1648 | once requests stop, two more passes at most bring the refresher to rest |
| CoalescedRefresh.NextPassServesLost | src/irc_lens/session.py:494-518 | a request lost to a cancellation is served by the pass of the next one |
| CoalescedRefresh.RosterRefresher.RefreshRoster | src/irc_lens/session.py:714-731 | a request begins a pass exactly when none runs |
| CoalescedRefresh.RosterRefresher.PassDone | src/irc_lens/session.py:730-733 | after a pass the loop goes round exactly when the roster is dirty |
| AccessPolicy.CheckAllowed | src/irc_lens/access.py:55-70 | the loop over grants decides by cases: nobody unknown or unapproved, an approved admin always, anybody else by the level of the first grant on exactly that channel |
| AccessPolicy.AllowedExactly | src/irc_lens/access.py:49-70 | listing and reading need a read, write or ask level there, writing a write or ask level |
| AccessPolicy.NonAdminNeedsExactGrant | src/irc_lens/access.py:55-70 | whoever is no approved admin passes only with a grant on exactly that channel that covers the operation |
| ReadCache.CachedReadsAreFresh | src/irc_lens/access_store.py:212-260 | in every interleaving of commits, pins, cache clearing, expiry and reads, a read returns the table contents of some instant between reading the stamp it used and returning |
| ReadCache.ReadsGoOn | src/irc_lens/access_store.py:247-260 | a read looks up, then loads, then finishes or fails, and a failure leaves cache and results as they are |
| ReadCache.PinsExactly | src/irc_lens/access_store.py:212-233 | a pin holds for the reads its thread begins before it is lifted, and for no others |
| ReadCache.UnpinnedCheckIsUncached | src/irc_lens/access.py:55-97 | an unpinned check, which reads the grants only when the user row does not settle it, answers as an uncached one does between its begin and its end |
| ReadCache.RevokedRowDenies | src/irc_lens/access.py:59-61 | an unpinned read of the user row of somebody approved in no version since it began returns a row that denies everything |
| ReadCache.RevokedUserIsDenied | src/irc_lens/access.py:55-97 | an unpinned check of a user approved in no version since its begin denies without reading grants, whatever the cache holds |
| ReadCache.RemovedGrantIsDenied | src/irc_lens/access.py:55-97 | an unpinned check of somebody who is no admin denies once no version since its begin holds a grant that covers it |
| PinnedChecks.PinnedCheckIsUncached | src/irc_lens/access_store.py:219-260 | a check in one pinned block, of one read or two, answers as an uncached one from the pin on, if no commit falls between the pin and the return of the user read; later commits do no harm |
| PinnedChecks.CommitBeforeUserReadMixes | src/irc_lens/access_store.py:219-260 | the condition is needed: from any pinned state in which the user was not approved since the pin and has a grant now, and another thread has been reading the grants since the pin, one commit before the user read makes a check allow that no uncached check from the pin on would |
| PinnedChecks.PinOfOutsiderCanMix | src/irc_lens/access_store.py:219-260 | such a run follows from every fresh pin, whatever the tables hold, for any user not approved then |
| PinnedChecks.PinOfAdminCanMix | src/irc_lens/access_store.py:219-260 | from every fresh pin, for an admin, a run follows in which a check with a commit before its user read denies although every uncached check from the pin on allows |
| PinnedChecks.PinOfMemberIsUncached | src/irc_lens/access_store.py:219-260 | for a user approved and no admin at the pin a pinned check answers as some uncached one from the pin on, whatever was committed, so the two cases before are the only ones |
| PinnedChecks.PinnedCheckMayMixVersions | src/irc_lens/access_store.py:219-260 | the smallest case: a pending user with a grant, a pin, another reader and one commit |
| ReadCache.AccessReadCache.Cached | src/irc_lens/access_store.py:247-260 | a hit needs the same stamp and an unexpired entry, an unknown stamp is never cached, and a full cache is cleared |
| ReadCache.RememberedExactly | src/irc_lens/access_store.py:247-260 | a remembered load is found for 5 seconds and with its very stamp only, nothing is remembered without a stamp, and other keys keep what they had unless the cache was over its size |
| RevocationSweep.SkippingIsInvisible | src/irc_lens/session.py:1210-1250 | if joins land safely, skipping sweeps while the stamp is unchanged leaves the joined channels, the current channel and the PARTs of sweeping on every line |
| RevocationSweep.EveryLineSweeps | src/irc_lens/session.py:635-647 | after every run whose joins land safely, a line or a rendered page leaves joined exactly the channels the viewer may still list, PARTs exactly the others, and keeps the current channel exactly if it may be read |
| RevocationSweep.CommandsExactly | src/irc_lens/session.py:684-697 | a part drops that channel only and clears it as the current one, a checked join adds and shows it, a switch shows a joined channel exactly if it may be read |
| RevocationSweep.CurrentStaysJoined | src/irc_lens/session.py:665-706 | in every run the current channel is joined, or there is none |
| RevocationSweep.SkippingIsInvisibleForAtomicJoins | src/irc_lens/session.py:665-682 | with a join taken as one step this holds of every run |
| RevocationSweep.JoinAgreesExactlyWhenSafe | src/irc_lens/session.py:665-682 | for joins split at their await the condition is exact |
| RevocationSweep.UnsafeJoinSurvives | src/irc_lens/session.py:665-682 | from any state, a join that lands unsafely survives any number of lines until the store changes, a stamp cannot be read, a page is rendered or the channel is parted, while sweeping on every line drops it on the first |
| RevocationSweep.RacingJoinSurvives | src/irc_lens/session.py:665-682 | a revocation and a line between a join's check and its completion lead to such a join of a revoked channel |
| RevocationSweep.LiveSession.DispatchLine | src/irc_lens/session.py:1210-1250 | a line sweeps exactly when the stamp is unknown or new |
| RevocationSweep.LiveSession.EnforceRevocations | src/irc_lens/session.py:635-647 | the sweep drops and PARTs exactly the channels the viewer may no longer list, and clears an unreadable current channel |
| Nickname.StoredFormsAreCanonical | src/irc_lens/nickname.py:36-64 | a stored nickname is its own normal form, and two that agree without case are equal |
| Nickname.NormalizedExactly | src/irc_lens/nickname.py:36-64 | a choice is invalid with an at sign or unless 2 to 16 of its characters remain, reserved if ask or with the agent prefix remains, and otherwise becomes what remains |
| Nickname.DropFilters | src/irc_lens/nickname.py:33-44 | what remains is decided character by character: small letters, digits and underscores |
| AccessUsers.NicknamesAreOwned | src/irc_lens/access_store.py:389-496 | in every run current nicknames differ without case and each is reserved to its own user |
| AccessUsers.HoldersAreForLife | src/irc_lens/access_store.py:454-496 | who held a nickname once is its only possible owner ever after |
| AccessUsers.SetNicknameExactly | src/irc_lens/access_store.py:389-451 | a set succeeds exactly for a known user and an acceptable nickname nobody else ever had, and then changes that one nickname and its reservation only |
| AccessUsers.RefusalsAndClaims | src/irc_lens/access_store.py:408-467 | a refused operation changes nothing; a claim never changes an existing nickname and succeeds exactly for a known user without one whose choice is acceptable and free |
| AccessUsers.SetExactly | src/irc_lens/access_store.py:319-353 | a guarded set succeeds exactly for an address without a colon, a nickname nobody else ever had and a change that keeps an admin; then the user has the role, state and nickname and nobody else is touched |
| AccessUsers.UnguardedSetExactly | src/irc_lens/access_store.py:314-317 | the unguarded set gives role and state and keeps the nickname, and is refused for the address alone |
| AccessUsers.ImportExactly | src/irc_lens/access_store.py:708-736 | an import makes every address not imported before an approved admin with its nickname kept, and touches nobody else |
| AccessUsers.LastAdminExactly | src/irc_lens/access_store.py:319-353 | a change is refused as the last admin's exactly when it would leave no approved admin where there is one |
| AccessUsers.AdminsNeverVanish | src/irc_lens/access_store.py:319-353 | no guarded operation ever leaves the store without an approved admin once it has one |
| AccessUsers.ReimportChangesNothing | src/irc_lens/access_store.py:708-736 | importing addresses already imported changes nothing, so a deliberate demotion survives |
| AccessUsers.ApplyKeepsReserved | src/irc_lens/access_store.py:319-496 | every operation keeps nicknames reserved and the holder relation growing |
| AgentCredentials.OneLiveCredential | src/irc_lens/access_store.py:567-599 | in every reachable state a key has at most one unrevoked credential |
| AgentCredentials.VerifiesExactlyWhenCurrent | src/irc_lens/access_store.py:567-655 | a token verifies exactly when it is the last one issued for its key, no revoke, purge or rename of that key came after, and it has not expired |
| AgentCredentials.ApplyKeepsInv | src/irc_lens/access_store.py:567-655 | the unrevoked rows stay exactly the current credentials |
| AccessStore.StoreVerifiesExactlyWhenCurrent | src/irc_lens/access_store.py:477-496 | the same over runs of the whole store, in which renames by any path count as revocations |
| AccessStore.LiveTokenMeansSameNickname | src/irc_lens/access_store.py:469-496 | a live token proves that its user was never renamed since it was issued: at every moment since the nickname was none yet or that of now |
| AccessStore.NicknamesStay | src/irc_lens/access_store.py:389-496 | nobody who has a nickname ever loses it altogether |
| AccessStore.UserTablesFollowUserOps | src/irc_lens/access_store.py:319-496 | credential operations never touch the user tables, so the nickname and admin results hold of the whole store |
| AccessStore.AccessStore.SetUserKeepingAdmin | src/irc_lens/access_store.py:319-353 | check, upsert and nickname in one transaction; a refusal after the first write leaves the tables as they were |
| AccessStore.AccessStore.SetUser | src/irc_lens/access_store.py:314-317 | the unguarded set, which keeps the nickname |
| AccessStore.AccessStore.SetNickname | src/irc_lens/access_store.py:389-406 | the admin path, rename included |
| AccessStore.AccessStore.ClaimNickname | src/irc_lens/access_store.py:408-433 | the person's own first choice |
| AccessStore.AccessStore.SetNicknameIn | src/irc_lens/access_store.py:441-451 | giving a nickname inside a transaction, with the revocation a rename brings |
| AccessStore.AccessStore.ImportAdmins | src/irc_lens/access_store.py:708-736 | the loop imports each address once and counts the new ones |
| AccessStore.AccessStore.IssueAgentCredential | src/irc_lens/access_store.py:567-589 | revoking the old credential and inserting the new one |
| AccessStore.AccessStore.RevokeAgentCredential | src/irc_lens/access_store.py:591-599 | afterwards no credential of the key is live, and the count is how many were |
| AccessStore.AccessStore.PurgeAgentCredentials | src/irc_lens/access_store.py:641-655 | afterwards the key has no rows |
| AccessStore.AccessStore.VerifyAgentCredential | src/irc_lens/access_store.py:601-608 | a row answers exactly while unrevoked and unexpired |
| HtmlText.UnescapeInvertsEscape | src/irc_lens/web/media.py:107 | unescaping what escape wrote gives every text back |
| HtmlText.EscapedIsPlain | src/irc_lens/web/media.py:89-108 | escaped text holds no character that opens a tag or ends an attribute |
| ChatPieces.RenderingKeepsTheText | src/irc_lens/web/media.py:119-161 | for every message and agent list, removing the tags and unescaping gives the message back |
| ChatPieces.NoAgentsIsMessageHtml | src/irc_lens/web/media.py:89-109 | without agents the markup is exactly that of the plain rendering |
| ChatPieces.LinksAreHttpExactly | src/irc_lens/web/media.py:47-54 | for every message and agent list a link holds no white space and is an http or https URL if and only if its fifth character is no long s, so a message without one has http and https links only |
| ChatPieces.LongSIsLinked | src/irc_lens/web/media.py:54 | a message spelling https with a long s becomes a link to a URL of neither scheme |
| ChatPieces.EveryUrlIsLinked | src/irc_lens/web/media.py:47-54 | wherever an http or https URL starts in a line, a link is shown |
| ChatPieces.LinksGoOn | src/irc_lens/web/media.py:47-54 | and a link goes on until white space or the end of the line |
| ChatPieces.LinksPointWhereTheyShow | src/irc_lens/web/media.py:84-86 | in every rendered line a link points to the very URL it shows |
| ChatPieces.TaggedExactly | src/irc_lens/web/media.py:119-161 | between links a tag stands exactly where an at sign, a zero-width space and an agent name up to a word boundary stand, and shows the nick as written |
| ChatPieces.TagsNameTheLongest | src/irc_lens/web/media.py:134-137 | where several agents' names fit, the tag names a longest one |
| ChatPieces.ByLengthSorts | src/irc_lens/web/media.py:136 | the names are tried longest first, each as often as given |
| ChatNicks.SpansAreTheTags | src/irc_lens/web/media.py:139-152 | reading the spans back out of the markup gives exactly the nicks that were tagged |
| ChatNicks.NicksAreFirstUses | src/irc_lens/web/media.py:143-147 | the list kept while rendering is the distinct nicks without case, as first written, in order |
| ChatRender.RenderPieces | src/irc_lens/web/media.py:119-161 | the moving position and the substitution in each segment produce the pieces the theorems are about |
| ChatRender.RenderChatText | src/irc_lens/web/media.py:119-161 | the markup shows exactly the message, the nicks are the distinct ones of the spans in that markup, and without agents it is the plain rendering |
| MediaMessage.ComposeMediaMessage | src/irc_lens/web/media.py:164-201 | the line is always under 8192 bytes; what fits as it is stays as it is, the URL is whole if it fits, the caption keeps the longest run of whole characters with which the line still fits, and a URL too long by itself the longest run that fits |
| MediaMessage.StripExactly | src/irc_lens/web/media.py:183-184 | stripping takes white space off both ends and nothing else |
| MediaMessage.TruncateKeepsLongest | src/irc_lens/web/media.py:204-210 | cutting encoded text keeps the longest run of whole characters that fits |
| MediaMessage.EncodedLength | src/irc_lens/web/media.py:188 | a character takes as few bytes as it can, and only the first of them looks like a first byte |
| AgentInbox.OnlyOwnerReaches | src/irc_lens/web/agent_sessions.py:309-384 | a delivered line is from the owner, or is a line of a readable channel that does not name the agent; direct messages are the owner's only |
| AgentInbox.OwnerExactly | src/irc_lens/web/agent_sessions.py:309-335 | nobody is taken for the human unless its own session is healthy, connected and holds its nick, and then whoever writes under that nick without regard to case |
| AgentInbox.DirectMessagesExactly | src/irc_lens/web/agent_sessions.py:337-367 | chat sent to the agent directly is delivered exactly if it comes from that human, and otherwise withheld |
| AgentInbox.WrappedExactly | src/irc_lens/web/agent_sessions.py:344-353 | text wrapped in CTCP marks is an action if it says so and no chat otherwise; any other text is taken as it stands |
| AgentInbox.ReadsAreFiltered | src/irc_lens/web/agent_sessions.py:337-433 | every line a read ever returns was let through by that filter when it came |
| AgentInbox.InboxIsNewestDelivered | src/irc_lens/web/agent_sessions.py:271-384 | in every run, whatever was read, the inbox is exactly the newest 500 lines the filter let through, numbered as they came |
| AgentInbox.WithheldCountsCrossHuman | src/irc_lens/web/agent_sessions.py:337-383 | over any run the withheld counter is the number of messages received that were chat of somebody not the agent's human, sent to the agent or naming it in a readable channel |
| AgentInbox.NewLineIsUnread | src/irc_lens/web/agent_sessions.py:363-379 | a delivered line is pending for the next read, after all others |
| AgentInbox.EachLineAtMostOnce | src/irc_lens/web/agent_sessions.py:369-433 | over any interleaving of arrivals, evictions and reads no line is returned twice |
| AgentInbox.ReadTakesOldest | src/irc_lens/web/agent_sessions.py:405-433 | a read comes to the oldest unread lines of its filter, returns at most the limit, leaves exactly the others, and stops early only at the limit |
| AgentInbox.ReadReturnsReadable | src/irc_lens/web/agent_sessions.py:405-433 | of the lines it comes to a read returns the direct messages and those of channels the human may read now, and its limit is held between 1 and 500 |
| AgentInbox.WatermarkMeaning | src/irc_lens/web/agent_sessions.py:405-428 | a line in the inbox is behind its watermark exactly when it was returned or was unreadable when a read came to it |
| AgentInbox.DrainReturnsAll | src/irc_lens/web/agent_sessions.py:405-428 | repeated reads return every visible unread line in order, whatever the limit |
| AgentInbox.AgentSession.ReadLines | src/irc_lens/web/agent_sessions.py:391-428 | the one pass that raises watermarks as it goes does what the read of the theorems does, and the answer carries the number of withheld deliveries |
| AgentInbox.AgentSession.OnMessage | src/irc_lens/web/agent_sessions.py:369-383 | a message is delivered, counted as withheld, or ignored, as the filter says |

## Left out

- Characters: case mapping is ASCII only (`upper`, `lower` and `casefold` on nicknames, commands and
  owner nicks), while white space is Python's full class. The regex tables of chat rendering
  (word characters, case-blind equality, `lower`) are parameters and the results hold for any.
- `IrcMessage.RoundTrip`: tags are kept as an ordered list, as the code's dictionary does; prefix,
  command and middle parameters are required to be representable, the last parameter is not.
- `LineFramer.ChunkIndependence`: the UTF-8 decoder is a parameter that maps no bytes to no text.
- `MediaMessage.TruncateKeepsLongest`: the decoder is modelled on whole prefixes of encoded text
  only, which is all `_truncate_utf8` meets; lone surrogates do not occur.
- `RetentionSweep.SweepIsInvisible`: ban expiry and the erasure of inactive guests change later
  answers on purpose and are not part of it; calls come in clock order, token lifetimes and attempt
  windows are at most a day, minted values are new, and sessions are touched only as the
  `Proper` predicates say.
- Guest store calls that only look up or delete (the sign-in peek, trusted-browser checks, deletions by
  id or email) are table operations without a method of the store object; their row counts are left out.
- `AccessUsers.NicknamesAreOwned`: emails are taken as normalised already; audit rows, grants,
  extensions and the list of known users are not part of these tables. The hash in the import ledger
  is taken to be injective.
- `ReadCache.CachedReadsAreFresh`: the change counter does not wrap around within the life of an
  entry, every commit changes it, and reading it is atomic.
- `RevocationSweep.SkippingIsInvisible`: reads of the store succeed; the decision to list a channel
  is the plain policy, without the own-agent and nickname cases of direct messages.
- `ThreatAlerts.EndToEnd`: the text and kind of an alert, the rate limit inside the alerter and a
  `notify` that raises are not modelled; clock readings come in order.
- `DeciderClient.CallbackExactlyOnce`: the poster is any function that answers or fails; validation
  of its payload is not modelled.
- `MessageValidator.OneUnfinishedCall`: the prompt file and the pool's own queue are left out, and a
  call is any event that ends some time later.
- `QueryProtocol.QueryIsolation`: receiving stands for sending and receiving, so messages are not
  lost or reordered; the strings that key buffers and futures are taken as the keys they spell, and
  rows arrive only in answer to a request, whose key they name or none.
- `QueryProtocol.Session.Drain`: the wait between `Begin` and `Drain` is where other steps interleave,
  so `_collect_until` is two methods.
- `CoalescedRefresh.ServedExactlyUnlessCancelled`: what a pass fetches and publishes is left out.
- `ChatPieces.RenderingKeepsTheText`: the regex engine's search is written out as the leftmost match
  with names tried in order.
- `AgentInbox.OnlyOwnerReaches`: whether a text names the agent is a parameter (format stripping and
  the name pattern are left out), time stamps are left out, and audit writes have no effect here.
- Web handlers, cookies, templates, scripts, the command line, SMTP and HTTP, token verification,
  password hashing, SQLite itself, seat and media stores, config validation, legal versions, export
  scrubbing and documentation pages: input and output, or shallow branching.
- `classify_url`, roster and mesh building, `RefusalThrottle`, `MailBudget`, `MessageBuffer` and the
  event formatter: the same shapes as modelled members, or smaller.
