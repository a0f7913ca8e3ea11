# Deep_OJ verification

Deep_OJ is an online judge. Its control plane (Go) keeps submissions in Postgres, hands them to workers through a
Redis stream and fences the workers with attempt ids and leases; its web server embeds the Crow C++ framework and
the picosha2 header. This project models the parts where state, concurrency or arithmetic is hard, in Dafny 4.11,
and proves what they promise. `dafny verify dfyconfig.toml` checks all of it.

**Submission protocol** (`Submissions`, `FencingSafety`, `Verdicts`, `JobFencing`, `Heartbeat`, `FinalizeReasons`). Every SQL
statement on the `submissions` table is one atomic step. A class holds the table in a mutable field, and each of its
methods is proved to do what the step function says, and column by column what its SQL text says. The main results are about runs: any sequence of statements,
issued by anyone, with any arguments and any clock readings. They come from a refinement: a row's columns stand for an
abstract lease, and a statement's WHERE clause holds exactly when the lease allows the event.

**Outbox and dispatch** (`Outbox`, `Dispatch`, `Spacing`, `Dispatcher`, `Collector`, `Repair`). The submissions
table, the transactional outbox, any number of dispatchers that may crash between two lines, the repair loop and
the garbage collector form one labelled transition system with a record of commits and of stream entries. The
code's loops are methods whose effect is a run of that system, with other actors' steps interleaved.

**Key normaliser** (`Keyspace`) and **testcase cache** (`TestcaseCache`), over Go's string functions (`GoStrings`).

**JSON** (`JsonStrings`, `JsonEscapes`, `JsonValues`, `JsonRoundTrip`, `JsonNumberGrammar`, `JsonGrammar`, `JsonParser`,
`JsonPrinter`). The parser is a class over a byte buffer that it marks and, for keys, decodes in place. It is proved
equal, on every terminated text, to a parser that is a function of the original text. That function is proved to undo
the printer, and to accept exactly the texts of a grammar in the manner of RFC 8259, with the values they denote; the
grammar has blanks, spellings of characters and numbers written out and mentions no function of the parser.

**HTTP bodies** (`HttpBody`, `HttpChunks`, `HttpParser`). The resumable parser reads in bulk from buffers of any size; it is proved
equal to an automaton that reads one byte at a time, which is proved to decode every chunked message and to complete on
nothing else.

**Routing** (`RouteTrie`, `RouteTrieUpdates`, `Router`, `RouteArguments`). A tree stands for a list of patterns; searching, adding and
compressing are each related to that list.

**WebSocket** (`WebSocketFrames`, `WebSocketMasks`, `WebSocket`, `WebSocketClosing`, `WebSocketStream`,
`WebSocketConnection`), against RFC 6455. A connection is a state machine over arriving frames, the application's calls, and reads and writes that
end, well or not; its runs are what the theorems speak of. The reader's cuts of the byte stream are part of it.

**SHA-256** (`Sha256Block`, `Sha256`, `Sha256Constants`, `Sha256Example`) and **base64** (`Base64`), against FIPS 180-4
and RFC 4648. The constants are derived from the primes, and the example "abc" is computed.

Digits and letters that a format names are pinned by literal tables (`HexDigits`, `Alphabets`), to which the code's
arithmetic on character codes is proved equal.

Times are integers: microseconds in the protocol, milliseconds in the backoff. C++ `char` buffers are sequences or
arrays of bytes. `word_t`, an `unsigned long`, is taken to have 64 bits, and the host to be little-endian.

Where code and documentation or expectation disagree, the code is followed and the difference is proved:

- A reject reason `already_finished` can be revoked for a row created pending under a status that reads as terminal;
  `FinalizeReasons.AlreadyFinishedIsRevoked` is such a run. The handlers create rows as "pending" only, and then both
  reasons are final (`FinalizeReasons.RejectionsOfPendingBirthsAreFinal`).
- The classifier's fall-through is reached by an owner that trims to nothing or to the stored owner
  (`FinalizeReasons.FallThroughIff`, with a run in `BlankOwnerFallsThrough`).
- A job id may be reused after collection, and then counts attempts from 1 again
  (`FencingSafety.ReusedJobIdIsGrantedAgain`). A job id is fenced if and only if no two of its rows were both claimed
  or both finished (`JobFencing.JobFencedIff`), as with the fresh ids the handlers make (`JobFencing.BornOnceIsFenced`).
- An event stored under a status other than pending is never sent (`Dispatch.OtherStatusIsNeverSent`).
- Two environments share keys if and only if the one's namespace is the other's or continues it after a colon
  (`Keyspace.KeysAreSharedIff`); an unset environment shares keys with all.
- The cache's int64 sum can wrap, and then nothing is evicted (`TestcaseCache.WrappedSumEvictsNothing`).
- JSON containers nest to 5000, not to the 10000 of the constant, since the depth counter grows twice a level
  (`JsonRoundTrip.LoadDump`).
- The JSON parser takes numbers without digits after the point or after an exponent's sign, and no exponent after a lone
  zero (`JsonNumberGrammar.NumberIsScanned`), and literals with raw control characters (`JsonGrammar.TextIsDocument`). It
  does not join the halves of a surrogate pair, and each becomes three bytes that are no UTF-8
  (`JsonEscapes.WellFormedIff`).
- The HTTP parser keeps its state after a complete message: line feeds after a chunked body, and any bytes after a
  body of known length, complete it again (`ChunkedCoding.CompletionsWithTail`, `IdentityWithTail`). It bounds a
  chunk line by the header limit and a chunk by 2^64 - 17, takes a bare line feed for the end of an empty trailer
  (`ChunkedAcceptance.CompletesIff`), and bytes from 0x80 on in a chunk's size for the digit zero (`ChunkedCoding.Written`).
- A WebSocket header that the socket delivers in two reads is taken for an empty unmasked frame, and its second byte
  for the start of the next header, even when that byte is zero (`WebSocketStream.SplitIsRead`, `ZeroByteIsHeader`).
  Frames are read as sent if and only if no header is split (`WebSocketStream.ReadsBackIff`, `AllAreHandledIff`).
- The WebSocket close handler is called again, as "uncleanly", for every write but the first that ends between this
  side's close and the peer's (`WebSocketClosing.CloseHandlerIsCalledOnceIff`, with a run in
  `PingWhileClosingCallsTwice`). From this side's close on a pong can stay unsent (`PongIsLeftBehind`), though not
  before it (`AllIsWrittenBeforeClosing`); `AllGoesOutIff` says exactly when all is sent.

## Model

| member | source | states |
|---|---|---|
| Submissions.SubmissionStore.CreateSubmission | src/go/internal/repository/postgres.go:91-110 | inserts a row under the next id with every column stated, or leaves the table alone when the job id is taken |
| Submissions.SubmissionStore.UpdateSubmissionResultIfNotDone | src/go/internal/repository/postgres.go:151-167 | finishes any row not yet done with this status and this result, without a fence, and returns the time since creation; otherwise no change and 0 |
| Submissions.SubmissionStore.ClaimSubmissionForRun | src/go/internal/repository/postgres.go:196-222 | the new table and the granted attempt are those of an atomic Claim of a pending row; owner, deadline and cleared errors are stated by column, and a non-positive lease counts as 60 s |
| Submissions.SubmissionStore.RefreshSubmissionLease | src/go/internal/repository/postgres.go:225-244 | extends the lease of the matching attempt and owner even after expiry, and of nothing else |
| Submissions.SubmissionStore.FinalizeUpdate | src/go/internal/repository/postgres.go:258-282 | applies exactly under the exact attempt, owner and an unexpired lease; the row is then done with the given status in its status column and the given result in its result column, without owner and deadline |
| Submissions.SubmissionStore.MarkSubmissionPoison | src/go/internal/repository/postgres.go:364-382 | finishes any row not yet done as "System Error" with code and message each in its own column, keeps its result, and drops its lease |
| Submissions.SubmissionStore.ReclaimUpdate | src/go/internal/repository/postgres.go:394-414 | grants the next attempt on a running row whose lease lies strictly in the past, and on no other; owner, deadline and the columns that stay are stated one by one |
| Submissions.SubmissionStore.DeleteBatch | src/go/internal/scheduler/gc_loop.go:186-197 | a row remains if and only if it is not targeted, not done, or not older than the cutoff, and what remains is unchanged |
| Submissions.SubmissionStore.Interfere | src/go/internal/repository/postgres.go:151-414 | other sessions' statements between two of one caller amount to a run |
| FencingSafety.StatementsRefineLease | src/go/internal/repository/postgres.go:151-411 | on every well-formed row, a statement's WHERE clause holds if and only if the abstract lease allows its event, and the SET clause does to the lease what the event does |
| FencingSafety.Reachable | src/go/internal/repository/postgres.go:91-411 | after every run each row's columns are exactly the lease its logged events lead to, and every row's history is legal |
| LeaseHistory.LegalIsFenced | src/go/internal/repository/postgres.go:195-289 | in a legal history attempt ids are 1, 2, 3, ... in order, at most one Claim, at most one terminal event and nothing after it, and a Finalize carries the largest attempt ever granted |
| FencingSafety.FencingHolds | src/go/internal/repository/postgres.go:151-411 | the same for every row in every interleaving of all statements with arbitrary clocks and duplicates |
| Verdicts.VerdictStays | src/go/internal/repository/postgres.go:151-382 | over every run, a row that an applied Finalize, Poison or ResultIfNotDone finished keeps exactly the status and result, or code and message, of that call, for as long as that row is in the table |
| Verdicts.DoneRowHasItsVerdict | src/go/internal/repository/postgres.go:151-382 | conversely, every row that became done in a run shows the columns of one applied call of it |
| FencingSafety.ReusedJobIdIsGrantedAgain | src/go/internal/scheduler/gc_loop.go:186-197 | a concrete run in which one job id is claimed twice with attempt 1, because its row was collected in between |
| JobFencing.JobFencedIff | src/go/internal/repository/postgres.go:91-289 | over every run and all rows of a job id: one claim, one terminal write, each attempt granted once and the last write under the largest, if and only if no two of its rows were both claimed and no two both finished |
| JobFencing.BornOnceIsFenced | src/go/internal/api/handler.go:248-307 | a job id that at most one Create put into the table, as with an id made afresh for every submission, is fenced for good |
| Heartbeat.HolderKeepsLease | src/go/internal/repository/postgres.go:225-289 | while every statement on the job comes less than a lease after the holder's last beat and no unfenced writer acts, the holder keeps the row and every other statement on it is rejected, Reclaim included |
| Heartbeat.TimelyFinalizeIsApplied | src/go/internal/repository/postgres.go:196-289 | from its grant on, a beating holder's Finalize is applied if and only if it comes before the deadline of its last beat |
| Heartbeat.OlderAttemptsAreFenced | src/go/internal/repository/postgres.go:225-289 | once a Reclaim granted an attempt, no Refresh or Finalize with a smaller one takes effect on that row, whatever runs in between |
| FinalizeReasons.GetFinalizeFenceRejectReason | src/go/internal/repository/postgres.go:291-356 | field by field, the result is the classification of the row as it stands, with each of its columns under its own name and each reason under its exact condition, missing rows included |
| FinalizeReasons.VerdictsReadAsFinished | src/go/internal/repository/postgres.go:27-40 | each of the worker's verdicts, in the capitals it is written with, reads as finished |
| FinalizeReasons.FinalizeSubmissionWithFence | src/go/internal/repository/postgres.go:249-289 | applied exactly when the fenced UPDATE matches, and then the row is done with this status and this result; otherwise the reason classifies the row after any interference |
| FinalizeReasons.ReclaimSubmissionForRun | src/go/internal/repository/postgres.go:390-442 | claimed exactly when the UPDATE matches; otherwise attempt 0 and the decision for the row after any interference, not_found if and only if it is gone |
| FinalizeReasons.IrrevocableIffDead | src/go/internal/repository/postgres.go:195-289 | on a reachable row no continuation lets an attempt finalize if and only if the row is past it, finished, or outside the protocol |
| FinalizeReasons.RejectionsAreIrrevocable | src/go/internal/repository/postgres.go:334-341 | stale_attempt is irrevocable; already_finished is, if and only if the row is not still pending below that attempt |
| FinalizeReasons.RejectionsOfPendingBirthsAreFinal | src/go/internal/api/handler.go:256-333 | when every submission is created with status pending, stale_attempt and already_finished are both irrevocable on every reachable row |
| FinalizeReasons.AlreadyFinishedIsRevoked | src/go/internal/repository/postgres.go:334-341 | a run from the empty table in which a refusal reads already_finished and the same Finalize is applied after one more Claim |
| FinalizeReasons.ReasonNamesFailedCondition | src/go/internal/repository/postgres.go:331-352 | with nothing in between, every reason other than the fall-through names a conjunct of the UPDATE that this row fails |
| FinalizeReasons.FallThroughIff | src/go/internal/repository/postgres.go:347-355 | for a granted attempt the fall-through means exactly: current and unexpired lease, and an owner that differs only by trimming or trims to nothing |
| FinalizeReasons.BlankOwnerFallsThrough | src/go/internal/repository/postgres.go:347-355 | a run in which the granted attempt, before its deadline and under a blank owner, gets the fall-through reason |
| FinalizeReasons.GrantOwnsLease | src/go/internal/repository/postgres.go:196-222 | the latest grant of a held row owns its lease, and no grant is ahead of the row |
| FinalizeReasons.HolderNeverFallsThrough | src/go/internal/repository/postgres.go:347-355 | a worker using the owner it was granted under never meets the fall-through |
| FinalizeReasons.ReclaimDecisionExact | src/go/internal/repository/postgres.go:430-441 | with equal clocks a refused Reclaim reads lease_still_valid for a held row except at the very deadline, where it reads done_or_stale |
| Backoff.Bounds | src/go/internal/repository/postgres_outbox.go:158-171 | positive bounds with the cap at least the base |
| Backoff.DispatcherBounds | src/go/internal/api/outbox_dispatcher.go:54-64 | the constructor's bounds pass through the store's own normalisation unchanged, and valid settings are kept |
| Backoff.DelayBounds | src/go/internal/repository/postgres_outbox.go:32-43 | for every random number the delay lies between nine tenths of the nominal one (at least 1 ms) and the cap |
| Backoff.NominalDoubles | src/go/internal/repository/postgres_outbox.go:32-43 | the nominal delay is the base at first, twice the one before or the cap, whichever is smaller, up to the thirtieth attempt, and constant from then on |
| Backoff.DelayIsNear | src/go/internal/repository/postgres_outbox.go:32-43 | the delay is within a tenth of the nominal one, half a millisecond and the cap aside |
| Outbox.OutboxStore.ClaimPendingOutboxEvents | src/go/internal/repository/postgres_outbox.go:152-203 | picks the due, unlocked events with the earliest deadlines, ties by id, as many as the limit allows and 32 by default, and pushes exactly those back: one more attempt each and a next time within the stated bounds of its own delay |
| Outbox.OutboxStore.MarkOutboxDispatched | src/go/internal/repository/postgres_outbox.go:205-219 | delivers the row whatever its state, and no other |
| Outbox.OutboxStore.MarkOutboxDispatchError | src/go/internal/repository/postgres_outbox.go:221-234 | leaves dispatched rows alone and keeps the attempt counter and deadline |
| Outbox.OutboxStore.CreateSubmissionAndOutbox | src/go/internal/repository/postgres_outbox.go:70-149 | both inserts or neither, and it succeeds if and only if neither job id is taken |
| Dispatch.SystemProjects | src/go/internal/repository/postgres.go:91-411 | every run of the whole system is a run of submission statements, so the fencing results hold in it |
| Dispatch.AtLeastOnce | src/go/internal/api/outbox_dispatcher.go:111-180 | in every reachable state, crashes and collections included, an event committed as pending is still claimable or was added to the stream for its own job |
| Dispatch.OtherStatusIsNeverSent | src/go/internal/repository/postgres_outbox.go:115-118 | an event has that guarantee if and only if it was stored as pending |
| Dispatch.SentStatusIsNeverSent | src/go/internal/repository/postgres_outbox.go:115-118 | an event committed under the status "sent": whatever runs afterwards, it is neither claimable nor in the stream |
| Dispatch.CommitsStay | src/go/internal/repository/postgres_outbox.go:70-149 | from any good state, a commit and its guarantee survive every further run |
| Dispatch.DeliveredIsAbsorbing | src/go/internal/repository/postgres_outbox.go:205-234 | once dispatched an event is never claimable again, under any retries, late error marks and second dispatchers |
| Spacing.ClaimsAreApart | src/go/internal/repository/postgres_outbox.go:19-49 | in every run consecutive claims of one event are at least the shortest delay of the first apart |
| Spacing.WaitsAddUp | src/go/internal/repository/postgres_outbox.go:19-49 | claim k comes no sooner than the sum of the first k shortest delays after the first claim |
| Spacing.WaitsDouble | src/go/internal/repository/postgres_outbox.go:19-49 | in base, cap and k alone: while the delay has not reached the cap, claim k comes at least nine tenths of base times (2^k - 1), less k milliseconds, after the first |
| Spacing.ClaimableAgain | src/go/internal/repository/postgres_outbox.go:221-229 | an undelivered event is due again at most the cap after its last claim, never before the shortest delay is over, and its attempt counter counts its claims |
| Dispatcher.DispatchOne | src/go/internal/api/outbox_dispatcher.go:111-180 | its effect is its lines in order, with any other actors' steps before each of them |
| Dispatcher.DispatchOnce | src/go/internal/api/outbox_dispatcher.go:92-109 | its effect is the claim and then the lines of every claimed event, interleaved with anything |
| Dispatcher.SmoothDispatchDelivers | src/go/internal/api/outbox_dispatcher.go:133-171 | undisturbed and without faults, exactly one entry is added for the event's job and exactly that event is delivered |
| Dispatcher.FailedDispatchStaysClaimable | src/go/internal/api/outbox_dispatcher.go:122-171 | any fault leaves the event claimable with its counter and deadline unchanged |
| Dispatcher.FaultsAreRecorded | src/go/internal/api/outbox_dispatcher.go:111-180 | for every combination of faults, the payload left in Redis is the one set and not dropped after a failed XADD, and the recorded error is the one of the line that failed |
| Dispatcher.DispatchEffect | src/go/internal/api/outbox_dispatcher.go:111-180 | for every combination of faults, one event's lines end in exactly one way: delivered under its entry, or claimable again with counter and deadline kept, with an entry added if and only if the XADD got through |
| Dispatcher.QuietRoundSettles | src/go/internal/api/outbox_dispatcher.go:92-180 | an undisturbed round settles every claimed event by its own faults, adds one entry for each event whose XADD got through, in order, and changes no other event |
| Dispatcher.DisturbedRoundLosesNothing | src/go/internal/api/outbox_dispatcher.go:92-180 | after a round with any other actors' steps between its lines, from any reachable state, every claimed event is claimable, or was sent for its job and delivered |
| Collector.NothingBecomesCollectable | src/go/internal/scheduler/gc_loop.go:186-197 | with a cutoff in the past no run of statements makes a further submission collectable |
| Collector.NoEventBecomesCollectable | src/go/internal/scheduler/gc_loop.go:216-227 | with a cutoff in the past no run of the system makes a further event collectable |
| Collector.DeleteOldDoneSubmissions | src/go/internal/scheduler/gc_loop.go:180-208 | ends under interference with no done row older than the cutoff left; undisturbed it removes exactly those, each row decided by its state and time alone, and returns their number |
| Collector.DeleteOldOutboxEvents | src/go/internal/scheduler/gc_loop.go:210-238 | the same for delivered events inside the whole system |
| Repair.FetchRepairCandidates | src/go/internal/scheduler/repair_loop.go:153-200 | pending jobs older than the minimum age, the oldest first, each once, none older left out, and all of them when the batch is not full |
| Repair.RunRepairCycle | src/go/internal/scheduler/repair_loop.go:84-151 | sends each distinct candidate once, in order; repaired is the number of distinct jobs whose calls succeed, failed that of the others, skipped that of the repetitions |
| Repair.RepairCoversStaleJobs | src/go/internal/scheduler/repair_loop.go:84-259 | a fault-free cycle gives every stale pending job a stream entry unless the batch is full of jobs at least as old |
| Keyspace.KeyLands | src/go/pkg/common/keyspace.go:37-81 | every raw key lands in the current namespace with no white space at its ends |
| Keyspace.NormalisationIsIdempotent | src/go/pkg/common/keyspace.go:37-81 | normalising twice is normalising once, for every key, prefix and environment |
| Keyspace.ProducersAgreeOnStream | src/go/internal/scheduler/control_plane_config.go:51-55 | the key the repair loop normalises twice is the one the dispatcher normalises once |
| Keyspace.SpellingsAgree | src/go/pkg/common/keyspace.go:52-80 | a plain business key, bare, legacy or under the bare prefix, becomes the same key |
| Keyspace.SpaceAroundIsIgnored | src/go/pkg/common/keyspace.go:37-41 | white space of any kind and length around a key makes no difference |
| Keyspace.ColonIsDropped | src/go/pkg/common/keyspace.go:52-81 | one colon too many in front of a plain key is dropped, alone, after the legacy prefix and after the current one |
| Keyspace.BareNamespace | src/go/pkg/common/keyspace.go:37-80 | the empty key, the prefix and, where they name no key, the prefixes with a colon become the namespace itself |
| Keyspace.Defaults | src/go/pkg/common/keyspace.go:8-35 | with nothing set the namespace is deepoj, and a legacy result key moves below it, with and without an environment |
| Keyspace.EnvironmentsAreDisjoint | src/go/pkg/common/keyspace.go:25-32 | two distinct non-empty colon-free environments under one prefix never share a key |
| Keyspace.KeysAreSharedIff | src/go/pkg/common/keyspace.go:25-81 | for any prefixes and environments, set or not, some key of the one is a key of the other if and only if one namespace is the other or continues it after a colon |
| Keyspace.NestedUnderOnePrefix | src/go/pkg/common/keyspace.go:25-32 | under one prefix that condition is the same one on the environment names |
| Keyspace.UnsetEnvironmentMeetsAll | src/go/pkg/common/keyspace.go:25-32 | an unset environment shares keys with every environment under its prefix |
| TestcaseCache.DeriveCacheByteBudget | src/go/internal/worker/minio.go:89-98 | the exact product, or the largest int64 when it does not fit, or 0 for a non-positive factor |
| TestcaseCache.TestCaseManager.TotalCacheBytes | src/go/internal/worker/minio.go:487-493 | the int64 sum over the list, in whatever order the map is walked |
| TestcaseCache.TestCaseManager.RemoveEntry | src/go/internal/worker/minio.go:534-541 | list and map lose exactly this entry and stay in step |
| TestcaseCache.TestCaseManager.EvictIfNeeded | src/go/internal/worker/minio.go:455-485 | list and map stay in step, sorted by last access, and hold what expiry and then the budget or the count leave: in ages alone, nothing older than the ttl, nothing dropped that is younger than what stays, and nothing unexpired dropped but for the budget or the count |
| TestcaseCache.TestCaseManager.TouchCache | src/go/internal/worker/minio.go:422-453 | the touched entry comes first with its new fields, the others keep their order, and the three limits are applied to that, with the same statement in ages |
| TestcaseCache.ShrunkIsFittingIff | src/go/internal/worker/minio.go:463-473 | dropping from the back while the int64 sum is over leaves the longest fitting prefix if and only if no sum over the budget wraps to one within it |
| TestcaseCache.KeptIsLongestPrefix | src/go/internal/worker/minio.go:455-485 | what remains is a prefix of the unexpired recency order, itself a prefix of the order, and the longest within the budget under that same condition, or the first cacheMax without a budget |
| TestcaseCache.SumThatFitsKeepsLongest | src/go/internal/worker/minio.go:455-485 | when the sizes together fit an int64, a positive budget always keeps the longest fitting prefix of the unexpired recency order |
| TestcaseCache.WrappedSumEvictsNothing | src/go/internal/worker/minio.go:487-493 | two entries of the largest size are kept under a budget of one byte |
| JsonStrings.Escape | include/crow_all.h:6668-6700 | appends the escaped text, byte by byte |
| JsonStrings.EscapeRoundTrip | include/crow_all.h:6668-6700 | decoding an escaped byte string gives it back, for all byte strings (section 7 of RFC 8259) |
| JsonStrings.EscapedTextIsClosed | include/crow_all.h:7475-7531 | the scan of a printed string stops at its own closing quote, whatever follows |
| JsonStrings.ClosedTextIsGood | include/crow_all.h:7475-7531 | whatever the scan accepts consists of whole escapes, so decoding never reads past its end |
| JsonStrings.PlainTextIsItself | include/crow_all.h:7475-7493 | a text without a backslash is its own decoding, which is why the flag may skip the work |
| JsonStrings.Unescape | include/crow_all.h:7054-7116 | in place, the text becomes its decoding, which reads as exactly the characters it spells, and never grows; nothing outside it and its flag changes, and a cleared flag means no change at all |
| JsonStrings.UnescapeUnit | include/crow_all.h:7062-7110 | one escape: what is written means the character that was spelt and ends at or before the new read position, and nothing from there on is touched |
| JsonStrings.CodeIsRead | include/crow_all.h:7081-7085 | four characters are digits of a table in either case and spell a code if and only if they are read as that code, for all codes from 0 to 0xFFFF |
| JsonStrings.Utf8IsRead | include/crow_all.h:7081-7104 | the bytes written for any code are read back to it by a reader of section 3 of RFC 3629, in the shortest form, whatever follows |
| JsonStrings.TextIsMeant | include/crow_all.h:7054-7116 | every text of plain bytes, short escapes and hexadecimal escapes is accepted and decodes to bytes that read as those characters in order |
| JsonStrings.TextHasChars | include/crow_all.h:7475-7531 | and every accepted text is such a text |
| JsonEscapes.WellFormedIff | include/crow_all.h:7081-7104 | with ASCII characters and escapes only, the decoded bytes are UTF-8 if and only if no escape is half a surrogate pair |
| JsonNumbers.IntRoundTrip | include/crow_all.h:8459-8466 | every integer's decimal text reads back as that integer and never as floating point |
| JsonNumbers.ScanInt | include/crow_all.h:7575-7699 | the number scanner takes a printed integer to its end |
| JsonNumbers.DigitsAreSkipped | include/crow_all.h:7613-7624 | the scanner's inner loop over digits skips nothing that would matter |
| JsonPrinter.DumpInternal | include/crow_all.h:8391-8506 | appends the text of the whole tree |
| JsonRoundTrip.ValueRoundTrip | include/crow_all.h:7702-7753 | at any place of any text a printed tree is read back whole, with the position after it, if and only if it fits the depth that is left |
| JsonRoundTrip.LoadDump | include/crow_all.h:7819-7832 | a printed tree loads to itself if no more than 5000 containers enclose one another, and is refused otherwise |
| JsonNumberGrammar.NumberIsScanned | include/crow_all.h:7575-7699 | the scanner stops at a position if and only if the text up to there is a number of the grammar, part by part, and no number character follows |
| JsonNumberGrammar.NumberMeans | include/crow_all.h:7575-7699 | without point and exponent its value is the integer that its digits, by a table, spell in base 10, with its sign |
| JsonGrammar.DocIsRead | include/crow_all.h:7469-7817 | every document of the grammar, with any blanks and spellings, at any place of any text is read whole as a value it denotes when it fits the depth, and refused otherwise |
| JsonGrammar.ValueIsDocument | include/crow_all.h:7702-7753 | on every text and depth, a value is accepted if and only if a document that fits the depth stands there, and value and end are those of every such document |
| JsonGrammar.TextIsDocument | include/crow_all.h:7819-7832 | the whole parser accepts a buffer if and only if it holds, up to a NUL, one document nested at most 5000 deep with blanks around it, and returns what that document denotes |
| JsonNodes.NodeStays | include/crow_all.h:7475-7493 | what a parsed node stands for does not change when the parser writes at later positions |
| JsonParser.Parser.DecodeString | include/crow_all.h:7475-7531 | on every text, accepts exactly the closed literals, marks them, and the node denotes the decoded string |
| JsonParser.Parser.DecodeNumber | include/crow_all.h:7575-7699 | on every text, accepts exactly what the scanner's tables accept |
| JsonParser.Parser.DecodeList | include/crow_all.h:7535-7573 | on every text and depth, the node denotes the list the text holds, or is bad when there is none |
| JsonParser.Parser.DecodeItems | include/crow_all.h:7550-7572 | the loop over elements, up to the bracket |
| JsonParser.Parser.DecodeObject | include/crow_all.h:7756-7817 | the same for objects |
| JsonParser.Parser.DecodeMembers | include/crow_all.h:7773-7816 | the loop over members, up to the brace |
| JsonParser.Parser.DecodeMember | include/crow_all.h:7775-7804 | key, colon and value, the key decoded where it lies |
| JsonParser.Parser.StringText | include/crow_all.h:7027-7035 | reading a string gives what its node denotes, changes nothing else, and can be repeated |
| JsonParser.Parser.DecodeValue | include/crow_all.h:7702-7753 | on every text and depth, the node and the cursor are those of the functional parser, and nothing before the value is written |
| JsonParser.Parser.Parse | include/crow_all.h:7819-7827 | a whole document, with an error for anything left before the terminator |
| JsonParser.Load | include/crow_all.h:7833-7844 | the same for any bytes, through a terminated copy |
| HttpBody.FeedConcat | include/crow_all.h:5095-5099 | feeding two buffers is feeding their concatenation |
| HttpBody.FeedKeepsSane | include/crow_all.h:6106-6224 | after any bytes, from the code's start with its all-ones length on, the asserts of the chunk states hold, and sizes past the first chunk line's start never wrap nor read as that sentinel |
| HttpBody.FeedData | include/crow_all.h:6187-6208 | reading body bytes in bulk is reading them one by one |
| HttpBody.TooLarge | include/crow_all.h:6145-6155 | the overflow test lets through exactly the sizes up to 2^64 - 17 |
| ChunkedCoding.FeedLine | include/crow_all.h:6106-6185 | a chunk line with any hexadecimal spelling of its size, by the tables of digits, in either case and with leading zeros, and any extension announces that size, if and only if the line and the size are within the limits |
| ChunkedCoding.WrittenIsRead | include/crow_all.h:5026-5035 | a text is the base 16 text of a number, by literal tables of digits and with bytes from 0x80 on for zeros, if and only if the code's table reads it as that number |
| ChunkedCoding.MessageIsDecoded | include/crow_all.h:6106-6224 | every chunked body of section 4.1 of RFC 7230 with an empty trailer, each size the base 16 text of its chunk's length, delivers the concatenation of its chunks and completes once; it is refused exactly when a limit is exceeded |
| ChunkedCoding.NothingCompletesEarlier | include/crow_all.h:5916-5924 | no proper prefix completes the message or fails |
| ChunkedAcceptance.CompletesIff | include/crow_all.h:6106-6224 | conversely, any bytes complete a chunked body if and only if they begin with such a message, its last line end a bare line feed at most; what was delivered is then its payload, whatever follows |
| ChunkedCoding.TrailerFindsPayload | include/crow_all.h:5399-5444 | where a trailer field begins, the whole payload has been delivered and the message has not completed |
| ChunkedCoding.CompletionsWithTail | include/crow_all.h:5916-5924 | a chunked message followed by any bytes completes once, and again for each line feed that follows at once, up to the header limit; exactly once if and only if the next byte, if any, is not a line feed |
| ChunkedCoding.IdentityWithTail | include/crow_all.h:6102-6104 | a body of known length followed by any bytes completes once more for every one of them |
| ChunkedCoding.IdentityIsDelivered | include/crow_all.h:6059-6104 | a body of known length is delivered whole and completes with its last byte, not before |
| HttpParser.Parser.Switch | include/crow_all.h:5916-6224 | one byte outside the data states does what the automaton does, header limit included |
| HttpParser.Parser.ReadBody | include/crow_all.h:6059-6100 | the bulk read of either body kind, with its mark, is the automaton's reading of those bytes |
| HttpParser.Parser.Execute | include/crow_all.h:5095-6260 | after a buffer the fields and all delivered bytes are those of the automaton, or the index of the first offending byte is returned |
| HttpParser.ExecuteAll | include/crow_all.h:5095-6260 | any cut of the input into non-empty buffers gives the same outcome |
| HttpParser.ReceiveChunked | include/crow_all.h:6106-6254 | a chunked message, cut anywhere, hands on its payload and completes once, or fails and never completes, by the limits |
| RouteTrie.SearchIsBest | include/crow_all.h:10016-10176 | the recursive search yields the best of all patterns the tree stands for |
| RouteTrie.BestIsSmallest | include/crow_all.h:10035-10042 | that is 0 if and only if none matches, else the smallest matching index, with arguments some rule of that index takes from the URL |
| RouteTrieUpdates.MergedStandsForTheSame | include/crow_all.h:9946-9955 | merging a simple node with its child keeps the patterns |
| RouteTrieUpdates.OptimizedAllStandForTheSame | include/crow_all.h:9932-9963 | compression keeps the patterns and their order, everywhere |
| RouteTrieUpdates.OptimizePreservesSearch | include/crow_all.h:9932-9963 | every URL is routed to the same rule with the same arguments before and after compression |
| RouteTrieUpdates.AddedRules | include/crow_all.h:10179-10262 | adding keeps one edge a token, adds exactly the one pattern, and fails exactly when the pattern already has a rule |
| Router.Trie.Parse | include/crow_all.h:10185-10253 | the tokens of a pattern, read left to right |
| Router.Trie.Add | include/crow_all.h:10179-10262 | refuses a pattern that has a rule and changes nothing then; otherwise that rule and no other is added |
| Router.Trie.Optimize | include/crow_all.h:9932-9938 | the tree stands for the same rules as before |
| Router.Trie.OptimizeNode | include/crow_all.h:9942-9963 | the merging loop of one node |
| Router.Trie.Find | include/crow_all.h:10016-10176 | for the rules added, before or after compression: 0 exactly when none matches, otherwise the smallest matching index with its arguments |
| Router.Trie.FindFrom | include/crow_all.h:10051-10175 | the recursion returns what the search function says, and pops every argument it pushed |
| RouteArguments.IntegerIsRead | include/crow_all.h:10058-10095 | an integer argument is taken if and only if the URL goes on with the base 10 text, by a table of digits, of a number in the range of an int64 or uint64, with an optional sign, and it is that number |
| RouteArguments.TextIsTaken | include/crow_all.h:10120-10150 | a string argument is exactly the rest of the segment, which is not empty, and a path argument the rest of the URL |
| RouteArguments.DoubleIsTaken | include/crow_all.h:10098-10118 | a floating-point argument is tried exactly where a digit, a sign or a point stands, and is what `strtod` makes of it |
| RouteArguments.ArgumentsAreFiled | include/crow_all.h:10058-10165 | a match hands over, type by type, the arguments in the order in which the pattern names them |
| RouteArguments.PatternIsRead | include/crow_all.h:10185-10253 | a pattern is read as the tokens it is written with, each parameter under one of the names of its kind, and only so |
| WebSocketFrames.BuildHeader | include/crow_all.h:3898-3919 | for every opcode and 64-bit size, the header of section 5.2 of RFC 6455 in its shortest form |
| WebSocketFrames.Swap64IsBig | include/crow_all.h:3916 | the swapped halves laid out by the host are the big-endian bytes, and swapping twice restores the number |
| WebSocketFrames.MiniHeaderIsRead | include/crow_all.h:3979-4008 | FIN, opcode, mask bit and small length are recovered from the two bytes |
| WebSocketFrames.LengthsAreRead | include/crow_all.h:4019-4089 | every 16-bit and 64-bit length is recovered |
| WebSocketFrames.UnmaskRestores | include/crow_all.h:4182-4188 | unmasking with the key that masked gives the payload back |
| WebSocketMasks.MaskedBits | include/crow_all.h:4182-4188 | each of the eight bits of a masked byte is the exclusive or of the two bits it comes from |
| WebSocketMasks.HelloIsRead | include/crow_all.h:3948-4188 | the masked example of section 5.7 of RFC 6455 is read as the final text frame "Hello" |
| WebSocketMasks.AnswersAre | include/crow_all.h:4206-4260 | an open connection answers a ping with the bytes of a pong frame of its payload, the peer's first close with those of a close frame, and nothing else |
| WebSocketSession.ReplyIsAFrame | include/crow_all.h:3838-3846 | what is sent is a frame the reader takes |
| WebSocketSession.EverythingIsOffered | include/crow_all.h:4266-4295 | over every run the bytes passed to the writer and those still buffered are together the pongs, closes and application frames said, in order; with no write under way and no mark nothing is still buffered |
| WebSocketSession.MessageIsDelivered | include/crow_all.h:4189-4259 | a message in any frames reaches the handler once, as the concatenated payload with the first frame's type, whatever pings, pongs, sends, closes and ends of writes come in between |
| WebSocketClosing.CloseCallsAre | include/crow_all.h:4222-4305 | over every run, failing reads and writes included, the calls of the close handler are "uncleanly" once for each time check_destroy runs before the peer's close, then the peer's first close payload, once |
| WebSocketClosing.CloseHandlerIsCalledOnceIff | include/crow_all.h:4222-4305 | over every run without faults it is called for the peer's close and nothing else if and only if at most one write ended between this side's close and the peer's, and once more for each further one |
| WebSocketClosing.PingWhileClosingCallsTwice | include/crow_all.h:4274-4305 | a run: close, answered ping, end of that write: the handler is called though the peer is there, and again when it closes |
| WebSocketClosing.NoneIsDeletedSilently | include/crow_all.h:4298-4305 | over every run a connection that was deleted has had its close handler called |
| WebSocketClosing.AllIsWrittenBeforeClosing | include/crow_all.h:4266-4295 | over every run without faults, while this side has not sent its close and no write is under way, every pong and every other frame said was passed to the writer, in order |
| WebSocketClosing.PongIsLeftBehind | include/crow_all.h:4278-4292 | a run without faults after which the second of two pongs is buffered and no write is under way |
| WebSocketClosing.AllGoesOutIff | include/crow_all.h:4266-4295 | over every run, faults and closes included, what is unsent is exactly what was said since the last write began; everything was passed to the writer if and only if nothing was said since |
| WebSocketStream.FrameIsRead | include/crow_all.h:3948-4162 | whatever follows it, every frame, masked or not and in any length form, is read as itself, with exactly its bytes, when its header comes in one read |
| WebSocketStream.SplitIsRead | include/crow_all.h:3953-4018 | when its header's first byte comes alone, an empty unmasked frame is read and all of the frame but that byte is left |
| WebSocketStream.UnsplitIsHandled | include/crow_all.h:3948-4162 | frames in a row without split headers are all handled, and none of their bytes is left unless the connection closes |
| WebSocketStream.ReadsBackIff | include/crow_all.h:3948-4162 | for every sequence of frames, the frames read are the frames sent, with nothing left over, if and only if none of its headers is split |
| WebSocketStream.StreamHandlesWhatIsRead | include/crow_all.h:3948-4162 | which frames are read does not depend on the session, which handles them in order while it is open |
| WebSocketStream.MessageBytesAreDelivered | include/crow_all.h:3948-4259 | the bytes of one message's frames, control frames among them and no header split, reach the handler once, as the concatenated payload with the first frame's type |
| WebSocketStream.SplitDataIsLost | include/crow_all.h:3953-4205 | if the first split header is that of a final data frame with a payload, the outcome differs from that of the frames sent, whatever follows |
| WebSocketStream.AllAreHandledIff | include/crow_all.h:3948-4162 | all sequences of n frames have the outcome of the frames sent if and only if none of the n headers is split |
| WebSocketStream.SplitPongIsRead | include/crow_all.h:3953-4018 | a split empty pong is read as itself, and its zero byte is left for the next header |
| WebSocketStream.ZeroByteIsHeader | include/crow_all.h:3953-4018 | a ping and a text message whose first header is split before a zero byte: the text message is never delivered |
| WebSocketConnection.Connection.SendFrame | include/crow_all.h:3838-3846 | header and payload are buffered in order, and passed on unless a write is under way |
| WebSocketConnection.Connection.Close | include/crow_all.h:3874-3889 | flag, handler and close frame as the session's close says |
| WebSocketConnection.Connection.OnWriteDone | include/crow_all.h:4278-4292 | the end of a write is the session's step, the next write, the mark and check_destroy included |
| WebSocketConnection.Connection.OnReadFailed | include/crow_all.h:4010-4154 | an error of a read, in each read state, is the session's step |
| WebSocketConnection.Connection.ReadMiniHeader | include/crow_all.h:3953-4018 | for one byte or two from the socket, the header, its state and what stays in the socket are those of the reader function |
| WebSocketConnection.Connection.ReadPayload | include/crow_all.h:4123-4158 | reads of any size up to 4096 put exactly the payload into the fragment, if that much comes |
| WebSocketConnection.Connection.HandleFragment | include/crow_all.h:4180-4260 | unmasks in place and does what the session says for that frame, both closing branches included |
| WebSocketConnection.Connection.ReadFrame | include/crow_all.h:3948-4162 | on every input and however its header is cut, reads and handles the frame of the reader function, or leaves the session alone while bytes are missing |
| WebSocketConnection.Connection.ReadFrames | include/crow_all.h:3948-4162 | on every input the session ends as the reader function says for the headers that were split |
| WebSocketConnection.Connection.ReceiveMessage | include/crow_all.h:3948-4259 | one message from the socket, in any frames, calls the handler once with its payload when no header was split |
| Sha256Block.SumAgrees | include/picosha2.h:98-122 | masking a 64-bit sum once is adding modulo 2^32 |
| Sha256Block.RoundAgrees | include/picosha2.h:113-125 | a round in 64-bit words with two masks is a round of section 6.2.2 of FIPS 180-4 |
| Sha256Block.FillSchedule | include/picosha2.h:95-107 | the array holds the message schedule of section 6.2.2 |
| Sha256Block.Hash256Block | include/picosha2.h:92-138 | for every block and chaining value, the compression of section 6.2.2, whose constants are those of Sha256Constants |
| Sha256Constants.ConstantsAreCubeRoots | include/picosha2.h:50-61 | round constant i is the first 32 bits of the fractional part of the cube root of prime i (section 4.2.2) |
| Sha256Constants.InitialHashIsSquareRoots | include/picosha2.h:63-65 | the initial words are the first 32 bits of the fractional parts of the square roots of the first eight primes (section 5.3.3) |
| Sha256Constants.FirstPrimes | include/picosha2.h:50-61 | the list those roots are taken of increases, and between two of its entries there is no prime: it is the first 64 |
| Sha256Stream.AddToDataLength | include/picosha2.h:246-258 | the four 16-bit limbs count modulo 2^64 |
| Sha256Stream.WriteDataBitLength | include/picosha2.h:259-278 | eight times the count as eight big-endian bytes |
| Sha256Stream.Hash256OneByOne.Process | include/picosha2.h:194-203 | the state is that of everything fed so far, with complete blocks hashed, the rest buffered and the length counted |
| Sha256Stream.Hash256OneByOne.Finish | include/picosha2.h:205-233 | the chaining value is that of the padded message of section 5.1.1, in one or two last blocks |
| Sha256Stream.Hash256OneByOne.GetHashBytes | include/picosha2.h:236-243 | the digest, cut to the room there is |
| Sha256Stream.Hash256Pieces | include/picosha2.h:182-243 | however the input is cut, the digest is SHA-256 of the whole |
| Sha256Stream.Hash256 | include/picosha2.h:298-307 | the one-shot form computes SHA-256 |
| Sha256Stream.Hash256Buffered | include/picosha2.h:309-328 | the input-iterator form computes the same through one reused buffer of any size |
| Sha256Example.DigestOfAbc | include/picosha2.h:298-307 | the digest of "abc", computed round by round, is the published one |
| Base64.Encode | include/crow_all.h:1982-2016 | the encoding of sections 4 and 5 of RFC 4648: each group of three bytes is a number of 24 bits, written with four characters of the literal alphabet, the last group padded |
| Base64.Decode | include/crow_all.h:2033-2106 | the bytes its size rules announce, taken group by group |
| Base64.DecodeEncode | include/crow_all.h:1982-2106 | decoding an encoding gives every non-empty byte string back, for both alphabets, with the padding kept or stripped |
| Base64.LetterIsListed | include/crow_all.h:1982-2044 | for all 64 values and both alphabets, the letter is the one the alphabet lists at that place, and its key is that place |
| Base64.UnlistedIsZero | include/crow_all.h:2033-2044 | a character of neither alphabet counts as the first letter |
| Base64.TakenIsNumber | include/crow_all.h:2063-2106 | of any text, canonical or not, each four characters are one number of 24 bits, and the bits the last characters have too many are cut off |

## Left out

- Sandbox, processes, MinIO, Redis and SQL clients, HTTP handlers, logging and metrics: input, output and foreign calls.
- `UpdateSubmissionState` and `TryMarkSubmissionProcessing`: no code calls them, and the first can undo `done`.
- Failures of a database call: each statement is one atomic step that happens or does not; BIGINT overflow of an attempt id.
- Workers' consumption of the stream, XACK, payload expiry and stream trimming: the consumer is not part of this model.
- Columns no property needs: code, language, limits, stream key, priority, payload.
- Backoff.DelayBounds: over real numbers, so the floating-point error of the jitter product is not modelled.
- GoStrings: `ToLower` of characters beyond Latin-1 whose lower case is no ASCII letter, which no compared word contains.
- TestcaseCache.TestCaseManager.RemoveEntry: does not model the removal of the files on disk; sizes are a function of the paths.
- TestcaseCache.TestCaseManager.TouchCache: takes clock readings that do not go back, as Go's monotonic readings do not.
- JsonValues: floating-point numbers are kept as text; conversion of a number outside the 64-bit range, which throws in the code, is not modelled.
- JsonParser: sorting and lookup of members by key, and copies and moves of nodes.
- HttpBody: the request line, headers and non-empty trailers (a trailer field is an absorbing state), upgrades, and callbacks that fail or pause.
- RouteTrie: blueprints; `strtod` is a parameter.
- Router.Trie.Parse: does not take a pattern with a `<` that starts no known name, on which the code loops, nor one that contains a NUL, which the code finds in the empty key of a parameter's node.
- Router.Trie.Add: takes the same patterns, so none with a NUL or an unknown `<`; nodes are values, so the walk down to the new leaf is a recursive rebuild; update in place, and merging in place, are not modelled.
- WebSocketConnection: the contents of the handshake, the error handler, handlers that call back into the connection before they return, `CROW_ENFORCE_WS_SPEC`, and what a callback still does with a connection it has just deleted.
- Sha256Stream.Hash256OneByOne.Finish: for fewer than 2^61 bytes, the limit of FIPS 180-4 on whole bytes.
- Base64.Decode: on at least two characters; the code reads in front of shorter input.
