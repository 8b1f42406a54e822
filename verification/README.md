# Verified model of the recommendation platform's core

The platform serves ranked recommendations and records what users do with them. This project
models four parts of it in Dafny and proves what they promise.

**Interaction events.** A publisher hands events to a broker; a refused event goes to an append-only
retry buffer, a JSON Lines file. One worker consumes the queue with a bounded number of write
attempts, requeues what it could not write, and from time to time replays and clears the buffer. It
writes to an append-only history whose in-memory key index makes writes idempotent and is rebuilt
from the file after a restart.

- `Delivery` is the protocol as a state machine over single steps: publish accepted, refused,
  refused but delivered anyway, get, one write attempt, line written, index updated,
  ack, nack at any position, drain read, next, clear or keep, crash, restart. A run is any sequence of
  enabled steps, so every interleaving of publisher, worker and crashes is covered.
- `DeliverySafety`, `DeliveryLoss` and `DeliveryLiveness` hold its three theorems: at most one history line
  for an event id; exactly which events are lost; and termination of every healthy schedule in a state
  where all held events are in the history once. `DeliveryContents` carries them from ids to whole events,
  and `DeliveryOrder` adds their order.
- `FeedbackHistory`, `EventQueue`, `BufferFile` and `HistoryStore` are the classes and loops themselves,
  each proved against a specification function. `DeliveryRefinement` shows that what those functions do
  is a run of the protocol, so that safety and loss hold of them, and `DeliveryRounds` that one replay and
  enough calls of `run_once` deliver everything, so liveness does too. `DeliveryFiles` starts both from the
  text of the buffer file; `HistoryFile` rebuilds the key index, and `HistoryQueries` answers the queries, from
  the text of the history file. The protocol compares the ids as they are handed back, so its theorems hold
  of the files for ids without a split surrogate pair (a lone high surrogate followed by a lone low one). The
  ids the code makes are uuids and hold none; no request carries an id, so one with a split pair can only be set
  by other code that constructs an `InteractionEvent`, and it comes back from a file as another id.
- `Texts`, `TextLines`, `Json`, `Timestamps`, `Decimal`, `PythonInts` and `EventCodec` are the text formats:
  JSON escaping with surrogate pairs, `isoformat` and its reading back, `int` of a string, and
  `to_json`/`from_json` character by character.

**Serving.** `LruCache` is the bounded cache with per-entry expiry, updated in place; `LruInclusion` and
`LruResidency` are two-run and whole-run theorems about it. `LruExactness` says of every history
what the cache answers. `CacheKeys`, `DecoratorChain` and `ServingChain` are the caching, timing and logging
decorators, chains built from configuration lists, and backends that are shared between chains, fail, or return
something that does not decode; `ChainReports` shows that their fields and log records tell the truth.

**Ranking.** `Selection` is an in-place quickselect; `TopK` shows that it refines sort-and-take;
`Popularity` is the cold-start strategy on top of it; `PopularityRanking` is the offline ranking it
serves; `Embeddings` and `CosineSearch` are the vector store. `Metrics` and `MetricTotals` are the
offline evaluation, for any positive, strictly decreasing rank discount.

**Data preparation.** `Cleaning` and `CleaningFixpoint` are the cleaning stage, `Holdout` is the temporal
split, `Sorting`, `Rows` and `Ratings` what they share.

Some properties the repository states are not true of its code on every input. The code is modelled as
it is, and the theorem is then the exact condition, in both directions:

- an event is lost exactly when every copy of it was appended to the buffer between a drain's read
  and the clear of that same drain (`NoEventLostExactly`);
- an event comes back from its own JSON exactly when no string in it holds a lone high surrogate followed
  by a lone low one (`EventRoundTripsExactly`);
- the buffer file hands back the events appended to it exactly when none holds such a pair
  (`AppendsRoundTripExactly`), and a restart rebuilds the index of the stored ids exactly when none of these
  does (`ReloadedIndexExactly`);
- `find_by_user` returns the most recent records, newest first, for all tables over given zones exactly when
  these zones have one offset, a stamp without a zone counting as +00:00 (`FindIsNewestFirstExactly`); for
  any two offsets there is a query that returns the older of two records (`DifferentOffsetsMislead`);
- a chain with at least one cache, over fresh working backends and with an outermost lifetime that is not over
  before the next request, is transparent exactly when the base answers by user and k alone
  (`TransparentExactly`); with a lifetime that is not negative, it is so under every clock exactly then
  (`TransparentAtAnyTimeExactly`); `src/ai/interfaces.py:60` says the feature store version is part of the cache key,
  but the key holds the model version instead, so features that differ only there share an entry;
- two strategy ids can share a cache key exactly when one extends the other by a colon and a number,
  as `IdsCollideExactly` spells out, so colon-free ids never do;
- the split ignores row order exactly when no two different rows share user, timestamp and item
  (`OrderIsIrrelevantExactly`), which cleaned tables satisfy;
- NDCG stays at most 1 under every discount exactly when the list has no more hits than there are
  relevant items (`NdcgAtMostOneExactly`): repeated items break it. It exceeds 1 under every discount exactly
  when hits also fill the first min(relevant, k) positions (`NdcgAboveOneExactly`); in between the discount
  decides;
- accuracy is negative exactly when recommended and relevant items disagree on more items than the catalog,
  of positive size, is said to have (`AccuracyCountsDisagreement`);
- an upsert is a map update exactly when the store is empty or has a positive width, or the vector is empty
  and rewrites its own item (`UpsertIsAMapUpdateExactly`).

Assumptions: there is one worker per history file; loggers do not raise; a file append writes one whole
line or nothing; clocks are inputs, and the residency theorem assumes one that never runs backwards; reading
the buffer file and clearing it are single steps of the protocol. The crash steps of the protocol are those of
the worker: the broker and the messages it holds survive them, as RabbitMQ's do. The queue in memory,
`InMemoryInteractionEventQueue`, lives in the worker's process and does not survive, so with it the loss theorem
covers runs without crashes.

## Model

| member | source | states |
|---|---|---|
| DeliverySafety.StepKeepsInv | src/persistence/nosql_interaction_history_repository.py:69-89 | Every single step keeps history ids distinct, and the index equal to the ids on disk except between a line's write and its indexing, crash and restart included |
| DeliverySafety.AtMostOnce | src/persistence/nosql_interaction_history_repository.py:82-89 | In every reachable state, whatever was redelivered, replayed or published ambiguously, no two history lines share an event id |
| DeliveryLoss.NoEventLostExactly | src/messaging/feedback_history_service.py:189-195 | After every run an event id is in broker, worker, buffer or history if and only if some publish of it survives: delivered, or buffered and not dropped between a drain's read and that drain's clear |
| DeliveryLoss.NothingLostWithAtomicDrains | src/messaging/feedback_history_service.py:189-195 | If no publish falls between a drain's read and its clear, every published event is still held |
| DeliveryLoss.ALateAppendIsLost | src/messaging/feedback_history_service.py:189-195 | A concrete run in which an event appended between read and clear is in none of the four places |
| DeliveryContents.EventsArePublished | src/messaging/interaction_event_queue.py:136-212 | In every run each event in queue, worker, buffer, snapshot or history is, field by field, the event of some publish |
| DeliveryContents.NoEventContentLostExactly | src/messaging/feedback_history_service.py:189-195 | When ids tell the published events apart, a whole event is held if and only if one of its own publishes survives |
| DeliveryOrder.FirstInFirstOut | src/messaging/interaction_event_queue.py:177-212 | While nothing is requeued, the events taken and those waiting are, in order, the events sent |
| DeliveryOrder.DeliveriesAreConserved | src/messaging/interaction_event_queue.py:177-212 | In every run, events taken and waiting are those sent and those that went back, each as often |
| DeliveryOrder.BufferIsInOrder | src/messaging/interaction_event_queue.py:136-159 | The buffer is the events appended since it was last cleared, in order |
| DeliveryLoss.LedgerHolds | src/messaging/interaction_event_queue.py:136-159 | On every run, lower and upper bounds tie the ledger of publications to the state: every id delivered, or buffered and not settled, is held, and every id held was delivered or buffered |
| DeliveryLiveness.NextHealthyStep | src/messaging/feedback_history_service.py:134-146 | Short of quiescence the worker always has an enabled step in which the repository does not fail |
| DeliveryLiveness.HealthySchedulesAreFinite | src/messaging/feedback_history_service.py:130-146 | From every reachable state, any schedule without publishes, failures or crashes is no longer than the measure over queue, buffer and work in hand |
| DeliveryLiveness.QuiescentDelivery | src/messaging/feedback_history_service.py:165-195 | When such a schedule cannot go on, queue and buffer are empty and every id still held is in the history exactly once |
| DeliveryLiveness.DeliveryCompletes | src/messaging/feedback_history_service.py:130-146 | From every reachable state such a schedule to quiescence exists |
| DeliveryLiveness.WithoutAttemptsNothingIsWritten | src/messaging/feedback_history_service.py:96-128 | With a retry budget of zero the history stays empty in every run, so the budget in the liveness theorem is needed |
| DeliveryRounds.AttemptsSucceedExactly | src/messaging/feedback_history_service.py:96-128 | The attempts of a call succeed if and only if there are any and the id is known or fewer appends raise in a row than there are attempts |
| DeliveryRounds.RoundsEmptyTheQueue | src/messaging/feedback_history_service.py:130-146 | While no append fails as often in a row as there are attempts, calls of `run_once` whose limits add up to the length of the queue empty it |
| DeliveryRounds.DrainThenRunOnce | src/messaging/feedback_history_service.py:130-195 | From every reachable state with an idle worker and such failures only: the replay handles the whole buffer, enough calls of `run_once` empty the queue, together they are a run of the protocol, and afterwards the history holds each event once that survived until then, whole, and nothing else |
| DeliveryRefinement.HandleCallIsARun | src/messaging/feedback_history_service.py:96-128 | The retry loop of one call is a run of single attempts that ends in the state the call leaves |
| DeliveryRefinement.RunOnceIsARun | src/messaging/feedback_history_service.py:130-132 | The consuming loop is a run of the protocol: get, handle, and ack or nack for each event |
| DeliveryRefinement.DrainIsARun | src/messaging/feedback_history_service.py:189-195 | The replay of the protocol's buffer is a run that clears it exactly when every event of it was handled |
| DeliveryFiles.DrainOfFileIsARun | src/messaging/feedback_history_service.py:189-195 | The drain that parses the file is a run of the protocol whose buffer is the appended events as the file hands them back; afterwards file and buffer still correspond, cleared exactly when every event was handled |
| DeliveryFiles.PlainDrainIsARun | src/messaging/feedback_history_service.py:189-195 | Without split pairs the file hands back the buffer itself, and the drain of the file is a run over the events as they were appended |
| DeliveryFiles.FileThenRunOnce | src/messaging/feedback_history_service.py:130-195 | The same from the text of the buffer file: what `read_all` parses is all handled, and history, queue and buffer end as above |
| DeliveryFiles.AppendIsHeld | src/messaging/interaction_event_queue.py:136-140 | Appending to the file adds to the buffer the event as it will be read, the first append to a missing file too |
| DeliveryFiles.IdsComeBackExactly | src/messaging/interaction_event_queue.py:136-154 | All ids come back unchanged from the file if and only if none holds a split pair |
| DeliveryRefinement.RunContinues | src/messaging/feedback_history_service.py:134-146 | Such a run from a reachable state extends the run that reached it, so the protocol's theorems apply |
| FeedbackHistory.FeedbackHistoryService.Handle | src/messaging/feedback_history_service.py:96-128 | The method leaves file, index and the three counters as the specification function does, for every pattern of write failures |
| FeedbackHistory.FeedbackHistoryService.RunOnce | src/messaging/feedback_history_service.py:130-132 | The method leaves queue, store and counters as consuming with `handle` does, within the given limit |
| FeedbackHistory.FeedbackHistoryService.DrainRetryBuffer | src/messaging/feedback_history_service.py:189-195 | The method handles the events read in order, and clears the file only if all were handled; a line of the wrong shape raises before anything is handled |
| FeedbackHistory.FeedbackHistoryService.MaybeDrainRetryBuffer | src/messaging/feedback_history_service.py:165-187 | Nothing happens before the interval has elapsed or without a buffer file; otherwise a drain runs and its exception is swallowed |
| FeedbackHistory.AttemptsAccount | src/messaging/feedback_history_service.py:96-128 | Within the retry budget a call adds at most one document, exactly when it reports a new write, and an accepted event's id is indexed |
| FeedbackHistory.CountersAccount | src/messaging/feedback_history_service.py:96-128 | Over any batch the counters grow by one per call, the documents by the processed count, earlier documents stay, and a fully handled batch is in the index |
| FeedbackHistory.RunOnceAccounts | src/messaging/feedback_history_service.py:130-132 | Over any queue, limit and failures: processed plus duplicates plus failures equals calls, documents added equal processed, and the refused event is at the tail |
| EventQueue.InMemoryInteractionEventQueue.Consume | src/messaging/interaction_event_queue.py:188-212 | The loop over the mutable queue ends with the queue, count, handler state and exception of the specification; it takes no more events than the limit, and leaves some only at the limit, on a refusal or on an exception |
| EventQueue.InMemoryInteractionEventQueue.Publish | src/messaging/interaction_event_queue.py:177-186 | An accepted event is at the tail; a refused one is one more line of the buffer file and an error |
| EventQueue.ConsumeAccounts | src/messaging/interaction_event_queue.py:188-212 | For every handler, queue and limit, the reported count names exactly the leading events it accepted and never exceeds the limit; short of the limit the loop goes on to the end of the queue; on a refusal or an exception the failed event moves to the tail |
| HistoryStore.LocalDocumentBackend.constructor | src/persistence/nosql_interaction_history_repository.py:69-80 | The loop that loads the keys indexes exactly the ids of the readable records |
| HistoryFile.LoadKeys | src/persistence/nosql_interaction_history_repository.py:69-80 | The loop over the text of the file collects the key of each line, skips blank lines, lines that are no JSON and objects without the key, and raises on JSON that is no object |
| HistoryFile.WhatHasAKey | src/persistence/nosql_interaction_history_repository.py:69-80 | A line has a key exactly when it is an object with one; blank lines and lines that are no JSON are skipped, and other JSON raises |
| HistoryFile.ReloadedIndexExactly | src/persistence/nosql_interaction_history_repository.py:69-89 | From the text of any stored documents and skipped lines, loading rebuilds exactly the set of stored ids if and only if none of these holds a split pair |
| HistoryFile.QueryFieldsReadBack | src/persistence/nosql_interaction_history_repository.py:91-108 | Whatever a document contains, user and timestamp, by which queries filter and sort, come back from its line under the names of the code as written |
| HistoryQueries.FindReadsTheText | src/persistence/nosql_interaction_history_repository.py:91-108 | Parsing the text of the file, filtering by user, sorting the timestamp strings and cutting gives the documents of the query on records, in its order, with lines that are no JSON between them |
| HistoryQueries.ListReadsTheText | src/persistence/nosql_interaction_history_repository.py:205-230 | The records made of these documents are those of the query, each as it is read back, and unchanged if and only if none of their strings holds a split pair |
| HistoryQueries.AbsentFields | src/persistence/nosql_interaction_history_repository.py:105-230 | An object without the fields belongs to user -1 in a query, and makes a record of user 0 with an empty id |
| HistoryQueries.WithoutUserIsUserZero | src/persistence/nosql_interaction_history_repository.py:214-230 | A document without a user makes the record it would make with user 0, its other fields included |
| HistoryStore.LocalDocumentBackend.Insert | src/persistence/nosql_interaction_history_repository.py:82-89 | An insert writes one document and its key, or nothing when the key is known or the write raises |
| HistoryStore.InsertKeepsConsistent | src/persistence/nosql_interaction_history_repository.py:82-89 | Every insert keeps the index equal to the ids on disk and those ids distinct, answers known exactly when a stored document has the id, and appends this one document exactly when it reports a write |
| HistoryStore.ReloadRepairs | src/persistence/nosql_interaction_history_repository.py:69-89 | After a crash between line and index, a reload makes the index equal to the file again and a redelivery of that event is known |
| HistoryStore.FindReturnsTheMostRecent | src/persistence/nosql_interaction_history_repository.py:105-108 | For timestamps of one offset, naive ones counting as +00:00, the answer is the limit most recent documents of that user, newest first: none left out is later than one returned |
| HistoryStore.OfUserKeepsCopies | src/persistence/nosql_interaction_history_repository.py:106 | The query filters exactly the records of the user, each as often as it is stored |
| HistoryStore.QueryReturnsTheOlder | src/persistence/nosql_interaction_history_repository.py:105-108 | Two records whose strings are in the opposite order to their instants make a query for one record return the older |
| HistoryStore.DifferentOffsetsMislead | src/persistence/nosql_interaction_history_repository.py:105-108 | For any two different offsets, naive counting as +00:00, two records at noon, a second apart on the clock, are such records |
| HistoryStore.FindIsNewestFirstExactly | src/persistence/nosql_interaction_history_repository.py:105-108 | For every set of zones: all queries over tables of these zones return the most recent records if and only if the zones have one offset |
| HistoryStore.SliceIsAPrefix | src/persistence/nosql_interaction_history_repository.py:108 | The limit cuts a prefix: of so many records, or for a negative limit all but the last so many |
| Timestamps.IsoOrderIsTimeOrder | src/persistence/nosql_interaction_history_repository.py:205-215 | For equal offsets the lexicographic order of the strings is the order of the instants, though the fraction is omitted when it is zero |
| Timestamps.StringOrderExactly | src/persistence/nosql_interaction_history_repository.py:105-108 | String order is strictly time order for all pairs of stamps of two zones if and only if the zones are equal, or they are +00:00 first and none second: a naive stamp is a prefix of the same instant at +00:00 |
| Timestamps.NeverReversedExactly | src/persistence/nosql_interaction_history_repository.py:105-108 | Strings never put the earlier of two stamps of two zones after the later if and only if the offsets are equal, naive counting as +00:00 |
| Timestamps.DaysBeforeYearInClosedForm | src/persistence/nosql_interaction_history_repository.py:205-215 | The calendar behind the instants: the days before a year are 365 for each earlier one and its leap days, by the Gregorian rule |
| Timestamps.LeapYears | src/persistence/nosql_interaction_history_repository.py:205-215 | Years divisible by 4 are leap years, but of the centuries only every fourth |
| Timestamps.NextDay | src/persistence/nosql_interaction_history_repository.py:205-215 | Consecutive days have consecutive numbers, across months and years |
| Timestamps.UnitsOfTime | src/persistence/nosql_interaction_history_repository.py:205-215 | Days, hours, minutes, seconds, microseconds and offsets move the instant by their own length |
| Timestamps.IsoRoundTrip | src/persistence/nosql_interaction_history_repository.py:205-230 | Every valid datetime, with or without fraction and zone, is read back from its own text |
| Texts.ScanOfEscape | src/messaging/interaction_event_queue.py:54-59 | Scanning an escaped string returns it with each lone surrogate pair merged, and stops at its closing quote (section 7 of RFC 8259) |
| Texts.EscapeRoundTripsExactly | src/messaging/interaction_event_queue.py:54-77 | A string is unchanged by escape and unescape if and only if it holds no lone high surrogate followed by a lone low one |
| Texts.EscapeIsPrintable | src/messaging/interaction_event_queue.py:54-59 | Escaped text is printable ASCII, so it has no line break |
| Json.LoadsOfDumps | src/messaging/interaction_event_queue.py:54-77 | Parsing what was dumped returns every document, with its strings as they are read back |
| EventCodec.FromJsonOfToJson | src/messaging/interaction_event_queue.py:54-77 | Decoding an encoded event succeeds for every event, whatever its strings contain |
| EventCodec.EventRoundTripsExactly | src/messaging/interaction_event_queue.py:54-77 | The decoded event is the event if and only if none of its strings holds a split surrogate pair |
| EventCodec.OnlyTheUserIsNeeded | src/messaging/interaction_event_queue.py:61-77 | An object with a user alone decodes, with the defaults for the rest; one without a user is refused |
| EventCodec.ScalarsAreRead | src/messaging/interaction_event_queue.py:69-77 | Truth values read as the words True and False or as 1 and 0, null as the word None and as no number |
| TextLines.AnyBreakEndsALine | src/messaging/interaction_event_queue.py:145-146 | A line feed, a carriage return, or both together end one line of the file |
| TextLines.LastLineNeedsNoBreak | src/messaging/interaction_event_queue.py:146-147 | A last line without a line end is a line |
| PythonInts.ParseOfPrint | src/messaging/interaction_event_queue.py:69 | A printed integer is read back by `int`, negative or not and whatever white space surrounds it |
| PythonInts.OneUnderscoreBetweenDigits | src/messaging/interaction_event_queue.py:69 | One underscore may stand between digits, and nowhere else |
| PythonInts.PlainDigits | src/messaging/interaction_event_queue.py:69 | Digits alone are their value, leading zeros included |
| PythonInts.SignedDigits | src/messaging/interaction_event_queue.py:69 | A sign may stand in front of digits |
| PythonInts.NoDigitsNoNumber | src/messaging/interaction_event_queue.py:69 | Nothing, and a sign alone, are no numbers |
| BufferFile.RetryBuffer.ReadAll | src/messaging/interaction_event_queue.py:142-154 | The loop over the file's lines returns the events of the specification, or raises where it does |
| BufferFile.WhatIsSkipped | src/messaging/interaction_event_queue.py:142-154 | Blank lines, lines that are no JSON and objects without a user are skipped; other JSON that is no object raises |
| BufferFile.ReadAllReturnsTheAppends | src/messaging/interaction_event_queue.py:136-154 | Whatever was appended and whatever lines that are no event stand between, the events come back in order |
| BufferFile.AppendsRoundTripExactly | src/messaging/interaction_event_queue.py:136-154 | Reading the file of any appended events returns them unchanged if and only if no string of theirs holds a split pair |
| BufferFile.AppendIsAnEntry | src/messaging/interaction_event_queue.py:136-140 | Appending adds one entry after the text already there, which is the file the round trip is about |
| LruCache.InMemoryCacheBackend.Get | src/ai/decorators/caching_decorator.py:60-69 | The method removes an expired entry, moves a hit to the recent end, and answers accordingly; a call that raises leaves the entries alone |
| LruCache.InMemoryCacheBackend.Set | src/ai/decorators/caching_decorator.py:71-75 | The method puts the entry at the recent end and its loop evicts from the old end down to the bound |
| LruCache.AfterIsBounded | src/ai/decorators/caching_decorator.py:71-75 | After any history of calls the keys are distinct and no more than the bound, for a bound of zero or less too |
| LruInclusion.LargerContainsSmaller | src/ai/decorators/caching_decorator.py:60-75 | Two caches driven by the same calls: the smaller is the larger restricted to the smaller's keys, with equal entries in equal order |
| LruInclusion.LargerNeverMissesMore | src/ai/decorators/caching_decorator.py:60-75 | Whatever the smaller cache answers with a hit, the larger answers with the same payload |
| LruResidency.HitsAreFresh | src/ai/decorators/caching_decorator.py:60-75 | Every hit returns the payload of the latest set of that key, before its expiry |
| LruResidency.TouchedKeyIsAHitUntilExpiry | src/ai/decorators/caching_decorator.py:60-75 | A key set or hit at some call, with fewer than the bound of other keys set or hit since, is answered at any later time with its latest payload exactly until that expires; the clock never runs backwards, and the key may have been called again |
| LruExactness.AnswerExactly | src/ai/decorators/caching_decorator.py:60-75 | For every history, key and time, any bound, lifetimes and clock: a hit if and only if the last call of the key set or hit it, at every moment since fewer keys than the bound stood more recent, and its latest set has not expired; the answer is what that set wrote |
| LruExactness.ResidentExactly | src/ai/decorators/caching_decorator.py:60-75 | A key not called again is in the cache if and only if there was such room ever since, and the keys more recent than it are exactly those whose last call set or hit them |
| LruExactness.StandingExactly | src/ai/decorators/caching_decorator.py:60-75 | A key counts as more recent exactly when its last call since was a set or a hit: one that missed since counts no more |
| LruExactness.RoomAtEveryMoment | src/ai/decorators/caching_decorator.py:60-75 | Room since a call means that after every later call fewer keys than the bound were more recent |
| LruExactness.NoRoomAtSomeMoment | src/ai/decorators/caching_decorator.py:60-75 | No room means that after some later call as many were |
| LruExactness.MissedKeyIsGone | src/ai/decorators/caching_decorator.py:64-66 | A get that misses, on an expired entry too, leaves its key out of the cache until it is set again |
| CacheKeys.KeysAreInjective | src/ai/decorators/caching_decorator.py:136-144 | Equal keys mean equal strategy, user, k and version, for colon-free strategy ids and any versions |
| CacheKeys.SeparateKeys | src/ai/decorators/caching_decorator.py:136-144 | Among strategy ids no two of which can share a key, equal keys mean equal strategy, user, k and version |
| CacheKeys.IdsCollideExactly | src/ai/decorators/caching_decorator.py:136-144 | Two different strategy ids can share a key for some requests if and only if one is the other with a colon and a number after it, and then nothing, a second number, or that and any more text |
| DecoratorChain.ContextIsRestored | src/ai/decorators/__init__.py:33-46 | Whatever the chain and the outcome, a call leaves no operational context open that it did not find, and an outer one open |
| DecoratorChain.PredictIsTransparent | src/ai/decorators/caching_decorator.py:146-184 | For bases that answer by user and k, with ids that cannot share a key, one call through any chain over shared and failing backends answers or raises as the base does and stores nothing that could mislead a later call |
| DecoratorChain.ChainsPreserveMeaning | src/ai/decorators/__init__.py:122-148 | For such bases, over every history of requests to any number of chains sharing any backends, each answer is the base's own |
| DecoratorChain.ColonFreeChainsPreserveMeaning | src/ai/decorators/caching_decorator.py:136-158 | For ids without a colon it is enough that the bases answer by user and k: each answer of every history is the base's own |
| DecoratorChain.TransparentExactly | src/ai/decorators/caching_decorator.py:136-158 | Any strategy with at least one cache among its wrappers, over fresh working backends, shared or not, and with an outermost lifetime that outlasts the next request, is transparent if and only if its base answers by user and k alone |
| DecoratorChain.TransparentAtAnyTimeExactly | src/ai/decorators/caching_decorator.py:136-158 | The same without a condition on the time between requests: for an outermost lifetime that is not negative, the strategy is transparent under every clock that never runs backwards if and only if its base answers by user and k alone |
| DecoratorChain.BuildChain | src/ai/decorators/__init__.py:122-148 | The loop wraps the base by the names in order, and an unknown name fails |
| DecoratorChain.ChainKeepsTheBase | src/ai/decorators/__init__.py:80-148 | A chain builds if and only if all its names are known, and then unwraps to the base, keeps its id and version, and caches if and only if caching is among the names |
| ChainReports.LayersAreTheList | src/ai/decorators/__init__.py:122-148 | Each name of the list is the layer of its kind at its place, and a cache has the backend and lifetime given for it |
| ChainReports.BaseIsInside | src/ai/decorators/__init__.py:122-148 | Under all layers of the list stands the base |
| ChainReports.ScopedExactly | src/ai/decorators/caching_decorator.py:118-134 | The precondition of the chain theorems: a world serves a chain if and only if it has the backend of each of its caches |
| ChainReports.FieldsAreTrue | src/ai/decorators/caching_decorator.py:146-184 | Through one cache, whatever stands around it: the noted `cache_hit` is true exactly when the backend answered with a ranking that had not expired, and `cache_error` is noted exactly when the read raised or did not decode, or the write after a miss failed |
| ChainReports.LatencyIsRecorded | src/ai/decorators/timing_decorator.py:43-52 | A timing decorator outside all caches records the latency of every call, failed ones included |
| ChainReports.NoLatencyWithoutTiming | src/ai/decorators/timing_decorator.py:43-52 | A chain without one records none |
| ChainReports.RecordsNameTheRequest | src/ai/decorators/logging_decorator.py:112-124 | Every log record has the request, and the identity of the base |
| ChainReports.OneRecordEach | src/ai/decorators/logging_decorator.py:98-124 | Each logging decorator outside the caches emits one record for every call, served or failed, and those inside at most one |
| ChainReports.LogIsTrue | src/ai/decorators/logging_decorator.py:98-124 | The record of an outermost logging decorator has the outcome of the call, its latency exactly when it was timed, and true fields about its cache |
| DecoratorChain.UnwrapLoop | src/ai/decorators/__init__.py:93-98 | The loop ends at the base of every chain |
| ServingChain.PredictOn | src/ai/decorators/caching_decorator.py:146-158 | Run on backends in the heap, shared or not, a chain of any depth answers, logs, and leaves backends and context as specified |
| Selection.Partition | src/ai/interfaces.py:144 | The in-place partition puts a pivot with no smaller score before it and no greater one after it, permutes, and touches nothing outside its range |
| Selection.Select | src/ai/interfaces.py:144 | After the quickselect the first m positions score at least as much as all others |
| TopK.BestPositions | src/ai/interfaces.py:144-145 | Quickselect and an insertion sort of the front return m distinct positions, descending, that no other position beats |
| TopK.TopK | src/ai/interfaces.py:127-146 | The answer has min(k, finite scores) entries at the best finite positions, and its scores are the sorted finite scores cut to that many |
| TopK.BestIsSortAndTake | src/ai/interfaces.py:129-134 | Among lists of distinct eligible positions, the best ones are exactly those whose scores are that prefix of the full sort |
| Popularity.MaskingSelectsTheUnseen | src/ai/strategies/popularity_strategy.py:98-108 | The best positions after masking are exactly the best unseen finite positions of the scores as they were |
| Popularity.PopularityStrategy.MaskSeen | src/ai/strategies/popularity_strategy.py:98-108 | Nothing seen: the array itself; otherwise a copy with exactly the seen items masked, and the original unchanged |
| Popularity.PopularityStrategy.Predict | src/ai/strategies/popularity_strategy.py:79-96 | No seen item is returned, no unseen finite one left out beats a returned one, and it fails exactly when the selected ranking is empty |
| PopularityRanking.SumsAddUp | src/data/pipeline/transform.py:194-198 | Counts, sums and total add up over a table cut in two |
| PopularityRanking.SumsOfOne | src/data/pipeline/transform.py:194-198 | For one row they are 1 and its rating, for its own item |
| PopularityRanking.ItemIdsAreTheRated | src/data/pipeline/transform.py:194-196 | The groups are exactly the rated items, each once, ascending |
| PopularityRanking.MedianIsInTheMiddle | src/data/pipeline/transform.py:199 | The median is half way between values at the two middle positions, which are told by counting the values below and not above them |
| PopularityRanking.OneMiddle | src/data/pipeline/transform.py:199 | There is one such number |
| PopularityRanking.ShrunkBetweenMeans | src/data/pipeline/transform.py:200 | A score lies between item mean and global mean, strictly when they differ |
| PopularityRanking.MoreEvidenceScoresHigher | src/data/pipeline/transform.py:187-200 | Of two items with one mean above the global mean, the one with more ratings scores higher |
| PopularityRanking.ShrinkingConservesRatings | src/data/pipeline/transform.py:194-200 | Scores weighted by count plus prior add up to all ratings plus the prior mass times the number of rated items |
| PopularityRanking.BuildPopularityRanking | src/data/pipeline/transform.py:187-211 | One row per rated item, descending, ranked from 1, with the catalog's categories; count and mean are those of the item's ratings, and count plus m times the score is their sum plus m times the mean of all ratings, m being the median count or 1 |
| PopularityRanking.CategoryFollowsTheRanking | src/data/pipeline/transform.py:214-227 | A category's ranking is the global ranking restricted to it, in the same order, ties included |
| PopularityRanking.CategoryIsTheRankingRestricted | src/data/pipeline/transform.py:214-227 | The rows of a category are those of the ranking that list it, each once, in the order of the ranking |
| PopularityRanking.EveryCategoryIsExploded | src/data/pipeline/transform.py:221-222 | Each category of each row has its row, also when a row lists it twice |
| PopularityRanking.CategoryRanksCount | src/data/pipeline/transform.py:214-227 | Every output row is a row of the global ranking, and the one with category rank n is the n-th of its category there |
| Metrics.DuplicateFreeNdcg | src/ai/evaluation.py:63-72 | For lists without repeats NDCG is in [0, 1], and 1 exactly when hits fill the first min(relevant, k) positions |
| Metrics.NdcgIsNormalised | src/ai/evaluation.py:63-72 | The same for any list with no more hits than relevant items, and 0 exactly without hits |
| Metrics.DcgAtMostIdeal | src/ai/evaluation.py:66-71 | The gain of any list is at most the ideal of its own hits, with equality exactly when they come first |
| Metrics.PromotionRaisesNdcg | src/ai/evaluation.py:63-72 | Swapping a hit with an earlier miss inside the top k strictly raises NDCG, also when the hit was below the cut |
| Metrics.NdcgAtMostOneExactly | src/ai/evaluation.py:63-72 | NDCG is at most 1 for every discount if and only if the hits do not exceed the relevant items |
| Metrics.NdcgAboveOneExactly | src/ai/evaluation.py:63-72 | NDCG exceeds 1 for every discount if and only if hits fill the first min(relevant, k) positions and exceed the relevant items |
| Metrics.NothingToScore | src/ai/evaluation.py:43-72 | Without a cut or without relevant items the metrics are 0 |
| Metrics.TopIsAPrefix | src/ai/evaluation.py:43-72 | The scored entries are the first k, or for a negative k all but the last -k |
| Metrics.RepeatedHitExceedsOne | src/ai/evaluation.py:63-72 | One relevant item listed twice scores above 1 for every discount |
| Metrics.F1CountsHits | src/ai/evaluation.py:43-60 | F1 is twice the hits over k plus the relevant items; precision is in [0, 1]; recall exceeds 1 exactly when hits exceed the relevant |
| Metrics.AccuracyCountsAgreement | src/ai/evaluation.py:89-105 | Over a catalog with all recommended and relevant items, the cell arithmetic counts the items on which the two agree |
| Metrics.AccuracyCountsDisagreement | src/ai/evaluation.py:89-105 | For any recommended and relevant items and any catalog size, the cells count the size less the disagreements: accuracy is at most 1, 0 for no catalog, is 1 exactly when the sets are equal and the size is positive, and is negative exactly when the disagreements exceed a positive size |
| MetricTotals.MetricAccumulator.Add | src/ai/evaluation.py:108-125 | The accumulator holds the tally of all cases added so far |
| MetricTotals.MetricsAreOfTheHits | src/ai/evaluation.py:43-61 | Precision is the share of k, and recall of the relevant items, that the positions with a hit make; the hit rate is 1 exactly when there is one |
| MetricTotals.TotalsAreSums | src/ai/evaluation.py:108-138 | Each total is the sum of its own metric over the users |
| MetricTotals.MeanNdcg | src/ai/evaluation.py:127-138 | Mean NDCG over duplicate-free lists is in [0, 1], and 1 exactly when every list is perfect |
| MetricTotals.CoveredItems | src/ai/evaluation.py:119-125 | The covered items are exactly those in some list's top k |
| Holdout.HoldoutPartitions | src/data/pipeline/split.py:62-77 | Train plus test is the input as a multiset |
| Holdout.HoldoutCounts | src/data/pipeline/split.py:71-73 | An eligible user loses the whole part of size times fraction, or one row when that is below one, and keeps at least one; others lose none |
| Ratings.CountExactly | src/data/pipeline/split.py:69-70 | The size of a user is the number of rows of that user |
| Holdout.HoldoutDoesNotLeak | src/data/pipeline/split.py:67-77 | No kept row of a user is later, by timestamp and then item, than a test row of that user |
| Holdout.HoldoutIsSorted | src/data/pipeline/split.py:67-77 | Both tables come out in the three-key order |
| Holdout.OrderIsIrrelevantExactly | src/data/pipeline/split.py:59-67 | No reordering of the input changes the split if and only if no two different rows share user, timestamp and item |
| Sorting.SortIsStable | src/data/pipeline/split.py:67 | Elements that tie keep their input order |
| Cleaning.CleanItems | src/data/pipeline/clean.py:37-57 | The rules, applied by rebinding the table, leave the specified items and count what each removed |
| Cleaning.CleanRatings | src/data/pipeline/clean.py:60-97 | The five rules in order leave a table that the specification allows, for any order of equal timestamps, and count what each removed |
| Cleaning.CleanAll | src/data/pipeline/clean.py:113-132 | Items, then ratings of those items, then items left unrated: both tables and both reports |
| CleaningFixpoint.CleanedRatings | src/data/pipeline/clean.py:60-97 | Output pairs are unique, in range, of known items, of users at or above the threshold, and each the latest rating of its pair |
| CleaningFixpoint.KeptRowSurvivesExactly | src/data/pipeline/clean.py:78-94 | A latest row is removed exactly for its range, its item or its user's count |
| CleaningFixpoint.CleanedItemsExactly | src/data/pipeline/clean.py:37-57 | An item is in the output if and only if the first row of its identifier has title and genre; later rows never replace it |
| CleaningFixpoint.FirstRowsWithTitleAndGenre | src/data/pipeline/clean.py:37-57 | An item is in the output if and only if the first row of its identifier has a title and genres that are not blank, nor the placeholder for no genre; its fields are those of the row |
| CleaningFixpoint.RatingsAreAccounted | src/data/pipeline/clean.py:66-97 | Rows in equal rows out plus the five removal counters |
| CleaningFixpoint.ItemsAreAccounted | src/data/pipeline/clean.py:39-57 | Items in equal items out plus the removal counters, unrated items included |
| CleaningFixpoint.ItemsAndRatingsCoincide | src/data/pipeline/clean.py:123-132 | The identifiers of the items are exactly those of the ratings |
| CleaningFixpoint.CleaningIsOnePass | src/data/pipeline/clean.py:113-132 | Cleaning the cleaned tables again removes nothing, keeps the items and at most reorders ratings of one timestamp |
| CleaningFixpoint.CleanedSplitIgnoresOrder | src/data/pipeline/split.py:59-67 | The split of a cleaned table is the same for every order of its rows |
| CleaningFixpoint.CategoriesRebuildGenres | src/data/pipeline/clean.py:54 | The categories are the bar-free pieces of the genre text and rebuild it |
| Embeddings.VectorEmbeddingRepository.UpsertEmbedding | src/persistence/vector_embedding_repository.py:80-97 | The method rewrites a row, appends one or replaces an empty store, rebuilds the derived arrays, and on an error changes nothing |
| Embeddings.VectorEmbeddingRepository.Reindex | src/persistence/vector_embedding_repository.py:72-74 | The loop leaves the position index and the normalised rows that belong to the stored arrays |
| Embeddings.VectorEmbeddingRepository.ReplaceAll | src/persistence/vector_embedding_repository.py:65-70 | The store is replaced by the given arrays and rows, whatever its width was, with index and normalised rows rebuilt |
| Embeddings.LastRowWins | src/persistence/vector_embedding_repository.py:65-78 | Of rows that repeat an id the last one is the vector of the item |
| Embeddings.VectorEmbeddingRepository.GetEmbedding | src/persistence/vector_embedding_repository.py:76-78 | The lookup through the position index is the lookup in the store read as a map |
| Embeddings.VectorEmbeddingRepository.SimilaritySearch | src/persistence/vector_embedding_repository.py:99-116 | The answer is the best min(k, count) rows by cosine, in order; empty store, non-positive k and wrong width are handled as in the code |
| Embeddings.UpsertIsAMapUpdateExactly | src/persistence/vector_embedding_repository.py:80-97 | An accepted upsert is a map update if and only if the store is empty or has width, or an empty vector rewrites its own item |
| Embeddings.UpsertFailsExactly | src/persistence/vector_embedding_repository.py:80-97 | An upsert is refused exactly for a vector of another width when there are entries, or for rewriting an empty row by more than one number |
| Embeddings.RunIsAMap | src/persistence/vector_embedding_repository.py:72-97 | After any upserts of non-empty vectors from empty, ids are distinct, the position index inverts them, and the store is the map of the last vectors of the first one's width |
| CosineSearch.SearchRanksTheMap | src/persistence/vector_embedding_repository.py:99-116 | The answer ranks the whole map: no item twice, each with the cosine of its own vector, descending, none left out is greater |
| CosineSearch.OwnVectorScoresFirst | src/persistence/vector_embedding_repository.py:99-116 | Searching with a stored non-zero vector puts the score 1 first, under any length that squares to the dot product |
| CosineSearch.MagnitudeIsIgnored | src/persistence/vector_embedding_repository.py:107-112 | A positive multiple of the query gives the same scores |
| CosineSearch.EveryCoordinateCounts | src/persistence/vector_embedding_repository.py:112 | Changing one coordinate changes the dot product by its own product, so with the zero vector the value is fixed |
| CosineSearch.CosineIsTheQuotient | src/persistence/vector_embedding_repository.py:107-112 | The score of two vectors that are not zero is their dot product over the product of their lengths |
| CosineSearch.AxisFindsItself | src/persistence/vector_embedding_repository.py:99-116 | Over rows that are the axes, searching for one axis puts its item first with score 1, and every other row scores 0 |

## Left out

- Broker internals: RabbitMQ, MongoDB, Redis and SQL appear as the abstract steps accept, refuse, acknowledge, requeue and fail; message bodies that do not decode are not modelled.
- `run_forever`, `start` and `stop`: the thread and its waiting; a replay and calls of `run_once` with any limit are `DeliveryRounds`.
- Several worker processes on one history file, torn partial lines, and an append that raises after writing.
- BufferFile.RetryBuffer.ReadAll: a JSON line that is no object, or has fields of another shape, raises and is reported as `WrongShape`; which Python exception it is is not told apart. Item ids and model versions of other types, recommended items that are iterable but no array, and metadata that `dict` accepts though it is no object, are read as the wrong shape too, where the code takes them.
- EventCodec.FromJsonOfToJson: numbers are integers, since events hold no others, and a line with a fraction or exponent is read as no JSON; `str()` of a nested list or object is its JSON text here.
- PythonInts.ParseOfPrint: the digits of `int` are the ASCII ones, so a string with digits or white space beyond the first 256 code points is no integer here.
- HistoryStore.LocalDocumentBackend.constructor: the class holds records, not text; the text of its file, and what loading and queries make of it, are `HistoryFile` and `HistoryQueries`, whose theorems are about files of stored documents and lines that are no JSON.
- HistoryQueries.ListReadsTheText: a timestamp that cannot be read becomes one and the same current time in all records of an answer.
- Timestamps.IsoRoundTrip: reading back covers the texts `isoformat` writes, to whole minutes of offset, not the other forms `fromisoformat` accepts.
- Whitespace is trimmed as `strip` does for the first 256 code points only.
- Latency samples and percentiles, the wording and levels of log records, and the backend name among the fields: a field is present with a truth value, a latency or an error only present.
- The JSON text of a cached ranking: a backend holds the ranking or something that does not decode.
- Floating point: scores, ratings and vectors are reals, square roots and logarithms are functions given as parameters, and the rounding of `summary` is left out.
- Selection.Select: the library's `argpartition` and `argsort` are replaced by a quickselect and an insertion sort with the same contract; equal scores may come out in another order than the library's.
- Embeddings.VectorEmbeddingRepository.ReplaceAll: arrays are values here, so a caller's array that the store would share and later write through is not modelled; row counts must match, as every caller's do.
- `mean_popularity_percentile`, which would only add easy members.
- PopularityRanking.BuildPopularityRanking: the catalog maps an item to its categories, so items listed twice, which cleaning removes, are not joined twice; titles are dropped.
- Tags, interaction matrices, factorisations, text embeddings, neural training and inference: library numerics.
- Routes, request handlers, settings, the controller's fallback choices, the error journal, benchmarks and the load tester.
