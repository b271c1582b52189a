# Symphony verification model

A Dafny model of the parts of Symphony whose correctness rests on an argument rather than on
reading one function: the durable event stream from log to client, the calendar behind stored
timestamps, the mock agent's session protocol, the dashboard's event fold, and three smaller
cores. `dafny verify dfyconfig.toml` checks everything. Code that the source writes as in-place
updates is a class with methods here; every such method is proved equal to a transition function,
and the theorems are about runs of those functions.

## What is modelled

**The event stream** (`SseText`, `SseParsing`, `SseStandard`, `SsePrinting`, `DurableTail`,
`Cursorless`, `KeptQuery`, `EndToEnd`, `LastEventId`, `SubscriberCap`, `Reconnect`). The server keeps a cursor and a pending page over an
append-only log of events and produces one item per poll: an event, or a comment when the log is
idle or the query fails. The client normalises LF, CR and CRLF over arbitrary chunk boundaries,
cuts the text at blank lines and reads `event` and `data` fields. The two halves are joined by the
documented wire format (one `id:` line, one `event:` line, one `data:` line for every line of the
payload, a blank line). The main result is `LogReachesClient`: for every run of appends, good and
failed polls and keep-alives, every choice of line terminators, every chunking and every
interleaving of `push` and `next_frame`, the frames with data are exactly the log after the start
cursor up to the tail's cursor. Chains of connections, each cut anywhere in its text, are followed for a
client that names its last event, for one that, like `symphony watch`, never names any, and for one
that keeps its first query parameter. A client that reads its cursor off the `id:` lines of the text
is served from exactly the event it took last. The interpreter of section 9.2.6 of the WHATWG HTML
Living Standard is written out line by line; the parser's messages are those of the standard with
the line feeds at the start of their data stripped, so the two agree exactly when no block starts
its data with an empty value. The subscriber cap is run as separate atomic steps, and
the reconnect loop as a machine with one event per poll.

**Calendar and timestamps** (`CivilDate`, `Timestamps`). The reference is a calendar of year and
month lengths under the leap rule, with day numbers counted from 1970-01-01. Both conversions of
the source are transcribed, one with truncating division, one with Euclidean division and wrapping
32-bit years. Text follows section 5.6 of RFC 3339.

**The mock agent session** (`AgentEvents`, `MockSession`, `MockProgress`, `MockStream`). Calls to `continue_turn` and `abort`
take their steps one at a time (read or swap the flag, take the lock, each send into the bounded
channel, release), and the receiver may read or hang up between any two of them. A reader of event
streams that knows nothing of the mock's script says what a receiver gets.

**The dashboard** (`Dashboard`, `DashboardHistory`, `TandemHistory`, `CostTotals`,
`DigitGrouping`). The fold over watch events, with every panel stated as a function of the whole
event history: "some event did this and no later event undid it" is the predicate `Since`.

**Smaller cores.** The content hash (`ContentHash`, FNV-1a modulo 2^64), the ledger of claimed runs
and its expired-lease view (`ClaimLedger`), and the resolution of agent profiles into runners
(`AgentProfiles`).

## Where the code and its comments disagree

The model follows the code.

- `crates/symphony-cli/src/cancel.rs:302-304` promises the full `i64` range. The addition of
  719468 overflows for the last 719468 day counts and for no other (`OverflowBound`).
- `crates/symphony-cli/src/sse.rs:289-293` says the cap may be exceeded by one or two. Live guards
  never exceed it unless more than 2^64 callers run at once (`CapHoldsExactlyWhen`); the counter exceeds it by as many callers as are between their two
  steps (`CounterOvershoots`), and a caller can be turned away although no guard is live
  (`RejectedWithoutGuards`).
- `crates/symphony-cli/src/sse.rs:130-134` promises a gap-free stream to a reconnecting consumer.
  That holds from the first cursor on for a consumer that names its last event
  (`ChainIsGapFree`). `symphony watch` sends no cursor on any connection
  (`crates/symphony-cli/src/watch.rs:429-443`), so every reconnect starts at the head again, or at
  the beginning when the lookup of the head fails. Its stream is gap-free exactly when each later
  connection that delivers something looked up the head and the earlier ones had left nothing
  unread (`HeadChainGapFreeExactlyWhen`), and it can be sent a later event past one that never
  arrives (`WatchSkipsAnEvent`). It is in order, and without repetition, exactly when a connection
  that delivers after a failed lookup delivers before anything else has arrived
  (`HeadArrivalsAscendExactlyWhen`); after a failed lookup the same event can arrive twice
  (`FailedLookupRepeats`).
- `crates/symphony-cli/src/sse.rs:411-413` calls the query parameter the fallback for the header.
  The code asks the query parameter first: `SentExactlyAboveCursor` says which rows each request
  brings. A client that repeats its query parameter on every connection is sent everything again
  whatever its header says; its arrivals ascend exactly when at most one connection delivers
  (`KeptQueryExactlyWhen`).
- `crates/symphony-cli/src/watch.rs:176-180` says that a bare CR is not supported as a line end. `push`
  reads it as one.
- `crates/symphony-cli/src/watch.rs:162-167` says data is joined per the standard. Leading empty
  values are dropped, and nothing else is lost (`ParserStripsMessages`, `LeadingEmptyValueIsLost`).
- `crates/symphony-cli/src/watch.rs:26-37` announces every retry before it is made. In the code a dial
  directly follows an announcement exactly if a dial has failed since the last connection; the
  first dial after a lost connection is made at once (`DialAnnouncedExactlyWhen`).
- `crates/symphony-cli/src/watch.rs:274-276` says cancelling interrupts a read. The code ends the
  stream exactly while it waits out an announced delay (`CancelledExactlyWhileWaiting`).
- `crates/symphony-core/src/agent.rs:399-402` asks for an error when two `continue_turn` calls
  overlap. The mock makes the second wait for the lock (`OverlappingTurnWaits`).
- `crates/symphony-core/src/agent.rs:414-417` asks `abort` to cancel the turn in flight. The mock
  lets that turn complete and sends the cancellation under the id of a turn of its own
  (`EveryInterleavingIsSound`, `StuckMeansDelivered`).
- `crates/symphony-cli/src/scheduler.rs:321-323` promises a deterministic order. Expired claims that
  share a run id and differ come out in the order of the map's iteration (`OrderFreeExactlyWhen`).
- `crates/symphony-cli/src/tui.rs:330-331` limits words to ASCII letters and digits. The code asks
  `char::is_alphanumeric`, a parameter here.

## Model

| member | source | states |
|---|---|---|
| SseText.NormalizeSplits | crates/symphony-cli/src/watch.rs:202-228 | Normalising line ends is a homomorphism over any chunk boundary once the pending CR is carried along |
| SseText.AnyTerminators | crates/symphony-cli/src/watch.rs:203-207 | Lines ended by any mix of LF, CR and CRLF read as if each ended in LF, if and only if no CR-ended line is followed by an empty LF-ended one |
| SseText.FindBlankStable | crates/symphony-cli/src/watch.rs:233 | Text that arrives later never moves the first blank line |
| SseText.BlocksResume | crates/symphony-cli/src/watch.rs:232-236 | Cutting the text into blocks can stop anywhere and resume on the rest when more text has come |
| SseText.SplitOfJoin | crates/symphony-cli/src/watch.rs:241 | Splitting at line feeds undoes joining lines by line feeds |
| SseText.JoinOfSplit | crates/symphony-cli/src/watch.rs:241 | Joining the pieces of a split gives the text back |
| SseText.FieldExactlyWhen | crates/symphony-cli/src/watch.rs:247-252 | A line is the field of a name and a value if and only if it is written with a colon, with or without one space behind it, or is the bare name |
| SseParsing.TrimRemovesTerminators | crates/symphony-cli/src/watch.rs:236-238 | Trimming trailing line feeds from a drained block removes its two terminators and nothing else |
| SseParsing.SseParser.Push | crates/symphony-cli/src/watch.rs:202-228 | The character loop appends the normalised chunk and keeps whether it ended in a CR |
| SseParsing.SseParser.NextFrame | crates/symphony-cli/src/watch.rs:232-267 | Takes the first complete block off the buffer and returns its frame; without a blank line changes nothing |
| SseParsing.SseParser.ReadBlock | crates/symphony-cli/src/watch.rs:239-267 | The line loop yields the last `event` value and the `data` values joined by line feeds after leading empty ones are dropped |
| SseParsing.PolledThenPushed | crates/symphony-cli/src/watch.rs:202-267 | Taking a frame now or after more text was pushed gives the same frames and the same rest |
| SseParsing.ChunkIndependence | crates/symphony-cli/src/watch.rs:170-172 | For any chunking and any interleaving of `push` and `next_frame`, frames taken plus frames still complete, and the unfinished rest, equal those of one push of the whole text |
| SseParsing.FramesArePrefixStable | crates/symphony-cli/src/watch.rs:202-267 | Frames taken from part of a text are the first frames of the whole text, whatever follows |
| SseParsing.FirstFrameDecides | crates/symphony-cli/src/watch.rs:395-413 | The first frame decides: a `lagged` frame is reported whatever its data, a frame that decodes is returned, an empty or undecodable one is skipped |
| SseParsing.Connection.NextEvent | crates/symphony-cli/src/watch.rs:384-424 | Returns the first frame of interest among all frames still to come, leaves exactly the frames after it, and reports a closed stream only if none is of interest |
| SseStandard.StandardReadsBlocks | crates/symphony-cli/src/watch.rs:232-267 | What section 9.2.6 dispatches line by line depends only on the blank-line-terminated blocks |
| SseStandard.AgreeExactlyWhen | crates/symphony-cli/src/watch.rs:255-259 | Block by block, the kept frames are the standard's messages if and only if no block's first data value is empty |
| SseStandard.ParserMeetsStandard | crates/symphony-cli/src/watch.rs:202-267 | For every text in any chunks, the frames with data, an empty event type counting as none, are the messages of section 9.2.6 if and only if no block starts its data with an empty value |
| SseStandard.LeadingEmptyValueIsLost | crates/symphony-cli/src/watch.rs:255-259 | A concrete family where the parser drops the empty first line that the standard keeps |
| SseStandard.ParserStripsMessages | crates/symphony-cli/src/watch.rs:240-267 | For every text in any chunks, the frames with data are the messages of section 9.2.6 with the line feeds at the start of their data stripped, those left empty dropped: nothing else is lost or changed |
| SsePrinting.FrameReadsBack | crates/symphony-cli/src/sse.rs:20-28 | A printed frame reads back with the line feeds at the start of its data stripped, so as itself if and only if its data does not start with an empty line |
| SsePrinting.PrintedBlocksParse | crates/symphony-cli/src/watch.rs:202-267 | Printed blocks, with any terminators and any chunking, come back as their frames with nothing left over |
| SsePrinting.PrintParseRoundTrip | crates/symphony-cli/src/watch.rs:202-267 | Printing any frames and parsing the text returns the same frames if and only if no frame's data starts with an empty line |
| DurableTail.EventLog.Append | crates/symphony-state/src/events.rs:124-149 | Adds one row whose sequence is one above the highest so far, starting at one |
| DurableTail.EventLog.ListEventsAfter | crates/symphony-state/src/events.rs:160-183 | Exactly the rows above the cutoff, ascending, the first `limit` of them |
| DurableTail.DurableTailStream.Next | crates/symphony-cli/src/sse.rs:475-516 | One item per call: the pending page first, then one poll; a failed or empty poll changes nothing |
| DurableTail.PageIsNext | crates/symphony-cli/src/sse.rs:477-516 | In a gap-free state an item is an event exactly when a page is pending or a good poll finds something; that event is the next unread row, the rest of the page the rows after it up to the page size, and otherwise the comment says whether the poll failed |
| DurableTail.RunKeepsGapFree | crates/symphony-cli/src/sse.rs:458-519 | In every reachable state what was sent plus what is unread is the log after the start cursor, the pending page is the next stretch, and the cursor is the last event sent |
| DurableTail.CatchesUp | crates/symphony-cli/src/sse.rs:475-516 | With a positive page size every good poll delivers one unread event until none is left |
| DurableTail.EmptyPagesDeliverNothing | crates/symphony-cli/src/sse.rs:462 | With page size zero no run ever delivers an event |
| DurableTail.ChainIsGapFree | crates/symphony-cli/src/sse.rs:130-134 | Over any number of broken connections of a client that sends its last event in the header, what arrives is the log after the cursor of its first request, or without one after the start of the first delivering connection, however the lookups of the head end: no gap, repetition or reordering |
| Cursorless.SentExactlyAboveCursor | crates/symphony-cli/src/sse.rs:414-423 | A row already in the log can be sent, with a query parameter, exactly if it lies above it, whatever header and head; with only a header, exactly if it lies above that, whatever the head; with neither, exactly if it lies above the head, and always after a failed lookup or on an empty log |
| Cursorless.BacklogSkippedExactlyWhen | crates/symphony-cli/src/sse.rs:417-423 | A connection without a cursor is never sent a row written before it if and only if the lookup of the head succeeded or there is none |
| Cursorless.FailedLookupReplays | crates/symphony-cli/src/sse.rs:417-423 | After a failed lookup good polls replay the whole log |
| Cursorless.HeadArrivalsAscendExactlyWhen | crates/symphony-cli/src/sse.rs:414-423 | Over connections all opened without a cursor, arrivals ascend, and so never repeat, if and only if every one that delivers after a failed lookup of the head delivers before anything else has arrived |
| Cursorless.FailedLookupRepeats | crates/symphony-cli/src/sse.rs:414-423 | Over any log: an event arrives, the next lookup fails, and the whole log arrives with that event again |
| Cursorless.HeadChainGapFreeExactlyWhen | crates/symphony-cli/src/watch.rs:429-443 | From the start of the first delivering connection on they are gap-free if and only if each later one that delivers something looked up the head and the earlier ones left nothing unread in the log as it stood at that reopening |
| Cursorless.WatchSkipsAnEvent | crates/symphony-cli/src/watch.rs:429-443 | Over any log: three connections after which the first and third event have arrived and the second never does |
| KeptQuery.KeptQueryExactlyWhen | crates/symphony-cli/src/sse.rs:411-416 | For a client that sends its first query parameter on every connection and its last event in the header: arrivals ascend if and only if at most one connection delivers |
| EndToEnd.ItemsReadBack | crates/symphony-cli/src/sse.rs:482-485 | The printed items of a tail parse to the emitted events once frames without data are dropped |
| EndToEnd.EveryPayloadReachesClient | crates/symphony-cli/src/sse.rs:458-519 | From log to client for every payload without a CR, every run, terminators, chunking and interleaving: the frames with data are the log after the start cursor up to the tail's cursor, payloads without the line feeds they start with, those left empty dropped |
| EndToEnd.LogReachesClient | crates/symphony-cli/src/sse.rs:458-519 | From log to client, for every run, terminators, chunking and interleaving: the frames with data are the log after the start cursor up to the tail's cursor, each once, in order |
| EndToEnd.CutConnectionIsAPrefix | crates/symphony-cli/src/watch.rs:384-424 | Cut anywhere, even inside a line, what the client took is the beginning of what was sent, which is the beginning of that log |
| EndToEnd.ResumedLinksAreGapFree | crates/symphony-cli/src/sse.rs:458-519 | Over any number of connections, each cut anywhere in its text and resumed after the last event taken, the frames taken are the log from the start of the first delivering one on, without gap, repetition or reordering, however lookups of the head end |
| EndToEnd.WatchTakesLoggedEvents | crates/symphony-cli/src/watch.rs:384-443 | Over connections cut anywhere and reopened without a cursor, the frames taken are events of the log: in order and without gap if and only if the two conditions on lookups and unread events hold |
| EndToEnd.EventsReachClient | crates/symphony-cli/src/watch.rs:384-424 | Whether or not payloads decode and whatever their types, repeated `next_event` over any chunks returns what the events of the log after the start cursor call for, in order: the decoded event, nothing for one that does not decode, the lag for one of type `lagged`, where the connection ends |
| EndToEnd.DecodableAllExpected | crates/symphony-cli/src/watch.rs:404-413 | Of decodable events that are not lag notices every one is returned, at its place |
| LastEventId.BlockNamesEvent | crates/symphony-cli/src/sse.rs:482-505 | The last `id` of a printed event block, read as the server reads a header, is the event's sequence; a comment is one line without an id that still holds its text |
| LastEventId.OneLineEventBlock | crates/symphony-cli/src/sse.rs:20-28 | A one-line event is printed as its `id:`, `event:` and `data:` lines, in that order |
| LastEventId.IdNamesResume | crates/symphony-cli/src/sse.rs:442-447 | Cut anywhere, the cursor read off the last id of the blocks a client took is the sequence of the last event it took, or its old cursor if it took none |
| LastEventId.ResumedByIdIsGapFree | crates/symphony-cli/src/sse.rs:411-423 | A client that, on each connection, sends the last id it read takes the log from the start of the first delivering connection on, without gap, repetition or reordering |
| SubscriberCap.SseState.FetchAdd | crates/symphony-cli/src/sse.rs:294-295 | The add and the comparison with its old value as one atomic step: a guard exactly below the cap |
| SubscriberCap.SseState.FetchSub | crates/symphony-cli/src/sse.rs:296 | The compensating subtract of a rejected caller as its own step |
| SubscriberCap.SseState.DropGuard | crates/symphony-cli/src/sse.rs:314-318 | Dropping a guard gives its slot back |
| SubscriberCap.SseState.TryAcquire | crates/symphony-cli/src/sse.rs:288-302 | Run alone, a call is granted exactly when guards and callers in between, counted modulo 2^64, number less than the cap, and a rejected call leaves everything as it was |
| SubscriberCap.CapHolds | crates/symphony-cli/src/sse.rs:288-318 | In every interleaving the counter is, modulo 2^64, live guards plus callers between their two steps, and with at most 2^64 callers live guards never exceed the cap |
| SubscriberCap.CapHoldsExactlyWhen | crates/symphony-cli/src/sse.rs:288-318 | All interleavings of a population of callers keep live guards within the cap if and only if the cap is zero or the population is at most 2^64 |
| SubscriberCap.CounterOvershoots | crates/symphony-cli/src/sse.rs:289-293 | Any callers, in any order, adding before any subtracts drive the counter to their number while exactly the first `max_subscribers` hold guards |
| SubscriberCap.RejectedWithoutGuards | crates/symphony-cli/src/sse.rs:288-302 | A run in which a caller is rejected although no guard is live |
| Reconnect.WatchStream.Next | crates/symphony-cli/src/watch.rs:302-356 | One event per poll: read while connected, otherwise sleep (or be cancelled) and dial |
| Reconnect.EveryInputIsAnswered | crates/symphony-cli/src/watch.rs:302-356 | Over every run the trace answers the inputs one by one, one entry for each input other than a cancellation: an event read is that event, a lag that lag, a closed connection a disconnect with its reason, a dial a connect that carries the URL or a retry |
| Reconnect.ConsumerGetsEverythingRead | crates/symphony-cli/src/watch.rs:302-321 | The trace without connects and retries is exactly what was read, in order |
| Reconnect.TraceFollowsGrammar | crates/symphony-cli/src/watch.rs:280-356 | Every run is a prefix of a word of (Reconnecting* Connected Event* (Lagged or Disconnected))* |
| Reconnect.BackoffClosedForm | crates/symphony-cli/src/watch.rs:104-112 | The delay of the k-th failure in a row is min(max, initial times g^(k-1)) with g the larger of one and the factor, for every factor |
| Reconnect.DelaysGrowToCap | crates/symphony-cli/src/watch.rs:75-87 | Delays in one outage never shrink and never exceed the cap |
| Reconnect.RunCountsFailures | crates/symphony-cli/src/watch.rs:334-354 | In every run the state and every announcement agree with the failed dials since the last connection |
| Reconnect.EveryAnnouncementCounts | crates/symphony-cli/src/watch.rs:347-354 | From a fresh stream, each announcement carries that number (modulo 2^32) and the delay of the closed form |
| Reconnect.DialAnnouncedExactlyWhen | crates/symphony-cli/src/watch.rs:26-37 | In every run a dial directly follows an announcement exactly if a dial has failed since the last connection, and otherwise waits for nothing |
| Reconnect.CancelledExactlyWhileWaiting | crates/symphony-cli/src/watch.rs:327-337 | In every run the stream can be cancelled exactly while it waits out an announced positive delay |
| CivilDate.EraIsFloor | crates/symphony-cli/src/cancel.rs:308-309 | Truncating division with the sign fix-up is flooring division, and the day of the era lies in its range |
| CivilDate.YearOfEraIsGreatest | crates/symphony-cli/src/cancel.rs:310 | The year of an era is the greatest in 0..399 that has started by that day |
| CivilDate.CivilDateCounts | crates/symphony-cli/src/cancel.rs:305-318 | For every day count the result is a valid proleptic Gregorian date that the calendar of year and month lengths numbers with that day count |
| CivilDate.CivilDateUnique | crates/symphony-cli/src/cancel.rs:305-318 | It is the only such date, in both directions |
| CivilDate.NextDayIsNextDate | crates/symphony-cli/src/cancel.rs:305-318 | The next day count gives the next day of the calendar |
| CivilDate.CivilDatesAscend | crates/symphony-cli/src/cancel.rs:305-318 | Dates compare exactly as their day counts do |
| CivilDate.ConversionsRelate | crates/symphony-cli/src/recover.rs:326-337 | Both conversions give the same month and day, the second the one year that fits 32 bits and differs by a multiple of 2^32 |
| CivilDate.YearFitsExactlyWhen | crates/symphony-cli/src/recover.rs:326-336 | The year of a day fits 32 bits exactly from day -784353015833 to the day before 784351576777 |
| CivilDate.ConversionsAgree | crates/symphony-cli/src/recover.rs:318-337 | The two conversions agree exactly on those days |
| CivilDate.OverflowBound | crates/symphony-cli/src/cancel.rs:302-307 | No 64-bit intermediate overflows if and only if the day count is at most `i64::MAX` less 719468 |
| Timestamps.TimestampOrderUpTo9999 | crates/symphony-cli/src/cancel.rs:284-299 | Up to the end of year 9999 the text order of two timestamps is the order of their instants |
| Timestamps.OrderHoldsExactlyUpTo9999 | crates/symphony-cli/src/cancel.rs:284-299 | Text order is time order for all instants up to a bound if and only if the bound lies before year 10000 |
| Timestamps.CommandsAgreeExactlyWhen | crates/symphony-cli/src/recover.rs:306-316 | `cancel` and `recover` write the same text for the same instant if and only if its day comes before day 784351576777 |
| Timestamps.RecoverDiffersInYear | crates/symphony-cli/src/recover.rs:306-316 | For every instant the two texts differ at most in the year, which `recover` writes reduced to 32 bits |
| Timestamps.TimestampReadsBack | crates/symphony-cli/src/cancel.rs:289-299 | Parsing a written timestamp by the calendar alone recovers the second count if and only if its year has four digits |
| Timestamps.PaddedDigits | crates/symphony-cli/src/cancel.rs:289-299 | A number is padded with zeros to its width, never cut, and reads back |
| Timestamps.NegativePadded | crates/symphony-cli/src/recover.rs:306-316 | A negative year is its sign, zeros up to the width that counts the sign, and its digits |
| AgentEvents.ContractOfConcat | crates/symphony-core/src/agent.rs:281-283 | Two stretches without a common session id keep the no-event-after-terminal contract together |
| AgentEvents.ContractExactlyWhen | crates/symphony-core/src/agent.rs:313-318 | The contract forbids exactly an event on a session id that a completion or a failure has ended |
| MockSession.MockAgentControl.constructor | crates/symphony-agent/src/mock.rs:94-133 | `start_session` sends turn one completely and hands out the control |
| MockSession.MockAgentControl.ReadFlag | crates/symphony-agent/src/mock.rs:153-157 | The flag is read outside the lock; a set flag ends the call |
| MockSession.MockAgentControl.LockForTurn | crates/symphony-agent/src/mock.rs:158-161 | Under the lock, a missing sender ends the call, otherwise the turn takes the next number |
| MockSession.MockAgentControl.SendNext | crates/symphony-agent/src/mock.rs:203-242 | One event of the turn's script per step, then the lock is released |
| MockSession.MockAgentControl.SwapFlag | crates/symphony-agent/src/mock.rs:175-177 | Only the first abort goes on |
| MockSession.MockAgentControl.LockForCancel | crates/symphony-agent/src/mock.rs:178-186 | Under the lock the sender is taken and the cancellation gets the next turn number |
| MockSession.MockAgentControl.SendCancelled | crates/symphony-agent/src/mock.rs:187-196 | The cancellation is sent and the lock released |
| MockSession.EveryInterleavingIsSound | crates/symphony-agent/src/mock.rs:150-197 | In every interleaving the events sent are whole turns 1, 2, 3, ..., the lock holder's turn up to its next event, and at most one cancellation, last; the receiver has or will get all of them in order |
| MockSession.QuietSession | crates/symphony-agent/src/mock.rs:150-197 | Once all calls have returned the stream is whole turns, followed by the cancellation exactly if somebody aborted |
| MockSession.SessionsDiffer | crates/symphony-core/src/agent.rs:121-125 | Session ids of the mock tell thread and turn apart |
| MockSession.ContractHolds | crates/symphony-core/src/agent.rs:281-283 | At every moment of every interleaving no session id has an event after its terminal one, neither among events sent nor among those delivered |
| MockProgress.SomebodyCanMove | crates/symphony-agent/src/mock.rs:150-242 | In every reachable state with an unreturned call, some call can take a step or the receiver an event |
| MockProgress.SchedulesEnd | crates/symphony-agent/src/mock.rs:150-242 | Every schedule of steps and receipts is at most as long as the work left, so the calls made come to an end |
| MockProgress.StuckMeansDelivered | crates/symphony-core/src/agent.rs:414-417 | A schedule that cannot go on has let every call return and, if the receiver listens, delivered whole turns and, exactly if somebody aborted, the cancellation last |
| MockProgress.OverlappingTurnWaits | crates/symphony-core/src/agent.rs:399-402 | A run in which a second `continue_turn` waits for the lock instead of failing |
| MockStream.FinishedStreamReads | crates/symphony-agent/src/mock.rs:203-242 | What a schedule that cannot go on has delivered to a listening receiver reads as turns 1, 2, 3, ...: each under its id of thread and turn throughout, started with the issue, one message by the assistant with the configured text, the usage exactly if configured, completed with success; and a cancellation under the next turn's id at the end exactly if somebody aborted |
| MockStream.CallsAfterAbortDoNothing | crates/symphony-agent/src/mock.rs:152-177 | A call that has not passed the flag when an abort sets it, or comes later, never gets to the lock, a turn number or a send |
| MockStream.EveryContinueGivesATurn | crates/symphony-agent/src/mock.rs:152-171 | Without an abort, a finished schedule with n calls to `continue_turn` has delivered exactly the events of n + 1 turns |
| MockStream.FullChannelHoldsTheTurn | crates/symphony-agent/src/mock.rs:101-103 | At most eight events wait for a listening receiver, and a turn is held before its next event exactly while eight do |
| Dashboard.AppState.Apply | crates/symphony-cli/src/tui.rs:395-422 | One watch event takes the dashboard to the next state of the fold |
| Dashboard.AppState.PushRecent | crates/symphony-cli/src/tui.rs:428-438 | Appends a line, dropping the oldest at the cap |
| Dashboard.AppState.ApplyOrchestratorEvent | crates/symphony-cli/src/tui.rs:465-701 | Every branch updates exactly the panels of the fold step |
| Dashboard.AppState.ApplyTandemAgentEvent | crates/symphony-cli/src/tui.rs:825-858 | One agent event takes a tandem row to the next |
| Dashboard.WordsAreRuns | crates/symphony-cli/src/tui.rs:334-339 | The words of a message are exactly its maximal runs of word characters, in lower case |
| Dashboard.LowerAsciiAt | crates/symphony-cli/src/tui.rs:334-339 | Lowering changes the letters A to Z, each to its small letter, and nothing else |
| Dashboard.AgreementBounds | crates/symphony-cli/src/tui.rs:310-323 | The rate lies in [0,1], is one exactly for equal bags that are not empty, zero exactly for bags without a common word |
| Dashboard.RateIsJaccard | crates/symphony-cli/src/tui.rs:310-323 | The rate is the number of common words over the number of words in either bag, and zero if a bag is empty |
| DashboardHistory.PanelsAreSeparate | crates/symphony-cli/src/tui.rs:465-701 | Active issues, tokens, backends, identifiers and tandem rows are five folds, none of which depends on another |
| DashboardHistory.StatusExactlyWhen | crates/symphony-cli/src/tui.rs:395-411 | The connection status is the last one announced |
| DashboardHistory.ActiveExactlyWhen | crates/symphony-cli/src/tui.rs:467-577 | An issue is active exactly when its last state change, dispatch or release is not a release |
| DashboardHistory.ActiveStateExactlyWhen | crates/symphony-cli/src/tui.rs:467-520 | A row shows the state given by the last event that gave one |
| DashboardHistory.DispatchShownExactlyWhen | crates/symphony-cli/src/tui.rs:500-523 | A row shows backend and time of the last dispatch since the last release |
| DashboardHistory.UndispatchedExactlyWhen | crates/symphony-cli/src/tui.rs:476-483 | A row shows neither exactly when no dispatch happened since the last release |
| DashboardHistory.RowNameExactlyWhen | crates/symphony-cli/src/tui.rs:484-520 | A row carries the identifier of the last event that claimed its issue |
| DashboardHistory.RowAttempt | crates/symphony-cli/src/tui.rs:484-523 | A row's attempt is the last one given by a dispatch or a queued retry since the last release, one if none was |
| DashboardHistory.CacheHoldsLastName | crates/symphony-cli/src/tui.rs:362-371 | The cache holds the identifier last named for an issue and survives releases |
| DashboardHistory.RecentIsLastLines | crates/symphony-cli/src/tui.rs:428-438 | The log is always the last min(n, 200) of the n lines ever logged, each with its identifier |
| DashboardHistory.PanelsAreNested | crates/symphony-cli/src/tui.rs:465-580 | Tandem keys are active keys, active keys are cached keys |
| TandemHistory.TandemRowExactlyWhen | crates/symphony-cli/src/tui.rs:530-567 | A tandem row exists exactly when a tandem dispatch happened since the issue's last release |
| TandemHistory.RowGrows | crates/symphony-cli/src/tui.rs:825-858 | One fold step keeps a row in agreement with the events since its dispatch |
| TandemHistory.TandemRowSays | crates/symphony-cli/src/tui.rs:530-600 | Since its latest tandem dispatch: lead is the dispatch session, follower the first other session, counts are saturated numbers of each side's messages and tool uses, word bags are unions over each side's messages, the active side is that of the last event from either |
| TandemHistory.RateSays | crates/symphony-cli/src/tui.rs:310-323 | Along a history: the rate of a row is that fraction for the words of the two sides' messages since its dispatch |
| TandemHistory.ThirdSessionsChangeNothing | crates/symphony-cli/src/tui.rs:808-818 | A row equals the row of its two sides' events alone |
| CostTotals.StoredIsLastSnapshot | crates/symphony-cli/src/tui.rs:580-589 | The usage stored for a session is its last snapshot |
| CostTotals.BackendIsLastDispatched | crates/symphony-cli/src/tui.rs:524-529 | The backend recorded for a session is that of its last dispatch, through releases too |
| CostTotals.AggregateTokens | crates/symphony-cli/src/tui.rs:159-168 | In whatever order the map is iterated, every total is the smaller of 2^64-1 and the true sum |
| CostTotals.TotalsOfOneMore | crates/symphony-cli/src/tui.rs:159-168 | One more session raises each of the four totals by that session's own number, capped at 2^64 - 1 |
| CostTotals.TotalsNeverDrop | crates/symphony-cli/src/tui.rs:566-573 | With cumulative snapshots the totals never go down along a run, releases included |
| DigitGrouping.Thousands | crates/symphony-cli/src/tui.rs:1235-1250 | Counting the digits that remain groups by three from the right |
| DigitGrouping.ThousandsReadBack | crates/symphony-cli/src/tui.rs:1230-1250 | Deleting commas and reading the digits returns the number; the length is d + (d-1)/3; a comma stands at a place exactly when a multiple of four characters remains, never first, and a multiple of three digits follows it |
| ContentHash.StableContentHash | crates/symphony-config/src/loader.rs:408-415 | The byte loop computes the hash and prints it as sixteen hex digits |
| ContentHash.MixedOneToOne | crates/symphony-config/src/loader.rs:411-412 | One step maps the 64-bit states one to one, and the bytes one to one |
| ContentHash.TextDecides | crates/symphony-config/src/loader.rs:414 | Two contents share a hash string exactly when they share the hash |
| ContentHash.TextReadsBack | crates/symphony-config/src/loader.rs:414 | The text is sixteen characters 0-9a-f that read, most significant first, as the hash |
| ContentHash.PublishedHashes | crates/symphony-config/src/loader.rs:408-415 | The empty content and the letter a have the hashes published for FNV-1a with 64 bits |
| ContentHash.CommonEndingCancels | crates/symphony-config/src/loader.rs:408-415 | A common ending neither hides nor adds a difference |
| ContentHash.SingleByteChangeDetected | crates/symphony-config/src/loader.rs:408-415 | Contents that differ in exactly one byte never share a hash string |
| ClaimLedger.SortedSorts | crates/symphony-cli/src/scheduler.rs:321-323 | The sort orders by run id, keeps every element, and keeps the order within a run id |
| ClaimLedger.ActiveSetStore.Replace | crates/symphony-core/src/intake_tick.rs:86-88 | A publication replaces the active set |
| ClaimLedger.ClaimedRunRegistry.Record | crates/symphony-cli/src/scheduler.rs:247-252 | A claim replaces the claim of its issue |
| ClaimLedger.ClaimedRunRegistry.Forget | crates/symphony-cli/src/scheduler.rs:255-260 | Drops the claim of the issue and no other |
| ClaimLedger.ClaimedRunRegistry.Snapshot | crates/symphony-cli/src/scheduler.rs:275-282 | Every entry once, in some order; the ledger is unchanged |
| ClaimLedger.ActiveSetRecoverySource.ListExpiredLeases | crates/symphony-cli/src/scheduler.rs:301-325 | Ascending by run id, and each candidate once for every issue that claims it and is not active; the ledger is unchanged |
| ClaimLedger.OrderFreeExactlyWhen | crates/symphony-cli/src/scheduler.rs:321-323 | The view does not depend on the map's iteration order if and only if expired claims with equal run id read alike |
| ClaimLedger.LedgerHoldsLatest | crates/symphony-cli/src/scheduler.rs:243-260 | After any run the ledger holds exactly the latest claim of each issue not forgotten since |
| ClaimLedger.ViewShowsLatest | crates/symphony-cli/src/scheduler.rs:286-294 | After any run of records, forgets and publications each candidate is shown as often as there are issues whose latest claim it is and which the latest active set lacks |
| AgentProfiles.EndsExactlyWhen | crates/symphony-cli/src/run.rs:795-824 | The recursion fails to end if and only if resolution comes back to a profile before it comes to a missing one |
| AgentProfiles.DepthIsIrrelevant | crates/symphony-cli/src/run.rs:795-824 | The bound on open calls never changes a result once it is enough |
| AgentProfiles.BuildsExactlyWhen | crates/symphony-cli/src/run.rs:795-824 | Wherever the recursion ends it succeeds exactly if every profile reachable by references is configured |
| AgentProfiles.SucceedsExactlyWhen | crates/symphony-cli/src/run.rs:795-824 | There is a runner if and only if every reachable profile is configured and no cycle is reachable |
| AgentProfiles.ErrorNamesFirstMissing | crates/symphony-cli/src/run.rs:800-811 | Wherever the recursion ends in failure it names the first missing profile, leads before followers |
| AgentProfiles.TreeUnfoldsReferences | crates/symphony-cli/src/run.rs:804-823 | At every path of seats the tree has a runner exactly where the references have a profile, and it is the runner that profile asks for |
| AgentProfiles.MetadataOfLeadChain | crates/symphony-cli/src/run.rs:808-822 | The metadata is that of the backend profile at the end of the chain of leads |
| AgentProfiles.RankingExactlyWhen | crates/symphony-cli/src/run.rs:795-824 | The references reachable from a profile can be ranked if and only if they form no cycle |
| AgentProfiles.RankedEnds | crates/symphony-cli/src/run.rs:795-824 | With a ranking the recursion ends |
| AgentProfiles.CycleBehindMissingLead | crates/symphony-cli/src/run.rs:800-811 | A composite with a missing lead and itself as follower fails at once although its references form a cycle |
| AgentProfiles.ValidatedRolesBuild | crates/symphony-config/src/config.rs:3518-3576 | Under the loader's checks two open calls are enough and exactly the roles that name an agent resolve |
| AgentProfiles.RoleErrors | crates/symphony-cli/src/run.rs:780-793 | An unknown role and a role without a profile are told apart, each error naming the role; any other role resolves as its profile does |

## Left out

- HTTP, sockets, timers, SQLite and files: polls, dials, sleeps and query failures are inputs of each step.
- The axum printer's own code: the printer is written from the documented wire format and the `id:` line. A payload with a CR is not modelled.
- UTF-8: chunks are sequences of characters; lossy decoding of bytes split inside a character is outside the parser model.
- A leading byte-order mark, which section 9.2.5 strips and the parser does not.
- `retry` and reconnection time of the standard; the interpreter of section 9.2.6 covers event type and data, and the id is read off the blocks.
- JSON decoding and the number in a `lagged` frame are parameters of the connection loop.
- The in-process broadcast stream and its lagged frame on the server side.
- Sequence numbers, page limits and the mock's turn and thread counters are unbounded integers; the subscriber counter, the attempt number, the 32-bit year, the tandem counts and the token totals have their widths.
- EndToEnd.LogReachesClient: asks for payloads that are not empty and do not start with a line feed, as JSON does not; `EveryPayloadReachesClient` covers the others. One-line event types and payloads without a CR are asked for by both.
- Reconnect.BackoffClosedForm: delays are real numbers; rounding, and the panic of a duration too large for its type, are not captured.
- Dashboard.AgreementBounds: the rate is a real number, without floating-point rounding.
- CivilDate.ConversionsRelate: takes the wrapping arithmetic of release builds; a debug build would panic where the year leaves 32 bits.
- Reconnect.RunCountsFailures: the attempt number wraps at 2^32 as in release builds; a debug build would panic there.
- Instants before 1970, which both commands read as zero.
- Dropping a `continue_turn` or `abort` future in the middle of its sends.
- Process-wide thread numbering of the mock: the thread number is a parameter of the session.
- Log texts: a log line keeps the event it was made from instead of its formatted summary, and one instant stands for all clock reads of one event.
- Dollar totals, rendering, key handling, the event filter, tab cycling and string truncation.
- Events changing between the two locks that `list_expired_leases` takes one after the other.
- AgentProfiles.Build: the depth bounds the calls open at once; the stack size at which the source would overflow on an endless recursion is not modelled.
- Runner contents beyond role, profile and seat: command lines, tool lists, redaction, and the fallback of `build_agent_runner` on the configured kind.
- Scheduler ticks, dispatch, cancellation cascade, routing and follow-ups.
