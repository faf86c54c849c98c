# OxidRelay, modelled in Dafny

OxidRelay takes mail over SMTP, stores it durably in a SQLite queue and acknowledges it; a
dispatcher then delivers the queued mail in parallel, with retries. This project models that
store-and-forward core and proves what it promises. `dafny verify dfyconfig.toml` checks all of it.

The queue's status write is an unconditional `UPDATE ... WHERE id = ?`. Nothing in storage enforces
a lifecycle, so every safety property below is an invariant of whole concurrent runs, with crashes,
restarts, failed queue statements and lost delivery tasks included.

## How it is laid out

| file | what it holds |
|---|---|
| `Mails.dfy`, `Retry.dfy` | mail values and their validation; backoff in saturating 64-bit arithmetic, retry schedules |
| `QueueTable.dfy`, `Statements.dfy` | the queue as its users see it: a table of mails, the effect of each statement, and statements of several writers |
| `Texts.dfy`, `Rfc3339.dfy` | order of texts; calendar, timestamps written and read as RFC 3339 text |
| `SqliteQueue.dfy` | class `SqliteQueue`: textual rows changed in place, refining `QueueTable` |
| `Protocol.dfy` | the transition system: dispatcher, delivery tasks, ingress, clock, crashes |
| `Safety.dfy`, `Guarantees.dfy` | the inductive invariant, and what it gives for every reachable state |
| `TickRefinement.dfy` | a parallel tick equals a sequential one |
| `Outcomes.dfy` | what each answer of a transport leaves, and the answer behind every row |
| `Timing.dfy` | how long a mail waits at most; the configured relay |
| `Rounds.dfy`, `Liveness.dfy`, `Finishing.dfy`, `Progress.dfy` | what a fault-free tick does; no starvation, bounded work; every mail finishes; no stuck tick, and continuations exist |
| `StoredRuns.dfy` | whole runs executed on the SQLite queue |
| `Dispatcher.dfy` | class `Dispatcher`: recovery, tick and run loop as a program, each execution a run of the protocol |
| `Routing.dfy`, `Sessions.dfy`, `Fanout.dfy`, `Ingress.dfy`, `RelayHandler.dfy` | routing, the SMTP session as a function of its history, one message to many rows, class `RelayHandler` |
| `Messages.dfy` | what the end of a message means in terms of session, parsed message and routing alone |
| `Subject.dfy`, `SubjectPieces.dfy`, `PluginSettings.dfy` | two-pass subject templates and the exact conditions on a format; plugin settings with secrets from the environment |

## How to read the protocol

An `Event` names a step and resolves every choice in it: which delivery task moves, what the
transport answered, whether a queue statement failed or its reply was lost. `Next` is then a
function, `IsRun` and `After` describe runs, and `Reachable` states are those after any run from an
empty queue. Delivery tasks are keyed by handle, not by mail, so that "one flight per mail" is a
theorem and not built in. `ledger` and `fates` record history; no step looks at them. `Crash` may
happen between any two steps. A failed status write, a panic and an aborted delivery are all
`TaskLost`. A stretch of events is free in its order: every interleaving of claims, permits, sends,
outcomes, insertions and the clock is covered.

`Round` is one fault-free tick with arbitrary insertions and interleavings inside. The liveness
results start from any state that satisfies the invariant, rows left in flight by earlier crashes
included, and assume fault-freeness only for the rounds they speak of. They ask nothing of when
the rounds come: a tick may find nothing ready any number of times. Time enters as periods longer
than every delay and the lease (`Finishing.EveryMailFinishesInTime`).

## What is assumed

- Wall-clock time never runs backwards. Instants are nanoseconds in the years 0 to 9999.
- chrono's `to_rfc3339` writes 0, 3, 6 or 9 fractional digits and the offset `+00:00`.
- One dispatcher works on a queue (the instance lock at `crates/oxid-relay/src/main.rs:206-231`), and
  its configuration is fixed for a run, with the limits `Config::validate` insists on.
- A SQL statement takes effect as a whole or not at all; a taken id violates the primary key. A
  statement may take effect although an error is reported.
- JSON of addresses and text of ids read back what was written.
- Arithmetic on `u32` wraps, as in a release build; `Guarantees.AttemptsAccounted` shows that the
  attempt counter never gets there.
- The semaphore is never closed, so waiting for a permit never fails.

## Where the code and its documentation part

- `RetryPolicy::backoff` is documented as `base * 2^(attempts - 1)`, capped. The code also caps the
  exponent at 31. `Retry.BackoffAsDocumentedIff` gives the exact condition under which the two
  agree, `Retry.BackoffDocumentationGap` a policy where they do not.
- `Config::validate` means to make every subject format keep the original subject, by looking for
  `%original%`. That is necessary (`Subject.ValidationNecessary`) but not enough:
  `%name%original%` and `%original%name%` pass and lose every subject
  (`Subject.ValidatedIsNotEnough`, `Subject.OverlapMisread`). `Subject.OriginalSurvivesIff` gives the
  exact condition on the format.

- A refused message is meant to leave nothing behind. If the reply to a committed `INSERT` is lost,
  the handler answers with an internal error and the row stays: `Ingress.LostReplyKeepsRow`.
  `Ingress.ReplyAgreesWithQueue` shows that this is the only way.

## Model

| member | source | states |
|---|---|---|
| Guarantees.RunKeepsInv | crates/dispatcher/src/lib.rs:92-168 | every run, whatever fails or crashes in it, keeps the protocol invariant: row rules, fetched mails unchanged until claimed, flights and permits, books |
| Safety.StepKeepsInv | crates/dispatcher/src/lib.rs:82-216 | each single step of dispatcher, delivery, ingress, clock or process control keeps that invariant |
| Outcomes.RecordExact | crates/dispatcher/src/lib.rs:178-215 | recording an answer, field by field: an undeliverable mail dies with that message; success leaves it sent; an error is stored and counted, and leaves it dead if and only if the attempts reach the limit, otherwise failed and due at the answer plus the backoff of its attempts; no other row is touched |
| Outcomes.AnswersBehindRows | crates/dispatcher/src/lib.rs:194-214 | over every run from the empty queue: a row is sent only if its transport answered so; a failed row carries the error its transport gave and its due time counts from that answer; a dead row of a deliverable mail carries such an error and has used exactly all attempts; an undeliverable one says so |
| Outcomes.RefusedIff | crates/dispatcher/src/lib.rs:172-192 | a mail goes to its own transport, or to the default if it names none; it is refused exactly when that one is not known |
| Guarantees.StepFollowsLifecycle | crates/queue-sqlite/src/lib.rs:133-166 | although the status write checks no old status, in every step every row stays, keeps payload and creation time, and moves only along Pending or Failed to Sending, Sending to Sent, Failed, Dead or Pending |
| Guarantees.HistoryIsPath | crates/dispatcher/src/lib.rs:92-216 | over every run from the empty queue, each row is born by an insertion with its payload and time, pending, with no attempt and no error, and its history from then on is a path of that lifecycle |
| Guarantees.RowsEndure | crates/queue-sqlite/src/lib.rs:133-166 | over every run no row disappears, no payload changes, attempts never fall, and a sent or dead row never changes again |
| Guarantees.SingleFlight | crates/dispatcher/src/lib.rs:124-146 | in every reachable state at most one live delivery per mail; its row is in flight with the attempts and payload of the copy being delivered |
| Guarantees.ReclaimSparesFlights | crates/dispatcher/src/lib.rs:95-103 | whatever the lease, a row goes from in flight back to pending only while no delivery lives and nothing is claimed |
| Guarantees.RetryScheduleRespected | crates/dispatcher/src/lib.rs:200-213 | in every reachable state a mail is due no earlier than its creation plus all backoff delays of its recorded failures; a dead mail sat out all but the last |
| Guarantees.NoEarlyAttempt | crates/dispatcher/src/lib.rs:172-216 | no delivery is under way before the whole schedule of its earlier failures has passed |
| Guarantees.ReclaimedIsDue | crates/dispatcher/src/lib.rs:95-116 | an orphan reclaimed as stale is due in the very tick that reclaims it |
| Guarantees.ReclaimExact | crates/dispatcher/src/lib.rs:95-103 | a tick puts back exactly the rows in flight since before the lease, counted from its own start, and changes nothing else of them |
| Guarantees.RecoverFreesAll | crates/dispatcher/src/lib.rs:82-88 | a successful recovery from a reachable state leaves no row in flight, changes no other row, and every row it frees is due at once |
| Guarantees.ErrorExactlyOnFailure | crates/queue-sqlite/src/lib.rs:128-150 | in every reachable state an error message is stored exactly with failed and dead mails |
| Guarantees.AttemptsAccounted | crates/dispatcher/src/lib.rs:194-214 | the stored counter is the number of recorded errors and refusals, below the limit unless dead, never near the 32-bit edge; transport calls = recorded successes + recorded errors, by what the transport answered, + lost outcomes + calls under way; at most one success, and exactly for sent mails |
| Guarantees.SendsBounded | crates/dispatcher/src/retry.rs:38-40 | a mail reaches a transport at most `max_attempts` times plus once per lost outcome |
| Guarantees.ConcurrencyBounded | crates/dispatcher/src/lib.rs:121-140 | live deliveries never exceed `concurrency`; the mails in hand (claimed, and delivered or waiting for a permit) are distinct, in flight, and at most one more; outside a tick there are none |
| TickRefinement.ParallelTickIsSequential | crates/dispatcher/src/lib.rs:105-147 | for every interleaving of a tick, failed claims, lost deliveries and concurrent insertions included, the table left is that of handling the fetched mails one after another in fetch order, plus what was inserted; every fetched mail, and no other, met a fate, in clock order |
| TickRefinement.OracleFixesTick | crates/dispatcher/src/lib.rs:105-147 | with the fate of each mail given in advance, all interleavings that follow it leave one and the same table, that of the sequential tick |
| Outcomes.TickOutcome | crates/dispatcher/src/lib.rs:105-147 | after a tick, however interleaved, the row of each fetched mail is, field by field, what the claim and the answer to that mail make of it |
| Rounds.RoundEffect | crates/dispatcher/src/lib.rs:92-147 | a fault-free tick puts stale rows back, fetches correctly, settles every fetched mail and changes no other row |
| Liveness.OrphansAgeOut | crates/dispatcher/src/lib.rs:95-103 | after a fault-free tick only rows already in flight before it, and for less than the lease, are in flight |
| Liveness.PassedOver | crates/queue-sqlite/src/lib.rs:204-221 | a due mail passed over by a tick sees the number of unfinished rows at or before it fall by exactly `batch_size` |
| Liveness.NoStarvation | crates/queue-sqlite/src/lib.rs:204-221 | with positive delays and later-stamped arrivals, the ticks that pass a due mail over times `batch_size` stay below the number of rows ahead, so it is claimed within ceil(rows / `batch_size`) ticks |
| Liveness.RoundSpends | crates/dispatcher/src/lib.rs:194-214 | a fault-free tick lowers the sum of remaining attempts by at least the mails it processed; only new mail raises it, by at most `max_attempts` each |
| Liveness.DeliveriesBounded | crates/dispatcher/src/retry.rs:38-40 | over any number of fault-free ticks deliveries plus remaining budget never exceed the starting budget plus `max_attempts` per accepted mail |
| Finishing.EveryMailFinishes | README.md:43-44 | as many fault-free ticks that find mail ready as there is budget leave every mail sent or dead, with any number of idle ticks between them |
| Finishing.EveryMailFinishesInTime | README.md:43-44 | from every reachable state, when as many periods longer than every delay and the lease have passed as there is budget, with fault-free ticks coming at any times, every mail is sent or dead |
| Finishing.ConfiguredGap | crates/core/src/config.rs:197-235 | for a configured relay the longer of maximum delay and lease is such a period |
| Finishing.ProductiveBounded | README.md:43-44 | with mail arriving all the time: ticks that find mail ready, plus the budget left, are at most the budget plus `max_attempts` per new mail |
| Finishing.BusyPeriodsBounded | README.md:43-44 | the same by the clock: the periods at whose end mail is unfinished number at most the budget plus `max_attempts` per new mail |
| Progress.NeverStuck | crates/dispatcher/src/lib.rs:121-146 | in every state that satisfies the invariant, so in every reachable one, a running tick or a starting process can take some step without a fault |
| Progress.RoundExists | crates/dispatcher/src/lib.rs:92-147 | from every idle state there is a fault-free tick |
| Progress.EveryStateCanFinish | README.md:43-44 | from every reachable state some continuation without a further fault, the clock running, leaves every mail sent or dead |
| Progress.WorkBounded | crates/dispatcher/src/lib.rs:124-146 | however scheduled, the work of a tick is bounded by a measure of what is left |
| Progress.TickTerminates | crates/dispatcher/src/lib.rs:92-147 | a tick does at most 5 times `batch_size` plus 4 steps, and one that has done them has returned |
| Dispatchers.Dispatcher.Recover | crates/dispatcher/src/lib.rs:82-88 | the execution is a run of the protocol; the table becomes the recovered one, a failure leaves it alone |
| Dispatchers.Dispatcher.ReclaimStale | crates/dispatcher/src/lib.rs:93-103 | the tick begins, and its reclaim is issued with the time taken at that start and succeeds or fails as the queue decides |
| Dispatchers.Dispatcher.FetchDue | crates/dispatcher/src/lib.rs:105-119 | a failed or empty fetch ends the tick; otherwise the batch is to be claimed in order |
| Dispatchers.Dispatcher.ClaimAll | crates/dispatcher/src/lib.rs:121-140 | the claim loop: one handle per granted claim, every live delivery among the handles, no step outside a tick |
| Dispatchers.Dispatcher.AwaitPermit | crates/dispatcher/src/lib.rs:131-134 | a permit is free afterwards, and no delivery was started meanwhile |
| Dispatchers.Dispatcher.JoinAll | crates/dispatcher/src/lib.rs:142-145 | after the join loop nothing is live |
| Dispatchers.Dispatcher.Tick | crates/dispatcher/src/lib.rs:92-147 | for every environment the tick reclaims, fetches and returns; its fetch is a step of its own trace, and the table is that of the sequential tick from the state of that step plus the arrivals of the steps after it; nothing is live; the result is the number of granted claims |
| Dispatchers.Dispatcher.Run | crates/dispatcher/src/lib.rs:150-168 | recovery and then exactly the given number of ticks, none begun before the one before has returned, form one run of the protocol, so all its guarantees hold of the object |
| QueueTable.FetchExists | crates/core/src/queue.rs:21-23 | a correct answer to a fetch exists for every table, limit and time |
| QueueTable.FetchAnswers | crates/queue-sqlite/src/lib.rs:204-221 | a correct answer holds pending and failed rows whose time has come, and leaves one out only at the limit and behind rows no younger |
| SqliteQueues.StatusRoundTrip | crates/queue-sqlite/src/lib.rs:16-36 | the five status words; they read back, and no other word is read |
| SqliteQueues.RowRoundTrip | crates/queue-sqlite/src/lib.rs:96-126 | a mail stored as a row of text reads back unchanged |
| SqliteQueues.TextSelectionIsFetch | crates/queue-sqlite/src/lib.rs:204-221 | the `SELECT` that compares and orders timestamps as text has exactly the answers of the fetch that compares instants |
| SqliteQueues.SqliteQueue.Enqueue | crates/queue-sqlite/src/lib.rs:171-202 | inserts the mail unless the id is taken or the statement fails, and reports success exactly when it inserted and the reply was not lost |
| SqliteQueues.SqliteQueue.SetStatus | crates/queue-sqlite/src/lib.rs:133-166 | rewrites the row whatever its status, keeps the due time unless given one, reports a missing row |
| SqliteQueues.SqliteQueue.MarkSending | crates/queue-sqlite/src/lib.rs:223-226 | in flight, no attempt counted, error cleared |
| SqliteQueues.SqliteQueue.MarkSent | crates/queue-sqlite/src/lib.rs:228-231 | sent, no attempt counted, error cleared |
| SqliteQueues.SqliteQueue.MarkFailed | crates/queue-sqlite/src/lib.rs:233-236 | failed, attempt counted, error kept, rescheduled |
| SqliteQueues.SqliteQueue.MarkDead | crates/queue-sqlite/src/lib.rs:238-241 | dead, attempt counted, error kept, due time untouched |
| SqliteQueues.SqliteQueue.RequeueSending | crates/queue-sqlite/src/lib.rs:243-257 | exactly the in-flight rows become pending; the count is right |
| SqliteQueues.SqliteQueue.RequeueStaleSending | crates/queue-sqlite/src/lib.rs:259-274 | comparing text, exactly the in-flight rows last touched before the instant become pending; the count is right |
| SqliteQueues.SqliteQueue.FetchDue | crates/queue-sqlite/src/lib.rs:204-221 | the mails read are a correct answer by instants: due, each once, oldest first, none left out while there is room |
| SqliteQueues.SqliteQueue.Get | crates/queue-sqlite/src/lib.rs:276-287 | the mail of the table, or not found |
| SqliteQueues.SqliteQueue.WriteAll | crates/queue-sqlite/src/lib.rs:133-274 | any sequence of write statements, executed on the textual rows, does to the table what it says |
| StoredRuns.StepIsStatement | crates/queue-sqlite/src/lib.rs:133-274 | every protocol step changes the table by at most one write statement |
| StoredRuns.RunStaysInRange | crates/queue-sqlite/src/lib.rs:189-191 | a run that ends within year 9999, its longest delay included, keeps every row storable as text |
| StoredRuns.RunOnSqlite | crates/queue-sqlite/src/lib.rs:133-274 | the statements of such a run, executed on the textual rows, leave the table of the protocol |
| StoredRuns.FetchIsSelection | crates/queue-sqlite/src/lib.rs:204-221 | a fetch of the protocol is an answer of the textual `SELECT` |
| Rfc3339.TextOrderIsTimeOrder | crates/queue-sqlite/src/lib.rs:146-150 | for all instants with four-digit years, lexicographic order of the stored texts is chronological order, though the number of fractional digits varies (section 5.1 of RFC 3339) |
| Rfc3339.TextRoundTrip | crates/queue-sqlite/src/lib.rs:38-43 | reading a stored timestamp gives the same instant |
| Rfc3339.InstantOrder | crates/queue-sqlite/src/lib.rs:38-43 | calendar date and time of day order instants, leap years included |
| Rfc3339.YearsClosed | crates/queue-sqlite/src/lib.rs:38-43 | years are counted as in the Gregorian calendar, for every year |
| Rfc3339.FourCenturies | crates/queue-sqlite/src/lib.rs:38-43 | four hundred years are 146097 days, whenever they begin |
| Rfc3339.MonthsClosed | crates/queue-sqlite/src/lib.rs:38-43 | the day on which each month begins |
| Rfc3339.KnownTexts | crates/queue-sqlite/src/lib.rs:146-150 | the Unix epoch and a leap day: when they are and how they are written |
| Retry.BackoffUnbounded | crates/dispatcher/src/retry.rs:30-35 | saturation never shows: the result is min(base * 2^min(n-1, 31), max) over unbounded integers |
| Retry.BackoffMonotone | crates/dispatcher/src/retry.rs:30-35 | more attempts never wait less, and never more than the maximum |
| Retry.BackoffAsDocumentedIff | crates/dispatcher/src/retry.rs:27-35 | the documented formula holds if and only if n <= 32, base = 0 or max <= base * 2^31 |
| Retry.BackoffDocumentationGap | crates/dispatcher/src/retry.rs:27-35 | a policy and attempt count for which it does not |
| Retry.RetryDelayExact | crates/dispatcher/src/lib.rs:207-210 | the delay added to the clock is min(base * 2^min(n-1, 31), max) in nanoseconds as far as chrono reaches, and a minute beyond |
| Retry.RetryDelayPositiveIff | crates/dispatcher/src/lib.rs:207-210 | it is positive if and only if both configured delays are |
| Retry.ScheduleGeometric | crates/dispatcher/src/retry.rs:30-35 | below the caps a whole schedule of n failures is base * (2^n - 1) seconds |
| Timing.ConfiguredRelay | crates/core/src/config.rs:133-153 | the settings arrive unchanged, the lease in nanoseconds or two minutes beyond chrono's range; what loading insists on is exactly what the protocol needs; delays are positive if and only if both settings are, and never above the maximum |
| Timing.ReachableWaits | crates/dispatcher/src/lib.rs:206-212 | in every reachable state each mail is due at the latest one longest delay after its row was last written |
| Mails.ValidateAccepts | crates/core/src/message.rs:66-77 | a payload is accepted if and only if sender and subject hold a visible character and there is a recipient; otherwise the first want, in that order, is named |
| Mails.WhitespaceListed | crates/core/src/message.rs:66-77 | white space is the twenty-five characters of the Unicode property |
| Routing.ExpandTargetsExact | crates/core/src/config.rs:332-345 | exactly the targets not named `reject`, in any letter case, in order, each with its override |
| Routing.ResolveExact | crates/core/src/config.rs:363-377 | a sender with no rule of its own and no fallback is refused; otherwise its own rule, or else the fallback, decides: refused if it offers nothing but `reject`, else exactly the deliverable entries, each once, in order, with its transport and its recipients if it lists any |
| Routing.RejectedIff | crates/core/src/config.rs:363-377 | no resolved target is `reject` |
| Routing.RejectAnyCase | crates/core/src/config.rs:337-345 | `reject` is that word with each letter in either case, and nothing else |
| Sessions.ReplayIsSession | crates/ingress-smtp/src/lib.rs:145-179 | for every callback sequence, the fields updated step by step equal what the history says as a whole: sender, recipients and data since the last whitelisted MAIL, data also since the last DATA, the last recognised identity |
| Sessions.TransactionsAreIsolated | crates/ingress-smtp/src/lib.rs:145-158 | nothing of what came before an accepted MAIL carries over, except the identity (section 3.3 of RFC 5321) |
| Sessions.WholeTransaction | crates/ingress-smtp/src/lib.rs:145-179 | after an admitted MAIL, any recipients and any data, whatever came before: that sender, those recipients in order, that data, and whoever was logged in |
| Sessions.Unmoved | crates/ingress-smtp/src/lib.rs:136-158 | greetings, ends of data, MAIL from hosts not admitted and refused logins change nothing |
| Sessions.LoggedIn | crates/ingress-smtp/src/lib.rs:79-84 | a recognised login sets the name and nothing else |
| Fanout.CandidateAdds | crates/ingress-smtp/src/lib.rs:212-238 | each target adds exactly its own row under a free id, or nothing |
| Fanout.WinnerStays | crates/ingress-smtp/src/lib.rs:212-238 | whatever others write meanwhile, every row stored for the message is there at the end as this very mail |
| Fanout.AloneRowsExact | crates/ingress-smtp/src/lib.rs:212-238 | with no other writer it is the row as built |
| Fanout.WinnersDiffer | crates/ingress-smtp/src/lib.rs:212-238 | no two targets share a row |
| Fanout.NewRowsExplained | crates/ingress-smtp/src/lib.rs:212-238 | what is new at the end was stored for the message or inserted by others |
| Fanout.NoneWins | crates/ingress-smtp/src/lib.rs:212-238 | if nothing was stored, the queue is as the others alone leave it |
| Messages.PlanExact | crates/ingress-smtp/src/lib.rs:181-238 | which rows a message is tried for: none, with that answer, if it cannot be parsed or routing has no deliverable entry for its sender; without routing one, for the default transport and the envelope's recipients; otherwise one per deliverable entry of the applying rule, in order, with that entry's transport and recipients |
| Messages.Refusals | crates/ingress-smtp/src/lib.rs:181-201 | at the end of the data, by the callback history: an unparsable message and a sender not permitted are answered so, and the queue is as it was |
| Messages.BuiltExact | crates/ingress-smtp/src/lib.rs:96-131 | the payload: the parsed body or the lossy text; the envelope addresses, one recipient per RCPT in order; the parsed subject, labelled for the identity, or else for the name found in it, in that name's own format or else the global one |
| Messages.StoredSays | crates/ingress-smtp/src/lib.rs:181-238 | every row stored at the end of the data says what session, message and rule entry say |
| Messages.StoredWithoutRouting | crates/ingress-smtp/src/lib.rs:202-238 | and so does the one row without routing |
| Messages.StripBracketsInside | crates/ingress-smtp/src/lib.rs:261-267 | an address loses only white space and `<` in front, white space and `>` behind, and no white space stays at its ends |
| Messages.BracketsStripped | crates/ingress-smtp/src/lib.rs:261-267 | an address in any number of angle brackets with white space around is recovered |
| Ingress.TargetStored | crates/ingress-smtp/src/lib.rs:212-227 | a stored target carries the message's sender, subject and body, its own transport and recipient override, and its time |
| Ingress.ReplyAgreesWithQueue | crates/ingress-smtp/src/lib.rs:181-244 | for every session, and whatever others write between the insertions: OK means a row of the message is in the queue; after any other answer only insertions with lost replies are, and without such the queue is as the others alone leave it; old mails are kept; every new row validated or was inserted by others (section 6.1 of RFC 5321) |
| Ingress.ReplyAgrees | crates/ingress-smtp/src/lib.rs:240-244 | the reply is OK if and only if some insertion took effect and was reported |
| Ingress.LostReplyKeepsRow | crates/ingress-smtp/src/lib.rs:229-243 | a committed insertion whose reply is lost is answered with an internal error and stays |
| Ingress.PlanAvoidsReject | crates/ingress-smtp/src/lib.rs:194-204 | under active routing no row to be stored names the transport `reject` in any letter case |
| RelayHandlers.RelayHandler.FieldsAreHistory | crates/ingress-smtp/src/lib.rs:59-65 | at every moment the handler's fields are what its callback history says |
| RelayHandlers.RelayHandler.Helo | crates/ingress-smtp/src/lib.rs:136-143 | admits whitelisted addresses only; the session is unchanged |
| RelayHandlers.RelayHandler.MailFrom | crates/ingress-smtp/src/lib.rs:145-158 | refuses unlisted addresses untouched; otherwise starts afresh, and demands a login unless anonymous mail is allowed or someone is logged in |
| RelayHandlers.RelayHandler.Rcpt | crates/ingress-smtp/src/lib.rs:160-163 | adds a recipient to the transaction |
| RelayHandlers.RelayHandler.DataStart | crates/ingress-smtp/src/lib.rs:165-174 | drops earlier data only |
| RelayHandlers.RelayHandler.Data | crates/ingress-smtp/src/lib.rs:176-179 | appends to the data |
| RelayHandlers.RelayHandler.TryAuth | crates/ingress-smtp/src/lib.rs:79-91 | sets the identity exactly when credentials are recognised, and answers each of the three outcomes |
| RelayHandlers.RelayHandler.EnqueueAll | crates/ingress-smtp/src/lib.rs:209-238 | the loop, with others writing before each insertion, leaves the fanned-out table and counts the insertions reported |
| RelayHandlers.RelayHandler.DataEnd | crates/ingress-smtp/src/lib.rs:181-244 | reply and queue are those of the message's plan, which depends only on the current transaction and identity, with others writing meanwhile |
| Subject.ValidateFormats | crates/core/src/config.rs:155-167 | succeeds if and only if the global format and every override contain `%original%`, hence every sender's own format or else the global one |
| Subject.TwoPassesIff | crates/core/src/config.rs:522-526 | for a format and sender, the two passes equal the one-pass template for every original if and only if the second pass reads the named format as the template does |
| SubjectPieces.TwoPassesIffSeparate | crates/core/src/config.rs:513-526 | for a format, the two passes equal the template for every original and every sender without `%` if and only if the pieces between its `%name%` occurrences are separate: none ends in an open `%original`, and none can be completed to `%original%` by a stretch of the word and the pieces after it |
| Subject.CleanFormatsRender | crates/core/src/config.rs:513-526 | rendering is template substitution in the sender's own format, or else the global one, for every original, every sender without `%`, and every format whose `%` all belong to tokens and whose `%original%` shares none with a `%name%` |
| SubjectPieces.CleanIsSeparate | crates/core/src/config.rs:513-526 | such formats are separate |
| Subject.OverlapMisread | crates/core/src/config.rs:522-526 | in `%original%name%` they do not, and the original is lost |
| Subject.OriginalRendered | crates/core/src/config.rs:522-526 | if `%original%` is still there after the first pass, the original is in the rendered subject |
| Subject.OriginalSurvivesIff | crates/core/src/config.rs:155-167 | the original survives for all senders and originals if and only if some stretch of the format between its `%name%` occurrences contains `%original%` |
| Subject.RenderKeepsOriginal | crates/core/src/config.rs:513-526 | a rendered subject holds the original when the sender's own format, or else the global one, meets that condition |
| Subject.ValidationNecessary | crates/core/src/config.rs:155-167 | the check at load time is necessary for that |
| Subject.ValidatedIsNotEnough | crates/core/src/config.rs:155-167 | and not sufficient: `%name%original%` passes and loses every subject |
| PluginSettings.PluginSettings | crates/core/src/config.rs:177-193 | the ordered loop computes the declarative map, with secrets winning over plain keys, and fails if and only if a named variable is unset, reporting the first |
| PluginSettings.PlainBeforeSecret | crates/core/src/config.rs:177-193 | in key order a plain key always comes before the secret that replaces it |
| PluginSettings.MeaningIsUnique | crates/core/src/config.rs:172-193 | the declarative meaning fits one map only |

## Left out

- Concrete transports and plugins: a send succeeds or fails, with any message, at any time.
- SQL execution, connection pooling, schema creation and JSON of addresses: see the assumptions; `SELECT` hands over the chosen ids and is required to obey its `WHERE`, `ORDER BY` and `LIMIT` on the stored text.
- The SMTP protocol parser, the MIME parser, the subject pattern and address ranges: given functions (`parse`, `lossyText`, `extractName`, `whitelisted`).
- `AuthConfig::authenticate` is a given function with its three outcomes; `auth_plain` and `auth_login` both only call it.
- tokio: the semaphore is a counter, spawning and joining add to and drain a set; poll interval and shutdown signal only decide how many ticks there are.
- Process start-up, instance lock, Windows service, TOML loading, logging, the HTTP skeleton; the checks of `Config::validate` other than those on subject formats and dispatcher limits.
- Clocks that run backwards and years outside 0 to 9999; reading timestamps with other offsets or leap seconds, which the queue never writes.
- Delays that are not whole seconds, which the configuration file cannot express.
- The message stored when no transport is known is a constant in place of the formatted text.
- Dispatchers.Dispatcher.Run: crashes inside a tick are steps of the protocol model and covered by the theorems over runs; the object itself can only be crashed between its calls (`CrashAndRestart`).
