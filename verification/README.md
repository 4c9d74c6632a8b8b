# Metering that neither loses, duplicates nor misprices a charge

A Dafny model of the state machines of the MCP usage meter that decide money: what is aggregated and exported, what a
payment credential may redeem and how often, when a finished response becomes a charge, and the bounded stores those
decisions lean on. `dafny verify dfyconfig.toml` checks everything.

Each class below keeps the fields of the Rust object it stands for, and each of its methods is proved against a
specification function over an immutable state (`Record`, `Quarantine`, `SettleFirst`, `Poll`, `Park`, `Insert`, `Put`
and so on). The theorems about whole runs are then proved over those functions, by state machines whose steps are the
atomic sections of the source: a locked section, a compare-exchange, a store operation, an answer or its loss.

| Module | What it models |
|---|---|
| `Prelude` | `Option`, `Result`, 64-bit counters, the byte order of strings |
| `UsageBuffer` | the in-memory aggregator and its idempotency window |
| `BillingPipeline` | record, flush, commit, restore in any interleaving, with a ledger of every event |
| `MeterEventExporter` | partial retries and the dead-letter queue |
| `Settlement` | the pipeline driving that exporter, with failure, cancellation and panic at any point |
| `DeadLetters` | what the dead letters of a whole run carry |
| `Reconciliation` | the ledger and the provider's verdicts together |
| `Calendar`, `ChronoLite`, `ProtocolVersion` | RFC 3339 dates and times as the edge renders, reads and compares them |
| `Payments` | challenges, their MAC over joined slots, and every check before a reservation |
| `IdealPrimitives` | encoders and a digest that meet all that `Payments` assumes of its libraries |
| `ReplayStore`, `SingleUse` | expiring reservations shared by several sidecars, and how often a challenge can settle |
| `SseReader` | the one-pass terminal-response reader and the reader it replaced |
| `Peek`, `Charge` | what is read out of a response, and the billing verdict |
| `TerminalAccounting` | accounting of a finished exchange as atomic steps of concurrent instances |
| `ExchangeEffects` | the verdict and the effect of one exchange, read straight off its JSON |
| `ReferenceMeter` | the overbilling harness's fold, compared with the edge |
| `ObservedBody` | the response body that starts accounting exactly once |
| `TaskStore`, `ResponseCache`, `DeferredCompletions` | the bounded stores and the queue of unfinished accounting |

## Main results

- **Settlement discipline.** Over every run of pipeline and exporter, an identifier that has its verdict is never
  submitted or judged again, every submission repeats aggregates exactly as first named, a batch is committed only when
  each member has exactly one verdict, and every permanent rejection is retained, drained or counted as dropped
  (`Settlement.SettlementDiscipline`). The exporter always accepts the batch the pipeline offers
  (`Settlement.CompositionNeverWedges`), and what it submits is exactly what has no verdict yet
  (`Settlement.ResubmitsTheUnjudged`).
- **Dead letters.** A letter left by a verdict carries the rejected aggregate as it was named, units and all, under that
  verdict's code (`DeadLetters.RejectedUsageIsKept`).
- **Ledger.** Units recorded equal units pending, queued, in flight and committed, for each customer and meter, in every
  reachable state (`BillingPipeline.UnitsAreConserved`); with the exporter, they equal units pending, unjudged, accepted
  and permanently rejected (`Reconciliation.UnitsReconcile`). Under interleaved retries nothing starves: a failed batch is
  offered within 2(k+1) flushes, and fresh usage within two, in full and under an identifier not in use before
  (`BillingPipeline.RetryIsOffered`, `BillingPipeline.FreshUsageIsOffered`).
- **Recording.** In any reachable state an event is refused only for having no units, for a key its own tenant used among
  the last `limit` keyed events, or for a sum that does not fit (`BillingPipeline.OutcomeExactly`).
- **Challenge integrity.** A credential that passes every check is one issued challenge, slot by slot, although the
  signed text joins its slots with `|` and the client may echo bars or leave the header out
  (`Payments.RedeemedAsIssued`), and an issued challenge is redeemed by exactly the call it was issued for
  (`Payments.IssuedIsRedeemable`).
- **Single use.** With reservations kept for twice the lifetime, a challenge settles at most once if and only if the delay
  between check and reservation stays within a margin computed exactly (`SingleUse.SingleUseExactly`).
- **Edge and reference meter** stay in step, exchange by exchange, if and only if each first delivery of a task is priced by
  a commission that still stands as it was by the first (`ReferenceMeter.InStepExactly`). On traffic that commissions no
  task again after its failure was reported, the edge never invoices more, and as much if and only if no task is delivered
  for the first time after such a report (`ReferenceMeter.EdgeEqualsMeterExactly`).
- **Attributions are conserved** over concurrent instances (`TerminalAccounting.AttributionsAreConserved`), and whatever is
  recorded is the price of the worker's own direct delivery or the units resolved when the delivered task was commissioned
  (`TerminalAccounting.EveryChargeIsOwed`). The total is covered by direct deliveries and commissions, each counted once
  (`TerminalAccounting.TotalIsCovered`).
- **Accounting of an exchange.** Terminal accounting, step by step, has exactly the effect that a table over the response's
  JSON gives it, for older and newer clients, with or without a failing recorder (`ExchangeEffects.FinishExactly`).
- **Readers agree** on every text and every mix of line terminators (`SseReader.ReadersAgree`), and the answer is what the
  last event with a response says (`SseReader.LastResponseIsAnswered`).
- **Cache.** Whatever a context is served, a call it may see asked for, in that call's time, and none newer
  (`ResponseCache.ServedWasAskedFor`).
- **Timestamps** before a bound order as strings exactly as they order in time if and only if that bound is not past the
  first second of the year 10000, and a timestamp reads back if and only if it precedes that second
  (`ChronoLite.FormatOrderExactly`, `ChronoLite.RoundTripExactly`).

## Where code and expectation part

- Timestamps carry whole seconds, so "the delay must stay below the lifetime" is not enough for single use: a check late
  in its second may be followed by almost another second. The margin in `SingleUse.Margin` is
  `1000*(ttl/1000) + 999 + delay < 2*ttl` in milliseconds, and `SlowReservationReplays` settles one challenge twice
  whenever it fails.
- `chrono_lite` renders the year 10000 with five digits and its own reader refuses that text. Its first second sorts, as a
  string, before the last second of the year 9999 (`ChronoLite.YearTenThousandSortsFirst`), so comparing timestamps as
  strings is comparing times on all of an initial stretch of time exactly when the stretch ends by then.
- A task reported failed or cancelled and later reported completed is charged by the reference meter and not by the edge,
  which forgot the attribution at the failure; `ReferenceMeter.LateDeliveryIsUnbilled` gives the three exchanges. If it is
  commissioned again in between at a higher price, the edge charges that price and the meter the first one
  (`ReferenceMeter.RebirthOverbills`).
- `DeferredCompletions::park` is documented to report whether the completion was accepted. It reports whether nothing was
  discarded: parking into a full queue accepts the new work and answers false. The model follows the code, and
  `DeferredCompletions.ParkAnswerExactly` says when the two readings agree: below capacity, or with no capacity at all.
- For an older client the answer of a method that delivers priced work is charged whenever it has no textual result type and
  no error other than null. It needs no result: `{"error": null}`, which the terminal-response reader lets through, is
  charged as a delivery (`ExchangeEffects.NullErrorIsBilled`).
- The realm and the method of a challenge may contain bars, because they are compared whole. A bar-free intent is enough
  for the theorems; whether an intent with bars would do is not settled here. Tenant bindings are tags under the same
  secret, so `Payments.Configured` also asks that the realm not begin with their prefix.

## Model

| member | source | states |
|---|---|---|
| UsageBuffer.UsageBuffer.RecordEvent | crates/mcp-usage-export/src/lib.rs:336-382 | The new buffer and the outcome are those of the specification: zero units, a remembered key and an overflow change nothing, the idempotency memory included; `seen` stays the duplicate-free set of a bounded `seen_order` |
| UsageBuffer.UsageBuffer.PrepareFlush | crates/mcp-usage-export/src/lib.rs:384-419 | Takes the oldest failed batch unchanged exactly when policy and alternation say so; otherwise drains all pending usage into a sorted batch under fresh identifiers |
| UsageBuffer.UsageBuffer.RestoreAfterInterruption | crates/mcp-usage-export/src/lib.rs:421-427 | The batch goes to the back of the retry queue; nothing else changes |
| UsageBuffer.CustomersThenMeters | crates/mcp-usage-export/src/lib.rs:413-417 | A drained batch has its customers in byte order and each customer's meters in theirs |
| UsageBuffer.Drain | crates/mcp-usage-export/src/lib.rs:402-418 | One aggregate a key with that key's units and oldest timestamp, in customer and meter order, each under its own new identifier |
| UsageBuffer.InsertByKey | crates/mcp-usage-export/src/lib.rs:413-417 | One step of the sort keeps the order, adds exactly the new aggregate and keeps identifiers distinct |
| UsageBuffer.DrainIsDetermined | crates/mcp-usage-export/src/lib.rs:384-419 | Two drains of the same usage agree position by position except in their identifiers |
| BillingPipeline.SoundRun | crates/mcp-usage-export/src/lib.rs:524-586 | In every reachable state the books, the ledger, the one-place rule and the idempotency window hold together, for either policy |
| BillingPipeline.BooksStep | crates/mcp-usage-export/src/lib.rs:336-419 | Each step keeps the books: every aggregate is the sum and the minimum timestamp of exactly the events it answers for |
| BillingPipeline.EachOnceStep | crates/mcp-usage-export/src/lib.rs:546-586 | Each step keeps every named aggregate in exactly one of retry queue, export in flight and committed batches, unchanged |
| BillingPipeline.UnitsAreConserved | crates/mcp-usage-export/src/lib.rs:524-586 | For each customer and meter, units recorded = pending + queued for retry + in flight + committed, in every reachable state |
| BillingPipeline.IdentifiersAreForever | crates/mcp-usage-export/src/lib.rs:402-412 | From any reachable state onward an identifier names the same aggregate |
| BillingPipeline.RememberedStep | crates/mcp-usage-export/src/lib.rs:341-373 | The memory is the last `limit` keyed events, and a key is recorded again only after `limit` other keyed events |
| BillingPipeline.OutcomeExactly | crates/mcp-usage-export/src/lib.rs:336-364 | In any reachable state: a duplicate iff the event's own tenant used its key among the last `limit` keyed events, an overflow iff the sum does not fit, nothing iff it has no units, and recorded otherwise |
| BillingPipeline.EarliestTimestamp | crates/mcp-usage-export/src/lib.rs:375-381 | An aggregate's timestamp is the earliest of its events, which are all of its customer and meter |
| BillingPipeline.RetryIsOffered | crates/mcp-usage-export/src/lib.rs:384-401 | Under interleaving, the k-th queued batch is offered within 2(k+1) flushes whatever fails meanwhile |
| BillingPipeline.FreshUsageIsOffered | crates/mcp-usage-export/src/lib.rs:384-418 | Under interleaving, usage waiting under any key is offered within two flushes, with all its units, its oldest timestamp and an identifier that was not yet in use, so that offering a failed batch of the same key again does not count |
| BillingPipeline.FreshIdentifiersAreUnused | crates/mcp-usage-export/src/lib.rs:402-412 | In a reachable world no aggregate queued, in flight or committed has the identifier of usage still to be named |
| MeterEventExporter.MeterEventExporter.BeginExport | crates/mcp-usage-export/src/meter_event.rs:272-304 | Refuses while leased or when another batch is incomplete, changing nothing; otherwise takes the lease with all marks clear, or kept |
| MeterEventExporter.MeterEventExporter.UnresolvedItems | crates/mcp-usage-export/src/meter_event.rs:306-318 | Exactly the unmarked members of the batch, in order, with their positions |
| MeterEventExporter.MeterEventExporter.ApplyOutcomes | crates/mcp-usage-export/src/meter_event.rs:320-346 | The state after all answers in order, and whether any was retryable |
| MeterEventExporter.MeterEventExporter.MarkCompleted | crates/mcp-usage-export/src/meter_event.rs:348-356 | Sets one mark when it exists |
| MeterEventExporter.MeterEventExporter.QuarantineLocked | crates/mcp-usage-export/src/meter_event.rs:358-390 | A new letter joins the back, the oldest leaves when full, each loss is counted, an identifier is kept once; answers whether it was retained |
| MeterEventExporter.MeterEventExporter.CommitExport | crates/mcp-usage-export/src/meter_event.rs:392-394 | Forgets the progress and nothing else |
| MeterEventExporter.MeterEventExporter.TakeDeadLetters | crates/mcp-usage-export/src/meter_event.rs:211-215 | Hands over every retained letter and empties the queue |
| MeterEventExporter.MeterEventExporter.AbandonRetryProgress | crates/mcp-usage-export/src/meter_event.rs:251-264 | Reports exactly the unresolved identifiers and forgets the batch, unless an export is running |
| MeterEventExporter.QuarantineAccounts | crates/mcp-usage-export/src/meter_event.rs:358-390 | Whatever was retained, drained or dropped stays accounted for, the new letter is too, and the counts grow by one |
| MeterEventExporter.SettleFirstMarks | crates/mcp-usage-export/src/meter_event.rs:320-346 | A position is marked after the answers iff it was before or its answer was definitive |
| MeterEventExporter.SettleFirstAccounts | crates/mcp-usage-export/src/meter_event.rs:331-341 | Every permanently rejected aggregate is accounted for and none is forgotten |
| MeterEventExporter.UnresolvedFirstExact | crates/mcp-usage-export/src/meter_event.rs:306-318 | The unresolved list is the subsequence of unmarked members: sound, ordered, complete |
| MeterEventExporter.QuarantineExact | crates/mcp-usage-export/src/meter_event.rs:358-390 | The queue keeps the newest letters in order and gives up at most its oldest, only for want of room |
| MeterEventExporter.SettleFirstLetters | crates/mcp-usage-export/src/meter_event.rs:320-346 | The letters a round adds are exactly the rejected aggregates as submitted, with the provider's code; none that was there is lost |
| MeterEventExporter.BeginExactly | crates/mcp-usage-export/src/meter_event.rs:272-304 | Taken iff not leased and nothing, or this very batch, is in progress; each refusal has its reason, and marks are kept or clear |
| MeterEventExporter.ExportOutcome | crates/mcp-usage-export/src/meter_event.rs:419-449 | An export succeeds iff it may begin and every member has or now gets its verdict; an error, an interruption or a miscount changes no mark |
| DeadLetters.RejectedUsageIsKept | crates/mcp-usage-export/src/meter_event.rs:331-341 | Over whole runs every letter left by a verdict carries the issued aggregate and the verdict's code, and every permanent rejection has its letter unless the application handed one in first |
| DeadLetters.AnswerKept | crates/mcp-usage-export/src/meter_event.rs:335-341 | A rejected aggregate's own letter is there after its round, whatever the queue held |
| Settlement.InvariantStep | crates/mcp-usage-export/src/meter_event.rs:419-449 | Every move, interruptions included, keeps exporter marks equal to the verdicts received on the one batch the pipeline holds |
| Settlement.AnsweredExact | crates/mcp-usage-export/src/meter_event.rs:320-346 | A round of answers settles exactly the definitively answered identifiers and keeps the log disciplined |
| Settlement.BegunExact | crates/mcp-usage-export/src/meter_event.rs:419-432 | What is submitted is exactly the part of the held batch without a verdict, in order; nothing is left only when all have one |
| MeterEventExporter.MeterEventExporter.Export | crates/mcp-usage-export/src/meter_event.rs:419-449 | The state and result of a whole export for each reply of the provider, or none; the lease is always given back |
| MeterEventExporter.MeterEventExporter.ReleaseLease | crates/mcp-usage-export/src/meter_event.rs:138-142 | Clears the lease and nothing else |
| Settlement.ResubmitsTheUnjudged | crates/mcp-usage-export/src/meter_event.rs:419-435 | An export submits all members of the held batch without a verdict, in order, and asks nobody when there are none |
| Settlement.ExportIsItsMoves | crates/mcp-usage-export/src/meter_event.rs:419-449 | The moves of one export in the composed machine have exactly the effect and result of `export` |
| Reconciliation.UnitsReconcile | crates/mcp-usage-export/src/lib.rs:524-586 | Over whole runs, for each customer and meter: units recorded = pending + under way without a verdict + accepted + permanently rejected |
| Reconciliation.AnswersMove | crates/mcp-usage-export/src/meter_event.rs:320-346 | A round of answers moves units from unjudged to judged and makes or loses none |
| Settlement.NeverWedged | crates/mcp-usage-export/src/meter_event.rs:283-304 | Neither refusal of `begin_export` can occur in a reachable state |
| Settlement.SettlementDiscipline | crates/mcp-usage-export/src/meter_event.rs:283-449 | Over whole runs: no submission or verdict after a verdict, submissions unchanged, all that is unjudged submitted next, commits only with one verdict a member, rejections accounted for |
| Settlement.CompositionNeverWedges | crates/mcp-usage-export/src/lib.rs:384-419 | Over whole runs: retry and in-flight hold at most one batch, progress is always about that batch, and the exporter accepts it |
| Calendar.DayNumberOrder | crates/mcp-usage-edge/src/mpp.rs:1069-1080 | Calendar order is day-number order, and a day number names one date |
| Calendar.DaysBeforeYearClosed | crates/mcp-usage-edge/src/mpp.rs:1069-1071 | The sum of year lengths is 365 a year plus the leap years of the Gregorian rule |
| ChronoLite.SameCalendar | crates/mcp-usage-edge/src/mpp.rs:1069-1080 | The leap rule and month table as written here are the calendar's |
| ChronoLite.InstantOf | crates/mcp-usage-edge/src/mpp.rs:1082-1103 | The instant rendered for a number of seconds is a valid date and time that lies exactly that many seconds after the epoch |
| ChronoLite.WalkMonths | crates/mcp-usage-edge/src/mpp.rs:1094-1098 | The month walk stops within December and accounts for every day taken off |
| ChronoLite.WalkYearsExact | crates/mcp-usage-edge/src/mpp.rs:1085-1093 | The year walk accounts for every day taken off |
| ChronoLite.TakeYears | crates/mcp-usage-edge/src/mpp.rs:1085-1093 | The loop computes the walk over years |
| ChronoLite.TakeMonths | crates/mcp-usage-edge/src/mpp.rs:1094-1098 | The loop computes the walk over months and ends with a month up to 12 |
| ChronoLite.FormatSeconds | crates/mcp-usage-edge/src/mpp.rs:1082-1103 | The loops render the specified text |
| ChronoLite.ParseTimestamp | crates/mcp-usage-edge/src/mpp.rs:1105-1128 | The loops read the specified number of seconds, or refuse, on every string |
| ChronoLite.CountDays | crates/mcp-usage-edge/src/mpp.rs:1119-1125 | The two loops count the days from the epoch to the month |
| ChronoLite.FormatOrder | crates/mcp-usage-edge/src/mpp.rs:1082-1103 | Below the year 10000, string order of rendered instants is time order |
| ChronoLite.FormatOrderExactly | crates/mcp-usage-edge/src/mpp.rs:1082-1103 | String order is time order on all seconds before n iff n <= 253402300800 |
| ChronoLite.YearTenThousandSortsFirst | crates/mcp-usage-edge/src/mpp.rs:1099-1102 | The first second of the year 10000 sorts before the last of the year 9999 |
| ChronoLite.RoundTripExactly | crates/mcp-usage-edge/src/mpp.rs:1082-1128 | Reading inverts rendering for exactly the seconds below 253402300800 |
| ChronoLite.TimestampShape | crates/mcp-usage-edge/src/mpp.rs:1099-1102 | The whole text of a timestamp: `YYYY-MM-DDTHH:MM:SSZ`, with a longer year where it needs one |
| ChronoLite.YearTextIsDecimal | crates/mcp-usage-edge/src/mpp.rs:1099-1102 | The year is written in decimal, in at least four digits and no more than needed |
| ChronoLite.ParseOfNumbers | crates/mcp-usage-edge/src/mpp.rs:1105-1128 | A text with six numbers at their places parses to the time they mean, a leap second included, or to nothing where they mean none |
| ChronoLite.NumberFields | crates/mcp-usage-edge/src/mpp.rs:1110-1112 | A field is digits, with at most one plus sign in front |
| ChronoLite.WindowIsNumeric | crates/mcp-usage-edge/src/mpp.rs:953-955 | One parse and one string comparison accept exactly now <= expires <= now + ttl |
| ProtocolVersion.SameMonths | crates/mcp-usage-core/src/version.rs:161-182 | The guard's month table and leap rule are the calendar's |
| ProtocolVersion.ValidTextNamesADate | crates/mcp-usage-core/src/version.rs:150-172 | A string passes iff it is the text of a real calendar day |
| ProtocolVersion.GuardIsChronological | crates/mcp-usage-core/src/version.rs:135-148 | Accepted are exactly the real days from 28 July 2026 on; refused as unvalidated are exactly the earlier ones, as malformed exactly what is no day, and a missing header as missing |
| ProtocolVersion.VersionsOrderByDay | crates/mcp-usage-core/src/version.rs:135-148 | Byte order of accepted versions is chronological order |
| Payments.SlotsDetermineTheChallenge | crates/mcp-usage-edge/src/mpp.rs:224-243 | An echo with the same joined slots that passes the later checks has the same intent, request, expiry, digest, opaque state and header |
| Payments.RedeemedAsIssued | crates/mcp-usage-edge/src/mpp.rs:925-986 | At any time, a credential that passes every check is an issued challenge, for this tenant, identity, amount and body; and, while the compared years have four digits, within its lifetime |
| Payments.IssuedIsRedeemable | crates/mcp-usage-edge/src/mpp.rs:925-986 | An issued challenge passes every check iff tenant, identity, amount and body are those it was issued for and its lifetime is running; the request is then the priced one, and otherwise the error names the first thing that differs |
| Payments.ForeignIsRefused | crates/mcp-usage-edge/src/mpp.rs:940-948 | An altered challenge and one of another realm are invalid; one of another method is unsupported |
| Payments.IdentifierBindsTheDeployment | crates/mcp-usage-edge/src/mpp.rs:224-243 | With bar-free realms and methods, equal identifiers mean equal realm, method, intent and challenge |
| Payments.FarExpiryIsRefused | crates/mcp-usage-edge/src/mpp.rs:953-955 | An issued challenge whose expiry needs a year of five or six digits is always refused as expired |
| Payments.IdentifierNamesOneChallenge | crates/mcp-usage-edge/src/mpp.rs:326-361 | Challenges that share an identifier share nonce, body and amount, and are equal |
| Payments.TenantBindingIsNoChallenge | crates/mcp-usage-edge/src/mpp.rs:861-867 | A tenant binding never verifies as a challenge identifier |
| Payments.IssuedSlots | crates/mcp-usage-edge/src/mpp.rs:878-914 | An issued challenge has no bar inside its slots |
| ReplayStore.ReservationLasts | crates/mcp-usage-edge/src/replay.rs:165-204 | After a successful reservation, whatever other callers reserve and release meanwhile, the key can be reserved again iff its retention is over |
| ReplayStore.OwnReleaseFrees | crates/mcp-usage-edge/src/replay.rs:192-204 | The owner's release makes the key available at once |
| ReplayStore.ReleaseFreesOnlyItsOwn | crates/mcp-usage-edge/src/replay.rs:192-204 | A release removes exactly the entry with its key and owner |
| ReplayStore.InMemoryReplayStore.ReserveKey | crates/mcp-usage-edge/src/replay.rs:165-191 | Zero or unrepresentable retention and a full store are refused, each with its exact effect; otherwise the reservation of the specification |
| ReplayStore.InMemoryReplayStore.ReleaseKey | crates/mcp-usage-edge/src/replay.rs:192-204 | The entries after an owner-checked release |
| SingleUse.StillRetained | crates/mcp-usage-edge/src/mpp.rs:953-955 | A challenge accepted for an attempt cannot outlive an earlier reservation of it |
| SingleUse.SoundStep | crates/mcp-usage-edge/src/mpp.rs:988-1013 | Every step of every instance keeps: of two reservations of one challenge the earlier was rejected |
| SingleUse.SettlesAtMostOnce | crates/mcp-usage-edge/src/mpp.rs:925-1013 | Within the margin no interleaving, crash, lost reply or late release settles a challenge twice |
| SingleUse.SlowReservationReplays | crates/mcp-usage-edge/src/mpp.rs:841-841 | Outside the margin a concrete run settles a challenge twice |
| SingleUse.SingleUseExactly | crates/mcp-usage-edge/src/mpp.rs:841-841 | Retention of twice the lifetime gives single use iff the margin holds |
| SingleUse.CheckedIsAccepted | crates/mcp-usage-edge/src/mpp.rs:946-986 | What passes the checks of a credential is presented only within the window the timing argument uses |
| SseReader.FirstLine | crates/mcp-usage-tower/src/layer.rs:1218-1232 | The borrowed line up to the first break, and the rest after its terminator, are the first line and the remaining lines |
| SseReader.TerminalResponse | crates/mcp-usage-tower/src/layer.rs:1160-1199 | The answer of the media type as written in the header: the parsed body, the specified pass over the lines, or the reason for none |
| SseReader.ReadStream | crates/mcp-usage-tower/src/layer.rs:1178-1198 | The loop over borrowed lines answers what the specified pass over all lines answers |
| SseReader.MediaTypeTolerates | crates/mcp-usage-tower/src/layer.rs:1234-1239 | Surrounding space, letter case and parameters do not change which media type is declared |
| SseReader.EqualUpToCase | crates/mcp-usage-tower/src/layer.rs:1234-1239 | Media types are compared up to the case of ASCII letters and in nothing else |
| SseReader.LastResponseIsAnswered | crates/mcp-usage-tower/src/layer.rs:1178-1216 | The answer is what the last event with a JSON-RPC response says, and there is none iff no event says one |
| SseReader.DataLine | crates/mcp-usage-tower/src/layer.rs:1189-1194 | A data line's value is what follows the field name and any space |
| SseReader.LinesOfJoin | crates/mcp-usage-tower/src/layer.rs:1189-1194 | Joined values split at newlines into themselves |
| SseReader.JoinOfLines | crates/mcp-usage-tower/src/layer.rs:1218-1232 | Splitting a text at newlines loses nothing of it |
| SseReader.NormalisedLines | crates/mcp-usage-tower/src/properties.rs:101-106 | Rewriting terminators and splitting on newlines gives the lines of the single pass |
| SseReader.PayloadIsStripped | crates/mcp-usage-tower/src/layer.rs:1187-1193 | The payload the single pass collects is the buffered one without leading newlines |
| SseReader.EventAgrees | crates/mcp-usage-tower/src/layer.rs:1201-1216 | Both readers take the same response from one event |
| SseReader.ReadersAgree | crates/mcp-usage-tower/src/properties.rs:101-123 | The single pass returns the buffered reader's terminal response on every text |
| Peek.StatusRoundTrip | crates/mcp-usage-core/src/peek.rs:63-103 | Reading a task status and writing it again loses nothing, and each known status is read from its own text |
| Charge.BillsExactlyDelivery | crates/mcp-usage-core/src/charge.rs:338-416 | Billable iff a direct delivery, or a completed poll under an identifier with a known price; with the method, name, units and key of each |
| Charge.AttributionPricesAlike | crates/mcp-usage-core/src/charge.rs:125-130 | The anonymous stored attribution gives the verdict the original call would give, of which the charge keeps only the kind of method |
| Charge.NamedPricesWin | crates/mcp-usage-core/src/price.rs:88-96 | An empty book charges its default, and a named price reaches exactly the calls of that name |
| Charge.MethodPricesReachTheRest | crates/mcp-usage-core/src/price.rs:88-96 | A method's price reaches exactly its calls whose name has none |
| Charge.AttributionKeepsThePrice | crates/mcp-usage-core/src/charge.rs:86-130 | An attribution has its call's price, and names its method again only if that is one of the three that deliver |
| ExchangeEffects.DirectVerdict | crates/mcp-usage-tower/src/layer.rs:810-882 | Over bodies: charged without a key iff an untyped answer of an older client or a complete result, of the right methods |
| ExchangeEffects.TaskVerdict | crates/mcp-usage-core/src/charge.rs:364-393 | Over bodies: charged with a key iff a poll reports a task completed under an identifier whose attribution is at hand |
| ExchangeEffects.FreeVerdict | crates/mcp-usage-core/src/charge.rs:338-416 | Over bodies: why every other exchange is free |
| ExchangeEffects.LegacyDiffersOnlyWherePromoted | crates/mcp-usage-tower/src/layer.rs:810-816 | An older client's verdict is a newer one's except for the promoted answers, which would be free |
| ExchangeEffects.NullErrorIsBilled | crates/mcp-usage-core/src/peek.rs:145-153 | A null error without a result is charged to an older client |
| ExchangeEffects.FinishExactly | crates/mcp-usage-tower/src/layer.rs:801-942 | Terminal accounting has exactly the tabulated effect on store, recorder memory and total, for every body, client and recorder |
| Charge.LegacyPromotionBillsOnlyPricedWork | crates/mcp-usage-core/src/peek.rs:145-153 | The legacy promotion changes the verdict only of bare results of methods that deliver priced work |
| TerminalAccounting.AdvanceConserves | crates/mcp-usage-tower/src/layer.rs:835-933 | No atomic step makes an attribution except where a task is commissioned |
| TerminalAccounting.AttributionsAreConserved | crates/mcp-usage-tower/src/layer.rs:835-933 | Over every interleaving with crashes, evictions, lost replies and failures: stored + held + charged <= commissioned, for each task and price |
| TerminalAccounting.EveryChargeIsOwed | crates/mcp-usage-tower/src/layer.rs:877-902 | In any run, what a worker adds to the recorded units is the price of its direct delivery, or the units of an attribution created for the very task it reports completed |
| TerminalAccounting.UnitsNeverAppear | crates/mcp-usage-tower/src/layer.rs:883-902 | The last step of any run adds nothing to the recorded units, or one amount that is owed |
| TerminalAccounting.TotalIsCovered | crates/mcp-usage-tower/src/layer.rs:835-902 | In any run the recorded units are at most the accepted direct deliveries plus the attributions consumed, and those at most what was created |
| TerminalAccounting.ChargedAtTheCommissionedPrice | crates/mcp-usage-tower/src/layer.rs:877-892 | In any run, a charge for a completed task is for the units resolved when that task was commissioned, under its own key |
| TerminalAccounting.HeldIsChargedOrPutBack | crates/mcp-usage-tower/src/layer.rs:883-933 | In any run, a held attribution is either charged or goes on to be put back, unaltered |
| TerminalAccounting.PutBackRestores | crates/mcp-usage-tower/src/layer.rs:902-932 | In any run, putting back leaves the task with the claimed attribution, unless another instance stored one first, and touches no other |
| TerminalAccounting.UnchargedClaimIsRestored | crates/mcp-usage-tower/src/layer.rs:901-932 | With nobody acting in between, a free verdict or recorder failure leaves the store as it was before the claim |
| ReferenceMeter.Bill | crates/mcp-overbilling/src/meters.rs:112-157 | The loop returns the saturated exact total of the fold |
| ReferenceMeter.FinishIsSettle | crates/mcp-usage-tower/src/layer.rs:801-942 | An undisturbed completion, step by step, has the effect of one combined transition |
| ReferenceMeter.EdgeEqualsMeterExactly | crates/mcp-usage-tower/src/layer.rs:801-942 | If no task is commissioned again after its failure was reported: the edge never invoices more than the reference, and as much iff no task is first delivered after such a report |
| ReferenceMeter.InStepExactly | crates/mcp-usage-tower/src/layer.rs:801-942 | On all traffic, tasks commissioned again included: both totals agree after every exchange iff each first delivery is priced by a standing commission as by the first |
| ReferenceMeter.RebirthInvoices | crates/mcp-usage-tower/src/layer.rs:835-853 | On four exchanges the edge charges the second commission's price and the reference the first's |
| ReferenceMeter.RebirthOverbills | crates/mcp-usage-tower/src/layer.rs:922-932 | Traffic on which the edge invoices more than the reference |
| ReferenceMeter.FinalFailuresSuffice | crates/mcp-overbilling/src/meters.rs:112-157 | If failures are final in the traffic, both invoices are equal |
| ReferenceMeter.LateDeliveryIsUnbilled | crates/mcp-usage-tower/src/layer.rs:922-932 | Three exchanges on which the reference charges and the edge does not |
| ObservedBody.AccountedExactlyOnce | crates/mcp-usage-tower/src/layer.rs:1007-1118 | Every schedule of polls and the drop ends in exactly one of finished, deferred and oversized, on exactly the bytes that passed |
| ObservedBody.AnswersToTheCaller | crates/mcp-usage-tower/src/layer.rs:1067-1110 | Frames, trailers and errors are forwarded untouched, the end once its accounting is over, and accounting ends exactly when it is ready |
| ObservedBody.ObservedBody.BeginCompletion | crates/mcp-usage-tower/src/layer.rs:1007-1018 | Consumes the completion once; an overflow is reported instead |
| ObservedBody.ObservedBody.PollFrame | crates/mcp-usage-tower/src/layer.rs:1067-1110 | The state and answer of one poll |
| ObservedBody.ObservedBody.Release | crates/mcp-usage-tower/src/layer.rs:1038-1058 | The drop runs or hands over whatever accounting is left, and hands over only what did not finish |
| TaskStore.InMemoryTaskStore.InsertTask | crates/mcp-usage-tower/src/task.rs:143-188 | The list gains the association only for a first writer, losing its oldest exactly when full; the loop's break is unreachable; the queue stays within three times the bound |
| TaskStore.InMemoryTaskStore.PopOldest | crates/mcp-usage-tower/src/task.rs:162-174 | One turn of the eviction loop drops the oldest association or a stale queue entry |
| TaskStore.InMemoryTaskStore.Get | crates/mcp-usage-tower/src/task.rs:190-204 | The association of the list |
| TaskStore.InMemoryTaskStore.Claim | crates/mcp-usage-tower/src/task.rs:206-223 | Removes and returns the association, leaving the queue within twice the bound |
| TaskStore.InMemoryTaskStore.RemoveTask | crates/mcp-usage-tower/src/task.rs:225-236 | Removes the association and leaves the queue within twice the bound |
| TaskStore.InMemoryTaskStore.CompactOrderIfNeeded | crates/mcp-usage-tower/src/task.rs:126-139 | Keeps the list and bounds the queue |
| TaskStore.FirstWriterWins | crates/mcp-usage-tower/src/task.rs:143-188 | Seen as a map: the first writer stays, and the one association a full store forgets is its oldest |
| TaskStore.DropForgetsOne | crates/mcp-usage-tower/src/task.rs:206-236 | Seen as a map: claiming or removing forgets that key and no other |
| TaskStore.LiveCount | crates/mcp-usage-tower/src/task.rs:161-174 | As many live queue entries as stored tasks, so a full store has a queue |
| TaskStore.LiveIsDistinct | crates/mcp-usage-tower/src/task.rs:175-186 | A stored task is live in one place of the queue |
| TaskStore.PopFront | crates/mcp-usage-tower/src/task.rs:162-171 | Popping the queue forgets the oldest association if the entry is current, and nothing otherwise |
| ResponseCache.ResponseCache.Get | crates/mcp-usage-tower/src/cache.rs:80-115 | A hit is what the newest call the context may see asked for, in that call's time, its own with sharing off; there is a hit iff one of the two entries is live |
| ResponseCache.ResponseCache.InsertResponse | crates/mcp-usage-tower/src/cache.rs:117-188 | What is stored is what the call asked for, shared only if public where sharing is on and until the shorter lifetime ends; the entries after sweep, supersession, eviction of the oldest when crowded, and insertion; no effect exactly without time to live, room or a representable expiry |
| ResponseCache.ServedWasAskedFor | crates/mcp-usage-tower/src/cache.rs:80-143 | What a context is entitled to, some call it may see asked for: never another context's private call, never after its own lifetime, never past a newer one |
| ResponseCache.PutServesTheNew | crates/mcp-usage-tower/src/cache.rs:180-187 | What was just inserted is served next to its context, and to every context if shared |
| ResponseCache.FindOldest | crates/mcp-usage-tower/src/cache.rs:170-175 | An entry inserted no later than any other |
| ResponseCache.OneScopeAtATime | crates/mcp-usage-tower/src/cache.rs:153-167 | Shared and private entries of one logical key never coexist, so probe order is irrelevant |
| ResponseCache.ServedIsEntitled | crates/mcp-usage-tower/src/cache.rs:99-114 | What either probe serves is the newest visible insertion; without shared insertions it is the caller's own |
| ResponseCache.PutKeepsBacking | crates/mcp-usage-tower/src/cache.rs:145-187 | After an insertion every entry left is still the newest its readers may see |
| ResponseCache.LiveEntriesLeaveOnlyWhenAllAreLive | crates/mcp-usage-tower/src/cache.rs:145-179 | An unexpired entry that is not superseded leaves only as the oldest of a full cache in which every entry is live, and alone |
| ResponseCache.PutFits | crates/mcp-usage-tower/src/cache.rs:168-187 | The cache never exceeds its bound |
| DeferredCompletions.DeferredCompletions.ParkWork | crates/mcp-usage-tower/src/deferred.rs:70-89 | The oldest entry leaves a full queue, losses are counted, and the answer says whether nothing was lost |
| DeferredCompletions.DeferredCompletions.RequeueInFlight | crates/mcp-usage-tower/src/deferred.rs:98-112 | Cancelled work returns to the front; a full queue gives up its newest |
| DeferredCompletions.DeferredCompletions.DrainSome | crates/mcp-usage-tower/src/deferred.rs:138-148 | With nothing parked or cancelled meanwhile, runs the oldest `limit` entries in order and leaves the rest |
| DeferredCompletions.DeferredCompletions.Drain | crates/mcp-usage-tower/src/deferred.rs:155-164 | With nothing parked or cancelled meanwhile, terminates having run everything in order |
| DeferredCompletions.DrainsEnd | crates/mcp-usage-tower/src/deferred.rs:138-164 | However drains interleave with parking, cancellation and panic, they take at most what was queued and came in |
| DeferredCompletions.ParkAnswerExactly | crates/mcp-usage-tower/src/deferred.rs:70-89 | The answer of a park is whether the new work is queued iff the queue is below capacity or has none |
| DeferredCompletions.WorkIsConserved | crates/mcp-usage-tower/src/deferred.rs:70-222 | Over every interleaving with cancellation and panic, parked work is exactly one of completed, queued, in flight and dropped, within the bound |
| DeferredCompletions.ParkDiscardsAtMostOne | crates/mcp-usage-tower/src/deferred.rs:70-89 | One park discards at most the oldest entry, only when full, and the order of the rest is kept |
| DeferredCompletions.CancelledWorkRunsNext | crates/mcp-usage-tower/src/deferred.rs:98-112 | Cancelled work is the next to run, the rest keeps its order, and only a full queue gives up its newest entry for it |

## Left out

- HTTP, Tower, the proxy, TLS, configuration, the main loop, metrics, tracing and rendering: input and output around the decisions modelled here.
- Redis and PostgreSQL: a shared store is its atomic operations with expiry, eviction and lost or failed replies as steps.
- HMAC-SHA-256: a tag determines its input, one tag type stands for the identifier and its base64url text. Signing itself is not computed.
- JSON, base64url, content digests, white space and UUIDs: parameters with the facts stated in `Payments.Ideal` and `SseReader.IgnoresLeadingNewlines`, or fresh numbers. That decoding a base64url tag has one preimage is assumed with them.
- Strings: one character a UTF-8 byte, so that they order as the source orders them; in `SseReader` one character a Unicode scalar, and a body that is not UTF-8 is the `None` of `SseReader.TerminalResponse`.
- `IdealPrimitives` models nothing of the source: `IdealPrimitives.IdealPrimitivesExist` only shows that the assumptions of `Payments` can be met together.
- Clocks: every operation is given its time. `SingleUse` has one clock for all instances, and nothing is said about skew.
- Lock poisoning, memory orderings, and the async bodies of `flush`, `export`, `verify` and `finish`: each locked section, compare-exchange or store operation is one step of a state machine. `MeterEventExporter.Export` takes the awaited reply as an argument.
- The composite exporter, `with_dead_letter_capacity` on a filled queue, and, in `Settlement`, abandoning retry progress: the discipline is about runs without them.
- BillingPipeline.UnitsAreConserved: restarts lose the buffer in memory; the model starts once.
- SingleUse.SettlesAtMostOnce: the store has no capacity here, as refusing for lack of room only prevents settlements; a payment method that answers NotSettled or Insufficient is taken to have settled nothing, and any other error keeps the reservation, as a crash does.
- Payments.RedeemedAsIssued: the lifetime is promised only for times before the year 10000, from which timestamps no longer read back (`ChronoLite.RoundTripExactly`).
- Payments.IssuedIsRedeemable: for times before the year 10000.
- SingleUse.CheckedIsAccepted: each issued challenge is named by one number for the timing model; the map from identifiers to numbers is a parameter.
- ReferenceMeter.EdgeEqualsMeterExactly: supposes that no task is commissioned again after its failure was reported, because otherwise the edge can invoice more (`ReferenceMeter.RebirthOverbills`); `ReferenceMeter.InStepExactly` has no such supposition.
- ReferenceMeter.InStepExactly: for one tenant, modern JSON exchanges, unbounded stores, a recorder that never fails, strictly positive prices, and polls answered for the task they name; a zero price is recorded by neither but remembered only by the reference.
- ReferenceMeter.Bill: prices are keyed by the parsed method rather than its wire name, and the scenario's own parsing is not modelled.
- TerminalAccounting.AttributionsAreConserved: caching of the response at the end of `finish`, and metrics, are not part of the step.
- TaskStore.InMemoryTaskStore.InsertTask: generations are unbounded; the wrap of a 128-bit counter is not modelled.
- ResponseCache.ResponseCache.InsertResponse: a call stopped by a zero lifetime or an unrepresentable expiry is no insertion, so it leaves older entries in place, as the code does; request inspection, cache hints and rendering with a caller's id are left out.
- ObservedBody.ObservedBody.PollFrame: a frame is one contiguous chunk, and the bytes' later meaning is that of `SseReader` and `TerminalAccounting`.
- DeferredCompletions.DeferredCompletions.DrainSome: parking and cancellation during a drain are steps of the interleaving model (`DeferredCompletions.WorkIsConserved`, `DeferredCompletions.DrainsEnd`).
- DeferredCompletions.DeferredCompletions.Drain: the same.
- `ReplayGuard`, challenge headers and receipts, credential parsing, limits and currency conversion, authentication, key grading, the request-counting meters: simple, or outside the decisions above.
