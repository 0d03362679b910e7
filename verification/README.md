# Culprit, verified

Culprit's host process is fed by agent reports and keeps a set of small in-memory state
machines over them: a command queue per agent, rings and hour buckets of activity,
notification lifecycles, watches that say whether an action worked, a store of accounts.
Around them sit a few exact algorithms: a least-squares forecast, interpolated
percentiles, the folding of stored findings into incidents, token encodings, the walk
along a chain of proxies. This project models those parts in Dafny and proves what they
are for.

Each module is one component:

| module | component | main results |
|---|---|---|
| `Scrub`, `SanitiseReport` | report intake, `culprit/nodes.py` | the explicit-stack walk rewrites a tree in the heap exactly as the recursive cleaning does, and rejects exactly the trees nested deeper than the bound |
| `CommandBroker` | command downlink, `culprit/nodes.py` | over any interleaving of submissions, takes, reports, timeouts and cancellations: unique ids, nothing submitted is lost, each command taken once and in order, answered once and only by its own node or the overflow |
| `WearForecast`, `WearStore` | wear, `culprit/wear.py` | the fitted line is the unique least-squares line and the date is exactly where it crosses; while the history records, the memo never changes what the table holds |
| `PulseBaseline`, `PulseJudge`, `PulseBuckets` | rhythm engine, `culprit/pulse.py` | percentile laws, hysteresis for exactly the ratios up to one half, silences that only grow while held, over any sequence of judgements, every sample in exactly one row |
| `Incidents` | history, `culprit/db.py` | the one-pass fold is the unique partition into maximal runs, and the query loses no stored row since the time asked for |
| `RateLimits`, `Notify` | notifications and logins, `culprit/notify.py`, `culprit/auth.py` | sliding-window bounds and the runs that reach them; at most one finding, escalation and resolution per life, resolved only after two minutes of absence |
| `Verdict` | action verdicts, `culprit/verdict.py` | incremental books equal statements about the whole trace; each verdict final over every sequence of calls, and written once if the store is connected when it is given |
| `Accounts` | account store and provider sign-in, `culprit/db.py`, `culprit/auth.py` | referential integrity, uniqueness and an administrator over every run; a sign-in gives the one right answer when nobody interferes; whatever other requests do between its steps it links only a name it has itself created, and removes one only after its link was refused, and that name still means the account it created exactly when no step in between removed it, renamed it away or set its credential |
| `Expectations` | expected-busy annotation, `culprit/expect.py` | annotating a report again leaves no residue, and exactly when the overall severity can remember the past |
| `FleetMap` | fleet graph, `culprit/fleetmap.py` | every socket counted in one place; a connection both ends report adds exactly one to the graph exactly when one of its ports is a listener and the other is not |
| `Tokens` | state cookies and sessions, `culprit/oidc.py`, `culprit/auth.py` | what is issued reads back, and only what is signed for its own content reads |
| `TrustResolve` | forwarding chains, `culprit/trust.py` | no text left of an untrusted address can change the client |
| `Changelog` | version tags, `culprit/changelog.py` | each commit is tagged with the version its own tree held, and exactly when a wrong tip spoils that |

`Prelude` holds the shared vocabulary, `Sorting` the stable sort three components use. Code
that changes state step by step is a class or a method with loops, proved against a
specification function; what the source promises is then proved of that function. States
are values where a whole run is reasoned about, and ghost ledgers record what happened, so
that "every run" is an invariant each method keeps.

Conventions: floats are `real`; the clock is an input that never goes back where a
component needs that; SQLite tables are maps with their key, uniqueness and foreign-key
rules, and writes succeed; HMAC, hashing, JSON, address parsing and local time are
functions given from outside, with the laws a lemma needs written in its `requires`.

## Where the code and its descriptions differ

The model follows the code. These are theorems about it:

- A scalar field with an integer too large for a float is meant to be dropped
  (`culprit/nodes.py:253-278`); the conversion raises instead, and the whole report fails
  (`FateMeaning`, `RaisingExample`, and `SanitiseReport.SanitiseSections`, out-parameter
  `raised`). Text in a scalar field is shortened but not repaired, and the keys of a dict
  are not looked at, so a lone surrogate in either is stored; nothing else the cleaning is
  meant to keep out is (`KeptIsStorable`, `UnrepairedScalarExample`, `UnrepairedKeyExample`).
- The quiet ratio may be set up to 0.9, but a firing line below the recovery line is
  guaranteed exactly up to 0.5 (`HysteresisExactly`).
- An hour row written at shutdown is said to be replaced by the fuller one
  (`culprit/pulse.py:455-458`); from every state with something written it is replaced by
  the later samples only (`MidHourFlushLosesSamples`, `RowMeaning`).
- Folding listeners into one machine item forgets when each began: the next judgement
  counts from the ring again (`FoldForgets`, `AfterFoldFromRing`), so a silence known to
  be older moves later (`FoldMovesSince`).
- The wear memo notes a reading before it is known to be stored (`culprit/wear.py:195-203`),
  and a history that is not recording takes none (`culprit/db.py:874`). A reading skipped
  after recording went off and on within one day may be in no row: a report leaves the
  table as if all of it had been written exactly when what the memo skips is there, so
  always but on such a day (`Wear.Store`, `OffAndOn`).
- "Helped" is said to include a pressure drop by half (`culprit/verdict.py:13-14`); such a
  drop with a finding still active is "partial", and the branch for it cannot be reached
  (`HalvedIsPartial`, `HalvedExample`, and the `assert false` in `Verdict.Watch.Judge`).
- Eight failed logins per five minutes (`culprit/auth.py:191`) hold for logins that come
  one at a time. The limiter is asked before a password is checked, so logins under way
  together can all still fail: the most is seven plus the peak number under way, and every
  peak reaches it (`FailuresBounded`, `PeakIsReached`, `NineInOneWindow`).
- A sign-in links the account it has created, and removes it again if its own link is
  refused, by name (`culprit/auth.py:321-327`), and other requests may come in between.
  The name then still holds the account as created exactly when no operation in between
  removed that account, set its credential or left it under another name (`NameHits`,
  `LinkHits`, `RemovalHits`); for what the callers of a renaming and of a password change
  can produce, exactly when none removes the name or gives it a credential
  (`CallersSpare`). An administrator who deletes and re-creates the name in between
  (`culprit/main.py:928-930`, `culprit/main.py:1012`) has the visitor opened into the
  re-created account (`LinkedToAnother`), or has it removed (`RemovedAnother`); one whose
  creation had looked at the name before shares it with the visitor (`LinkedAndShared`).
- The id of an unrecorded action looks negative but is not, so the guard meant to spare
  the table (`culprit/verdict.py:534-547`, `culprit/verdict.py:639-644`) almost never acts
  (`FallbackIdsAreWritten`). Mostly the lost connection spares it: such a verdict changes a
  row exactly when the store has been connected again by the time it is given and holds a
  row of that number with another verdict (`StrayVerdict`, `StrayExample`).
- The last administrator is protected by a check and a separate statement, and the command
  line is a process of its own beside the web process. When two removals or demotions
  overlap there, none is left exactly when the two were the only administrators
  (`OverlappingDrops`, `RacingRemovals`); the invariant needs each store call to be one step.
- `annotate` takes off what an earlier pass wrote, and may be called on one report any
  number of times (its present callers annotate each report once). Among findings that
  sort alike the order an earlier call left decides which one names the overall severity
  (`OrderRemembered`). It matters exactly when
  one of the gravest and longest-sustained unexpected findings, spelled differently from
  the report's word, could have been put before all that have it (`PastMatters`); when
  those are spelled alike it does not (`NoResidue`).
- A connection both ends of which are listeners is counted by neither end, and one with no
  listener by both (`CountedOnce`, `BothListening`, `NeitherListening`).

## Model

| member | source | states |
|---|---|---|
| Scrub.CleanMeaning | culprit/nodes.py:178-203 | a cleaned tree has the same containers and keys in the same places; of its leaves an integer of 2 to the 63 or more either way is null, a text has a question mark at each surrogate, every other is as it was; so all are storable, and it equals the original exactly when they were |
| Scrub.FixMends | culprit/nodes.py:178-203 | of the items of one container: an integer of 2 to the 63 or more either way becomes null, a text has a question mark at each surrogate, every other item stays |
| Scrub.CleanIdempotent | culprit/nodes.py:178-203 | cleaning twice is cleaning once |
| Scrub.FixedHeapHoldsClean | culprit/nodes.py:178-203 | fixing the items of every container of a tree in the heap leaves exactly the cleaned tree there |
| Scrub.ScanItems | culprit/nodes.py:178-203 | one visit mends one container's leaves in place, item by item as above, and returns its child containers with their depth |
| Scrub.ScrubWalk | culprit/nodes.py:178-203 | the walk terminates, rejects exactly the trees whose container nesting exceeds the bound, and otherwise the heap holds the recursively cleaned tree, every item of every container mended as above, and nothing else changed |
| SanitiseReport.KeptIsStorable | culprit/nodes.py:206-278 | what is kept of a section is storable exactly when a scalar field's shortened text encodes and every key below a kept dict does |
| SanitiseReport.FateMeaning | culprit/nodes.py:253-278 | exactly when a section is kept, skipped, dropped for each reason, or raises: a dict section by its nesting, a scalar field by its kind; it raises for an integer that no double is near |
| SanitiseReport.UnrepairedScalarExample | culprit/nodes.py:253-278 | a lone surrogate in a scalar field is kept unrepaired |
| SanitiseReport.UnrepairedKeyExample | culprit/nodes.py:178-203 | so is one in a key, though every value is fine |
| SanitiseReport.RaisingExample | culprit/nodes.py:253-278 | 2 to the 1024 as "now" makes the conversion raise |
| SanitiseReport.SectionPlaces | culprit/nodes.py:253-278 | a section is in the snapshot exactly when kept, under its name and as its stored tree, in the drop list exactly when dropped, with its reason, and nothing else is in either |
| SanitiseReport.SanitiseOne | culprit/nodes.py:253-278 | the fate of one section and, when kept, the tree stored for it |
| SanitiseReport.SanitiseSections | culprit/nodes.py:253-278 | snapshot, drop list and heap after the loop over all sections, and exactly when the conversion error escapes |
| CommandBroker.IdInjective | culprit/nodes.py:866-881 | no two submissions get the same id, whatever the node names |
| CommandBroker.AnswerScope | culprit/nodes.py:887-906 | the prefix test admits an id exactly for the agent itself or a node named after it and a colon |
| CommandBroker.AnswersOnlyOwn | culprit/nodes.py:887-906 | for colon-free names it admits only the agent's own commands |
| CommandBroker.Partition | culprit/nodes.py:866-913 | each submitted command was delivered, is queued, overflowed or was cancelled, and deliveries followed by the queue are what survives of the submissions, in submit order |
| CommandBroker.TakenJoinsTaken | culprit/nodes.py:883-885 | what a take hands out extends what was taken before, in submit order |
| CommandBroker.RunsAreSound | culprit/nodes.py:866-913 | over any sequence of submissions, takes, reports, timeouts and cancellations every answer stays in scope, every 503 with what overflowed, and nothing queued or overflowed is left waiting unregistered |
| CommandBroker.FatesAreFinal | culprit/nodes.py:866-913 | over any such sequence a taken, overflowed or cancelled command stays so, so none is taken twice |
| CommandBroker.AnswersAreFinal | culprit/nodes.py:887-906 | and an answered or abandoned future never changes again, so none is answered twice |
| CommandBroker.DeliverMeaning | culprit/nodes.py:887-906 | a report completes exactly the awaited commands it may answer, each with its first result |
| CommandBroker.OnlyOwnerAnswers | culprit/nodes.py:887-906 | in any sound state an answer from an agent came from the agent of the command's own node, to that command |
| CommandBroker.OverflowAnswersItsOwn | culprit/nodes.py:866-881 | a 503 means that very command overflowed, and an overflowed command is no longer awaited |
| CommandBroker.FuturesInjective | culprit/nodes.py:866-881 | registered ids have futures of their own |
| CommandBroker.TakeStep | culprit/nodes.py:883-885 | a take keeps the queues, ids and answers in step with the ledger |
| CommandBroker.DropStep | culprit/nodes.py:866-881 | dropping the oldest of a full queue keeps them, and answers it |
| CommandBroker.AppendStep | culprit/nodes.py:866-881 | so does queueing a new command |
| CommandBroker.CancelStep | culprit/nodes.py:908-913 | so does a cancellation |
| CommandBroker.ReplyStep | culprit/nodes.py:887-906 | so does one delivered result |
| CommandBroker.AbandonStep | culprit/main.py:1092-1098 | so does a request that stops waiting |
| CommandBroker.RemoveFromQueues | culprit/nodes.py:908-913 | the cancelled id leaves every queue and empty queues go |
| CommandBroker.Future.SetResult | culprit/nodes.py:887-906 | completes a waiting future with the answer |
| CommandBroker.Broker.Take | culprit/nodes.py:883-885 | returns exactly the node's queue, in order, and empties it; each command still says exactly what was asked for when it was submitted, under its own number |
| CommandBroker.QueuedOrdered | culprit/nodes.py:866-885 | in any sound state each queued command carries what some submission to its node asked for |
| CommandBroker.Broker.PopAndSet | culprit/nodes.py:887-906 | forgets the id and completes its future only if it still waits |
| CommandBroker.Broker.Submit | culprit/nodes.py:866-881 | one more command on the ledger after room was made, its future waiting; the command, last of at most 64 in its queue, has the returned id, the payload's action or else the argument, and exactly the payload's other fields |
| CommandBroker.Broker.MakeRoom | culprit/nodes.py:866-881 | a queue of 64 loses its oldest, any other nothing |
| CommandBroker.Broker.DropOldest | culprit/nodes.py:866-881 | the oldest queued command overflows and its future gets the 503 |
| CommandBroker.Broker.Abandon | culprit/main.py:1092-1098 | the timed-out wait abandons its future unless it is done; nothing else moves |
| CommandBroker.Broker.Register | culprit/nodes.py:866-881 | the new command is last in its queue with a fresh waiting future |
| CommandBroker.Broker.Resolve | culprit/nodes.py:887-906 | a report's results applied in order, within the agent's scope |
| CommandBroker.Broker.Cancel | culprit/nodes.py:908-913 | forgets the future and, if still queued, the command |
| WearForecast.DistinctDays | culprit/wear.py:339-378 | the slope's denominator is positive exactly when two days differ |
| WearForecast.Pythagoras | culprit/wear.py:339-378 | any other line's squared residuals exceed the fit's by the squared distance between the lines |
| WearForecast.LeastSquares | culprit/wear.py:339-378 | no line has a smaller sum of squared residuals, and only the fitted one has as small |
| WearForecast.MissesAdd | culprit/wear.py:339-378 | the fit's residuals are what the rows' readings miss a line by, a day being 86 400 s |
| WearForecast.ForecastMeaning | culprit/wear.py:339-378 | a forecast exists exactly with 14 numbers among the last 90 rows on at least two days; no other line misses those readings by as small a sum of squares; base, count, latest value and whether it rises are theirs |
| WearForecast.CrossingMeaning | culprit/wear.py:339-378 | a date is given exactly when the line rises to the target after the last reading and within ten years, and the line is at the target exactly then |
| WearForecast.UnchangedSince | culprit/wear.py:298-316 | the first day of the run of equal values that ends the record, and whether it is the whole record |
| WearStore.LastReadingWins | culprit/db.py:869-891 | after writing a report a subject's day holds its last reading, other rows are untouched |
| WearStore.Wear.Store | culprit/wear.py:148-205 | of a report's first 256 readings, what is at every key afterwards; recording, the table is as if every reading had been written exactly when what the memo skips is there, so always unless a report came that day without recording; the memo holds the last readings either way, and starts afresh beyond 4000 subjects |
| WearStore.Wear.Changed | culprit/wear.py:189-199 | the loop lets through exactly what the memo did not already hold, and notes every last reading |
| WearStore.ChangedWrites | culprit/wear.py:189-205 | writing what was let through gives the same table as writing everything exactly when every skipped reading is in it |
| WearStore.OffAndOn | culprit/db.py:869-891 | recording off, a report, recording on, the same report: the table stays empty |
| WearStore.Wear.Forget | culprit/wear.py:277-281 | a removed node loses exactly its memo entries, and no row |
| WearStore.Wear.Prune | culprit/wear.py:283-287 | for any cutoff, exactly the rows before it go, and the memo stays right about all days no cutoff has reached |
| PulseBaseline.SortSorts | culprit/pulse.py:1102-1111 | the sorted list is ascending and has the same values |
| PulseBaseline.PctMeaning | culprit/pulse.py:1102-1111 | a percentile lies on the straight line between the two neighbouring values of the sorted data, at its position |
| PulseBaseline.PctOfFew | culprit/pulse.py:1102-1111 | one value is its own every percentile, and no value has 0 |
| PulseBaseline.PctWithin | culprit/pulse.py:1102-1111 | a percentile lies within any bounds of the data |
| PulseBaseline.PctPermutation | culprit/pulse.py:1102-1111 | it does not depend on the order of the data |
| PulseBaseline.PctMonotoneInQ | culprit/pulse.py:1102-1111 | it grows with the quantile |
| PulseBaseline.PctMonotoneInData | culprit/pulse.py:1102-1111 | it grows with the data, pointwise |
| PulseBaseline.PercentilesOrdered | culprit/pulse.py:1114-1157 | a baseline's low percentile never exceeds its median |
| PulseBaseline.BaselineMeaning | culprit/pulse.py:1114-1157 | the mode is decided by how many of the rows have enough samples, and at all or on the weekday; the baseline is told by the hourly means of the first 5 or 35 of those and their active share |
| PulseBaseline.BaselineFromEvidence | culprit/pulse.py:1114-1157 | a baseline comes from hours with enough samples only, in seasonal mode of the one weekday, from enough weeks or days, its percentiles within what those hours did, and usable only when busy enough |
| PulseBaseline.QuietRatioSafe | culprit/pulse.py:91-104 | for every metric and usable baseline and any ratio up to one half the firing line is at most the recovery line |
| PulseBaseline.SteepRatioFails | culprit/pulse.py:1246-1252 | for every larger ratio some usable baseline crosses them |
| PulseBaseline.HysteresisExactly | culprit/pulse.py:1246-1252 | so the lines keep their order for all baselines exactly up to one half |
| PulseJudge.QuietFrom | culprit/pulse.py:1248-1276 | the start of the maximal run of samples below the line that ends the ring |
| PulseJudge.WalkBack | culprit/pulse.py:1248-1276 | the loop finds that start, and is capped exactly when it is the whole ring |
| PulseJudge.JudgeSubject | culprit/pulse.py:1222-1319 | when it speaks at all, fires and clears, and of what it says start, cap, held time and severity, from counts and sums over the ring |
| PulseJudge.JudgedMeaning | culprit/pulse.py:1222-1319 | a judgement of one subject from its ring: the half-hour window with its mean and active share, the firing and recovery lines, the start and cap of the silence, and the busy public listener or long silence that is critical |
| PulseJudge.SinceFromRing | culprit/pulse.py:1248-1276 | without a hint the start is that of the maximal below-line suffix, capped exactly when it is the whole ring |
| PulseJudge.SilenceOnlyGrows | culprit/pulse.py:558-622 | over any sequence of judgements through which a key stays held and unfolded the start never moves later, the held time never shrinks, and critical by duration stays critical |
| PulseJudge.ClearsOnlyOnRecovery | culprit/pulse.py:1222-1246 | with enough samples a held item clears exactly when its recent mean is back at the recovery line |
| PulseJudge.FreshItemHolds | culprit/pulse.py:1222-1319 | with a ratio up to one half and a hold of at least the recovery window an item that just fired is not cleared by the same evidence |
| PulseJudge.MachineItem | culprit/pulse.py:1322-1354 | the first of the machine's own quiet items, None exactly when there is none |
| PulseJudge.FoldKeeps | culprit/pulse.py:1322-1354 | folding loses no item: each is passed on or listed as folded |
| PulseJudge.FoldMeaning | culprit/pulse.py:1322-1354 | exactly when items are folded, which, and that one item of them comes first and the rest follow in order |
| PulseJudge.ItemsComplete | culprit/pulse.py:558-573 | every subject that is not suppressed and has something to say is among the items |
| PulseJudge.JudgementRemembered | culprit/pulse.py:606-622 | what is held and since when is exactly what the items say, the last of a key deciding |
| PulseJudge.HeldSubjectNeverLater | culprit/pulse.py:558-573 | one judgement: a held and unfolded subject stays held and its start never moves later |
| PulseJudge.FoldForgets | culprit/pulse.py:606-622 | a folded item is neither held nor remembered afterwards |
| PulseJudge.AfterFoldFromRing | culprit/pulse.py:558-573 | after a fold the silence counts from the ring again |
| PulseJudge.FoldMovesSince | culprit/pulse.py:558-622 | a silence known since 0 that after one fold begins with its ring |
| PulseJudge.Node.Judge | culprit/pulse.py:505-629 | one judgement of a node: its items after folding, and exactly what is held and remembered |
| PulseBuckets.BucketMeaning | culprit/pulse.py:134-149 | a bucket counts its subject's samples and the active ones, adds up each of their two values, and holds the larger of each |
| PulseBuckets.BucketSums | culprit/pulse.py:134-149 | its counts and sums, each by a recursion of its own |
| PulseBuckets.ActiveIsBusy | culprit/pulse.py:408-422 | a sample is active exactly above its kind's noise floors |
| PulseBuckets.RowMeaning | culprit/db.py:767-786 | a row exists exactly when a batch of its hour had the subject; it is that of the last such batch, complete exactly when no earlier batch of the hour had one |
| PulseBuckets.WrittenWrote | culprit/pulse.py:439-453 | after a write a row stands for each open bucket and the others as before, and no bucket is open |
| PulseBuckets.RowsComplete | culprit/pulse.py:424-452 | without a mid-hour write each row is the bucket of all its hour's samples |
| PulseBuckets.WrittenEqual | culprit/pulse.py:424-452 | the samples written for an hour are exactly those accepted in it |
| PulseBuckets.EverySampleCountedOnce | culprit/pulse.py:408-452 | in any reachable state without a mid-hour flush each accepted sample is in exactly one row or open bucket |
| PulseBuckets.MidHourFlushLosesSamples | culprit/pulse.py:455-465 | from any state in mid-hour: flush, restart or not, take later samples of the hour and turn it, and the row is short by exactly the samples counted before |
| PulseBuckets.FoldStep | culprit/pulse.py:408-422 | accepting a sample keeps buckets, table and record consistent |
| PulseBuckets.WriteStep | culprit/pulse.py:439-453 | so does writing the open buckets |
| PulseBuckets.RollStep | culprit/pulse.py:424-437 | so does the turn of an hour, and no sample is lost |
| PulseBuckets.FlushStep | culprit/pulse.py:455-465 | so does a flush, with rows then only of the last batch |
| PulseBuckets.RingStep | culprit/pulse.py:408-422 | rings stay within 120 samples at least 20 s apart |
| PulseBuckets.Node.Fold | culprit/pulse.py:408-422 | one sample, active exactly above its kind's noise, into its subject's bucket and the end of its ring, or nothing at all |
| PulseBuckets.Node.Ring | culprit/pulse.py:408-422 | a sample is accepted exactly when its gap has passed, or there is room for a new subject, and then ends its ring, cut to the last 120; no other ring changes |
| PulseBuckets.Node.Write | culprit/pulse.py:439-453 | the open buckets become rows of their hour |
| PulseBuckets.Node.Roll | culprit/pulse.py:424-437 | closes the hour when it turns, and then drops exactly the rings not heard of for two hours |
| PulseBuckets.Node.ForgetIdle | culprit/pulse.py:424-437 | exactly the rings not heard of for two hours go |
| PulseBuckets.Node.Flush | culprit/pulse.py:455-465 | writes the open buckets without ending the hour |
| PulseBuckets.Node.ClearRings | culprit/pulse.py:302-324 | a gap or reboot empties the rings and nothing else |
| Incidents.RunsAreMaximal | culprit/db.py:697-744 | the runs concatenate to the rows, link within the gap and cannot be joined |
| Incidents.MaximalRunsUnique | culprit/db.py:697-744 | no other partition does |
| Incidents.SummaryMeaning | culprit/db.py:697-744 | an incident's bounds, bucket count, and peak severity (at least info) at its first occurrence |
| Incidents.SummaryCounts | culprit/db.py:697-744 | how often each name was listed and led |
| Incidents.IncidentTells | culprit/db.py:697-744 | of a whole run: key, start, end, length, latest title, peak, how often each name was listed and led, and whether it goes on |
| Incidents.CountCulprits | culprit/db.py:697-744 | the inner loop counts the first five listed culprits, the first as leading |
| Incidents.AddRow | culprit/db.py:697-744 | one more row for the incident being built |
| Incidents.TakeRow | culprit/db.py:697-744 | a row continues the open incident or closes it and opens one |
| Incidents.FoldRows | culprit/db.py:679-764 | the single pass closes exactly the maximal runs, in order |
| Incidents.BucketsAddUp | culprit/db.py:697-744 | bucket counts add up to the rows |
| Incidents.NewestFirstSorts | culprit/db.py:679-764 | the result is ordered by falling start and loses nothing |
| Incidents.IncidentsSince | culprit/db.py:679-764 | the whole query over the stored rows: range, order, runs, one incident told of each, end filter, order by start, limit |
| Incidents.QueryAnswers | culprit/db.py:679-764 | the query parts the stored rows since two and a half buckets earlier into maximal runs, tells an incident of each, and gives the newest that end in time |
| Incidents.NoRowLost | culprit/db.py:679-764 | every stored row at or after the requested time is spanned by an incident of its key, before the limit |
| RateLimits.RecentIsSuffix | culprit/notify.py:243-256 | pruning an ascending list keeps exactly a suffix |
| RateLimits.PruneKeeps | culprit/auth.py:200-209 | a pruned list still holds every time inside the window |
| RateLimits.SpreadMeaning | culprit/notify.py:243-256 | any run shorter than the window has at most the limit |
| RateLimits.AdmitStep | culprit/notify.py:243-256 | the pruned list is full exactly when 20 were accepted in the last 600 s, and stays right either way |
| RateLimits.Outbox.Enqueue | culprit/notify.py:243-256 | admits a message exactly when fewer than 20 were admitted in the last 600 s, and counts what was refused or found the queue full |
| RateLimits.MessagesBounded | culprit/notify.py:243-256 | any accepted messages within less than 600 s are at most 20 |
| RateLimits.LoginLimiter.Begin | culprit/auth.py:200-234 | a login is refused exactly when 8 failures are inside the window |
| RateLimits.LoginLimiter.Fail | culprit/auth.py:211-213 | records the failure |
| RateLimits.LoginLimiter.Succeed | culprit/auth.py:215-218 | the address starts afresh |
| RateLimits.FailuresBounded | culprit/auth.py:200-234 | within less than 300 s without success an address records at most 8 failures one at a time, 7 plus the peak number under way otherwise |
| RateLimits.PeakIsReached | culprit/auth.py:200-234 | for every peak some course of logins none of which is refused records 7 plus the peak |
| RateLimits.NineInOneWindow | culprit/auth.py:191-209 | two at once give nine failures |
| Notify.MissingMeaning | culprit/notify.py:76-129 | from the recorded time on no diagnosis of the node carried the key |
| Notify.TouchStep | culprit/notify.py:102-123 | touching a finding keeps every life's announcements lawful |
| Notify.ObserveStep | culprit/notify.py:76-129 | after a diagnosis each entry's absence is that of the whole trace |
| Notify.SweepStep | culprit/notify.py:131-148 | a sweep keeps both |
| Notify.ResolvedMeansAbsent | culprit/notify.py:131-158 | "resolved" is said only of a key absent from the active, unexpected findings its node reported in the last 120 s |
| Notify.SweepMessages | culprit/notify.py:153-167 | each due resolution and silence told once, nothing else |
| Notify.Notifier.Observe | culprit/notify.py:76-129 | entries, trace and messages after one diagnosis: with channels, every active, unexpected finding at or above the floor is announced now exactly if it was not in this life, a rise to the floor of an announced one is told, and nothing else is |
| Notify.ObserveTells | culprit/notify.py:96-129 | key by key and from the findings alone: which entries exist, what is on record, and exactly what is announced and said to have escalated in this diagnosis |
| Notify.KeyTells | culprit/notify.py:102-123 | one key: its entry, its record, and exactly when each event is said of it |
| Notify.TouchMeaning | culprit/notify.py:104-123 | exactly when one finding is announced or said to have escalated |
| Notify.Notifier.ObserveFindings | culprit/notify.py:89-129 | one diagnosis without the return of the node and the delivery: entries, trace and what is said |
| Notify.Notifier.Return | culprit/notify.py:79-88 | a node that comes back is announced once, to those who want it |
| Notify.Notifier.TouchFindings | culprit/notify.py:96-123 | the loop over active, unexpected findings and what it says |
| Notify.Notifier.Grace | culprit/notify.py:124-129 | what the diagnosis does not mention starts its absence, once |
| Notify.Notifier.SweepEntries | culprit/notify.py:131-148 | which entries are dropped, cleared and announced |
| Notify.Notifier.SweepNodes | culprit/notify.py:149-152 | which nodes have just gone quiet; going quiet and coming back alternate |
| Notify.Notifier.Sweep | culprit/notify.py:131-167 | a whole sweep: state and exactly its messages |
| Notify.Notifier.Drop | culprit/notify.py:190-199 | forgets one key without a word |
| Notify.Notifier.ForgetNode | culprit/notify.py:201-207 | forgets everything of one node and nothing of others |
| Notify.Notifier.SetIntermittent | culprit/notify.py:182-188 | records the operator's word |
| Verdict.TargetsOf | culprit/verdict.py:72-88 | the watched findings: active and unexpected, only those naming the process if any does |
| Verdict.WantedFrom | culprit/verdict.py:72-88 | the chosen targets are those of the active, unexpected findings, or of the ones among them naming the process, in order |
| Verdict.ClearedMeaning | culprit/verdict.py:104-109 | a key is cleared exactly when absent from the last sample, since its maximal absent suffix began |
| Verdict.CameBackMeaning | culprit/verdict.py:311-323 | recurred holds exactly when some sample lacks the key and a later one has it |
| Verdict.UnitOutcomes | culprit/verdict.py:342-386 | fixed or busy again: every target reads present, then absent to the end; recurred: some came back; no change: none was ever missing |
| Verdict.ProcessOutcomes | culprit/verdict.py:135-215 | helped exactly when no target is active in the last sample; no change exactly when all are and no pressure fell by a fifth |
| Verdict.HalvedIsPartial | culprit/verdict.py:175-203 | a pressure that fell by half while a watched finding is active gives partial, never helped |
| Verdict.HalvedExample | culprit/verdict.py:175-203 | one sample that shows it |
| Verdict.WordsOfKind | culprit/verdict.py:135-519 | every verdict is one word of its kind; moot and unknown exactly without targets and without samples |
| Verdict.DropMeaning | culprit/verdict.py:155-162 | a relative drop of a fifth, in terms of the two pressures |
| Verdict.RelievedMeaning | culprit/verdict.py:155-163 | pressure has eased exactly when on a resource that a watched finding is about it fell by a fifth or more |
| Verdict.BiggestDrop | culprit/verdict.py:155-163 | the loop over the watched resources |
| Verdict.Mark | culprit/verdict.py:311-323 | one sample for the books on one key |
| Verdict.Watch.Observe | culprit/verdict.py:95-111 | the sample is recorded, the books agree with the trace, and the watch closes exactly past both floors |
| Verdict.Watch.MarkAll | culprit/verdict.py:453-465 | the loop over the targets |
| Verdict.Watch.Finish | culprit/verdict.py:128-133 | the first call gives the verdict, later ones change nothing |
| Verdict.Watch.Judge | culprit/verdict.py:135-215 | the branches give the verdict the trace calls for |
| Verdict.Watch.Tally | culprit/verdict.py:165-166 | how many targets are gone and how many came back |
| Verdict.VerdictsAreFinal | culprit/verdict.py:128-133 | over every sequence of starts, frames, sweeps and changes of the connection a verdict once given, and its write, never change |
| Verdict.WrittenWhenGiven | culprit/verdict.py:639-644 | over any such sequence it is written once, exactly when the number is positive and the store connected in the call that gives it |
| Verdict.FallbackIdsAreWritten | culprit/verdict.py:534-547 | the fallback id is never negative, and fails the guard for multiples of two thousand million only |
| Verdict.StrayVerdict | culprit/db.py:1685-1688 | a verdict given in a call changes some row exactly when the store is connected then and holds a row of its number with another verdict |
| Verdict.StrayExample | culprit/db.py:439-445 | an unrecorded action whose verdict replaces that of action 1 after a reconnection |
| Verdict.ActionVerifier.RecordAction | culprit/db.py:1164-1180 | a new row, or 0 without a connection |
| Verdict.ActionVerifier.Start | culprit/verdict.py:534-600 | a new watch enters the table under the recorded or the fallback number, finished and written at once if it has no target; no verdict given before changes |
| Verdict.ActionVerifier.Persist | culprit/verdict.py:639-644 | the row of a verdict with a positive number is set when connected and present, no other row ever |
| Verdict.ActionVerifier.Record | culprit/verdict.py:606-625 | one watch moves on and what it is given is written; all others stay as they are |
| Verdict.ActionVerifier.Observe | culprit/verdict.py:566-609 | a frame reaches exactly the open watches of its node and kind, and each verdict it brings is written as said |
| Verdict.ActionVerifier.Expire | culprit/verdict.py:617-623 | an open watch is closed exactly when past its kind's limit |
| Verdict.ActionVerifier.Sweep | culprit/verdict.py:611-625 | afterwards no overdue watch is open, exactly those kept long enough are forgotten, and each verdict it brings is written as said |
| Accounts.StepSound | culprit/db.py:289-322 | every operation keeps the foreign keys and one subject per provider |
| Accounts.StepKeepsAdmin | culprit/db.py:1261-1282 | none takes the last administrator away |
| Accounts.AccountStays | culprit/db.py:1242-1304 | an account lives until removed; only a role change moves its role, only a reset or a sentinel's rotation its credential |
| Accounts.AccountsComeFrom | culprit/db.py:1366-1378 | only the operations that create accounts, or a renaming, bring a name to life |
| Accounts.KeyStays | culprit/db.py:303-322 | an API key stays with its owner, through renames, until it or the owner is removed |
| Accounts.AdminPersists | culprit/db.py:1261-1282 | over every run, once an administrator exists one always does |
| Accounts.OverlappingDrops | culprit/db.py:1261-1282 | two removals or demotions of different administrators that overlap between check and statement both pass, and leave none exactly when those two were all |
| Accounts.RacingRemovals | culprit/db.py:1261-1282 | two administrators and two such operations that leave none |
| Accounts.ClaimStays | culprit/db.py:1366-1496 | a claimed subject stays with its account through any operation but unlinking or removal, and is then free |
| Accounts.ClaimPersists | culprit/db.py:1366-1496 | over any run without those the subject opens that account, renamed or not, and no other |
| Accounts.LaterSignIn | culprit/auth.py:284-294 | so a later sign-in by the subject finds the same account |
| Accounts.TraceIsRun | culprit/db.py:1242-1304 | the states a store went through are those of the run of its log |
| Accounts.CountFindsLast | culprit/db.py:1256-1269 | counting administrators tells whether this one is the last |
| Accounts.History.AddUser | culprit/db.py:1242-1254 | a new account has the role and password asked for; for one there is, the password changes and the role stays; nothing else changes |
| Accounts.History.RemoveUser | culprit/db.py:1261-1269 | removes the user and all that hangs on it, or refuses |
| Accounts.History.SetRole | culprit/db.py:1271-1282 | the role afterwards, refused for the last administrator |
| Accounts.History.SetPassword | culprit/db.py:1289-1293 | the password given, the role kept, for an existing user only |
| Accounts.History.RotateLoginKey | culprit/db.py:1387-1397 | a new sentinel exactly where there is no password |
| Accounts.History.Rename | culprit/db.py:1299-1304 | renames with all references, refused for a name in use |
| Accounts.History.IdentityUser | culprit/db.py:1399-1405 | the one account the subject opens |
| Accounts.History.LinkIdentity | culprit/db.py:1415-1429 | binds exactly when user, slot and subject are free for it |
| Accounts.History.PrelinkIdentity | culprit/db.py:1431-1447 | a pending address, never over a claimed identity |
| Accounts.History.PendingIdentity | culprit/db.py:1471-1481 | the oldest unclaimed pre-link of the address |
| Accounts.PendingMeaning | culprit/db.py:1471-1481 | a pre-link of the address is a row without a subject that names it, and the chosen one is the oldest of those |
| Accounts.History.ClaimIdentity | culprit/db.py:1449-1469 | the pending row takes the subject |
| Accounts.History.AddIdentityUser | culprit/db.py:1366-1378 | a new account without a password, never an existing one |
| Accounts.History.TouchIdentity | culprit/db.py:1483-1491 | address and display name are brought up to date; who opens what stays |
| Accounts.History.UnlinkIdentity | culprit/db.py:1493-1496 | removes exactly that slot |
| Accounts.History.AddApiKey | culprit/db.py:1517-1534 | a key of the owner and the role asked for, exactly for an existing user and a new id |
| Accounts.History.RemoveApiKey | culprit/db.py:1555-1562 | the key goes, with an owner given only if it is that owner's |
| Accounts.FirstFree | culprit/auth.py:438-445 | the first free numbered name, None exactly when all are taken |
| Accounts.DeriveUsername | culprit/auth.py:426-445 | the cleaned name if free, else the lowest free number from 2 to 20, else a random suffix |
| Accounts.DerivedMeaning | culprit/auth.py:426-445 | the derived name: the base if nobody has it, else with the lowest free number from 2 to 20, else with the suffix |
| Accounts.Auth.Recognise | culprit/auth.py:284-308 | a linked subject opens its account whatever others do; when nobody interferes a vouched visitor gets the oldest pre-link of the address, the refusals come exactly under their guards, and anybody else leaves the store as it was |
| Accounts.Auth.Welcome | culprit/auth.py:290-294 | a linked visitor's row is freshened, still linked |
| Accounts.Auth.ClaimPending | culprit/auth.py:295-308 | the pre-linked half of that |
| Accounts.Auth.Gate | culprit/auth.py:309-317 | who may create an account, and exactly when each refusal is given |
| Accounts.Auth.CreateTwice | culprit/auth.py:317-333 | when nobody interferes: a free derived name becomes a new account claimed by the subject, with the operator's role and no password; else nothing changes |
| Accounts.Auth.Create | culprit/auth.py:317-333 | one turn of the creation loop |
| Accounts.Auth.Attempt | culprit/auth.py:319-332 | the same for one name: taken changes nothing, free makes the account and links it |
| Accounts.Auth.LinkNew | culprit/auth.py:321-332 | links the name this request just created, or gives way if that is refused; its writes name nothing else |
| Accounts.Auth.LinkOwn | culprit/auth.py:321-324 | the link itself, given when user, slot and subject are free |
| Accounts.Auth.GiveWay | culprit/auth.py:325-332 | the link was refused: the name this request created is removed, and the account the subject has is the answer |
| Accounts.Auth.Undo | culprit/auth.py:325-327 | that removal is made, of a name this request created and whose link was refused |
| Accounts.Auth.SignIn | culprit/auth.py:284-333 | whatever other requests do: an opened account was linked to exactly this subject during the call, and all this request wrote is what the operator allowed, linking only a name it had created and removing such a name only after its own link of it was refused, and each name it created it linked or removed; when nobody interferes: the one right answer and state |
| Accounts.NameHits | culprit/auth.py:317-332 | whatever came in between, the name of a created account holds it as created exactly when nothing in between removed it, set its credential or left it under another name |
| Accounts.CallersSpare | culprit/main.py:748-762 | for renamings and password changes that prove the present password first, exactly when nothing in between removes the name or gives it a credential |
| Accounts.LinkHits | culprit/auth.py:321-324 | a link that takes effect opens the account of that name to the subject: the one created exactly under that condition |
| Accounts.RemovalHits | culprit/auth.py:325-327 | a removal takes the account of that name: the one created exactly under that condition |
| Accounts.LinkedToAnother | culprit/auth.py:317-324 | deleted and re-created in between by others, the name opens their administrator account to the visitor |
| Accounts.LinkedAndShared | culprit/main.py:928-930 | given a password in between by a creation, the linked account opens with that password too |
| Accounts.RemovedAnother | culprit/auth.py:325-327 | the subject linked elsewhere in between as well, the refused sign-in removes the re-created account |
| Accounts.Auth.LinkAccount | culprit/auth.py:334-349 | success means the subject opened this account; a subject in use is refused without a write; only this account's slot is written; when nobody interferes: refused exactly when the slot is claimed or the user is gone |
| Accounts.Auth.LinkFree | culprit/auth.py:341-349 | the same once the subject is known to be nobody's |
| Accounts.Auth.DropPending | culprit/auth.py:342-345 | a pending pre-link gives up its slot |
| Accounts.Auth.Bind | culprit/auth.py:346-349 | linked exactly when the user exists, slot and subject being free |
| Expectations.WindowMeaning | culprit/expect.py:291-314 | active: the window last began on a day it applies to and is not over; overrun: it is not, and one that applied ended today less than 30 minutes ago; for every row, with a window or without |
| Expectations.OverrunMinutes | culprit/expect.py:291-326 | an overrun is reported with the minutes since the window closed, fewer than 30 |
| Expectations.FirstMeaning | culprit/expect.py:198-221 | the first row of the list that applies in a state |
| Expectations.Match | culprit/expect.py:198-221 | an active row anywhere beats an overrun one before it; else the first overrun; else none; a row applies by key, node or star, and culprit |
| Expectations.MatchedChosen | culprit/expect.py:198-221 | the chosen row is the first active one that applies, else the first overrun one, and none exactly when no row applies |
| Expectations.MarkedTwice | culprit/expect.py:239-255 | marking again forgets the first marking exactly, unless a finding without severity was expected then and is not now |
| Expectations.MarkOne | culprit/expect.py:239-255 | one finding restored, and marked with what its row says |
| Expectations.MarkedRightly | culprit/expect.py:239-255 | each field of a finding after marking, from the row chosen for it |
| Expectations.Report.MarkFindings | culprit/expect.py:236-255 | the loop that rewrites the findings in place and counts the expected |
| Expectations.Report.Annotate | culprit/expect.py:223-276 | findings, severity and count after one call, each told from the findings before it and the list |
| Expectations.AnnotatedRightly | culprit/expect.py:223-276 | the findings afterwards are a reordering of the marked ones, gravest and longest-sustained first and otherwise in their order; the severity is that of the first unexpected one, or ok; the count is how many are expected |
| Sorting.SortBag | culprit/expect.py:256-260 | sorting loses and adds nothing |
| Sorting.SortOrdered | culprit/expect.py:256-260 | and puts the list in order, for any total order |
| Sorting.SortStable | culprit/expect.py:256-260 | those that may stand either way keep the order they came in |
| Expectations.WorstMeaning | culprit/expect.py:261-265 | the overall severity is that of a gravest unexpected finding |
| Expectations.SeverityIsLead | culprit/expect.py:256-265 | the overall severity is the spelling of the first of the gravest and longest-sustained unexpected findings |
| Expectations.NoResidue | culprit/expect.py:223-276 | after any calls on one report the findings, the expected count and (when those foremost findings are spelled alike) the severity are those of one call on the original with the latest time and list |
| Expectations.PastMatters | culprit/expect.py:223-276 | some earlier calls change the severity exactly when one of the foremost, spelled differently, is ahead of or can be told by a list from each that has the report's word |
| Expectations.OrderRemembered | culprit/expect.py:256-265 | two findings and an earlier call that show it |
| FleetMap.OwnerMeaning | culprit/fleetmap.py:82-85 | an address belongs to the first node that has it |
| FleetMap.IndexAddresses | culprit/fleetmap.py:82-85 | the index gives that owner |
| FleetMap.SocketAdds | culprit/fleetmap.py:91-122 | a reported socket adds one to the connections of all edges exactly when it leads to another node from a port that is no listener |
| FleetMap.CountedOnce | culprit/fleetmap.py:101-122 | a connection both ends report adds to the connections of all edges one for each of its two ports that is no listener of its node |
| FleetMap.BothListening | culprit/fleetmap.py:115-120 | a connection counted nowhere |
| FleetMap.NeitherListening | culprit/fleetmap.py:115-120 | a connection counted twice |
| FleetMap.EdgeKeysDiffer | culprit/fleetmap.py:230-236 | edge keys tell edges apart whatever the process is called |
| FleetMap.EdgeCounts | culprit/fleetmap.py:236-264 | an edge's connection and stall counts |
| FleetMap.EdgeRoundTrips | culprit/fleetmap.py:253-258 | its longest round trip and shortest minimum |
| FleetMap.EdgeQueues | culprit/fleetmap.py:260-264 | its fullest queues |
| FleetMap.EdgesSumUp | culprit/fleetmap.py:230-264 | an edge exists exactly where a connection leads and sums up all of them |
| FleetMap.SocketsAccounted | culprit/fleetmap.py:91-122 | edge connections, external connections and server-side skips add up to the eligible sockets |
| FleetMap.DegreesMatch | culprit/fleetmap.py:129-131 | edges in and edges out both add up to the number of edges |
| FleetMap.FleetMap.Take | culprit/fleetmap.py:101-122 | one socket goes to its one place |
| FleetMap.FleetMap.TakeNode | culprit/fleetmap.py:91-122 | one node's sockets |
| FleetMap.FleetMap.Build | culprit/fleetmap.py:80-131 | the graph of all online, readable nodes: every edge and peer with the counts, sums and extremes of exactly its own sockets; rates against the last build, and the retransmit record |
| FleetMap.GraphIsRight | culprit/fleetmap.py:91-264 | over any list of reported sockets each edge and external peer has the counts, sums and extremes of exactly the sockets that lead there, and exists when there is one |
| FleetMap.PlaceIs | culprit/fleetmap.py:101-122 | exactly when a socket makes an edge, an external peer, or is left to its peer |
| FleetMap.ReportsAreSockets | culprit/fleetmap.py:91-101 | the loop and the definition go through the same sockets in the same order |
| FleetMap.FleetMap.FinishEdges | culprit/fleetmap.py:266-273 | rates against the last build, and the new record |
| FleetMap.RateIs | culprit/fleetmap.py:266-273 | a rate exists exactly a second or more after the last build, and is the growth per second |
| Tokens.BytesOfSextets | culprit/oidc.py:275-280 | four sextets hold three bytes and give them back (section 4 of RFC 4648) |
| Tokens.Base64Meaning | culprit/oidc.py:275-276 | the text spells the bytes' bits, 24 at a time and zeros to fill, in the URL-safe alphabet without padding (sections 4 and 5 of RFC 4648) |
| Tokens.Unb64Meaning | culprit/oidc.py:279-280 | a text in the alphabet reads as the bytes it spells, and not exactly when a lone character is left over |
| Tokens.Base64RoundTrip | culprit/oidc.py:275-280 | decoding undoes encoding for every byte string, the padding put back is what was stripped (sections 3.2 and 5 of RFC 4648) |
| Tokens.StateRoundTrip | culprit/oidc.py:289-312 | a signed payload reads back exactly when it fits, has a state and has not expired, given the encoding's law for that payload |
| Tokens.ReadMeaning | culprit/oidc.py:295-312 | each answer and each refusal is given in its own case of what the cookie holds |
| Tokens.OnlySignedStatesRead | culprit/oidc.py:295-312 | whatever reads carries, after its last dot, the signature of the very body its payload is decoded from, has a state and has not expired |
| Tokens.LawfulExists | culprit/oidc.py:275-312 | the law can be met |
| Tokens.SessionRoundTrip | culprit/auth.py:161-188 | a session opens its account until it expires, colons in the name or not |
| Tokens.OnlyIssuedSessionsOpen | culprit/auth.py:170-188 | a cookie opens an account exactly when it is the name, an expiry still to come and that account's signature over both |
| Tokens.LawfulKeysExist | culprit/auth.py:161-188 | the law sessions need can be met |
| Tokens.BodiesDiffer | culprit/auth.py:161-188 | no other name or expiry has the same signed body |
| Prelude.IntTextMeaning | culprit/auth.py:161-168 | a number is written in decimal digits without a leading zero that read as it |
| TrustResolve.StripPortMeaning | culprit/trust.py:290-298 | for every text: what is between brackets, else what is before a single colon, else all of it, white space around it gone |
| TrustResolve.AddressMeaning | culprit/trust.py:221-230 | a text reads as the address left without white space and brackets |
| TrustResolve.Walk | culprit/trust.py:349-360 | the loop over the hops, from the right |
| TrustResolve.WalkMeaning | culprit/trust.py:349-360 | the client is the first hop from the right that is no trusted proxy, or the last proxy before an unreadable hop or the end, and no other |
| TrustResolve.LeftIsIgnored | culprit/trust.py:346-360 | nothing left of an untrusted address counts |
| TrustResolve.SplitJoins | culprit/trust.py:341-341 | a comma splits a header in two independent parts |
| TrustResolve.SplitMeaning | culprit/trust.py:341-341 | the parts hold no comma and give the header back, joined by commas |
| TrustResolve.ChainMeaning | culprit/trust.py:338-345 | which header the hops come from, and one hop for each of its parts that is not blank, in order |
| TrustResolve.Resolve | culprit/trust.py:316-360 | client, proxy flag and refusal for one request, told from the headers and the declared networks |
| TrustResolve.ResolvedMeaning | culprit/trust.py:316-360 | refused exactly when an undeclared peer sends forwarding headers; through a proxy exactly when a declared one does; the client then is where the walk over the named chain stops, and else the peer |
| TrustResolve.ClientIsVouchedFor | culprit/trust.py:316-360 | the client is the peer or an address with only trusted proxies to its right; headers from anyone else are refused |
| TrustResolve.SpoofProof | culprit/trust.py:339-360 | any text, a comma, an untrusted address and trusted hops resolve to that address |
| Changelog.ReadDiff | culprit/changelog.py:104-113 | the version on the last removed and on the last added line of a diff |
| Changelog.Bumps | culprit/changelog.py:95-114 | that for every commit of the file's log |
| Changelog.BumpsRead | culprit/changelog.py:95-114 | a commit is in the table exactly when the log has it, with what its last record says |
| Changelog.Parse | culprit/changelog.py:117-151 | one entry for each whole record, in order: tagged with what its own diff added, else with what the nearest newer commit that names a version removed or else added, else with the tip |
| Changelog.ParseRecords | culprit/changelog.py:117-151 | the loop that carries the version through the log |
| Changelog.CarriedIs | culprit/changelog.py:120-151 | what is carried past any number of commits |
| Changelog.EntryAt | culprit/changelog.py:117-151 | each entry alone, from its bump and what was carried to it |
| Changelog.TaggedWithOwnVersion | culprit/changelog.py:120-151 | in a linear history each commit is tagged with the version its own tree held, else the nearest newer one, else the tip's |
| Changelog.TipRules | culprit/changelog.py:120-151 | a commit whose tree held a version is tagged with it exactly when the log has named one by then or the tip is that version; with the tip's otherwise |

## Left out

- Scrub.ScrubWalk: starts from an object and a tree without sharing, as its only caller and a JSON parser give it.
- SanitiseReport.SanitiseSections: which section names are known is taken from the two constant sets; the findings about versions and sizes around the loop are not modelled.
- CommandBroker.Broker.Submit: a payload carries no `id` of its own; none of the callers passes one (`culprit/main.py:1113-1307`).
- CommandBroker.Broker.Resolve: results are delivered without the log lines.
- WearForecast.ForecastMeaning: the rounding of the slope and the day-count label of the fit are not modelled.
- WearStore.Wear.Store: rows arrive as readings, and the history is ready; how counters are picked out of a report is not modelled.
- PulseJudge.Node.Judge: timer items are inputs, and titles, sentences and run statistics are not modelled.
- PulseBuckets.Node.Write: rows hold the sums before rounding.
- Incidents.IncidentsSince: SQLite may give stored rows of one key and time in any order, the model keeps the stored one; the ranking of the five names of an incident and the actions joined to it are not modelled.
- RateLimits.FailuresBounded: speaks of the password bucket; in the provider bucket an unreadable cookie is recorded before the limiter is asked (`culprit/auth.py:249-257`), so nothing bounds it.
- Notify.Notifier.Sweep: the order of messages within a sweep, and the sentences, are not modelled.
- Verdict.Watch.Judge: outcome words only; texts, elapsed time, the next candidate and the notes are not modelled.
- Verdict.ActionVerifier.Start: unit targets are given; which items name a unit is not modelled, and a watch whose id is taken over by another is recorded as displaced.
- Accounts.Auth.SignIn: each store call is one step; addresses and names arrive stripped, lower-cased and cleaned, and whether a domain is listed is an input. The one right answer is stated for a non-empty subject, the only kind an identity has.
- Accounts.NameHits: the sentinel of a new account is random; that nobody else has or gets the same is a hypothesis.
- Accounts.History.AddApiKey: names, hashes and expiry of a key, and its effective role, are not modelled.
- Expectations.Report.Annotate: list entries that are not objects and sustain counts that are not numbers make the source raise when it sorts; they are not modelled, nor are headline and status.
- FleetMap.FleetMap.Build: how an address text splits, health joined from findings, chains, notes and the cut at 40 external peers are not modelled.
- Tokens.Base64RoundTrip: the decoder is modelled for text in the alphabet with its proper padding; Python's also skips foreign characters.
- TrustResolve.Resolve: host, scheme, allowed host names and the parsing of a Forwarded header are not modelled.
- Changelog.TaggedWithOwnVersion: is about a linear log; with merges the next record need not be the parent.
- HTTP routes, streaming, delivery of notifications, provider and git processes: plumbing over the cores above.
- `coroner`, settings validation, `sampler`, `state`, `util`, `portnames`: branch tables a reading settles, or easier members of the same kind.
- Expectation suggestions: local-time heuristics over incidents.
- Blast radius of an action: a filter over the fleet graph.
