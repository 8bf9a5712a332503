# Trading dashboard backend: a verified model

A Dafny model of the stateful core of the backend in `backend/`: the audit of booked
fills against the broker's, the coverage-gap walk, the gate telemetry codec and
aggregate, the alert engine with its scheduler and event gate, the execution window, the
account registry with its store addressing and cross-book guard, the shadow put sleeve's
store, and the deadline-bounded retry loop.

`dafny verify dfyconfig.toml` checks everything.

## How it is built

| source | specification and code | theorems |
|---|---|---|
| `history_audit.py` | `history_audit`, `groups`, `broker_rows`, `history_report` | `match_theorems`, `history_report`, `broker_rows` |
| `coverage_gaps.py` | `runs`, `coverage_gaps` | `runs`, `coverage_gaps` |
| `gate_telemetry.py` | `gate_codec`, `gate_aggregate`, `gate_store`, `day_store` | `gate_manifest`, `gate_roundtrip`, `gate_meaning`, `gate_stored`, `gate_store`, `gate_history`, `day_store` |
| `alerts.py` | `alerts` | `alert_theorems` |
| `event_runner.py` | `event_runner` | `event_runner` |
| `alert_scheduler.py` | `alert_scheduler` | `scheduler_theorems` |
| `execution_gate.py`, `session.py` | `execution_gate` | `execution_gate` |
| `accounts.py`, `backups.py` | `accounts`, `store_paths` | `account_theorems`, `account_meaning`, `account_ids`, `account_runs`, `store_paths` |
| `cross_book.py` | `cross_book` | `cross_book_guard` |
| `csp_dry_powder.py` | `csp_dry_powder`, `day_store` | `csp_theorems` |
| `fetch_budget.py`, `alpha_vantage.py` | `fetch_budget`, `alpha_vantage` | `fetch_budget`, `alpha_vantage` |

Code that loops or changes state is a method with loops or a class with fields, proved
equal to a function; the theorems are about that function, over every input or over every
sequence of operations. `common`, `strings`, `bags` and `sorting` hold what the others
share.

Times are integers (minutes, microseconds or day numbers, as each file says), prices and
money are integers in a unit small enough to be exact, except in the fill audit and the
retry loop, which use reals. Provider answers, broker feeds, calendars, closes, evaluator
results and whether a run succeeds are parameters.

## What the code does not do

Where the code falls short of what its comments promise, the model follows the code, a
lemma shows the failure, and another says when the promise is kept.

- Alert ids come from the trimmed log's length, so past the cap they repeat and resolving
  one alert can mark another's entry (`AlertTheorems.RunBreaksAgreement`). The ids run 1..n
  exactly until then (`AlertTheorems.IdsRunExactlyUntilCap`), and so long the log and the
  active set agree.
- Unarchiving a book does not check that its broker number is still free
  (`AccountRuns.ReuseCollides`). Every other update keeps numbers distinct
  (`AccountTheorems.UpdateKeepsNumbersExactly`), as do creating and deleting.
- A label whose slug has 31 or 32 characters can be used only once, because the suffix
  that should make the id unique is cut off (`AccountIds.LongNameCannotRepeat`, and
  `AccountIds.DerivationFailsExactly`).
- A signal that rises while the event gate is rate-limited is lost rather than postponed,
  for as long as it stays up (`EventTheorems.SuppressedEdgeIsLost`, and
  `EventTheorems.EarningsAreLost` for a run). A flip is acted on exactly when neither limit runs
  (`EventTheorems.FlipIsGivenUnlessHeld`, and `EventTheorems.GivenExactly` over runs).
- A back-off is also slept when no try can follow it: after the last try
  (`AlphaVantage.ThrottleSleepsForNothing`), and up to the deadline when it is clamped there
  (`AlphaVantage.LastSecondIsSlept`). A back-off is used exactly when a try is left and it
  ends before the deadline (`AlphaVantage.BackOffIsUsedExactly`), and
  `AlphaVantage.WaitsForNothingExactly` says which calls end with one that is not.
- Pass two of the fill match can pair one fill where two were possible
  (`MatchTheorems.GreedyIsNotBest`). It never does worse than half, and is best on
  everything drawn from the fills at hand exactly when none of them can take another's only
  chance for no better date (`MatchTheorems.GreedyIsBestExactly`).
- Restoring a voided execution asks no cross-book guard, so a fill that another book has
  adopted meanwhile is in two books (`CrossBookGuard.RestoreDuplicates`). Books stay disjoint
  exactly when no restore brings back an id another book carries
  (`CrossBookGuard.DisjointExactlyWhenClear`).
- `executable_at` may name an instant at which the action is still blocked, when a session
  is shorter than the action's minimum plus the blackout, and only then
  (`ExecutionGate.ShortSessionBreaksThePromise`, `ExecutionGate.PromiseKeptExactly`). The
  shipped settings, which are constants, leave room on every session.

## Model

| member | source | states |
|---|---|---|
| `HistoryAudit.Take` | backend/history_audit.py:199-204 | the first free fill that passes the test is removed and returned; otherwise the free list is untouched |
| `HistoryAudit.DirectHit` | backend/history_audit.py:207-212 | the first free fill that shares the transaction id, if any; only then the first that agrees on order id while compatible; no hit means no free fill does either |
| `HistoryAudit.Candidates` | backend/history_audit.py:220-221 | exactly the free fills that agree on key, quantity and date slack |
| `HistoryAudit.Nearest` | backend/history_audit.py:225 | a candidate no other candidate is nearer in days than (the first of them: `NearestIsFirst`) |
| `HistoryAudit.NearestIsFirst` | backend/history_audit.py:225 | the chosen one is the first of the nearest: each one before it is farther |
| `HistoryAudit.PairDirectly` | backend/history_audit.py:206-216 | the first loop, on a shrinking free list, gives pass one of the specification |
| `HistoryAudit.MatchFills` | backend/history_audit.py:190-227 | both loops together give the specification, about which the rows below speak |
| `MatchTheorems.MatchPartitions` | backend/history_audit.py:190-227 | pairs and leftovers together are exactly the book fills and exactly the broker fills, as multisets: nothing is lost or used twice |
| `MatchTheorems.MatchIsMaximal` | backend/history_audit.py:190-227 | no leftover book fill and leftover broker fill share a transaction id, an order id while compatible, or a key |
| `MatchTheorems.StrongestEvidenceFirst` | backend/history_audit.py:191-195 | between the passes: every pair rests on evidence, and a key pair is made only for a book fill that has no direct evidence for any fill still unpaired |
| `MatchTheorems.TransactionFirstInMatch` | backend/history_audit.py:191-193 | within pass one too: the book fill of a pair that shares no transaction shares one with no fill left over and with no fill of a later pair |
| `MatchTheorems.PassOneInOrder` | backend/history_audit.py:206-216 | a further book fill adds its own direct hit among the fills still free, or itself as a leftover, and changes nothing decided before |
| `MatchTheorems.PassTwoInOrder` | backend/history_audit.py:218-227 | the same of pass two: it takes the first of the nearest of the fills that share its key and are still free |
| `MatchTheorems.MatchMeans` | backend/history_audit.py:172-227 | in the fields' terms: pairs are of one transaction, of one order and instrument, or of one instrument and quantity at most three days apart, strikes within half a cent; no leftover of one side is any of these with one of the other |
| `MatchTheorems.GreedyWithinTwo` | backend/history_audit.py:218-227 | any one-to-one key matching of the same fills has at most twice as many pairs as pass two makes |
| `MatchTheorems.MatchWithinTwo` | backend/history_audit.py:190-227 | the same bound for the fills that pass one leaves behind in a whole match |
| `MatchTheorems.GreedyLosesOne` | backend/history_audit.py:220-227 | for every such quadruple of fills, the nearest-date rule pairs one where two were possible: the factor two is reached |
| `MatchTheorems.GreedyIsNotBest` | backend/history_audit.py:220-227 | such fills exist |
| `MatchTheorems.GreedyIsBest` | backend/history_audit.py:218-227 | where no fill can take another fill's only chance for no better date, no key matching has more pairs than pass two makes |
| `MatchTheorems.GreedyIsBestExactly` | backend/history_audit.py:218-227 | that condition is exact: it holds if and only if pass two is never outdone on any fills drawn, in any order, from those at hand |
| `MatchTheorems.NearerIsSafe` | backend/history_audit.py:220-227 | the date is part of the condition: of four fills in that shape whose contested one sits nearer to the other, pass two pairs both, in every order |
| `MatchTheorems.MatchIsBest` | backend/history_audit.py:190-227 | the same for a whole match, over the fills that pass one leaves |
| `BrokerRows.SumRows` | backend/history_audit.py:123-160 | one pass over the legs fills a dictionary whose rows are the sums of exactly their own legs, keyed in order of first appearance |
| `BrokerRows.BrokerFills` | backend/history_audit.py:123-169 | the finished rows, in that order: strike keys in cents, quantities to the unit and prices to four digits, a half to the even neighbour |
| `BrokerRows.SumMeans` | backend/history_audit.py:142-160 | a row holds the ids of its legs in feed order, their exact total quantity and their earliest day |
| `BrokerRows.RowLegs` | backend/history_audit.py:128-144 | each row is made of all the legs like its first one, in feed order: audited in the window and not puts, of one order or else one transaction, one action, one name and, for options, one strike to the cent and one expiration |
| `BrokerRows.RowMeans` | backend/history_audit.py:145-160 | a finished row has its first leg's order and instrument, its legs' transactions in order and their earliest day |
| `BrokerRows.RowFigures` | backend/history_audit.py:155-168 | its quantity is the rounded sum of its legs' absolute amounts, and its price their weighted average over the priced ones to four digits, none when there are none |
| `BrokerRows.RowsInOrder` | backend/history_audit.py:128-161 | rows come out in the order of their first legs |
| `BrokerRows.LegHasItsRow` | backend/history_audit.py:128-144 | every audited leg is in a row, which is made of all the legs like it |
| `BrokerRows.PriceIsAnAverage` | backend/history_audit.py:155-168 | a row's price lies between the cheapest and the dearest of its priced legs, as rounded |
| `BrokerRows.RowsConserveQuantity` | backend/history_audit.py:123-160 | before they are rounded, the rows together hold exactly the quantity of the audited legs |
| `BrokerRows.FinishedRowsConserveQuantity` | backend/history_audit.py:160-169 | the finished rows hold it exactly when every leg is for a whole number, and within half a share or contract a row otherwise |
| `HistoryReport.CountOpen` | backend/history_audit.py:290-294 | the open count and the per-kind dictionary are those of the findings without an acknowledgement |
| `HistoryReport.KindsCoverOpen` | backend/history_audit.py:290-294 | the per-kind counts add up to the open count |
| `HistoryReport.FindingsMean` | backend/history_audit.py:247-284 | the findings are a PHANTOM for each leftover book fill, then a MISSING for each leftover broker fill, then for each pair a QUANTITY mismatch when the quantities differ and else a PRICE mismatch when both prices are known and more than a cent apart, in order, with those ids and nothing else |
| `HistoryReport.StampMeans` | backend/history_audit.py:286-289 | a finding bears the acknowledgement of its id, if there is one, and is otherwise as it was |
| `HistoryReport.ReportMeans` | backend/history_audit.py:290-300 | the open count and each kind's count are numbers of findings that bear no acknowledgement, CLEAN says there are none, and the report counts what was compared |
| `HistoryReport.AuditRecord.RunAudit` | backend/history_audit.py:316-348 | a fetched feed gives its audit under the stored acknowledgements, stored when asked to; a failed fetch is reported, and leaves the last good report in place |
| `HistoryReport.StoredIsAudit` | backend/history_audit.py:316-375 | over any runs, failed or not, and any acknowledgements, the stored report is a fresh audit of the last feed that was fetched, under all the acknowledgements there are now |
| `HistoryReport.FailureMeans` | backend/history_audit.py:316-348 | the failure stored is that of the last run when it failed, and none when it did not |
| `HistoryReport.AcksMean` | backend/history_audit.py:351-375 | the acknowledgement stored for an id is the last one given for it, and none when none was |
| `HistoryReport.AuditRecord.Acknowledge` | backend/history_audit.py:351-375 | an empty reason changes nothing; otherwise the acknowledgement is stored and the last report patched |
| `HistoryReport.PatchIsReaudit` | backend/history_audit.py:351-375 | patching a stored report gives the very report that auditing afresh with the new acknowledgement would |
| `HistoryReport.PatchesAreReaudit` | backend/history_audit.py:351-375 | so does any sequence of acknowledgements, of listed findings or not, once or repeatedly |
| `HistoryReport.CleanMeansExplained` | backend/history_audit.py:281-296 | CLEAN exactly when every finding of the match has an acknowledgement |
| `HistoryReport.CleanMeansAgreement` | backend/history_audit.py:239-300 | with no acknowledgement, CLEAN exactly when no fill is left over and every pair agrees on quantity and, where both are known, on price within a cent |
| `HistoryReport.CleanBookIsTheFeed` | backend/history_audit.py:1-30 | a book that is CLEAN without acknowledgements pairs one to one with the broker's history, every pair on evidence (transaction, order or key) and agreeing on quantity and, where both are known, on price within a cent |
| `Runs.RunsAreMaximal` | backend/coverage_gaps.py:167-203 | a maximal run of one positive level is one that opens at a row and ends at the next change |
| `Runs.SpansExact` | backend/coverage_gaps.py:167-203 | the spans listed are exactly the kept maximal runs |
| `Runs.SpansApart` | backend/coverage_gaps.py:167-203 | they come in order and do not overlap |
| `Runs.AllRunsAreAllRows` | backend/coverage_gaps.py:145-164 | the gains of all maximal runs telescope to the row-by-row sum of level times price change |
| `CoverageGaps.HoldingIsReflected` | backend/coverage_gaps.py:176-187 | the shares and open calls after any number of rows are the unfloored ledger raised by the most it was ever oversold: never negative, and the ledger itself when nothing was |
| `CoverageGaps.LevelMeans` | backend/coverage_gaps.py:188-190 | the uncovered count after any number of rows, by those ledgers of shares and calls: the full lots of a hundred less one lot for each open call, and nothing when no full lot is left over |
| `CoverageGaps.WindowsFor` | backend/coverage_gaps.py:167-203 | the walk over sorted usable executions emits exactly the windows of the specification, which the rows below describe |
| `CoverageGaps.WindowsAreTheMaximalRuns` | backend/coverage_gaps.py:167-203 | those windows are the maximal runs of one positive uncovered count, in order, none overlapping, minus one-ticket runs and runs of no time and no move |
| `CoverageGaps.WindowsTell` | backend/coverage_gaps.py:145-164 | each window tells of such a run: its level, its kind, its start and end, the seconds between them, the move of the price and the profit on the level |
| `CoverageGaps.ReportedMeans` | backend/coverage_gaps.py:191-203 | a run is reported unless it ended in the ticket it began with, or ended within half a second with no move of a known price; a run still open always is |
| `CoverageGaps.RowsAreStablySorted` | backend/coverage_gaps.py:168-173 | the rows walked are the usable executions sorted by time, ties kept in log order |
| `CoverageGaps.RowsMean` | backend/coverage_gaps.py:168-173 | the rows are the fills of the four kinds that have a time, each as often as it occurs, in order of time |
| `CoverageGaps.GapsAreRuns` | backend/coverage_gaps.py:145-203 | up to any row, a hundred times the reported profit plus the one-ticket gains is the gain of the maximal runs |
| `CoverageGaps.GapProfitIsRowProfit` | backend/coverage_gaps.py:145-203 | with every row priced, the reported profit is the row-by-row profit on uncovered shares less what one-ticket runs made |
| `GateCodec.OrderIsStrict` | backend/gate_telemetry.py:352 | the manifest lists each gate of the run once, strictly ascending by level and then by id |
| `GateCodec.Gather` | backend/gate_telemetry.py:340-350 | the first loop's dictionaries hold, per gate, the first result seen and every threshold in order |
| `GateCodec.BuildGates` | backend/gate_telemetry.py:353-365 | the manifest: a threshold is hoisted exactly when it is the same for every candidate |
| `GateCodec.FillCells` | backend/gate_telemetry.py:367-380 | a candidate's row has, column by column, the last result it gave for that gate, or nothing |
| `GateCodec.EncodeRun` | backend/gate_telemetry.py:329-381 | manifest and rows are the encoding of the run |
| `GateManifest.ManifestHas` | backend/gate_telemetry.py:340-365 | the manifest has an entry for exactly the gate ids that some result of the run has |
| `GateManifest.ManifestMeans` | backend/gate_telemetry.py:340-365 | an entry has the level, authority, direction and label of the result of its gate first met in the run, and its threshold exactly when no two results of the gate differ in it |
| `GateManifest.ManifestInOrder` | backend/gate_telemetry.py:352 | entries ascend by level, those without one at 99, and then by id |
| `GateManifest.CellMeans` | backend/gate_telemetry.py:367-380 | a row has a cell for a gate exactly when the candidate has a result of it: the last one's verdict and value, and its threshold exactly when the manifest has none |
| `GateCodec.DecodedCandidates` | backend/gate_telemetry.py:384-417 | decoding goes column by column; a missing or null cell is an absent gate, and an inline run is returned as it is |
| `GateRoundTrip.RoundTrip` | backend/gate_telemetry.py:329-417 | decoding an encoded run, for every run whatever it holds, gives each candidate its settled results, described as the manifest describes their gates |
| `GateRoundTrip.CodecRoundTrip` | backend/gate_telemetry.py:329-417 | for a candidate that carries each gate at most once, symbol and flag come back, and its results as a permutation in (level, id) order with verdict, value and threshold intact |
| `GateRoundTrip.DecodedIsPermutation` | backend/gate_telemetry.py:329-417 | no gate is added and none lost, so an absent gate and a gate without a verdict stay distinct |
| `GateRoundTrip.SettledInOrder` | backend/gate_telemetry.py:329-417 | the decoded gates are in strict canonical order |
| `GateRoundTrip.LosslessExactlyWhenUniform` | backend/gate_telemetry.py:329-417 | the trip is lossless exactly when each gate has the level, authority, label and direction first seen in the run |
| `GateRoundTrip.AdmissionSurvives` | backend/gate_telemetry.py:298-303 | with one authority per gate, the decoded results are admitted exactly when the original ones were |
| `GateAggregate.Aggregate` | backend/gate_telemetry.py:742-812 | after the one pass over a list of runs, every dictionary holds how often its event happened among the candidates of the universe |
| `GateAggregate.AddResult` | backend/gate_telemetry.py:773-812 | one result adds exactly its own events: ran, failed, failed alone, failed beside each other veto |
| `GateMeaning.SoleIsCounterfactual` | backend/gate_telemetry.py:803-808 | a sole block by g is a failed g without which the candidate would be admitted, or whose only veto is g |
| `GateMeaning.TallyMeans` | backend/gate_telemetry.py:742-812 | each counter equals the number of candidates it is about, and the co-block counts are symmetric |
| `GateMeaning.SoleAndAdmittedAreExclusive` | backend/gate_telemetry.py:742-812 | sole blocks over any set of gates plus the admitted never exceed the evaluated |
| `GateMeaning.WeeksSumToTotals` | backend/gate_telemetry.py:787-808 | weekly counters, over weeks that cover the range, sum to the totals |
| `GateMeaning.WeeklyMeans` | backend/gate_telemetry.py:787-808 | the counters of a week are about the candidates of that week: judged, failed, blocked by this gate alone |
| `GateMeaning.DecodedIsWellFormed` | backend/gate_telemetry.py:384-417 | whatever was encoded, a decoded candidate carries each gate at most once, so the rows above apply to it |
| `GateMeaning.DecodedFlagIsVerdict` | backend/gate_telemetry.py:298-303 | the flag written beside a row is the verdict its decoded results give |
| `GateStored.StoredCountsAreRecorded` | backend/gate_telemetry.py:329-812 | over packed runs the totals, admissions, evaluations, failures, sole blocks, co-blocks and weekly counters are those of the candidates before packing, for scans that carry each gate once, with one authority and the flag of their results |
| `GateStore.Telemetry.RecordScan` | backend/gate_telemetry.py:520-590 | a scan is packed and filed under its id, in place of an earlier recording of it that day, and the oldest days beyond the limit go; `CandidatesAreRows` says what is packed |
| `GateStore.CandidatesAreRows` | backend/gate_telemetry.py:553-559 | what is packed: exactly one candidate for each row with a symbol and results, admitted or not, in row order, with that symbol and those results |
| `GateStore.PrunedAsOne` | backend/gate_telemetry.py:502-517 | pruning after every recording keeps exactly what pruning once at the end would |
| `GateStore.OncePerScan` | backend/gate_telemetry.py:524-533 | after any recordings, every day still stored holds each scan of that day once, as last written, and nothing else: a retry is not counted twice |
| `GateStore.RefiledInPlace` | backend/gate_telemetry.py:576-583 | a scan recorded again keeps its place in the day's file, and a new one comes last |
| `GateStore.Report` | backend/gate_telemetry.py:699-832 | over the runs of the range and ruleset: the candidates under each ruleset; a refusal exactly when no ruleset is named and two runs differ; otherwise the tally of the pass |
| `GateStore.PoolsExactly` | backend/gate_telemetry.py:711-715 | a named ruleset never gives a table over several, unless it is the empty text, which filters nothing and is not refused |
| `GateStore.EmptyTextPools` | backend/blueprints/scan_bp.py:344-349 | such a store; the one route to aggregate turns an empty text into no ruleset, so it cannot ask this |
| `GateStore.TableCountsLastWritings` | backend/gate_telemetry.py:520-832 | from record_scan to aggregate: whatever was retried, packed or pruned, a table counts, in total and week by week, the candidates of the last writing of each scan on each stored day of the range |
| `GateHistory.TableIsACount` | backend/gate_telemetry.py:520-832 | from the rows handed to record_scan to the table: every number of it is the number of (recording, row) with that property, where a row counts when it has a symbol and results, its scan was not recorded again that day, fewer than the limit of later days were recorded, and the range, ruleset and universe are those asked for |
| `GateHistory.EvaluatedIsACount` | backend/gate_telemetry.py:742-770 | and the denominator is the number of all rows that count |
| `GateHistory.PresentIsACount` | backend/gate_telemetry.py:737-747 | the count beside a ruleset is the number of rows recorded under it in the range, runs that name none being counted as unknown |
| `DayStore.PruneTwice` | backend/gate_telemetry.py:502-517 | what was pruned before makes no difference to what is kept |
| `Alerts.AlertStore.RunPass` | backend/alerts.py:1645-1693 | a pass leaves the active set and log of the specification, trimmed to the cap, and returns the fingerprints fired, in order; a record fired in the pass and its log entry stay one object throughout |
| `Alerts.AlertStore.RecordEvent` | backend/alerts.py:1602-1630 | a one-off event is logged under the next id and never becomes active |
| `Alerts.AlertStore.Acknowledge` | backend/alerts.py:1774-1792 | an unknown id changes nothing; a known one is acknowledged as `AcknowledgeMeans` says |
| `Alerts.AlertStore.AcknowledgeAll` | backend/alerts.py:1795-1813 | every unread active id is returned and acknowledged, as `AcknowledgeAllMeans` says |
| `Alerts.ResolveGone` | backend/alerts.py:1672-1685 | conditions no longer seen leave the active set, and the first log entry of each of their ids is marked resolved |
| `Alerts.MirrorStep` | backend/alerts.py:1672-1685 | marking ids one after the other is marking them together |
| `AlertTheorems.OneFirePerEpisode` | backend/alerts.py:1645-1693 | after any run the active keys are the last pass's fingerprints, each has fired once per episode, and first_seen is the start of its episode |
| `AlertTheorems.PassRefreshes` | backend/alerts.py:1645-1671 | every condition a pass sees is active afterwards, last seen then, with the data of its last candidate |
| `AlertTheorems.FiredInOrder` | backend/alerts.py:1645-1671 | what a pass fires comes in the order in which it is first seen |
| `AlertTheorems.EventMeans` | backend/alerts.py:1602-1630 | a one-off event is logged as such, unread, under the next id, behind what was there, and is not active |
| `AlertTheorems.AcknowledgeMeans` | backend/alerts.py:1774-1792 | acknowledging an id flags exactly the records and entries that have it and changes nothing else |
| `AlertTheorems.AcknowledgeAllMeans` | backend/alerts.py:1795-1813 | acknowledging all flags every active record and exactly the entries whose id an unread one had, and leaves nothing unread |
| `AlertTheorems.AcknowledgedExactly` | backend/alerts.py:1645-1813 | over any run, past the cap or not: an active record is acknowledged exactly when its id, or everything, was acknowledged after its episode began |
| `AlertTheorems.LogAgreesWithActive` | backend/alerts.py:1645-1693 | while at most the cap has ever been logged, ids run 1..n and each active record has the one entry with its id, fingerprint, status and acknowledged flag |
| `AlertTheorems.ResolvedEntriesAreMarked` | backend/alerts.py:1672-1685 | under that condition, a pass marks the entry of every record it resolves |
| `AlertTheorems.IdsRunExactlyUntilCap` | backend/alerts.py:1655-1670 | the ids of the log run 1..n exactly as long as the cap has never been passed |
| `AlertTheorems.LogLength` | backend/alerts.py:1686-1690 | the log holds as many records as were ever logged, up to the cap |
| `AlertTheorems.IdsRepeatPastCap` | backend/alerts.py:1616-1628 | with a full log, two events in a row get the same id |
| `AlertTheorems.RunBreaksAgreement` | backend/alerts.py:1645-1693 | the same from an empty store: as many events as the cap, then three passes |
| `AlertTheorems.AgreementBreaksPastCap` | backend/alerts.py:1645-1693 | with a full log, clearing one condition can mark another's entry resolved while that one is still active |
| `EventRunner.EventGate.Observe` | backend/event_runner.py:151-183 | an observation updates what was last read and returns the due reasons of the specification |
| `EventRunner.EventGate.MarkRan` | backend/event_runner.py:185-189 | a completed pass is stamped on the gate and on every ticker its reasons name |
| `EventTheorems.ReasonsExact` | backend/event_runner.py:151-183 | a reason is due exactly when the gate is primed, the gap is over, and it names a flip or an escalation whose ticker has cooled down |
| `EventTheorems.ReasonsInOrder` | backend/event_runner.py:151-183 | reasons come flips first, reading by reading and by name, then escalations as given, and the market last |
| `EventTheorems.ReasonsAreEdges` | backend/event_runner.py:151-183 | over any run the first cycle starts nothing, and every later reason is a signal absent at its ticker's previous read, or an escalation |
| `EventTheorems.SeenIsLastRead` | backend/event_runner.py:151-165 | every cycle updates the last read, whether or not a pass followed |
| `EventTheorems.FlipIsGivenUnlessHeld` | backend/event_runner.py:151-183 | after the first cycle a plain ticker's flip is given if and only if neither the gap nor its cooldown runs |
| `EventTheorems.GivenExactly` | backend/event_runner.py:151-189 | over any run, an edge is given exactly when it is fresh, the cycle is not the first, the last completed pass is a gap ago or more and the last that named its ticker a cooldown ago or more |
| `EventTheorems.PassesAreRateLimited` | backend/event_runner.py:166-189 | the k-th completed pass is at least k-1 gaps after the first |
| `EventTheorems.TickersAreRateLimited` | backend/event_runner.py:172-189 | the k-th pass naming a ticker is at least k-1 cooldowns after the first that did |
| `EventTheorems.SuppressedEdgeIsLost` | backend/event_runner.py:151-183 | a flip read while the gap or the cooldown runs is not given then, nor in any later cycle for as long as every reading of its ticker shows it and no escalation names it |
| `EventTheorems.EarningsAreLost` | backend/event_runner.py:151-183 | such a run: a flip five after a pass is still not acted on at 200, long past both limits |
| `AlertScheduler.TextOrderIsTimeOrder` | backend/alert_scheduler.py:324-333 | comparing "HH:MM" texts is comparing minutes of the day |
| `AlertScheduler.Scheduler.FindDue` | backend/alert_scheduler.py:324-333 | the loop gives the due slots of the specification |
| `SchedulerTheorems.SlotsInOrder` | backend/alert_scheduler.py:324-333 | the due slots are those of the schedule that are due, in its order |
| `AlertScheduler.Scheduler.Tick` | backend/alert_scheduler.py:552-569 | a tick claims every due slot for the day, and only those |
| `SchedulerTheorems.ClaimedExactly` | backend/alert_scheduler.py:324-333 | a tick claims a slot exactly when it is the first tick of a weekday at or after the slot's time |
| `SchedulerTheorems.OncePerDay` | backend/alert_scheduler.py:552-569 | on each weekday with a tick at or after it, one tick and no other claims the slot |
| `SchedulerTheorems.LastRunMeans` | backend/alert_scheduler.py:552-569 | the run registry says, for the day of the last tick, whether a tick of that day has reached the slot |
| `SchedulerTheorems.PassesAreBounded` | backend/alert_scheduler.py:552-580 | there are never more slot-driven alert passes in a day than slots in the schedule |
| `AlertScheduler.FindMandatory` | backend/alert_scheduler.py:402-424 | the loops over positions and put legs give the due checks of the specification |
| `SchedulerTheorems.ChecksInOrder` | backend/alert_scheduler.py:402-424 | the due checks come position by position and put by put |
| `AlertScheduler.ExpiryChecks.RunCheck` | backend/alert_scheduler.py:427-466 | one account's turn: what is due, and a registry stamped only after a run that succeeds |
| `SchedulerTheorems.DueUntilChecked` | backend/alert_scheduler.py:402-466 | from 15:30 a leg expiring that day is due exactly until a visit of its registry that saw it has had a successful alert run |
| `SchedulerTheorems.RegistersMean` | backend/alert_scheduler.py:427-466 | a check is in a registry exactly when a visit of that registry has made it; a failed run stamps nothing |
| `SchedulerTheorems.AccountsAreApart` | backend/alert_scheduler.py:385-394 | what is due for an account depends on the visits of its own registry alone |
| `AlertScheduler.ExpiryChecks.RunTick` | backend/alert_scheduler.py:427-466 | a whole tick, account by account, leaves the registries of the specification |
| `SchedulerTheorems.UnreadableTickChangesNothing` | backend/alert_scheduler.py:105-114 | a tick during which the account registry cannot be read finds nothing due and leaves every registry of checks as it was |
| `SchedulerTheorems.TurnsMean` | backend/alert_scheduler.py:105-130 | a tick that lists accounts gives each listed one a turn, in order; one that cannot, or lists none, gives the active book one turn |
| `SchedulerTheorems.TurnReads` | backend/alert_scheduler.py:117-130 | a turn reads its own account's book when that is registered at the second read, without an account the one active then, and none when that read fails |
| `SchedulerTheorems.EachBookHasOneTurn` | backend/alert_scheduler.py:105-130 | from any registry the operations leave, every book that is not archived has exactly one turn in a tick and no archived one has any |
| `SchedulerTheorems.RegistryIsVisitable` | backend/accounts.py:244-247 | a registry the account operations leave always lists the primary and the active book, and lists only books it knows |
| `SchedulerTheorems.RealAccountsAreApart` | backend/alert_scheduler.py:385-394 | over ticks whose reads of the account registry agree, what is due for an account depends on the visits that read its own book alone |
| `SchedulerTheorems.DueUntilItsBookIsChecked` | backend/alert_scheduler.py:402-466 | over such ticks a leg is due exactly until a visit that read it in that very book has had a successful alert run |
| `Session.NextSessionOpen` | backend/session.py:97-112 | the scan over calendar days gives the next open of the specification |
| `Session.NextOpenIsLeast` | backend/session.py:97-112 | the next open is later than now, a session opens then, and none opens sooner |
| `ExecutionGate.AllowedExactly` | backend/execution_gate.py:150-223 | the gate's rules amount to one interval per session: from 9:30 plus the settle window, and for an entry the entry window, to 16:00 or 13:00 less the blackout |
| `ExecutionGate.ReasonsMean` | backend/execution_gate.py:150-223 | each reason for a no is given under exactly its own condition: out of session, in the blackout, in the settle window, in the entry window of an entry |
| `ExecutionGate.PromiseKeptExactly` | backend/execution_gate.py:134-223 | nothing is allowed before the promised instant, and it is kept exactly when the session it falls in outlasts the minimum plus the blackout |
| `ExecutionGate.ShortSessionBreaksThePromise` | backend/execution_gate.py:134-223 | for any settings and calendar: asked just before the open of a session too short for the action, the gate names an instant in it at which it still says no |
| `ExecutionGate.HalfDayBreaksThePromise` | backend/execution_gate.py:134-223 | with 200 minutes before an entry, on any calendar and any half-day of it |
| `ExecutionGate.ExecutableAtIsLeast` | backend/execution_gate.py:134-223 | when every session is long enough, executable_at is the least later instant at which the same action is allowed |
| `ExecutionGate.EmergencyExactly` | backend/execution_gate.py:226-250 | the emergency path opens exactly for a defense or exit inside the settle window, on a limit order, with enough prints and a big gap or a broken low |
| `ExecutionGate.GapOnlyUnlocks` | backend/execution_gate.py:180-250 | a gap context adds the emergency path and changes no other verdict |
| `ExecutionGate.ShippedSettingsKeepThePromise` | backend/config.py:1289-1291 | with the shipped 30, 60 and 15 minutes every regular and half-day session keeps the promise |
| `Accounts.NormalizeRegistry` | backend/accounts.py:107-137 | the loop gives the normal form: entries with bad or repeated ids dropped, the primary first, the active id a registered one |
| `Accounts.DeriveId` | backend/accounts.py:329-338 | the loop over suffixes gives the first candidate that is free |
| `Accounts.RegistryFile.CreateAccount` | backend/accounts.py:357-393 | either the registry of the specification is written, or it is untouched and the refusal is the specified one |
| `Accounts.RegistryFile.UpdateAccount` | backend/accounts.py:396-442 | the same for an update |
| `Accounts.RegistryFile.SetActiveAccount` | backend/accounts.py:445-454 | the same for the active choice |
| `Accounts.RegistryFile.DeleteAccount` | backend/accounts.py:457-495 | the same for a deletion |
| `AccountMeaning.NormalizeMeans` | backend/accounts.py:107-137 | whatever the file holds: the first entry of each proper id is read, in order, the primary first and made up when missing, and the active book is the one named if it was read and else the primary |
| `AccountMeaning.SetActiveMeans` | backend/accounts.py:445-454 | the chosen book is the active one afterwards and nothing else changes; an archived one is refused |
| `AccountMeaning.UnknownMeans` | backend/accounts.py:396-487 | an id that no book has is refused as unknown by the other three operations |
| `AccountMeaning.DeleteMeans` | backend/accounts.py:457-495 | the primary and, unless purged, a book with executions are refused; otherwise that one book goes, the rest stay in order, and the primary is active if the deleted one was |
| `AccountMeaning.CreateIs` | backend/accounts.py:357-393 | a thirteenth book is refused, and one whose id cannot be had or whose number a live book has |
| `AccountMeaning.CreateMeans` | backend/accounts.py:357-393 | otherwise the new book comes last with that id, name, number and note, neither archived nor on its own connection, and nothing else changes |
| `AccountMeaning.UpdateIs` | backend/accounts.py:396-442 | refused are exactly a number another live book has, and a connection of its own or archiving for the primary |
| `AccountMeaning.UpdateMeans` | backend/accounts.py:396-442 | otherwise each field the patch names is set and the others are kept, in that book only, and the primary is active if the active one was archived |
| `AccountTheorems.RegistryInvariant` | backend/accounts.py:357-495 | after any sequence of operations from a fresh install: ids valid, distinct and unreserved, the primary first and never archived, the active book registered and not archived, at most 12 accounts |
| `AccountTheorems.OneNumberOneBook` | backend/accounts.py:341-354 | no two live books share a broker number, as long as no book is unarchived while its number is in use |
| `AccountTheorems.UpdateKeepsNumbersExactly` | backend/accounts.py:396-442 | an update keeps numbers distinct exactly when it does not unarchive a book into a number in use |
| `AccountTheorems.UnarchivingCollides` | backend/accounts.py:435-440 | a registry in which bringing a retired book back leaves two live books on one number |
| `AccountRuns.ReuseCollides` | backend/accounts.py:396-442 | register a book, retire it, give its number to a new one, bring it back: for any new ids and any number, none of the four is refused, and two live books hold the number |
| `AccountRuns.ReuseHappens` | backend/accounts.py:396-442 | there are such ids and numbers |
| `AccountTheorems.NormalizeKeeps` | backend/accounts.py:107-137 | a write and a load of a well-shaped registry keep every id, the order and the active choice |
| `AccountTheorems.NormalizeInv` | backend/accounts.py:107-137 | and keep every number and archive flag, hence the invariant and the distinctness of numbers |
| `AccountTheorems.ChosenIdIsFree` | backend/accounts.py:366-378 | a new book's id is valid, not reserved and not in use, whether given or derived |
| `AccountTheorems.CreateKeeps` | backend/accounts.py:357-393 | creating keeps the invariant, and the guard is enough to keep numbers distinct |
| `AccountTheorems.DeleteKeeps` | backend/accounts.py:489-493 | deleting keeps both |
| `AccountIds.DashedRun` | backend/accounts.py:318-326 | in a slug a run of characters that are neither letters nor digits, between two that are or at the front, becomes one dash, and what is around it is treated on its own |
| `AccountMeaning.WantedIdMeans` | backend/accounts.py:366-372 | an id asked for is taken without spaces and in lower case, unless it is not 1 to 32 letters, digits and dashes beginning without a dash, is reserved or is in use |
| `AccountIds.DerivedIdIsValid` | backend/accounts.py:318-338 | every derived id is a valid one, so the check after the derivation never fires |
| `AccountIds.LongNameCannotRepeat` | backend/accounts.py:329-338 | a slug of 31 or 32 characters loses its suffix again, so a second book under that name is always refused |
| `AccountIds.ShortNameAlwaysFits` | backend/accounts.py:329-338 | with a slug of at most 29 characters and fewer than 97 ids a free id is always found |
| `AccountIds.DerivationFailsExactly` | backend/accounts.py:329-338 | in a registry with room, no id can be derived exactly when the slug is in use and has 31 or 32 characters, or 30 with all nine numbered forms in use |
| `StorePaths.StatePathIs` | backend/accounts.py:280-296 | the file name is the base, then the mode, then the book, then the extension |
| `StorePaths.PathsCollideExactly` | backend/accounts.py:280-296 | two valid ids share a file exactly when they are the same book in the same mode, or a book called "demo" and the primary in demo mode |
| `StorePaths.PathsAreInjective` | backend/accounts.py:323-326 | for unreserved ids the file determines the book and the mode |
| `StorePaths.AccountForPath` | backend/backups.py:114-124 | the loops give the first registered book that lives there, or the active one |
| `StorePaths.OwnerExactly` | backend/backups.py:114-124 | the file of a registered book is given back to that book, except the live file of a book called "demo" |
| `StorePaths.OwnerRoundTrip` | backend/backups.py:114-124 | account_for_path inverts state_path for every registered, unreserved book and both modes |
| `CrossBook.BrokerIds` | backend/cross_book.py:29-53 | the index holds exactly the ids that live executions hold, by themselves or through a receipt, each list without repeats |
| `CrossBook.HoldsMeans` | backend/cross_book.py:29-53 | an execution holds an id when the last one with its own id has it as transaction or order, or a receipt of that order names it |
| `CrossBook.HeldElsewhere` | backend/cross_book.py:82-101 | something is returned exactly when another book carries one of the proposal's ids, and then that book, that id and exactly its executions |
| `CrossBook.FindDuplicates` | backend/cross_book.py:56-70 | the report has exactly the ids that live executions of at least two books carry, once each, in text order, with exactly those books and their executions |
| `CrossBookGuard.GuardIsExact` | backend/cross_book.py:82-101 | an adoption under an id that is not live leaves the report as it was exactly when no other book carries an id it gains: the execution's own, or one of a receipt that names it |
| `CrossBookGuard.NextIdIsFresh` | backend/logging_handler.py:375-397 | an id numbered by the length of the log is new to every execution and receipt that came from that log, so nothing is gained but the execution's own ids |
| `CrossBookGuard.GuardedAdoption` | backend/cross_book.py:82-101 | if held_elsewhere finds nothing, booking an execution of the proposal changes no line of the report |
| `CrossBookGuard.RunReportsNothingNew` | backend/cross_book.py:1-18 | no sequence of guarded adoptions, voids, and restores that bring back no id another book carries makes the check report anything it did not report at the start |
| `CrossBookGuard.RunStaysDisjoint` | backend/cross_book.py:1-18 | so an initially duplicate-free set of books stays duplicate-free |
| `CrossBookGuard.DisjointExactlyWhenClear` | backend/executor.py:2727-2745 | duplicate-free books stay so all the way through a run if and only if every restore in it brings back no id another book carries |
| `CrossBookGuard.RestoreDuplicates` | backend/executor.py:2727-2745 | void, adopt elsewhere under the guard, restore: from books that share nothing, both hold the order |
| `CrossBookGuard.StaleReceiptDuplicates` | backend/cross_book.py:47-52 | why the receipts count: under an id that an old receipt names, an execution inherits that receipt's order |
| `CrossBookGuard.TextRoundTrip` | backend/cross_book.py:66-68 | the kind and broker id of a report line are those of its key |
| `DayStore.StoredDays` | backend/csp_dry_powder.py:541-556 | the stored days, ascending, each once |
| `DayStore.Prune` | backend/csp_dry_powder.py:559-571 | what stays is exactly the newest days up to the limit, and the count of removals is right |
| `CspDryPowder.ResolveDays` | backend/csp_dry_powder.py:440-494 | the nested loops over days and trades give the outcomes of the specification |
| `CspDryPowder.DryPowderStore.Record` | backend/csp_dry_powder.py:660-675 | the entry is appended to its day's file, and then the oldest days go |
| `CspDryPowder.DryPowderStore.ResolveOutcomes` | backend/csp_dry_powder.py:422-500 | what is returned is what is appended to today's file; nothing is written when nothing resolves |
| `CspDryPowder.CloseIsLatest` | backend/csp_dry_powder.py:409-419 | the close used is that of the last bar not after the expiration, and there is none exactly when every bar is later |
| `CspTheorems.ExactlyOnce` | backend/csp_dry_powder.py:430-438 | over any run with days that do not go back, no (ticker, opened, expiration) ever gets a second outcome, whatever was pruned in between |
| `CspTheorems.ResolveIsSound` | backend/csp_dry_powder.py:447-494 | an outcome is for a stored, unresolved trade whose expiration is not after the date and whose close is known, with that trade's strike, size and close; it is assigned exactly when the close is at or below the strike, and keeps the trade's yield exactly when it is not |
| `CspTheorems.SettleAllInOrder` | backend/csp_dry_powder.py:447-494 | of the trades of one key the first that can be settled gives the outcome, every such key gets one, and outcomes come in the order of their trades |
| `CspTheorems.ResolveIsComplete` | backend/csp_dry_powder.py:447-494 | after a resolution every stored trade whose expiration has passed and whose ticker has a bar not after it has its outcome stored, assigned or not |
| `CspTheorems.RecordMeans` | backend/csp_dry_powder.py:660-675 | after a recording each day stored holds what it held, the day itself with the new entries behind that |
| `CspTheorems.SweepMeans` | backend/csp_dry_powder.py:333-398 | name by name: one with a chosen strike gets the most contracts that the cash left secures, recorded under its ticker, day and expiration, and the names after it have that much less; any other gets none |
| `CspTheorems.ResolveIsIdempotent` | backend/csp_dry_powder.py:430-438 | a second resolution at once changes nothing |
| `CspTheorems.PrunedResolved` | backend/csp_dry_powder.py:559-571 | pruning forgets an outcome only together with the day of its trade |
| `CspTheorems.RunKeeps` | backend/csp_dry_powder.py:422-571 | the invariant behind this holds after every run |
| `CspDryPowder.Sweep` | backend/csp_dry_powder.py:333-398 | the loop records the trades and commits the cash of the specification |
| `CspDryPowder.CommittedFits` | backend/csp_dry_powder.py:305-317 | a sweep never commits more than the deployable cash |
| `CspDryPowder.NoRoomLeft` | backend/csp_dry_powder.py:366-398 | when a sweep ends, no name it picked has room for one more contract |
| `CspDryPowder.CommittedIsRecorded` | backend/csp_dry_powder.py:376-397 | the collateral of the trades recorded is exactly what was committed |
| `FetchBudget.CapIsLeast` | backend/fetch_budget.py:94-104 | the capped timeout is the least of the limits that are set, and None exactly when none is |
| `FetchBudget.NothingPassesTheDeadline` | backend/fetch_budget.py:88-111 | an attempt that keeps to its capped timeout and a clamped back-off both end by the deadline, or at once when it has passed |
| `FetchBudget.PatienceIsFree` | backend/fetch_budget.py:114-123 | the patient budget narrows nothing and never expires |
| `AlphaVantage.PassInTime` | backend/alpha_vantage.py:69-101 | one pass of the loop, however it ends, is over no earlier than it began and no later than the deadline, or at once when that has passed |
| `AlphaVantage.PassMeans` | backend/alpha_vantage.py:66-101 | one pass in numbers: a reply later than the least of the limits is a transport failure at that limit; a payload or a complaint other than the throttle ends the call; anything else waits two, four or six seconds or as long as is left, and nothing after a last transport failure |
| `AlphaVantage.Fetch` | backend/alpha_vantage.py:54-102 | the loop gives the call of the specification |
| `AlphaVantage.FinalRepliesEndTheCall` | backend/alpha_vantage.py:69-102 | a payload or a terminal complaint ends the call and is never followed by another try; any other reply is retried while attempts and the deadline last |
| `AlphaVantage.InteractiveIsBounded` | backend/alpha_vantage.py:66-102 | under a deadline the call ends by it, or at once if it has passed, within min(3, attempts) tries |
| `AlphaVantage.ExpiredTriesOnce` | backend/alpha_vantage.py:69-72 | past the deadline a call makes one try, which takes no time |
| `AlphaVantage.RequestIsBounded` | backend/fetch_budget.py:38-43 | a request ends by the deadline however many fetches it fans out to |
| `AlphaVantage.RequestFitsItsSeconds` | backend/fetch_budget.py:126-137 | under a budget made for a number of seconds, every fetch of a request makes at most min(3, max(1, retries)) tries and the last one ends in that time, however many fetches there are |
| `AlphaVantage.PatientIsBounded` | backend/alpha_vantage.py:54-102 | under the patient budget a call ends within three timeouts and twelve seconds, six when nothing is slept on after the last try |
| `AlphaVantage.BackOffIsUsedExactly` | backend/fetch_budget.py:104-111 | a back-off is followed by another try if and only if a try is left and the back-off in full would end before the deadline |
| `AlphaVantage.WaitsForNothingExactly` | backend/alpha_vantage.py:69-101 | a call outlives its last reply if and only if that reply is neither final nor the transport failure of the last try, and comes before the deadline |
| `AlphaVantage.PatientWaitsExactly` | backend/alpha_vantage.py:69-101 | with no deadline: if and only if every try was used and the last gave a throttle or a payload that is not an object |
| `AlphaVantage.ClampedBackOffEndsTheCall` | backend/alpha_vantage.py:69-72 | a reply to be waited on that comes before the deadline by no more than its back-off: the call sleeps up to the deadline and raises, with tries left |
| `AlphaVantage.LastSecondIsSlept` | backend/alpha_vantage.py:69-97 | such a call under the shipped interactive settings |
| `AlphaVantage.ThrottleSleepsForNothing` | backend/alpha_vantage.py:86-96 | a patient call that is throttled three times ends at the bound, six seconds after its last reply |
| `Sorting.SortStable` | backend/coverage_gaps.py:168-173 | the sort keeps elements that tie in the order they came in |

## Left out

- BrokerRows.BrokerFills: the derived executions, the parsed feed and the classification of a leg are inputs, and rounding is of exact reals rather than of binary floats.
- HistoryReport.AuditRecord.RunAudit: the book's fills come read from the state and the feed's come parsed, so legs that could not be parsed are not listed; the computing of the window is not modelled.
- CoverageGaps.WindowsFor: executions come parsed, with prices in ten-thousandths; the per-book summary of windows is not modelled.
- GateCodec.EncodeRun: values and thresholds are opaque JSON values with equality, so a number that Python would call equal to another of a different type is not identified with it.
- GateAggregate.Aggregate: dictionaries inside dictionaries are keyed by pairs; the range and the rulesets are in `GateStore.Report`, and the gates' descriptions, near-miss histograms, gates that were not evaluated and the layout of the report are not modelled.
- GateStore.Telemetry.RecordScan: symbols come in upper case, a scan has its id and ruleset, and files that cannot be read, written or unlinked are not modelled.
- Alerts.AlertStore.RunPass: what the evaluators look at, the message texts and the delivery of notifications are not modelled; a pass is a list of fingerprints with data.
- EventRunner.EventGate.Observe: the reading of signals from quotes is an input; escalation and the poller thread around it are not modelled.
- EventTheorems.TickersAreRateLimited: stated for tickers without a colon, because a reason names its ticker by the text before the first colon.
- AlertScheduler.Scheduler.Tick: the other work of a tick (maintenance, reconciliation, refreshes, summaries, the recommendation pass) is not modelled.
- AlertScheduler.ExpiryChecks.RunTick: a turn reads the account registry once more, at the one moment it resolves its book; paging on failure is not modelled.
- AlertScheduler.FindMandatory: a check key is a triple rather than its text, and dates come parsed.
- ExecutionGate.ExecutableAtIsLeast: instants are Eastern wall-clock time, without changes to and from daylight saving; the calendar is any in which ten days in a row never all stay closed.
- Accounts.NormalizeRegistry: creation times, masking and the registry cache are not modelled, and stripping and lower case cover ASCII only. A label can lose a trailing space again at the next write, so the invariant does not speak of labels.
- Accounts.RegistryFile.DeleteAccount: whether a book still has executions is an input; setting the book file aside and removing its token are not modelled.
- StorePaths.AccountForPath: making paths absolute is not modelled.
- CrossBook.FindDuplicates: the stored copy of the report on each book and its acknowledgements are not modelled.
- CspDryPowder.Sweep: eligibility, the chain and the choice of strike and expiration are inputs; a sweep that crosses midnight, where the date is read twice, is not modelled.
- CspDryPowder.DryPowderStore.ResolveOutcomes: the re-check of today's gates on an assignment is not modelled, nor a file that cannot be read or written.
- CrossBookGuard.RestoreDuplicates: an id stands for one execution of its book, as `append_execution` hands ids out; what healing positions does after a restore is not modelled.
- CspTheorems.ExactlyOnce: needs a clock whose day does not go back.
- AlphaVantage.Fetch: an attempt is taken to end within the timeout it was given; the CSV variant and the parsing of bars are not modelled.
- FetchBudget.CapIsLeast: the context variable that carries the budget, and its hand-over to worker threads, are not modelled.
- Alert evaluators, burn, juice and LEAP policy, the circuit breaker, the kill switch, autopilot, capped caches and market-data clients: single-branch rules, easier versions of the stores above, or code that rests on indicators that are not part of this model.
- Files, locks, threads and atomic renames: every store is a value that is read and replaced.
- The executor, the order lifecycle, the position manager and the log derivation are not part of this model; what they hand to the code above is a parameter.
