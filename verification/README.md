# 4tLog verification model

A Dafny model of the stateful cores of 4tLog, with proofs of what they guarantee over
all inputs, runs and interleavings. `dafny verify dfyconfig.toml` checks the project.

| files | what they model |
|---|---|
| `RevocationPayload`, `SessionChecker`, `SessionRuns` | the SSO session checker: a cached revocation list with an outage grace, a fast retry and a clock-skew correction; timed safety, rate, recovery and skew bounds over runs with adversarial fetches |
| `LoginLimiter`, `LoginRuns` | the sliding-window login limiter, its three critical sections, and the concurrent bound over their interleavings |
| `FilterGrammar`, `FilterCompiler`, `EntryText`, `FilterMeaning` | the search-box compiler: what the characters of an entry say, and that the printed filter parses back and selects just that |
| `LogUsage`, `LogUsageAccount` | the log-usage orchestration: nested loops over targets and devices, two levels of failure, early exit, deadline; full accounting and equality with a per-device search |
| `ThreatRollup`, `LogStats`, `StableOrder` | per-target folds, fleet rollups, rankings |
| `ReadThrough` | publication of snapshots to other processes, at the granularity of single locked sections |
| `Stamps`, `RollupHistory` | timestamp strings as instants, pruning and the latest rollup |
| `ResultsTable`, `CsvExport` | refinement and pagination of the browser table; its CSV file and how it reads back |
| `FazPolling` | the submit-and-poll loop and request ids |
| `Prelude`, `Text`, `SortedNames` | options and results, ASCII text, string order |

Objects the source updates in place are classes; each method is proved against a
function of the old state, and the theorems are lemmas about those functions over whole
runs. Clocks, networks, threads and remote services are arbitrary parameters.

Where code and intention part, the code is modelled and the difference is a result: an
input for which the intention fails, and the exact condition under which it holds.

| intention | fails for | holds if and only if |
|---|---|---|
| workers serve the latest snapshot | `ReadThrough.FilledWorkerGoesStale`, `ReadThrough.FreshlyFilledWorkerIsStale` | nothing was stored since the fetch behind the fill that set the worker's memory (`ReadThrough.AnswerIsLatestIffNothingWasStoredSinceItsFetch`) |
| a filled worker keeps its answer | `ReadThrough.AnswersCanGoBack` | nothing was stored between two fetches of the worker's threads (`ReadThrough.AnswersAgreeIffNothingWasStoredBetweenFetches`); always with one thread |
| an accepted filter parses | `FilterMeaning.FieldNamedOrDoesNotParse` | no extra filter is on a field called `and` or `or` (`FilterMeaning.CompiledFilterMeansTheBoxes`) |
| a port that is no number is skipped | `LogUsageAccount.PortWithTwoHyphensCrashes` | it is not text with two or more hyphens before digits (`LogUsage.PortRaisesOnTwoHyphens`); a request survives if and only if no search of it returns such a row (`LogUsageAccount.CrashesIffARowCannotBeConverted`) |
| the CSV file reads back | `CsvExport.CommaBreaksTheHeader`, `CsvExport.LineFeedBreaksTheHeader`, `CsvExport.QuoteBreaksTheFields` | no label contains a comma or line feed (`CsvExport.FileReadsBackByLines`), nor a double quote where unquoted fields may not hold one (`CsvExport.FileReadsBackByFields`) |

`SessionRuns.SkewBandIsUndecided` and `LoginRuns.BoundIsAttained` show that two bounds are
tight. Merged top lists are built from lists each target has already cut, so they can miss the
fleet's first name (`ThreatRollup.CutListsCanHideTheFirstName`);
`ThreatRollup.MergedTopIsOffByAtMostTheHidden` bounds by how much.

## Model

| member | source | states |
|---|---|---|
| `RevocationPayload.ParseRevocations` | app/tsuite_adapter.py:129-151 | a payload is accepted exactly when it is an object with finite numbers (booleans are not numbers) in the two places they belong; the result holds exactly the listed users, each with the listed time, and the listed server time |
| `RevocationPayload.ReadBody` | app/tsuite_adapter.py:226-242 | however the network slices the body, the result is the exact body and only if it fits the limit; every clock reading taken was in time except the last one of a run refused as too slow; a body refused as too large has passed the limit by one byte |
| `SessionChecker.Checker.SsoSessionValid` | app/tsuite_adapter.py:194-206 | one locked section: the four fields and the fetch log move as the step function says, and the answer is the one for the new fields |
| `SessionChecker.Checker.Refresh` | app/tsuite_adapter.py:178-192 | a failed fetch keeps list, offset and last-good time and schedules the retry; a good one replaces all four fields |
| `SessionRuns.FieldsFollowTheLog` | app/tsuite_adapter.py:171-192 | over any run the fields are a function of the fetch log alone, and attempts keep the required distance |
| `SessionRuns.AcceptanceIsDecidedByTheLastGoodFetch` | app/tsuite_adapter.py:163-169 | a call is accepted if and only if the last good payload is within the grace and does not revoke the session, or nothing was ever fetched and the checker's creation is within the grace |
| `SessionRuns.ReturnedValueDecides` | app/tsuite_adapter.py:129-206 | in terms of the JSON value of the last good fetch: within the grace a session is refused if and only if the value lists a time for its user later than its login on the server's clock |
| `SessionRuns.CallFetchesExactlyWhenDue` | app/tsuite_adapter.py:178-200 | a call fetches if and only if nothing was fetched yet, the last attempt is a cache interval old, or it failed past the grace and is five seconds old |
| `SessionRuns.ListedLogoutIsRefusedAfterTheGrace` | app/tsuite_adapter.py:200-206 | a logout listed by every payload from T on is refused at every time past both T and creation plus the grace, whatever fetches fail |
| `SessionRuns.AttemptsAreRateLimited` | app/tsuite_adapter.py:182-198 | attempts are in clock order although callers' readings are not, and n further attempts take at least n retry intervals |
| `SessionRuns.NeighbouringAttemptsAreSpaced` | app/tsuite_adapter.py:182-198 | a full cache interval lies between neighbouring attempts unless the earlier one failed past the grace |
| `SessionRuns.LastGoodNeverDecreases` | app/tsuite_adapter.py:189-192 | from the first good fetch on the last-good time never moves back |
| `SessionRuns.RecoveredAnswersUseAFreshList` | app/tsuite_adapter.py:181-200 | if every fetch from T on succeeds, answers from T plus the cache interval rest on a list fetched at or after T; the short retry interval is enough if the grace had run out before T |
| `SessionRuns.ListedLogoutIsRefusedAfterRecovery` | app/tsuite_adapter.py:181-206 | with fetches succeeding from T, a logout listed from T on is refused one cache interval later |
| `SessionRuns.SkewCorrectionBound` | app/tsuite_adapter.py:189-206 | with stamps at most d late the stored offset is off by at most d: logouts at or before login never end a session, logouts more than d after it always do |
| `SessionRuns.SkewBandIsUndecided` | app/tsuite_adapter.py:189-206 | for every logout inside the band of width d both answers are possible, so the bound cannot be improved |
| `LoginLimiter.Limiter.IsRateLimited` | app/routes/auth_routes.py:30-37 | the check's critical section prunes both keys and reports whether either is at its limit |
| `LoginLimiter.Limiter.RecordFailure` | app/routes/auth_routes.py:40-48 | the record section appends to both keys, evicting the oldest username when the table is full and the name is new |
| `LoginLimiter.Limiter.ClearFailures` | app/routes/auth_routes.py:51-55 | the clear section removes exactly both keys |
| `LoginLimiter.Limiter.Login` | app/routes/auth_routes.py:75-117 | an undisturbed login checks, then clears on success or records on failure, and touches nothing when the form is incomplete |
| `LoginLimiter.NormIgnoresCaseAndPadding` | app/routes/auth_routes.py:26-27 | a username is one key in any case and with any white space around it |
| `LoginLimiter.RecordingAddsOneFailure` | app/routes/auth_routes.py:40-48 | recording adds one failure to each of the two keys and changes nothing else, but that a new name pushes the oldest out of a table of 10,000 |
| `LoginLimiter.ClearingForgetsTheTwoKeys` | app/routes/auth_routes.py:51-55 | a successful login forgets the two keys and nothing else |
| `LoginRuns.RefusedIffTooManyRecentFailures` | app/routes/auth_routes.py:30-37 | over any run, at a check not behind the clock: a request is refused if and only if ten failures of its address or five of its username were logged since that key's last reset within the last 600 seconds |
| `LoginRuns.ConcurrentFailureBound` | app/routes/auth_routes.py:30-48 | under any interleaving of checks, failures, successes and requests that raise, with at most k requests for a key in flight, no window holds more than limit - 1 + k failures since the key's last reset; clock readings may reach the lock up to a slack out of order, which shortens the window by as much |
| `LoginRuns.SequentialFailureBound` | app/routes/auth_routes.py:14-18 | one request at a time: five per username and ten per address in any 600 seconds |
| `LoginRuns.BoundIsAttained` | app/routes/auth_routes.py:30-48 | for every k some run records exactly limit - 1 + k failures in a window, of one username and likewise of one address |
| `FilterCompiler.ParseIpEntries` | app/log_search_filters.py:30-62 | the address box becomes the printed clauses of its entries in order, or the first unreadable entry |
| `FilterCompiler.ParsePortEntries` | app/log_search_filters.py:65-89 | the port box becomes the printed clauses of its entries in order, or the first unreadable entry |
| `FilterCompiler.EntriesAreStripped` | app/log_search_filters.py:26-27 | entries are non-empty and carry no outer white space |
| `EntryText.BoxEntries` | app/log_search_filters.py:26-27 | the entries of a box are the stripped pieces between its commas that are not blank |
| `EntryText.AddressEntryIsRead` | app/log_search_filters.py:35-62 | the reader finds in an address entry exactly what its characters say: an address, an address and a prefix around a slash, or two addresses in order around the first hyphen |
| `EntryText.PortEntryIsRead` | app/log_search_filters.py:65-89 | the reader finds in a port entry exactly what its characters say: digits, a protocol and digits, a protocol and two numbers in order, or a service name |
| `EntryText.PortRangeSelects` | app/log_search_filters.py:70-77 | `tcp:a-b` selects exactly the ports from a to b |
| `EntryText.ProtocolPortSelects` | app/log_search_filters.py:81-84 | `tcp:a` selects exactly the port a |
| `EntryText.PortNumberSelects` | app/log_search_filters.py:78-80 | digits select exactly that port |
| `EntryText.AddressFormsCover` | app/log_search_filters.py:35-59 | `a-b` covers exactly the addresses from a to b, `a/m` exactly those that share the prefix |
| `FilterCompiler.NumericIs` | app/faz_client.py:495-496 | a value is written without quotes exactly if it is digits after any number of hyphens |
| `FilterCompiler.BuildFilterExpression` | app/faz_client.py:463-497 | non-empty boxes become OR-ed groups, extra filters one group each, all AND-ed; the first bad operator, field or value is reported |
| `FilterCompiler.CompileSearch` | app/routes/log_search_routes.py:140-171 | errors are reported in the route's order, and a search with no address clause is refused |
| `FilterGrammar.PrintedRunParsesBack` | app/faz_client.py:473-497 | any printed and/or expression with its parentheses parses back to the expression it stands for, whichever connective binds tighter, if and only if no comparison has a reserved word for its field; otherwise it does not parse |
| `FilterMeaning.CompiledFilterMeansTheBoxes` | app/routes/log_search_routes.py:140-171 | a request compiles if and only if it is acceptable; its text parses, under either precedence, if and only if no extra filter is on a field called and/or; it then is the AND of OR-ed groups, and a row satisfies it if and only if it satisfies what the characters of the user's entries say |
| `FilterMeaning.FieldNamedOrDoesNotParse` | app/faz_client.py:486-496 | for every address and address library, an accepted request with an extra filter on the field `or` whose text does not parse |
| `FilterMeaning.AcceptedSearchesAreConstrained` | app/routes/log_search_routes.py:155-166 | every row the filter of an accepted search selects has an address covered by one of the user's entries |
| `FilterMeaning.IpClauseMeans` | app/log_search_filters.py:35-59 | a clause holds of a row exactly when the entry (address, block with host bits set or not, inclusive range) covers its address |
| `FilterMeaning.PortClauseMeans` | app/log_search_filters.py:70-88 | a clause holds exactly when the port equals, lies in the inclusive range, or the service name matches |
| `FilterMeaning.ExtraClauseMeans` | app/faz_client.py:477-496 | an extra filter's clause holds exactly when the field does (or does not) agree with the value, quoted or not |
| `FilterMeaning.RefusalNamesTheFirstFault` | app/routes/log_search_routes.py:140-171 | the reason of a refusal: the first unreadable entry of the source, else the destination, else the port box; else that no address box constrains anything; else the fault of the first extra filter that is not accepted |
| `FilterMeaning.SomeLibraryIsLawful` | app/log_search_filters.py:39-58 | what is assumed of the address library can be met |
| `LogUsage.ValidateLogUsageRequest` | app/routes/external_api_routes.py:65-105 | a request is accepted exactly under the documented limits, and its devices are the deduplicated stripped names |
| `LogUsage.FirstSeenIsDistinct` | app/routes/external_api_routes.py:95-98 | deduplication keeps only given names, loses none but for its case, and keeps no two that differ only in case |
| `LogUsage.FirstSpellingIsKept` | app/routes/external_api_routes.py:95-98 | of names that differ only in case the first spelling is kept |
| `LogUsage.ResolveDevices` | app/routes/external_api_routes.py:116-132 | every requested name is resolved to the id of the last listed device of that name in any case, or reported as not found exactly if none is listed |
| `LogUsage.ResolvesToTheLastNamed` | app/routes/external_api_routes.py:120-127 | the resolution used by every account of a run is that one |
| `LogUsage.SearchOneDevice` | app/routes/external_api_routes.py:152-178 | a contribution holds exactly the addresses and convertible ports of the rows, their number and the truncation flag |
| `LogUsage.PortNumberIs` | app/routes/external_api_routes.py:161-168 | a port value counts as a number exactly when it is one, or is text of digits with at most one hyphen before them |
| `LogUsage.RunLogUsageSearch` | app/routes/external_api_routes.py:181-288 | the run's outcome and its list of searches satisfy the full account: each search the next one due, none passed over, every field of the answer fixed |
| `LogUsageAccount.OutcomeIsDetermined` | app/routes/external_api_routes.py:207-288 | replies and clock readings determine the outcome: two outcomes that meet the account are equal, in status and in every field |
| `LogUsageAccount.EveryDeviceIsAccountedFor` | app/routes/external_api_routes.py:223-286 | each requested name is queried, not found or in error; queried is disjoint from both; the overlap of the others is exactly unresolved names with a failed listing; after a deadline nothing is not found |
| `LogUsageAccount.SearchesAreOncePerDeviceAndInTime` | app/routes/external_api_routes.py:207-240 | no name is searched twice, no search starts at or after the deadline, and a run that always reads an early clock is never cut short |
| `LogUsageAccount.DevicesAreSearchedOnce` | app/routes/external_api_routes.py:92-98 | for a deduplicated request the names searched differ even without regard to case, so a device asked for in two spellings is searched once |
| `LogUsage.PortRaisesOnTwoHyphens` | app/routes/external_api_routes.py:161-169 | a port value raises exactly when it is text with two or more hyphens before its digits |
| `LogUsageAccount.CrashesIffARowCannotBeConverted` | app/routes/external_api_routes.py:241-248 | a request ends in an exception if and only if some search of it was answered with a row holding such a port |
| `LogUsageAccount.EarlyRunCrashesIffSomeDeviceDoes` | app/routes/external_api_routes.py:210-248 | when the clock never reaches the deadline: if and only if some requested device, taken on its own, meets such a row |
| `LogUsageAccount.PortWithTwoHyphensCrashes` | app/routes/external_api_routes.py:167-168 | a request whose only possible outcome is the exception: one device with one row whose port is `--5` |
| `LogUsageAccount.TotalsAreExact` | app/routes/external_api_routes.py:249-286 | log_count is the number of returned rows, the three sets are exactly the values of those rows, truncated is the disjunction |
| `LogUsageAccount.RangeIsOfTheLastGoodSearch` | app/routes/external_api_routes.py:256-259 | the reported time range is that of the last search that succeeded |
| `LogUsageAccount.SearchedErrorIsItsReply` | app/routes/external_api_routes.py:234-248 | a searched name is in error if and only if its search failed, with that search's message, in a 200 as in a 502 |
| `LogUsageAccount.UnsearchedErrorIsListingOrDeadline` | app/routes/external_api_routes.py:212-267 | an unsearched name carries the message of the first failed listing, if any, or after a deadline the skip message |
| `LogUsageAccount.AllFailedMeansNothingFetched` | app/routes/external_api_routes.py:271-272 | the answer is a 502 if and only if no search succeeded and some name is in error |
| `LogUsageAccount.UninterruptedRunIsDeviceByDevice` | app/routes/external_api_routes.py:210-261 | a run the deadline did not stop reports each device exactly as a separate target-by-target search for it would |
| `ThreatRollup.FoldTunnels` | app/threat_stats_cache.py:285-293 | the fold maps exactly the named tunnels, keyed by the device value as it stands in the row, each to whether some session of it is open |
| `ThreatRollup.PollVpn` | app/threat_stats_cache.py:285-323 | a target reports the tunnels seen, those up, and the connected users of its rows |
| `ThreatRollup.FleetCountsAreDirectCounts` | app/threat_stats_cache.py:389-399 | the fleet counts equal one computation over all targets' rows: down means seen somewhere and closed everywhere |
| `ThreatRollup.FleetCountsReadOffTheRows` | app/threat_stats_cache.py:285-299 | read off the raw fields: tunnels with a session anywhere, those whose every session has an end time, users with a session that has none |
| `ThreatRollup.CountsIgnoreDistribution` | app/threat_stats_cache.py:389-399 | the counts do not depend on target order, repetition or the split of rows over targets |
| `ThreatRollup.MergeTopLists` | app/threat_stats_cache.py:137-148 | merging returns the ranked head of the per-name sums over all lists |
| `ThreatRollup.TopListIsExact` | app/threat_stats_cache.py:146-148 | the list has min(limit, names) entries, distinct names, full sums, non-increasing counts |
| `ThreatRollup.NothingLargerIsLeftOut` | app/threat_stats_cache.py:147-148 | no omitted name has a larger sum than a reported one |
| `ThreatRollup.TiesKeepFirstAppearance` | app/threat_stats_cache.py:147-148 | of two names with equal sums the one whose first row comes earlier is reported first |
| `ThreatRollup.FlattenFollowsTheLists` | app/threat_stats_cache.py:142-145 | the merged rows are those of the lists, one list after the other |
| `ThreatRollup.CutsHideAtMost` | app/threat_stats_cache.py:137-148 | of no name do per-target lists cut at n hide more than the sum of the last counts they show |
| `ThreatRollup.MergedTopIsOffByAtMostTheHidden` | app/threat_stats_cache.py:172-177 | a reported count is below the true fleet sum by at most that much, and no name left out exceeds a reported count by more |
| `ThreatRollup.CutListsCanHideTheFirstName` | app/threat_stats_cache.py:172-177 | for every length of the cut a fleet whose largest true sum belongs to a name that is not reported |
| `LogStats.ClassifyDevices` | app/log_stats_cache.py:31-47 | devices are split in order by the silence threshold, never-logged ones being silent |
| `LogStats.BuildSilentDetails` | app/log_stats_cache.py:50-81 | the details are those of the head of the severity order |
| `LogStats.OmittedDevicesAreNoWorse` | app/log_stats_cache.py:50-65 | listed devices are in severity order and no omitted device is more severe than a listed one |
| `LogStats.EqualSeverityKeepsOrder` | app/log_stats_cache.py:56-57 | equally severe devices keep input order |
| `LogStats.EveryDeviceIsClassifiedOnce` | app/log_stats_cache.py:124-164 | every reported id is in exactly one list, once, with the last target's record at its first-seen place |
| `LogStats.SplitKeepsOrder` | app/log_stats_cache.py:39-47 | each list keeps the order in which devices were first seen |
| `LogStats.GatherDevices` | app/log_stats_cache.py:123-153 | the per-id dictionary keeps first-seen order and last record, over the targets that answered |
| `LogStats.LogStatsCache.PollAllTargets` | app/log_stats_cache.py:117-186 | after a successful cycle memory and store hold one snapshot: as logging exactly the last records of their ids that have logged within the threshold, as silent exactly the other last records, both in first-report order, and the details of the fifty worst; the history row counts these lists; a cycle no target answered changes none of them |
| `LogStats.PolledPublishes` | app/log_stats_cache.py:123-175 | the snapshot of any reports is that one |
| `LogStats.ReportsFollowTheTargets` | app/log_stats_cache.py:123-153 | reports are taken target after target, and a target that failed adds none |
| `LogStats.RatesAddUp` | app/log_stats_cache.py:177 | the history's rate is the sum of the rates of the logging devices |
| `LogStats.LogStatsCache.GetCached` | app/log_stats_cache.py:87-110 | an undisturbed read returns memory, filling it from the store only while it is empty |
| `ReadThrough.NeverAMixOfSnapshots` | app/log_stats_cache.py:97-110 | under any interleaving of polls and reads every worker's memory and every answer is the initial dictionary or one published snapshot |
| `ReadThrough.OneThreadNeverChangesItsAnswer` | app/log_stats_cache.py:97-110 | under the fine interleaving a worker with one thread never changes its answer once non-empty |
| `ReadThrough.AnswersAgreeIffNothingWasStoredBetweenFetches` | app/log_stats_cache.py:97-107 | with any number of threads, once all reads have finished: all non-empty answers are equal if and only if no snapshot was stored between two of the worker's fetches that found one |
| `ReadThrough.AnswersCanGoBack` | app/log_stats_cache.py:97-107 | two threads of one worker can answer with a newer snapshot and then with an older one |
| `ReadThrough.AnswersNeverChangeOnceFilled` | app/threat_stats_cache.py:47-64 | with uninterrupted reads a worker's answer never changes once non-empty |
| `ReadThrough.WorkerIsThatManyStoresBehind` | app/threat_stats_cache.py:47-64 | after any run of polls and uninterrupted reads a worker answers with the snapshot exactly as many stores back as were made since it was filled |
| `ReadThrough.UninterruptedAnswerIsLatestIffNothingWasStoredSinceTheFill` | app/threat_stats_cache.py:47-64 | the atomic case: with uninterrupted reads and no snapshot published twice, an answer is the latest stored snapshot if and only if nothing was stored since the worker was filled |
| `ReadThrough.MemoryIsWhatItsFetchFound` | app/log_stats_cache.py:97-107 | under any interleaving a filled memory is the snapshot stored last when the fetch behind its last fill was made |
| `ReadThrough.AnswerIsLatestIffNothingWasStoredSinceItsFetch` | readme.md:101-105 | under any interleaving, when no snapshot is published twice, every non-empty answer is the latest stored snapshot if and only if nothing was stored since the fetch behind the fill that set memory |
| `ReadThrough.FreshlyFilledWorkerIsStale` | app/log_stats_cache.py:101-107 | a run whose answer is stale although nothing was stored since the worker was filled: the snapshot was replaced between fetch and fill |
| `ReadThrough.FilledWorkerGoesStale` | readme.md:101-105 | a run in which a worker serves a snapshot that is not the collector's latest |
| `ReadThrough.GetIsTheThreeSteps` | app/collector_store.py:67-77 | an uninterrupted read is the look, fetch and fill steps of one thread |
| `Stamps.RowOrder` | app/log_stats_cache.py:113-114 | stored timestamps sort as text exactly as the instants they name |
| `Stamps.CutoffOrder` | app/log_stats_history.py:67-72 | a stored timestamp is below a Z-suffixed cutoff exactly up to and including the cutoff second |
| `Stamps.InstantsCountSeconds` | app/log_stats_cache.py:113-114 | the instants named by stamps count the seconds of the calendar one by one |
| `Stamps.StampsAreWritten` | app/log_stats_history.py:67-72 | a stamp is the date and time in fixed width, with `+00:00` for rows and `Z` for cutoffs |
| `RollupHistory.PruningIsChronological` | app/log_stats_history.py:67-72 | pruning deletes every row up to and including the cutoff second and keeps every later row, in order |
| `RollupHistory.History.GetLatestRollup` | app/log_stats_history.py:50-64 | the latest rollup is a stored row no other row's timestamp exceeds |
| `RollupHistory.LatestRowIsNewest` | app/log_stats_history.py:50-56 | such a row is exactly a chronologically newest one |
| `RollupHistory.FreshRowSurvivesPruning` | app/log_stats_cache.py:180-186 | the row a cycle writes survives the prune of the same cycle |
| `CsvExport.ExportedRowsReadBack` | app/static/js/log_search.js:342-349 | the exported lines read back, under quoted-field rules, as exactly the matrix of cell texts |
| `CsvExport.FileReadsBackByLines` | app/static/js/log_search.js:342-349 | the whole file: its first line splits at commas into the labels and the rest reads back as the cell matrix, if and only if no label contains a comma or a line feed |
| `CsvExport.CommaBreaksTheHeader` | app/static/js/log_search.js:344-348 | a file whose header splits into more labels than there are |
| `CsvExport.LineFeedBreaksTheHeader` | app/static/js/log_search.js:86-87 | a file whose first line is half a label and whose rest does not read back |
| `CsvExport.FileReadsBackByFields` | app/static/js/log_search.js:342-349 | the whole file under the rules for quoted and unquoted fields is the labels followed by the matrix, if and only if no label contains a comma, a line feed or a double quote |
| `CsvExport.QuoteBreaksTheFields` | app/static/js/log_search.js:344-348 | a quoted label loses its quotes under these rules, and a quote inside a label makes the file unreadable |
| `ResultsTable.PagesShowEverythingOnce` | app/static/js/log_search.js:282-301 | the pages together are exactly the visible rows, each once and in order |
| `ResultsTable.PagesAreFull` | app/static/js/log_search.js:282-301 | every page but the last is full and none is empty while rows are visible |
| `ResultsTable.RefinedShowsTheMatches` | app/static/js/log_search.js:254-280 | a refinement shows exactly the rows that match (or, negated, do not), each as often and in the order in which they stand |
| `ResultsTable.RefinedFailsOnAThrow` | app/static/js/log_search.js:254-280 | it fails exactly if the test throws on some row |
| `ResultsTable.Table.ApplyRefineFilter` | app/static/js/log_search.js:254-280 | a refinement shows exactly the (non-)matching rows from page one; one that throws leaves rows and page alone |
| `ResultsTable.Table.GoToPage` | app/static/js/log_search.js:286-289 | the page is clamped into range, and 1 <= page <= pages holds whatever was asked |
| `ResultsTable.Table.RenderResults` | app/static/js/log_search.js:315-330 | a new result shows all rows from page one |
| `ResultsTable.Table.ChangePageSize` | app/static/js/log_search.js:431-434 | changing the page size returns to page one of the same rows |
| `ResultsTable.Table.RenderPage` | app/static/js/log_search.js:291-301 | the rows on screen are the current page's slice, never empty while rows are visible |
| `FazPolling.FazClient.RunTask` | app/faz_client.py:313-346 | at most ceil(timeout / poll_interval) fetches, each after a check before the deadline; rows only from a report of at least 100 percent; every request id new |
| `FazPolling.MaxFetchesIsTheCeiling` | app/faz_client.py:318-346 | the bound is the least number of intervals that reach the timeout |
| `FazPolling.FazClient.NextId` | app/faz_client.py:82-84 | request ids over a client's life are strictly increasing |
| `FazPolling.WaitIsDetermined` | app/faz_client.py:440-461 | the account determines the number of fetches and the outcome |

## Left out

- HTTP, JSON-RPC, TLS, SNMP, bcrypt, tokens, sessions, CSRF, templates, DOM rendering, the scheduler, configuration and the management scripts: library calls and plumbing. Their results enter as arbitrary outcomes (fetch replies, listings, search results, password verdicts).
- IP text: Python's `ipaddress` is a parameter with stated laws (canonical text is hexadecimal digits, dots and colons and reads back; prefix lengths are in range). Zone identifiers of IPv6 addresses (section 11 of RFC 4007), which the source copies through unchanged, are outside these laws.
- Text is ASCII: Unicode digits, case folding and white space are not modelled.
- The token grammar of filter expressions is the one in FilterGrammar; `and` and `or` are reserved there in lower case, as the compiler prints them. FortiAnalyzer's own parser is not part of the repository. Text comparison ignores case because searches are submitted that way (app/faz_client.py:306). `!=` on a field a row lacks is taken as true.
- Times, timestamps and rates are exact reals; floating-point rounding, including that of percentages, is not modelled.
- JSON object keys are strings by construction, so the key-type test of `_parse_revocations` has no counterpart; a raised fetch and a malformed payload are the same event, as in the source.
- SessionRuns.LastGoodNeverDecreases: like the recovery bounds, for a cache interval of at least 0 seconds; the source uses 30 and does not validate the parameter.
- LoginRuns: the clock reading of a step and its critical section are one event; how far readings may reach the lock out of order is the slack parameter. Failures forgotten by eviction of a username count as a reset, because the source keeps nothing of them; the user table itself is not claimed to stay below its key limit.
- LogUsage: error texts keep their content but the order of names inside the joined 502 message, and the sorting of the address and port lists in the JSON answer, are not modelled. The matching of targets by ADOM is the number of targets given.
- LogUsage.PortRaisesOnTwoHyphens: for ASCII text of fewer than 4300 digits; Python refuses to convert longer digit strings, and some non-ASCII digits that `isdigit` accepts.
- ThreatRollup: plain sums over targets (alerts, detections, failed logins), the business-hours window and the blocked percentage would only add easy members.
- ThreatRollup.MergedTopIsOffByAtMostTheHidden: for full per-target rankings with distinct names and counts that fall and are not negative; that FortiAnalyzer ranks this way is not part of the repository.
- ThreatRollup.FoldTunnels: row fields are null, integers or text; Python's identification of 1 with 1.0 and True as dictionary keys, and unhashable values, are not modelled.
- LogStats: the folding of vdoms inside `get_log_stats` and the ISO formatting of detail timestamps; details carry the timestamp itself.
- ReadThrough: the shared store is one atomic register per key, and published snapshots are distinct from the initial dictionary by their collection time. The documentation says a worker that never polled still serves the collector's latest data (readme.md:101-105); the code serves whatever filled the worker first, and that is what is proved.
- RollupHistory: SQL statements are single assignments to the table; which of several rows with the same newest timestamp is returned is left open. Years are 1000 to 9999.
- CsvExport: column selection and the rendering of cells; cells are the texts the columns produce, with at least one column. A line feed is the only line break; a carriage return is an ordinary character.
- FazPolling.FazClient.RunTask: termination needs sleeps that last at least the poll interval and a positive interval, as its precondition says; both search_logs and run_fortiview use this loop.
