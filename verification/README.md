# Verified model of Failsafe DNS Proxy

Failsafe DNS Proxy forwards DNS queries to upstreams in strict priority order,
takes an upstream out of service after repeated failures, and lets it back in
only after confirmed recovery. This project models that failover engine in
Dafny 4.11 and proves what its design promises. Check it with

    dafny verify dfyconfig.toml

## What is modelled

| file | part of the system |
|---|---|
| `health.dfy`, `selection.dfy` | the health record of one upstream with its history, and the candidate filter |
| `manager.dfy` | the failover manager as a class: entries, name index, reports, slots, cached active upstream |
| `walk.dfy`, `resolve.dfy`, `emergency.dfy` | the fallback loop under its deadline; the same on the manager, with slots and health feedback; how the emergency path closes |
| `scheduler.dfy`, `failback.dfy` | probe backoff, the due map, probe rounds, and the time a recovered upstream needs to return |
| `store.dfy` | the configuration store and the reload branch of the daemon |
| `uci.dfy`, `uci-agreement.dfy`, `config.dfy`, `config-writing.dfy`, `sorting.dfy` | the UCI line reader, section assembly, options, validation, and the round trip of a whole configuration through its text |
| `proxy.dfy` | the running daemon as a step system: requests, probes and reloads interleave, one critical section or channel operation at a time |
| `proxy-slots.dfy`, `proxy-cache.dfy`, `proxy-history.dfy`, `proxy-scan.dfy`, `proxy-reports.dfy`, `proxy-progress.dfy`, `proxy-emergency.dfy` | the theorems over all runs of that system |
| `dnsmasq.dfy` | the dnsmasq integration helper as a transaction in which any command may fail |
| `counting.dfy`, `wrappers.dfy` | counting over the process table; options |

Sequential behaviour is stated on the classes and methods; their state changes
are the same functions (`Health.Record`, `Selection.Select`, `Failover.Source`)
that the step system uses, so both views rest on one definition. Commands,
clocks, exchanges and randomness are parameters: a `Turn` says what happens
around one attempt, a `ProbeRun` what one probe does, an `EnableRun` or
`DisableRun` how each external command turns out.

## Where the code and its intent differ

- `resolve` leaves its loop at internal/dnsserver/server.go:128-130 after the
  slot was taken and without giving it back; on the first candidate it then
  returns neither response nor error. `Walking.SlotLostExactly` and
  `Walking.NeitherExactly` say for which surroundings, `Walking.NeitherHappens`
  gives one, `ProxySlots.SlotAccounting` is the exact accounting over all runs,
  and `ProxySlots.ForgottenSlotsNeverReturn` and `ProxySlots.SixteenLossesStarve`
  are the consequence for later requests.
- A client success counts towards recovery when its selection was the emergency
  list: `resolve` passes its emergency flag as the `probe` argument.
- `stripComment` knows no backslash escapes and `splitUCI` does, and the trim
  between them can take an escaped blank away:
  `UciAgreement.BackslashSeparatesThePasses` and
  `UciAgreement.EscapedBlankSeparatesThePasses` are lines on which the passes
  differ from one lexer, and `UciAgreement.PassesAreOneLexer` says exactly when
  they do. Empty quoted fields are dropped, so a line reads back as printed if
  and only if no field is empty.
- The enable script deletes the backup after a failed verification even when the
  rollback failed, and says that the previous configuration was restored.
  `Dnsmasq.Helper.Enable` states exactly when the original survives, and
  `Dnsmasq.OriginalLost` is a case in which it does not.
- A disable that fails after its commit keeps the marker, and then every later
  disable is refused until the dhcp configuration is edited back to the
  integrated one: `Dnsmasq.LateFailureIsFinal`, `Dnsmasq.EditReopens`.

## Model

| member | source | states |
|---|---|---|
| `Health.HistoryRefinement` | internal/failover/state.go:154-215 | for every history of reports, with thresholds that may change at any event: after dropping passive successes that arrive while latched, both counters are the trailing run lengths, and the state is fixed by the latch and the last kept outcome |
| `Health.LatchStep` | internal/failover/state.go:149-216 | the out-of-service latch, defined over whole histories, is set exactly by a completed failure run and cleared exactly by a completed success run |
| `Health.OutCountsProbes` | internal/failover/state.go:160-173 | while out of service the success counter is the number of counted successes since the last failure in the raw history; Down means zero |
| `Health.RecoversExactlyAtThreshold` | internal/failover/state.go:160-173 | an out-of-service record returns if and only if a counted success brings the counted successes since the last failure to the threshold in force, and then it is Healthy |
| `Health.TrailingFailuresAreDown` | internal/failover/state.go:187-216 | a history ending with as many failures as the threshold now in force is Down, whatever came before |
| `Health.FailuresTakeOut` | internal/failover/state.go:187-216 | exact record after any unbroken series of failures from any record, carried-over ones included |
| `Health.ProbesRecover` | internal/failover/state.go:160-173 | a record out of service needs exactly the missing number of counted successes: fewer leave it Recovering |
| `Selection.SelectMeaning` | internal/failover/state.go:131-147 | a normal selection is exactly the in-service entries in priority order; emergency happens exactly when none is in service and is everyone |
| `Selection.ActiveMeaning` | internal/failover/state.go:238-244 | the active upstream is the first in service, or the very first when none is |
| `Selection.SelectionByState` | internal/failover/state.go:131-147 | by state: a normal selection is exactly those Unknown, Healthy or Suspect; emergency means all are Down or Recovering |
| `Sorting.SortOrders` | internal/config/config.go:154-159 | the stable sort leaves no neighbour out of order |
| `Sorting.SortPermutes` | internal/config/config.go:154-159 | the stable sort is a permutation |
| `Sorting.SortKeepsOrdered` | internal/failover/state.go:78-80 | a list already in order is left as it is |
| `Uci.StripComment` | internal/config/config.go:344-357 | the loop cuts the line at the first `#` outside quotes |
| `Uci.SplitUci` | internal/config/config.go:359-405 | the loop is the field lexer: fields, or malformed on an open quote, a dangling escape or no field |
| `Uci.Read` | internal/config/config.go:88-96 | the comment pass, the trim and the field pass composed |
| `UciAgreement.PassesAreOneLexer` | internal/config/config.go:344-405 | for every line whose kept part has no white space but blank and tab: with the same cut the two passes and the trim equal one fused lexer that stops at the first unquoted `#` if and only if the trim takes no escaped blank away; with different cuts they agree only in rejecting the line |
| `UciAgreement.QuotesAgreeExactly` | internal/config/config.go:344-405 | the quote states of the two passes agree at every prefix if and only if no escaped character is a quote mark the first pass reacts to |
| `UciAgreement.SameQuotesSameCut` | internal/config/config.go:344-405 | where they agree, both passes stop at the same place |
| `UciAgreement.UnnoticedEscapesAgree` | internal/config/config.go:344-405 | so on such lines the passes are one lexer unless the trim takes an escaped blank away, exactly |
| `UciAgreement.PlainLinesAgree` | internal/config/config.go:344-405 | on every backslash-free line whose only white space is blank and tab they are one lexer |
| `UciAgreement.BackslashSeparatesThePasses` | internal/config/config.go:344-405 | a concrete line with an escaped quote mark on which they differ |
| `UciAgreement.EscapedBlankSeparatesThePasses` | internal/config/config.go:88-96 | a concrete line with an escaped blank at the end on which they differ |
| `Uci.PrintedTokens` | internal/config/config.go:359-405 | printed tokens, quoted either way, escaped or bare, leave the lexer with exactly the non-empty texts read and nothing open |
| `Uci.PrintedLineReadsBack` | internal/config/config.go:88-96 | any indentation, tokens, gaps, trailing blanks and comment read back as exactly the non-empty texts; as printed if and only if no field is empty |
| `Config.ReadSections` | internal/config/config.go:83-126 | the line loop assembles the sections, and stops with an error exactly where the assembly of the whole file fails |
| `Config.AssemblesExactly` | internal/config/config.go:87-126 | a file is assembled if and only if each line is blank, a header with a type and at most a name, or an option or list line with key and value after some header |
| `Config.PrintedDocumentReadsBack` | internal/config/config.go:83-126 | every printed document of sections is accepted and assembles, in order, to sections holding the last value of each option and every list item |
| `Config.ProbeMeaning` | internal/config/config.go:291-308 | a text is accepted as a probe if and only if it splits at its first colon into a name that is not blank and a type; the probe asks for the trimmed lower-case name, a dot added if it lacks one, and for 1 if the type is A, 28 if AAAA |
| `Config.NamedProbe` | internal/config/config.go:291-308 | a plain name with :A or :AAAA gives the probe of that name with its final dot |
| `Config.BooleanWords` | internal/config/config.go:310-323 | which words are yes, which no, and that no other is accepted |
| `Config.WrapsAt64` | internal/config/config.go:180-193 | durations are products in int64: the value in range that differs by a multiple of 2^64 |
| `Config.AbsentTimes` | internal/config/config.go:51-64 | an absent duration option means 1.5 s, 5 s and 10 s |
| `Config.AbsentOptions` | internal/config/config.go:51-64 | what each other absent option of a main section means |
| `Config.AbsentUpstreamOptions` | internal/config/config.go:209-227 | what each absent option of an upstream section means |
| `Config.CheckSettings` | internal/config/config.go:229-260 | the problems reported are exactly those of the settings; none exactly for valid ones |
| `Config.CheckUpstream` | internal/config/config.go:272-283 | the problems reported are exactly those of the upstream; none exactly for a valid one |
| `Config.Validate` | internal/config/config.go:229-289 | the problems reported, repeated names and priorities included, are exactly those there are; none if and only if the configuration is valid, duplicates meaning pairwise |
| `Config.CollectedMeaning` | internal/config/config.go:128-152 | the section loop succeeds exactly when there is at most one main section, all sections are known and all options readable, and then holds those settings and the enabled upstreams |
| `Config.Collect` | internal/config/config.go:128-152 | the loop computes that result |
| `Config.Build` | internal/config/config.go:128-164 | the accepted section lists are exactly those with one readable main section, known sections and a valid result, which is returned |
| `Config.Parse` | internal/config/config.go:83-164 | the accepted files, both directions, and the configuration each stands for |
| `Config.EnabledAreSections` | internal/config/config.go:140-147 | an upstream is collected if and only if some upstream section reads as it and it is enabled |
| `Config.AcceptedIsWellFormed` | internal/config/config.go:128-163 | every accepted configuration lists a permutation of the enabled sections in strictly increasing priority with distinct non-empty names, and the second sort in the manager is the identity on it |
| `ConfigWriting.MainReadsBack` | internal/config/config.go:166-207 | a main section that says what was written for a configuration reads back as all its settings, each under its own key and unit |
| `ConfigWriting.UpstreamReadsBack` | internal/config/config.go:209-227 | the same for an upstream section |
| `ConfigWriting.IncreasingUnique` | internal/config/config.go:154-159 | a list in strictly increasing priority is determined by its elements |
| `ConfigWriting.WrittenConfigReadsBack` | internal/config/config.go:83-227 | the text of a configuration, with its upstreams in any order and any disabled ones among them, is accepted and means that configuration |
| `ConfigWriting.ParseWritten` | internal/config/config.go:83-164 | parsing that text gives the configuration back if and only if it is valid |
| `Failover.IndexEntries` | internal/failover/state.go:63-77 | each name leads to the entry of the last upstream listed with it, wherever the stable sort puts that entry |
| `Failover.IndexedDistinct` | internal/failover/state.go:63-84 | with distinct names the index finds each entry in its place |
| `Failover.Manager.constructor` | internal/failover/state.go:56-85 | entries are fresh and in priority order; each name leads to the last upstream listed with it; the cached active upstream is the active one |
| `Failover.InheritsExactlyFromSameServer` | internal/failover/state.go:87-103 | with distinct names, an upstream inherits from row i if and only if row i is the same server; with no such row it starts Unknown |
| `Failover.CarriesOverExactly` | internal/failover/state.go:87-103 | an upstream continues the record of an entry if and only if name, address, port and protocol are all the same, and otherwise starts Unknown with no counts |
| `Failover.Manager.Inherit` | internal/failover/state.go:89-101 | every entry takes over its row, or keeps what it has |
| `Failover.Manager.FromSnapshots` | internal/failover/state.go:87-103 | a new manager whose every record is the inherited one, with no slot taken and the cache right |
| `Failover.UnchangedUpstreamsKeepSelection` | internal/failover/state.go:87-103 | a manager made from the rows of one with the same upstreams has the same records, candidates and emergency flag |
| `Failover.Manager.Candidates` | internal/failover/state.go:131-147 | the two loops return the selection of the current readings |
| `Failover.Manager.Active` | internal/failover/state.go:238-244 | the name of the first upstream in service, or of the first of all when none is |
| `Failover.Manager.LogActiveChange` | internal/failover/state.go:303-313 | cache and line change together, and only when the active upstream is another one |
| `Failover.Manager.LogTransition` | internal/failover/state.go:263-301 | nothing is logged without a logger or a state change |
| `Failover.Manager.RecordFailure` | internal/failover/state.go:187-216 | the named record takes one failure, no other entry changes, and the cache stays right |
| `Failover.Manager.RecordSuccess` | internal/failover/state.go:149-185 | the named record takes one success, counted or passive, no other entry changes, and the cache stays right |
| `Failover.Manager.RecordSelectionMode` | internal/failover/state.go:246-261 | each change of mode is recorded once |
| `Failover.Manager.BeginAttempt` | internal/failover/state.go:105-116 | a slot is taken if and only if the name is known and fewer than 16 are held |
| `Failover.Manager.Release` | internal/failover/state.go:105-116 | exactly that slot is given back |
| `Failover.Manager.Snapshots` | internal/failover/state.go:228-236 | one row per entry, in order, with name, priority, protocol, address and port, and health |
| `RuntimeConfig.ValidateReload` | internal/runtimecfg/store.go:70-82 | which problem is reported when, and none exactly when listen address, port and status socket are unchanged |
| `RuntimeConfig.Store.Update` | internal/runtimecfg/store.go:44-51 | installs a new snapshot and counts it |
| `RuntimeConfig.Store.RecordReloadError` | internal/runtimecfg/store.go:53-58 | keeps the current snapshot and the count |
| `RuntimeConfig.Reload` | cmd/failsafe-dns-proxy/main.go:100-118 | a rejected reload keeps the snapshot and changes no manager; an accepted one installs a manager that inherits from the rows of the old one |
| `RuntimeConfig.SameUpstreamsSameSelection` | cmd/failsafe-dns-proxy/main.go:110-117 | a reload that keeps the upstreams of an accepted configuration keeps candidates and emergency flag |
| `Walking.FirstAcceptableAnswer` | internal/dnsserver/server.go:111-154 | attempts are with the first candidates, one each; all but the last of an answered request failed; only an answer, the deadline or the slot wait ends the loop early, and no candidate is skipped |
| `Walking.DeadlineNotHit` | internal/dnsserver/server.go:94-143 | a deadline that covers all slot waits, lags and full attempts plays no part |
| `Walking.WinnerIsLeast` | internal/dnsserver/server.go:111-154 | with such a deadline, or none, the loop answers if and only if some candidate would within the attempt timeout, and the winner is the least such candidate |
| `Walking.EndsByDeadline` | internal/dnsserver/server.go:115-143 | for any slot waits and any number of candidates the loop ends by the deadline plus one bookkeeping lag |
| `Walking.BudgetBuysAttempts` | internal/dnsserver/server.go:115-143 | with every exchange hanging, exactly min(n, ceil(budget / attempt)) candidates are tried, the first floor(budget / attempt) with the full timeout, a last one with the remainder |
| `Walking.OverrunExactly` | internal/dnsserver/server.go:116-134 | the exit that forgets the slot is taken at round k if and only if all earlier rounds go on without an acceptable answer and, in round k, a slot is granted and the time is up when the clock is read after it |
| `Walking.SlotLostExactly` | internal/dnsserver/server.go:116-134 | a slot is lost if and only if some round meets that condition |
| `Walking.EndsExactly` | internal/dnsserver/server.go:115-154 | every request, by the first round that does not go on: how many attempts it made, what ended it and when, in terms of waits, lags, exchange times and response codes alone |
| `Walking.StopExists` | internal/dnsserver/server.go:115-154 | every request has such a round |
| `Walking.ResultExactly` | internal/dnsserver/server.go:138-153 | the result of every request: the code of that round if its candidate delivers, otherwise one error per attempt made and one for an expiry or a slot wait that ended the loop, or neither when that is none |
| `Walking.ResponseExactly` | internal/dnsserver/server.go:144-150 | the result is the response of candidate k with its code if and only if all earlier rounds go on and candidate k delivers that code in time, neither 2 nor 5 |
| `Walking.NeitherExactly` | internal/dnsserver/server.go:115-153 | a result with neither response nor error occurs if and only if there are no candidates or the first one is granted a slot and the time is up when the clock is read after it |
| `Walking.NeitherHappens` | internal/dnsserver/server.go:124-130 | a concrete request with that result |
| `Resolver.FeedbackExactly` | internal/dnsserver/server.go:138-150 | one failure per transport error, none for SERVFAIL or REFUSED, one success for the winner, every slot given back, no other entry changes |
| `Resolver.SlotsBalanceExactly` | internal/dnsserver/server.go:120-137 | after a request the slots held on each entry are those held before, less one where a full entry was waited for, plus one on the candidate of an overrun |
| `Resolver.ReportsGoToPicks` | internal/dnsserver/server.go:111-150 | with distinct names the entries reported to are those selected, each at most once |
| `Resolver.TakeSlot` | internal/failover/state.go:118-129 | one more slot is held on the named entry, after another holder released one if it was full |
| `Resolver.TryCandidate` | internal/dnsserver/server.go:116-150 | one round on the manager: the slot is taken, given back and the reply reported; an overrun keeps the slot; any other end changes nothing |
| `Resolver.TryAll` | internal/dnsserver/server.go:115-152 | the loop is the walk over the candidates, and the entries change by its attempts and by the slot an overrun keeps |
| `Resolver.Resolve` | internal/dnsserver/server.go:111-154 | selection, loop and result on the manager: a response from candidate k with a code if and only if k is the first that delivers and delivers it; exchanges are with a prefix of the selection; with distinct names every slot is back except that of an overrun; the emergency mode is recorded |
| `Emergency.ServeOnce` | internal/dnsserver/server.go:112-150 | a request in emergency advances the answering upstream by one counted success and leaves all others out |
| `Emergency.FeedbackIsServe` | internal/dnsserver/server.go:112-150 | what an answered `resolve` reports on its own selection is one such request, answered by the entry of its last attempt |
| `Emergency.EmergencyEnds` | internal/failover/state.go:131-173 | such requests keep the selection in emergency until exactly the one that reaches the threshold; then the answering upstream is the sole normal candidate, however often the others fail |
| `Emergency.ServeClients` | internal/dnsserver/server.go:112-150 | the same for successive calls of `resolve` on the manager, with failures of others before and during them |
| `ProxyEmergency.EmergencyEndsInRuns` | internal/failover/state.go:131-216 | the same over every run: from all out of service, while one upstream answers and the others only fail, the selection is the emergency list until exactly its counted success that reaches the threshold, and it alone from then on |
| `Emergency.NeededBound` | internal/failover/state.go:160-173 | at most recoverThreshold answers are needed, exactly that many from Down |
| `Emergency.SoleCandidate` | internal/failover/state.go:131-147 | one upstream in service is the whole normal selection |
| `Scheduling.Tick` | internal/health/scheduler.go:42-48 | a quarter of the interval, or the nearer end of the range from a quarter second to one second |
| `Scheduling.Backoff` | internal/health/scheduler.go:136-149 | the doubling loop equals min(base * 2^(f-1), 5 minutes) with jitter, in at most 39 steps for any f, its variable never above the larger of base and ten minutes |
| `Scheduling.JitterBounds` | internal/health/scheduler.go:136-149 | with jitter in [0.8, 1.2) the wait is below six minutes and within those factors of the delay |
| `Scheduling.DelayDoubles` | internal/health/scheduler.go:136-149 | one more failure doubles the delay until the cap |
| `Scheduling.FailuresDouble` | internal/health/scheduler.go:117-134 | after any number of consecutive failed probes seen as Down the wait is base * 2^(f-1) up to the cap, f counting all failures since the reset; each doubles it and a success resets it |
| `Scheduling.FailureSeenUp` | internal/health/scheduler.go:117-134 | a failed probe that leaves the upstream up counts as the first: the next follows after one jittered interval, and the n-th further failure seen as Down waits 2^n intervals up to five minutes |
| `Scheduling.ProbeSettles` | internal/health/scheduler.go:77-134 | what a round makes of a due upstream, in full: record, failure count and next probe for an acceptable response, and for an error, SERVFAIL or REFUSED |
| `Scheduling.Scheduler.IsDue` | internal/health/scheduler.go:106-115 | a claim succeeds exactly from the due time on and marks the name for a day; other names are untouched |
| `Scheduling.Scheduler.Schedule` | internal/health/scheduler.go:117-134 | the new due time and failure count of the name, as the lemmas above determine them; other names are untouched |
| `Scheduling.ProbeIfDue` | internal/health/scheduler.go:77-98 | a due name is probed, reported and rescheduled; a name that is not due is left alone |
| `Scheduling.ProbeAll` | internal/health/scheduler.go:61-98 | after a round every upstream is settled: no in-flight mark survives and none is probed before its time |
| `Failback.VisitIsARound` | internal/health/scheduler.go:61-134 | the visits of the failback timeline are scheduler rounds with an answered probe |
| `Failback.ReturnsInTime` | internal/health/scheduler.go:40-134 | an upstream missing n answers is Healthy exactly after n probes, and by the time bound of the timeline |
| `Failback.FailbackBound` | internal/health/scheduler.go:40-134 | from Down after a failed probe, answering every later probe: Healthy after exactly R probes, within six minutes plus R - 1 intervals plus R visit delays |
| `Failback.TickIsNext` | internal/health/scheduler.go:49-58 | the tick the loop waits for is the earliest one later than the last round start |
| `Failback.NextStartMeaning` | internal/health/scheduler.go:49-58 | a tick that fires during a round starts the next at once; otherwise the next starts less than a tick after the end |
| `Failback.RoundsAreSpaced` | internal/health/scheduler.go:40-75 | the rounds of the ticker loop visit an upstream within one tick, two rounds and a lag of the visit before |
| `Failback.FailbackUnderTicker` | internal/health/scheduler.go:40-134 | the failback bound with that delay |
| `Proxy.StepKeepsOk` | cmd/failsafe-dns-proxy/main.go:94-127 | every step of requests, probes and reloads keeps all managers, processes and the reload in progress well formed |
| `ProxySlots.SlotAccounting` | internal/dnsserver/server.go:115-153 | in every state of every run, slots held on an upstream are attempts in flight plus earlier exits that forgot the slot, never more than 16 |
| `ProxySlots.ReleaseNeverBlocks` | internal/failover/state.go:105-129 | whoever holds a slot or a limit token finds it there to give back |
| `ProxySlots.ForgottenSlotsNeverReturn` | internal/dnsserver/server.go:125-130 | slots forgotten by one time are still held at every later time, so attempts in flight plus forgotten slots stay within 16 |
| `ProxySlots.SixteenLossesStarve` | internal/dnsserver/server.go:120-130 | after sixteen such exits no request of that manager ever gets a slot on that upstream |
| `ProxySlots.AllBackExactly` | internal/dnsserver/server.go:120-137 | with nothing in flight all slots are back if and only if no request left through that exit |
| `ProxySlots.LimitAccounting` | internal/dnsserver/server.go:81-89 | a snapshot's limit occupancy is the number of handlers in flight that captured it and never exceeds MaxConcurrent |
| `ProxySlots.AcquireExactly` | internal/failover/state.go:118-129 | a waiting request can take a slot if and only if attempts in flight and forgotten slots are fewer than 16 |
| `ProxySlots.AdmitExactly` | internal/dnsserver/server.go:82-89 | a handler is admitted if and only if fewer than MaxConcurrent are in flight |
| `ProxyProgress.NobodyIsStuck` | internal/dnsserver/server.go:111-154 | in every state of every run each process is finished, or can take a step, or waits for a log lock whose holder can |
| `ProxyProgress.QuietIsFree` | internal/dnsserver/server.go:111-154 | what each process that is not logging can do next, any reply of an exchange included |
| `ProxyProgress.ReloadGoesOn` | cmd/failsafe-dns-proxy/main.go:100-118 | a reload in progress takes its next row or commits; otherwise one can be rejected, and begun exactly for a well-formed configuration that keeps the listener and the socket |
| `ProxyCache.CacheAgreesAtRest` | internal/failover/state.go:180-216 | under every interleaving of reports and per-entry scans, with no report between its state change and the end of its log step, the cached active upstream is the first one in service, or the first of all when none is |
| `ProxyCache.LinesFormAChain` | internal/failover/state.go:303-313 | the lines of a manager start at its first active upstream, each continues the previous one, none goes from an upstream to itself, and the last ends at the cache |
| `ProxyReports.ReportsFollowExchanges` | internal/dnsserver/server.go:135-150 | over every run, a client that reports on a candidate had an exchange with it, and reports a failure if and only if that was a transport error, a success if and only if it was an acceptable answer, counted if and only if its list was the emergency list |
| `ProxyReports.NextMoveIsTheReport` | internal/dnsserver/server.go:135-150 | after a transport error or an acceptable answer the next own step of the client is just that report; an error then leads to the next candidate, an answer ends the request |
| `ProxyReports.RefusalIsNeverReported` | internal/dnsserver/server.go:144-147 | a SERVFAIL or REFUSED leads straight to the next candidate and the client never reports on the upstream that gave it |
| `ProxyReports.ProbesReportWhereTheyBelong` | internal/health/scheduler.go:77-98 | a probe that ends reports once, to the upstream and the manager it was spawned for, and no other record or manager changes |
| `ProxyHistory.MoveRecordsItsReport` | internal/failover/state.go:149-216 | a step records exactly its own report on one entry; a step without a report records nothing |
| `ProxyHistory.RecoveryDiscipline` | internal/failover/state.go:149-216 | over every interleaving, an upstream comes back at a step exactly when that step records a counted success reaching the manager's threshold since the last failure, inherited successes included; the reporter is a probe or an emergency client of that manager |
| `ProxyHistory.FailureRunIsDown` | internal/failover/state.go:187-216 | in every reachable state an upstream whose last threshold-many reports all failed is Down, whoever made them |
| `ProxyHistory.OnlyOwnReportsArrive` | cmd/failsafe-dns-proxy/main.go:101-118 | a manager's record grows by the reports of its own requests and probes and by nothing else |
| `ProxyHistory.RowsAreReadings` | internal/failover/state.go:228-236 | each row of a reload in progress is what its entry was during that very reload, at the moment the row was due |
| `ProxyHistory.CommitCarriesOver` | internal/failover/state.go:87-103 | under concurrency, an upstream of the new configuration with the name, address, port and protocol of a current one continues its record as it stood at some moment of this reload; every other starts Unknown; earlier snapshots are unchanged |
| `ProxyHistory.ReloadsKeepTheListener` | internal/runtimecfg/store.go:70-82 | across every sequence of reloads all snapshots have the listener and socket bound at the start, and accepted reloads count the snapshots |
| `ProxyHistory.RejectedReloadsLeaveNoTrace` | cmd/failsafe-dns-proxy/main.go:100-109 | erasing the rejected reloads from any run gives a run that ends in the same snapshots, processes, reload and count of accepted reloads, and the count of rejections is the number erased |
| `ProxyScan.ReadingsWereTrue` | internal/failover/state.go:131-147 | every reading a scan holds was true of its entry at some instant since the scan began |
| `ProxyScan.SelectionIsJustified` | internal/failover/state.go:131-147 | each upstream of a normal selection was in service at some instant of the call, each omitted one was out at some instant, emergency means each was out at some instant; the list is non-empty and strictly increasing in priority |
| `ProxyScan.NormalRequestsSkipDown` | internal/dnsserver/server.go:111-143 | a normal request whose whole selection fell into a time an upstream was out never exchanges with it |
| `ProxyScan.LowerPriorityOnlyAfterFailures` | internal/dnsserver/server.go:115-147 | under every interleaving, a request at some position of its list has had a failed exchange with every candidate before it |
| `Dnsmasq.VerifyDnsmasq` | package/failsafe-dns-proxy/files/usr/sbin/failsafe-dns-proxy-dnsmasq:182-193 | true exactly when one of twenty lookups works |
| `Dnsmasq.Helper.RestoreDnsmasq` | package/failsafe-dns-proxy/files/usr/sbin/failsafe-dns-proxy-dnsmasq:173-180 | succeeds exactly when backup, import, commit, restart and lookup do; the configuration left in each case |
| `Dnsmasq.Helper.Enable` | package/failsafe-dns-proxy/files/usr/sbin/failsafe-dns-proxy-dnsmasq:195-244 | success exactly when every command works, and then backup and marker are those of the configuration before; a failure whose rollback import and commit work leaves the original and no marker; the original survives a failure if and only if the batch failed or the rollback import worked |
| `Dnsmasq.Helper.Disable` | package/failsafe-dns-proxy/files/usr/sbin/failsafe-dns-proxy-dnsmasq:246-267 | success restores the backup and removes marker and backup; another configuration than the integrated one is never touched |
| `Dnsmasq.Perform` | package/failsafe-dns-proxy/files/usr/sbin/failsafe-dns-proxy-dnsmasq:195-267 | each call keeps marker and backup, restores them as a disable, or writes them as an enable |
| `Dnsmasq.ExplainedNext` | package/failsafe-dns-proxy/files/usr/sbin/failsafe-dns-proxy-dnsmasq:158-267 | a lawful step keeps every marker traceable to the enable that wrote it |
| `Dnsmasq.Session` | package/failsafe-dns-proxy/files/usr/sbin/failsafe-dns-proxy-dnsmasq:158-267 | over every sequence of enables, disables and outside edits with commands failing anywhere: whenever the marker is present, the backup is the export from just before the very enable that wrote it, and every step is lawful |
| `Dnsmasq.EnableThenDisable` | package/failsafe-dns-proxy/files/usr/sbin/failsafe-dns-proxy-dnsmasq:195-267 | a successful enable and disable are the identity on the dhcp configuration and leave neither marker nor backup |
| `Dnsmasq.LateFailureIsFinal` | package/failsafe-dns-proxy/files/usr/sbin/failsafe-dns-proxy-dnsmasq:257-264 | after a disable that failed past its commit, no sequence of enables and disables changes anything and every disable among them is refused |
| `Dnsmasq.EditReopens` | package/failsafe-dns-proxy/files/usr/sbin/failsafe-dns-proxy-dnsmasq:252-266 | putting the integrated text back lets a disable succeed again |
| `Dnsmasq.OriginalLost` | package/failsafe-dns-proxy/files/usr/sbin/failsafe-dns-proxy-dnsmasq:226-231 | a concrete enable after which neither configuration nor backup holds the original |

## Left out

- DNS messages, sockets and the exchange itself: an exchange is an oracle that returns an error or a response code within its timeout.
- The status server and the command line subcommands: input, output and JSON only.
- Log text, timestamps and latency fields: only the active-change lines and the mode changes are kept.
- Floating-point rounding and the random generator: jitter is a real in [0, 1), the choice of the probe is not modelled.
- `net.ParseIP`, `strconv.Atoi`, case folding and `net.JoinHostPort`: abstract functions; the configuration round trip assumes that printing an integer inverts parsing it, that an accepted address has no single quote, and that the lower-case protocol names and upper-case record types are fixed by folding.
- Reading the file and splitting it into lines, and text that is not valid UTF-8: the reader starts from lines of Unicode characters.
- Overflow of the health counters: they are unbounded; the products of configured durations and units do wrap at 64 bits.
- The identity of entry objects: an entry is an index into a sequence, so aliasing of entry pointers is not captured.
- Mutex and channel internals: each critical section and each channel operation is one step; fairness and wake-up order are not modelled.
- The init script, LuCI pages, rpcd script, installer and release scripts: user interface and packaging.
- The preflight checks, watchdog, status printing and hashing of the dnsmasq helper: preflight is one outcome, a checksum stands for its text, file operations succeed, and nobody edits during a call.
- Failover.Manager.BeginAttempt: does not wait; in the sequential loop the wait is a parameter, and a slot granted on a full entry was released by another holder (`Resolver.TakeSlot`); in the step system it is a guard.
- Resolver.Resolve: reports and slots of other requests do not interleave here, apart from the release a wait is for; they do in the step system, which in turn has no clock.
- Failback.FailbackBound: assumes, as the design states it, that every later probe is answered and that no client outcome is recorded for the upstream.
- Scheduling.ProbeAll: probes complete in list order; each touches only its own name, so their order does not change the outcome stated.
- Proxy.StepKeepsOk: the emergency-mode log flag is not part of the step system.
