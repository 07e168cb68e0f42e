# Visitor counter: a verified model

A Dafny model of the parts of the visitor counter whose behaviour is hard to see from one
piece of code: the counter store that retries against a replicated Postgres, the firewall
script that edits a rule chain in place, and the scripts that render configuration from
templates. `dafny verify dfyconfig.toml` checks the whole project.

## The counter

Any number of calls of `next_visitor_count`, on any number of servers, share one row.
`CounterTable` is the database: INIT_SQL, and the UPDATE with the errors a missing table, a
missing row or a full BIGINT column give. `CounterProtocol` is everything that can happen to
it, one atomic step at a time. A call connects, sends its update, waits, fails, repairs,
sleeps, returns. Connections are refused, break while a request is under way (the server may
still execute it, at any later time: such an update is an *orphan*), or break after the
commit, so that the reply is lost. INIT_SQL may run at any time. The retry budget and the
first back-off are parameters; `PRODUCTION` has the program's constants.

An *epoch* is the lifetime of one database. Within it commits are atomic and durable. Patroni
runs here with `synchronous_mode_strict: false` (postgres/patroni.yml.template:18-19), so a
new leader may lack commits, the row or the table; the step `ReplaceDatabase` replaces the
database by any other one and begins a new epoch. Theorems about counts speak about pairs of
epoch and count.

`CounterInvariant` holds what every step keeps, `CounterTheorems`, `CounterRecovery` and
`CounterEpochs` the theorems about whole runs, `LoopTrace` the steps of one call round by
round. `PostgresStore` is the code itself, the loop with its mutable `retries` and `delay`
inside a class. What the network does to each attempt and repair is its input; between any two
of its steps the other parties do whatever the contract of `Others` allows, which is any steps
of the protocol but the call's own. Its contract says that the call is a call of the protocol,
so the theorems apply to what the method returns. `SoloCall` and `Service` put the two stores
and the greeting on top, and `ServiceRuns` says that the service's answers are those of a run
of the protocol.

The repository's README.md:59 speaks of 3 attempts. The code makes one attempt and 3 retries,
4 in all; the model follows the code.

## The firewall

`Firewall` has the chain as a sequence of rules, `-D` as "remove the first equal rule, if
any", `-A` as "append", and packets that meet the first rule that settles them. The script is
a program of such commands, for any list of ports and peers. `FirewallRun` says what a
complete run leaves behind from any chain, `FirewallSafety` what holds at every point of a
run and which verdict packets meet, `FirewallScript` is the loop over a mutable chain.

Four findings. A run gives the canonical chain, and recovers from an interruption, if and
only if no managed rule was there twice: each run deletes one copy of an interface-scoped rule
and appends one, so a duplicate stays for ever (`RerunsConverge`), and a duplicated DROP shuts
the peers out (`DuplicateDropShutsPeersOut`). Appended rules are only reached by what the
rules in front leave open (`EarlierReturnDecides`). From single copies, a run never makes the
managed rules drop a peer if and only if they do not drop it at the start and neither would
the interface-scoped ones alone (`PeersStayReachable`); there are chains where they would
(`PeerIsDroppedDuringRun`). The price of this order is that for a while they drop nobody: a
run keeps dropping outsiders at every point only if a DROP was duplicated
(`OutsidersDuringRun`).

## The renderers

`Substitution` compares the `gsub` and `sed` passes, one after the other on the text, with
filling all holes of a line at once. It applies to lines in which literal text and values
have no double underscore and none at an edge, and in which text between two holes contains a
character that cannot be in a name. `&` in a replacement is modelled: a value stands for
itself if and only if it has none (`ExpandPlain`). `Sections` compares the one-flag awk
machine with templates as sequences of plain lines and guarded sections, and `Markers` says
which lines are markers. `Base64` has both
ends of the certificate round trip, `CaddyRuntime` the certificate files and whole runs,
`CaddyText` and `CaddyValues` the rendered text, `CaddyPaths` the certificate paths in it, `CaddySettings` what
one flag can change, and `PostgresRuntime` the second renderer.

Four findings. An exported empty certificate is an unset variable to the renderer: a pair is
installed byte for byte exactly when neither file is empty (`ExportedPairIsInstalled`). Only
a missing template and half of the main pair are refused before anything changes
(`OnlyRefusedRunsChangeNothing`). In the Caddyfile of an accepted run every certificate path
names an existing file (`AcceptedRunIsSafe`), but a run that aborts on bad base64 can leave
the old Caddyfile naming files that it has already removed (`AbortLeavesDanglingPath`), and
does so unless the condition of `AbortedRunIsSafe` holds. The flag of the TLS source also
decides whether certificates are pinned to files, and so changes lines outside the sections
of its service (`TlsSourceInterferes`); the flags that enable a service never do
(`SettingsDoNotInterfere`).

## Model

| member | source | states |
|---|---|---|
| CounterTable.InitNeverChangesARow | crates/adapter-counter-store-postgres/src/lib.rs:6-15 | however INIT_SQL interleaves with updates, an existing row counts exactly the updates, up to the column's maximum, and no other row changes |
| CounterTable.CountingRestartsAtInit | crates/adapter-counter-store-postgres/src/lib.rs:6-15 | after the table or row is lost, updates have no effect until the first INIT_SQL, and the ones after it count from 1 |
| CounterTable.UpdateOfRowOne | crates/adapter-counter-store-postgres/src/lib.rs:72-77 | the UPDATE works on row 1, adds one below 2^63 - 1, and in each case without a value leaves the database alone: no table, no row, a full column |
| CounterTable.InitCreatesRowOne | crates/adapter-counter-store-postgres/src/lib.rs:6-15 | INIT_SQL creates a missing table and a missing row 1 with the value 0, and nothing else |
| CounterInvariant.StepKeepsInv | crates/adapter-counter-store-postgres/src/lib.rs:63-103 | every step of every party keeps: commits ordered within their epoch, stored count is base plus commits, each call's retries, delay, sleep, errors and commits in step, each value in flight is a commit of its own call |
| CounterInvariant.RunKeepsInv | crates/adapter-counter-store-postgres/src/lib.rs:63-103 | the invariant holds after every schedule of steps, of any length and any number of calls |
| CounterTheorems.CountsAreUnique | crates/adapter-counter-store-postgres/src/lib.rs:67-91 | under all faults, two different calls never return the same count of one epoch |
| CounterTheorems.CountsAreInRange | crates/adapter-counter-store-postgres/src/lib.rs:67-91 | a returned count lies above what its epoch started from and, while the epoch lasts, not above the stored value |
| CounterEpochs.FailoverCountsFromReplacement | crates/adapter-counter-store-postgres/src/lib.rs:63-103 | after a failover, and whatever follows it, the database is exactly the one that took over; the k-th commit of its epoch carries its count plus k (0 without a row), and so does the row while the epoch lasts |
| CounterEpochs.LossRestartsAtOne | crates/adapter-counter-store-postgres/src/lib.rs:6-15 | after a failover to a database without the row, the calls that succeed in its epoch have counts from 1 up to the number of its commits |
| CounterEpochs.SameCountInTwoEpochs | crates/adapter-counter-store-postgres/src/lib.rs:63-103 | a run in which two calls return the same count, in two epochs: uniqueness is within one database |
| CounterEpochs.LateUpdateCounts | crates/adapter-counter-store-postgres/src/lib.rs:68-83 | a run in which an update whose connection broke is executed late, in the epoch of another database, although its call has failed |
| CounterTheorems.RunGrows | crates/adapter-counter-store-postgres/src/lib.rs:63-103 | commits, epochs and the outcomes of finished calls are never taken back |
| CounterTheorems.RealTimeOrder | crates/adapter-counter-store-postgres/src/lib.rs:67-102 | if one call had returned before another began, it returned the smaller count, or one of an earlier epoch |
| CounterTheorems.RefinesSkippingCounter | crates/adapter-counter-store-postgres/src/lib.rs:67-102 | for every run there is one order of its successful calls, each exactly once, in which an atomic counter that may skip but never repeats or goes back serves them, and which at no moment of the run puts a call before one that had already returned when it began |
| CounterTheorems.GapIsBounded | crates/adapter-counter-store-postgres/src/lib.rs:64-101 | while the database is not replaced, stored count minus start minus successes is between 0 and `retries` per success plus `retries + 1` per other call |
| CounterRecovery.GapIsReached | crates/adapter-counter-store-postgres/src/lib.rs:64-101 | these bounds are tight: for every policy there is a run in which a call gives up after `retries + 1` commits, and one in which it succeeds after `retries` wasted ones |
| CounterTheorems.StoredIsBasePlusCommits | crates/adapter-counter-store-postgres/src/lib.rs:72-77 | in every run, replacements included, the stored count is the epoch's base plus the commits of the epoch, and there are at most `retries + 1` commits per call |
| CounterTheorems.CommitsPerCall | crates/adapter-counter-store-postgres/src/lib.rs:64-101 | over any calls together there are at least as many commits as successes and at most `retries + 1` per call |
| CounterTheorems.CommitsOfOneCall | crates/adapter-counter-store-postgres/src/lib.rs:64-101 | in every run each single call has at most `retries + 1` commits, late ones included, and a successful call has a commit of its own with the count it returned |
| CounterTheorems.CallsTerminate | crates/adapter-counter-store-postgres/src/lib.rs:67-101 | under every schedule a call is over after at most `retries + 1` attempts and `5 * retries + 4` steps, and until then it has a next step |
| CounterTheorems.OutcomeOfTheLoop | crates/adapter-counter-store-postgres/src/lib.rs:64-101 | a finished call gave up exactly when all `retries + 1` attempts failed, with the last attempt's error, and slept `delay * (2^j - 1)` after `j` retried failures |
| CounterTheorems.SleepIsGeometric | crates/adapter-counter-store-postgres/src/lib.rs:96-98 | doubling the delay per retry: the back-off after `k` retries is `delay * 2^k`, the sleep so far `delay * (2^k - 1)` |
| CounterTheorems.ProductionLimits | crates/adapter-counter-store-postgres/src/lib.rs:64-65 | with 3 retries and 250 ms: at most 4 attempts and a sleep of 0, 250, 750 or 1750 ms; giving up takes exactly 4 attempts and 1750 ms |
| CounterRecovery.FailedCallRecovers | crates/adapter-counter-store-postgres/src/lib.rs:92-98 | a failed call with a retry left, whatever the reason, returns a count of at least 1 after exactly five more steps of its own if its repair and next attempt meet no fault, whatever all other calls do in between; the epoch's counts start at 0 or above and the column has room for one value per possible commit |
| CounterRecovery.FaultFreeCallsCountUp | crates/adapter-counter-store-postgres/src/lib.rs:86-91 | without faults `n` concurrent calls in any order return exactly the `n` counts after the start, each once, even if table or row are missing at first (with a retry to spare and room in the column) |
| PostgresStore.Cluster.NextVisitorCount | crates/adapter-counter-store-postgres/src/lib.rs:63-103 | the loop, under arbitrary interference and for every sequence of faults and repairs, is a call of the protocol that ends with exactly the result it returns; its own steps are those of its rounds, each attempt with its fault and each repair run exactly if it gets through; 4 attempts and 1750 ms at most; it succeeds if a repair gets through, the next attempt meets no fault and the database stays; no other call has its count, and an error is one that the fourth attempt can have met |
| PostgresStore.Cluster.Attempt | crates/adapter-counter-store-postgres/src/lib.rs:68-83 | an attempt takes exactly the steps of its fault and is an Ok with the value that the protocol records for the call, or an Err recorded as this attempt's failure; only an attempt without a fault is an Ok |
| PostgresStore.Cluster.Repair | crates/adapter-counter-store-postgres/src/lib.rs:93-95 | the repair is one step that runs INIT_SQL exactly if it gets through and leaves the call's retries and delay alone |
| PostgresStore.Cluster.Retry | crates/adapter-counter-store-postgres/src/lib.rs:92-98 | between two attempts: the repair, run exactly if it gets through, and then the sleep, after which one retry is gone and the delay has doubled |
| LoopTrace.GoodRoundSucceeds | crates/adapter-counter-store-postgres/src/lib.rs:67-101 | a call whose own steps are those of the loop succeeds if some round ends in a repair that gets through, the next attempt meets no fault and the database is not replaced meanwhile |
| PostgresStore.Cluster.Open | crates/adapter-counter-store-postgres/src/lib.rs:27-40 | a store opens exactly if its connection and INIT_SQL go through; then the row is there, and opening never changes an existing count |
| SoloCall.SoloCallIsNextCount | crates/adapter-counter-store-postgres/src/lib.rs:63-103 | from every state, whatever other calls it holds: however the steps of a call that begins now and is left alone are taken, once it is over the database and its result are those of `NextCount` (next value, 1 after a repair, a negative value or a full column as an error), and such steps always lead to its end |
| Service.MemoryCounterStore.NextVisitorCount | crates/adapter-counter-store-memory/src/lib.rs:13-18 | the counter behind the lock goes up by one and its new value is returned |
| Service.ServiceOnPostgres | crates/application/src/service.rs:27-52 | for every sequence of requests and every stored count: counter-mode greetings advance the row by one, up to the column's maximum, plain ones and health calls leave it; the answer is a store error below 0 and once the column is full, a greeting error at 0, and carries exactly that count from 1 upward |
| ServiceRuns.ServeIsEveryRun | crates/application/src/service.rs:27-52 | in every run of the protocol that has one call per counter-mode greeting, one after the other and each left alone to its end, the calls return what the service answers with and the database ends where the service leaves it |
| ServiceRuns.CallsCanRunOneByOne | crates/adapter-counter-store-postgres/src/lib.rs:63-103 | there is such a run for every number of calls, from every database |
| Service.FirstSuccess | crates/application/src/service.rs:33-41 | the first counter-mode greeting that succeeds carries max(1, start + 1) |
| Service.StoresAgree | crates/adapter-counter-store-memory/src/lib.rs:13-18 | below 2^63 both stores answer every sequence of requests alike, storage name aside, and stay in step |
| Service.VisitorsSeeDifferentTexts | crates/application/src/service.rs:33-41 | in every run of the protocol, two calls of one epoch that greet a visitor greet them with different texts |
| Greeting.ParsePrinted | crates/domain/src/greeting.rs:31-34 | the printed count is digits only and reads back as the count |
| Greeting.NoLeadingZero | crates/domain/src/greeting.rs:31-34 | a printed count begins with 0 only if it is 0 |
| Greeting.WordingOfMessages | crates/domain/src/greeting.rs:27-37 | the wording of the plain message and of the numbered one at a count |
| Greeting.CountIsReadable | crates/domain/src/greeting.rs:27-37 | the count can be read off every numbered message and off no plain one |
| Greeting.MessagesDiffer | crates/domain/src/greeting.rs:27-37 | different greetings have different messages |
| FirewallRun.RunIsPrune | scripts/server/apply-firewall.sh:14-31 | from any chain, duplicates included, a run removes the first copy of each managed rule and leaves the rest in order in front of the blocks of all ports |
| FirewallRun.RunIsCanonical | scripts/server/apply-firewall.sh:14-31 | a run yields the unmanaged rules in their order followed by the block of each port if and only if no managed rule was there twice |
| FirewallRun.RunIsIdempotent | scripts/server/apply-firewall.sh:14-31 | from any chain, a second run gives exactly the same chain, order included, if and only if what the first run left in front ends in the duplicates of its blocks, in their order; so it does from single copies |
| FirewallRun.CopiesAfterReruns | scripts/server/apply-firewall.sh:17-24 | how many copies of each managed rule there are after `n` runs, from any chain |
| FirewallRun.RerunsConverge | scripts/server/apply-firewall.sh:15-30 | restarting the script reaches the canonical chain at some time if and only if no interface-scoped managed rule was there twice |
| FirewallRun.DuplicateDropStays | scripts/server/apply-firewall.sh:21-30 | failing input of the canonical chain and of convergence: of two copies of a port's DROP two are there after any number of runs |
| FirewallRun.UnmanagedUntouched | scripts/server/apply-firewall.sh:17-30 | after any number of commands the unmanaged rules are as they were, in order |
| FirewallSafety.InterruptedRunConverges | scripts/server/apply-firewall.sh:17-30 | a run stopped behind any of its commands and then a complete one give the chain of an uninterrupted run, for every place of the stop, if and only if no managed rule was there twice |
| FirewallSafety.VerdictAfterRun | scripts/server/apply-firewall.sh:26-30 | after a run from any chain, what it left of that chain speaks first (from single copies: the unmanaged rules); what this leaves open on a guarded port of the external interface is dropped exactly when the source is no peer, anything else passes on |
| FirewallSafety.FirstSettlingRuleDecides | scripts/server/apply-firewall.sh:27-30 | the first rule that matches a packet and is no LOG decides it; a packet that meets none, or a RETURN, passes on |
| FirewallSafety.OptionsNarrow | scripts/server/apply-firewall.sh:17-30 | every option of a rule narrows the packets it matches, and a rule without options matches all |
| FirewallSafety.PassAsWritten | scripts/server/apply-firewall.sh:15-30 | the twelve commands of one pass for three peers, as they are written |
| FirewallSafety.ProgramAsWritten | scripts/server/apply-firewall.sh:14-31 | the four ports in their order, each with its pass |
| FirewallSafety.DuplicateDropShutsPeersOut | scripts/server/apply-firewall.sh:21-30 | failing input with duplicates: from two copies of a port's DROP, a complete run leaves the peers dropped |
| FirewallSafety.OtherTrafficUnaffected | scripts/server/apply-firewall.sh:17-30 | any packet but TCP to a managed port meets its old verdict after every single command |
| FirewallSafety.EarlierReturnDecides | scripts/server/apply-firewall.sh:26-30 | counterexample: behind an unmanaged RETURN for everything no source is dropped |
| FirewallSafety.PeersStayReachable | scripts/server/apply-firewall.sh:17-30 | from any chain, at no point of a run do the managed rules drop a peer's packet if and only if they do not at the start and after none of the four deletions that concern it; from single copies, if and only if they do not at the start and the interface-scoped ones alone do not |
| FirewallSafety.PeerIsDroppedDuringRun | scripts/server/apply-firewall.sh:18-30 | failing input: a peer let in by the interface-agnostic ACCEPT in front of the scoped DROP is dropped at some point of the run |
| FirewallSafety.OutsidersDuringRun | scripts/server/apply-firewall.sh:17-30 | from any chain, the managed rules drop an outsider's packet at every point of a run if and only if one of the port's DROPs was there twice; otherwise there is a point at which both are gone |
| FirewallSafety.OutsiderPassesDuringRun | scripts/server/apply-firewall.sh:21-30 | failing input: the chain of the port's DROP alone drops an outsider before and after a run, and not at some point of it |
| FirewallScript.Chain.Delete | scripts/server/apply-firewall.sh:17-24 | deletes the first equal rule in place, one copy and no more, and does nothing if there is none |
| FirewallScript.Chain.ApplyFirewall | scripts/server/apply-firewall.sh:14-31 | the loop over the mutable chain executes the commands in order; from single copies the chain ends up canonical |
| Substitution.ReplaceIsFill | scripts/deploy/render-infra-caddyfile.sh:113-120 | search and replace of one placeholder in the text fills exactly the holes of that name, although names share long suffixes |
| Substitution.ExpandPlain | scripts/deploy/render-infra-caddyfile.sh:113-120 | a replacement without backslashes stands for itself if and only if it has no `&` |
| Substitution.ExpandInserts | scripts/deploy/render-infra-caddyfile.sh:113-120 | a `&` in a replacement inserts what was matched |
| Substitution.ChainIsSimultaneous | scripts/deploy/render-infra-caddyfile.sh:113-120 | the passes one after the other give what filling all holes at once gives |
| Substitution.ChainOrderIrrelevant | scripts/deploy/render-infra-caddyfile.sh:113-120 | the passes in any order give the same text |
| Substitution.NothingSurvives | scripts/deploy/render-infra-caddyfile.sh:113-120 | with a value for every hole not even a double underscore is left |
| Sections.Alternative | scripts/deploy/render-infra-caddyfile.sh:97-110 | for all settings exactly one alternative of each service is kept |
| Markers.FirstPatternDecides | scripts/deploy/render-infra-caddyfile.sh:97-110 | a line triggers the action of the first of the fourteen patterns that it contains, and none if it contains none |
| Markers.MarkersArePatterns | scripts/deploy/render-infra-caddyfile.sh:97-110 | a line is a marker if and only if it contains one of the fourteen literal patterns, and a single one decides alone |
| Markers.PatternIsItsMarker | scripts/deploy/render-infra-caddyfile.sh:97-110 | each of the fourteen texts as a line is its own marker |
| Markers.ContainsMeansOccurs | scripts/deploy/render-infra-caddyfile.sh:97-110 | a line contains a pattern if and only if the pattern occurs somewhere in it |
| Markers.SectionOfOneLine | scripts/deploy/render-infra-caddyfile.sh:97-122 | for every kind, a section of one line between its markers is dropped exactly if the settings skip the kind |
| Markers.StorjBlockIsKeptOrDropped | scripts/deploy/render-infra-caddyfile.sh:107-108 | the Storj block of the template is printed, without its markers, for "true" and not at all for anything else |
| Sections.RenderLines | scripts/deploy/render-infra-caddyfile.sh:97-122 | the one-flag pass prints, for every template, each unmarked line that comes while the flag is down, with its substitutions made |
| Sections.LastMarkerDecides | scripts/deploy/render-infra-caddyfile.sh:97-111 | for every template, even a malformed one, the flag is determined by the last marker line alone |
| Sections.MachineMeansSections | scripts/deploy/render-infra-caddyfile.sh:97-122 | on every flat, bracketed template and for all settings the machine prints what the sections mean |
| Sections.BracketedIffPieces | scripts/deploy/render-infra-caddyfile.sh:97-110 | a template consists of plain lines and flat sections if and only if its markers are properly bracketed |
| CaddySettings.SettingsDoNotInterfere | scripts/deploy/render-infra-caddyfile.sh:51-111 | environments that differ in one flag give the same text outside the sections of its service, in every flat template, if and only if they pin the same nofeebooking certificates; always so for the three flags that enable a service |
| CaddySettings.RenderedIsTexts | scripts/deploy/render-infra-caddyfile.sh:97-122 | what the script prints for a flat template is made up of the texts of its pieces that `SettingsDoNotInterfere` compares |
| CaddySettings.TlsSourceInterferes | scripts/deploy/render-infra-caddyfile.sh:51-73 | failing inputs: wherever the nofeebooking certificate is pinned, making the host the TLS source changes a line outside every section |
| CaddySettings.SomeHostIsPinned | scripts/deploy/render-infra-caddyfile.sh:51-73 | a concrete environment of that kind, with different output for the two values of the flag |
| Base64.DecodeEncode | scripts/server/export-caddy-managed-cert.sh:82 | decoding an encoding gives back the bytes, for every byte string |
| Base64.ExportRoundTrip | scripts/server/export-caddy-managed-cert.sh:78-83 | every file survives wrapping, newline removal and the deploy-side decoder; only the empty file gives an empty text |
| Base64.ForeignCharacterIsRejected | scripts/deploy/render-infra-caddyfile.sh:30-31 | a text with a character outside the alphabet, `=` and the newline does not decode |
| Base64.PaddingCloses | scripts/deploy/render-infra-caddyfile.sh:30-31 | what decodes has a length that is a multiple of four and padding in its last two places only |
| Base64.TestVectors | scripts/server/export-caddy-managed-cert.sh:82 | the encodings of one to four bytes that section 10 of RFC 4648 gives |
| Base64.AlphabetOfTable1 | scripts/server/export-caddy-managed-cert.sh:82 | the alphabet of table 1 of RFC 4648 |
| CaddyRuntime.InfraRuntime.InstallPair | scripts/deploy/render-infra-caddyfile.sh:56-63 | a pair is written and named, or both files are removed and nothing is named, or the run stops at the text that does not decode |
| CaddyRuntime.InfraRuntime.Render | scripts/deploy/render-infra-caddyfile.sh:17-123 | the script, statement by statement on mutable files, is the function `Run` about which the results below speak |
| CaddyRuntime.OutcomeOfRun | scripts/deploy/render-infra-caddyfile.sh:19-73 | a run is accepted if and only if its inputs say so; then managed files and Caddyfile depend on these inputs alone; refused runs change nothing, aborted ones managed files only |
| CaddyRuntime.OnlyRefusedRunsChangeNothing | scripts/deploy/render-infra-caddyfile.sh:17-25 | a run leaves every disk as it is if and only if the template is missing or the main pair is half set |
| CaddyRuntime.LastAcceptedRunDecides | scripts/deploy/render-infra-caddyfile.sh:19-123 | after any sequence of runs the files and the Caddyfile are those of the last accepted one's inputs, if only refused runs followed it |
| CaddyRuntime.DirectivesNameExistingFiles | scripts/deploy/render-infra-caddyfile.sh:27-73 | after an accepted run the value of each directive hole is the directive exactly when both files of its pair are on disk, with the decoded contents, and is empty otherwise |
| CaddyPaths.AcceptedRunIsSafe | scripts/deploy/render-infra-caddyfile.sh:85-123 | after an accepted run every certificate path in any line of the rendered Caddyfile names a file that is on disk with the other file of its pair, for templates whose directive holes stand alone on their lines and whose other text and addresses have no part of a certificate path |
| CaddyPaths.ProxiedSiteIsTidy | infra/Caddyfile.template:40-42 | the directive line and the proxy line of a site in the repository's own template meet the condition of `AcceptedRunIsSafe` |
| CaddyPaths.AbortLeavesDanglingPath | scripts/deploy/render-infra-caddyfile.sh:61-67 | failing input: from a disk whose Caddyfile names the nofeebooking pair and that has all files, bad base64 for the www certificate removes the pair and keeps the Caddyfile that names it |
| CaddyPaths.AbortedRunIsSafe | scripts/deploy/render-infra-caddyfile.sh:29-73 | a run that aborts on bad base64 keeps every disk safe (each pair of which the Caddyfile names a file has both files) if and only if the main pair is set and does not decode, or is set and the nofeebooking pair is set too |
| CaddyPaths.RunIsSafe | scripts/deploy/render-infra-caddyfile.sh:17-123 | over such templates a run keeps every disk safe if and only if it is accepted, refused for half of the main pair, or aborted before it has removed a pair |
| CaddyRuntime.ExportedPairIsInstalled | scripts/deploy/render-infra-caddyfile.sh:29-36 | on every host an exported pair is installed byte for byte if and only if neither file is empty, even if a later pair aborts the run; one empty file refuses the run, two remove the files; apart from that the other pairs alone decide between acceptance and abort |
| CaddyText.LineIsFilled | scripts/deploy/render-infra-caddyfile.sh:113-120 | for the script's own eight bindings and plain addresses, the passes fill all holes of a line at once |
| CaddyValues.AddressesInHoles | scripts/deploy/render-infra-caddyfile.sh:76-82 | each of the five address holes gets its own variable, or its own default if that is unset |
| CaddyValues.DirectivesInHoles | scripts/deploy/render-infra-caddyfile.sh:27-73 | each directive hole gets its directive with its two paths exactly if its two variables are set, those of nofeebooking only off the TLS source |
| CaddyValues.ProxiesGoToTheirService | scripts/deploy/render-infra-caddyfile.sh:112-122 | the proxy lines of Storj, Sentry and nofeebooking come out with the address of their own service |
| CaddyValues.AlternativesByVariables | scripts/deploy/render-infra-caddyfile.sh:75-111 | which alternative of each service is rendered for its variable, an unset one counting as not "true" |
| CaddyText.DirectiveLineText | scripts/deploy/render-infra-caddyfile.sh:113-115 | a directive hole alone on its line becomes its directive or an empty line, whatever the other values are |
| CaddyText.RenderedTextIsClean | scripts/deploy/render-infra-caddyfile.sh:112-123 | no placeholder and no marker survives in the rendered text of any template with fillable lines |
| PostgresRuntime.RenderTemplate | scripts/deploy/render-postgres-runtime.sh:23-35 | line by line, all six expressions in order |
| PostgresRuntime.RenderRuntime | scripts/deploy/render-postgres-runtime.sh:37-65 | fails exactly for a role other than primary and standby, otherwise renders the role's three files with the hosts of that role |
| PostgresRuntime.KnownRoles | scripts/deploy/render-postgres-runtime.sh:39-57 | the roles that do not fail are primary, standby and none, which means primary |
| PostgresRuntime.ValuesOnNode | scripts/deploy/render-postgres-runtime.sh:11-16 | the six placeholders stand for their own variables, or their own defaults; HAProxy's host of the node's own role is the local database and the other one the other node |
| PostgresRuntime.PrimaryLineOnNode | scripts/deploy/render-postgres-runtime.sh:31-48 | HAProxy's line for the primary names the node itself, on a standby the other node |
| PostgresRuntime.LineOnNode | scripts/deploy/render-postgres-runtime.sh:27-55 | on either kind of node every line comes out with all holes filled at once, and none left if all have a value; HAProxy's host of the node's own role is the local database and the other one the other node, from their variables |

## Left out

- HTTP router, handlers, client crate, tracing, configuration parsing and feature flags: wiring over libraries, with one-branch facts only.
- etcd, Patroni, PgBouncer and HAProxy: configured, not implemented, by the repository; they appear as the steps that refuse connections, lose replies and replace the database.
- Real time and the async runtime: sleep is added to a field of the call and concurrency is interleaving of atomic steps; that a call which has a next step eventually takes it is not part of the model.
- SSH, docker, argument parsing, `mkdir`, `chmod` and the other scripts: foreign commands and I/O.
- Durability within an epoch: assumed, not derived from the replication settings.
- General regular expressions of awk and sed: all patterns used are literal, so literal search is modelled.
- Substitution.ChainIsSimultaneous: replacement values with a backslash are excluded, because awk and sed read it as an escape; `&` is modelled in `Expand` and excluded here because it inserts the placeholder again.
- PostgresRuntime.LineOnNode: values with a slash are excluded, because it would end the expression of `sed`.
- Service.MemoryCounterStore.NextVisitorCount: requires a counter below 2^64 - 1, because overflow there depends on the build profile.
- Malformed base64: the decoder requires padding and ignores unused trailing bits; text it rejects stops the run with a partial file of any content.
- `iptables` failing on an append: the script stops there, which is a run cut short (`InterruptedRunConverges`).
