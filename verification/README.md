# Verification model of a-ui

a-ui is a panel around the xray proxy core. It compiles routing rules and metering rules into the core's configuration,
reloads a running core without a restart where it can, counts the bytes and the active time of every source, reads the
core's access log, switches inbounds off by quota and expiry and on again by cycle, and looks addresses up in an offline
database it builds itself. This project models the parts of it whose guarantees span many operations, and proves them.

| Part | Files | Main results |
|---|---|---|
| Routing and metering | `MeterTags`, `Json`, `Router`, `Metering`, `RuleCompiler`, `Injector` | `Metering.MeteringTransparent`, `Injector.Inject`, `RuleCompiler.CompilationPreservesMeaning` |
| Byte accounting | `Online`, `Conservation` | `Conservation.EveryByteOnce` |
| Hourly accounting | `Sharing`, `SharingExact`, `SharingSample`, `SharingRestart`, `Pipeline` | `SharingExact.HourlyExact`, `SharingRestart.RestartExact`, `Pipeline.EveryByteInOneHour` |
| Offline address database | `Powers`, `Cidr`, `Ranges`, `Provinces`, `Majority`, `Ipdb`, `IpdbFormat`, `IpdbParse`, `IpdbBuild`, `IpdbRoundTrip`, `IpdbLimits` | `IpdbRoundTrip.RoundTrip`, `Cidr.RangeToCidrs`, `Majority.MajorityCidrsOfProvinces` |
| Hot reload | `TagTables`, `HotReload`, `MeterOnly`, `Generation` | `HotReload.ApplyReaches`, `MeterOnly.PoolSwapTransparent`, `Generation.GeneratedSwapTransparent` |
| Access log collection | `Tailing`, `Collecting` | `Collecting.StoredExactlyOnce` |
| Rule coverage | `Coverage`, `RuleEdits` | `RuleEdits.CoveredAtMostOnce` |
| Metering pool | `MeterPool`, `MeterRounds` | `MeterRounds.BudgetKept`, `MeterRounds.SwapMargin`, `MeterRounds.IdleStaysOut` |
| Quota, expiry, reset | `Calendar`, `Quota` | `Quota.OnlyQuotaRevives`, `Quota.RowOncePerCycle`, `Quota.PromiseKept` |
| Concurrency admission | `Admission` | `Admission.ExactlyTheEarliest`, `Admission.KeptExactly`, `Admission.DisplacedExactly` |
| Anomaly scan | `Anomaly`, `AnomalyOnce`, `AnomalyReadings`, `AnomalyScan` | `AnomalyOnce.CountedAtMostOnce`, `AnomalyReadings.CountedByReading` |

`Collections` holds the usual option and result types and a few facts about sets. `dafny verify dfyconfig.toml` checks the whole project.

## How the model is laid out

Objects that change in place are classes with the source's fields. Each of their methods equates the new state with a
function of the old one, or states the new state outright, and whole runs are then sequences of events folded over those
functions. Everything the source takes from outside is a parameter: clocks, DNS answers and the core's own matchers, JSON
decoding, the file's contents, which step fails and what is appended meanwhile.

Assumptions, each written as a predicate:

- `Router.World` and `Router.Lawful`: a list of conditions matches if one of them does, none matches without an address,
  and `0.0.0.0/0, ::/0` matches any address.
- `Conservation.Legal`: cookies are unique within a dump, counters do not run backwards, the dump clock does not run
  backwards, and a connection is not away for longer than the retention windows.
- `Collecting.Identified`, asked at every crash: the first line of a file that was read is not empty and ends
  within 4096 bytes, and a new file does not start with the first line remembered of an old one.
- `RuleEdits.Legal`: the database hands out positive ids not in use, possibly ones used before, and a saved rule lists
  inbounds that exist.
- `Calendar.Lawful`: local midnights are strictly ordered instants, and an instant lies on the day whose midnights
  enclose it.
- `Admission.Later`: samples are taken at later and later moments, all after every first sight so far.
- `SharingExact.ClockRuns`: the clock never falls back into an earlier hour.
- `AnomalyReadings.KeepsClass`: the rule stays planned for its size class and the access log stays switched on;
  `AnomalyOnce.KeepsRule` asks besides that its plan stays the same and that no wanted row is skipped.
- `Generation.TemplateFree`: template and geo rules keep away from metering tags, and every node has a tag.
- `MeterOnly.Reads`: the core takes a rule's outbound tag from the member of that name.
- `Collecting.Strict`: the line parser accepts no empty line.
- `HotReload.Sound`: a text that decodes as a whole has that value as its first one, and a blank text has none.

## Where the code and what is said about it part

- `util/ipdb/ipdb.go:224` admits 65536 locations; the header keeps 16 bits of the count, so such a file never parses.
  String indices are cut to 16 bits unchecked, and with more than 65536 strings some record is answered wrongly.
  `IpdbRoundTrip.RoundTrip` gives the exact condition, and `IpdbLimits` an accepted input for each count that overflows.
- `web/service/inbound.go:254-267`: the comparison meant to notice an admin's switch-off is made after the assignment and
  never holds (`Quota.SwitchComparisonDead`). No inbound revives wrongly all the same, because an enabled one never
  carries the quota mark in any run (`Quota.RunsKeepMark`, `Quota.OnlyQuotaRevives`); `Quota.MarkedEnabledWouldReturn` shows
  that this invariant is all that stands between an admin's switch-off and an unwanted return.
- `web/service/sharing_accumulator.go:91`, `web/service/sharing.go:199-200` say that a failed write is made good by the
  next round. The cell is marked as written before the write, so that is so only if the source is used again in the same
  hour (`SharingExact.StoredIffWritten`, `SharingExact.FailedWriteStaysLost`).
- `web/service/sharing_accumulator.go:113-114` says that a restart loses at most the current minute. The first write after
  it replaces the hour's row by what was counted since. The row keeps the hour's totals exactly if they stay below the
  threshold, or nothing came before the restart, or nothing after it and all before it was written
  (`SharingRestart.RestartExact`, `SharingRestart.RestartForgets`).
- `util/accesslog/tailer.go:128-133`: a file is read on after a restart if its first line is the remembered one. An
  empty first line, or one longer than 4096 bytes, is never recognised, and the file is stored a second time
  (`Collecting.RestartResumes`, `Collecting.RestartDuplicates`, `Collecting.UnusableHeadDuplicates`).
- `web/service/concurrency.go:16-19`: later sources are refused and those already online are left alone. A source that
  was idle or banned and comes back keeps its old place, and such sources do send a younger one away once enough of them
  come back to fill the places left, and only then (`Admission.DisplacedExactly`, `Admission.ReturnerDisplaces`). Newcomers
  never do (`Admission.KeptExactly`).
- `web/service/inbound_attention.go:104-138` shows when an inbound over its quota comes back. The moment is right exactly if
  the noted reset lies in the present cycle; if this cycle's reset is still due, the next run brings it back at once
  (`Quota.PromiseKept`, `Quota.DueAtOnce`, `Quota.DueReached`).
- `web/service/routing_anomaly.go:360-379`: the cursor of a class is moved up to the 24-hour window. No row is lost exactly
  if none that the rule wants lies in between: a quiet log loses nothing, a backlog of more than a day does
  (`AnomalyOnce.ExactUnlessSkipped`, `AnomalyOnce.BacklogLost`).
- `database/model/meter.go:29-31`: malformed tags are refused. Numbers with leading zeros or a plus sign are taken; a parsed
  tag is the canonical one exactly without them (`MeterTags.ParsedTagCanonical`).
- `web/service/routing_rule.go:56-90` does not look whether listed inbounds exist; a list naming a future id breaks the
  coverage invariant when that id is handed out (`RuleEdits.DanglingListClashes`).
- `web/service/routing_inject.go:234-260` does not look whether the template already has an outbound with a metering tag.
  Two outbounds of one tag keep the core from starting (`web/service/routing_inject.go:374-376`), and metering brings that
  about exactly if an outbound carries a metering tag of the pool or the pool names an entry twice
  (`Metering.RefusedExactly`, `Injector.TemplateClashRefused`). Nodes and generated outbounds never carry one
  (`Injector.OnlyTemplateCanClash`), and every configuration with which the core starts is transparent (`Injector.Inject`).

## Model

| member | source | states |
|---|---|---|
| Cidr.SplitExact | util/ipdb/province.go:79-92 | the blocks of a closed range are aligned, ascending and disjoint, and cover precisely the range |
| Cidr.SplitMinimal | util/ipdb/province.go:75-92 | no set of aligned blocks that covers exactly the range is smaller |
| Cidr.RangeToCidrs | util/ipdb/province.go:79-92 | for every pair of ends, up to the full space, the loop ends with an exact, ascending and smallest cover; none for a reversed range |
| Ranges.SplitAllMinimal | util/ipdb/province.go:36-73 | splitting separated ranges one by one is smallest for their union as well |
| Ranges.SplitAllIsMinimal | util/ipdb/province.go:36-73 | the blocks of separated ranges are exact, ascending and smallest for any set that the ranges describe |
| Provinces.CidrsOfProvinces | util/ipdb/province.go:36-73 | the blocks cover an address exactly when a segment of a wanted province holds it, neighbours joined, as few blocks as possible |
| Provinces.CoveredByLookup | util/ipdb/province.go:36-73 | an address is covered exactly when a lookup places it in a wanted Chinese province |
| Majority.VotesAreSources | util/ipdb/multi.go:100-132 | at every address the ballots for and against are the number of sources whose lookup finds a Chinese province there that is wanted, or is not; silent ones count for neither |
| Majority.PrefixIsVote | util/ipdb/multi.go:134-155 | the running counters between two event groups are the votes at every address in between |
| Majority.SweepStep | util/ipdb/multi.go:138-155 | one group of equal events keeps the finished ranges exact: opened when support first exceeds opposition, closed just before it no longer does |
| Majority.NoVoteAtEnd | util/ipdb/multi.go:156-158 | after the last event nobody votes any more, so no range is left open, not even one that ends at 255.255.255.255 |
| Majority.MajorityCidrsOfProvinces | util/ipdb/multi.go:100-163 | the event sweep equals the vote at every address, with as few blocks as possible |
| Majority.MajorityBySource | util/ipdb/multi.go:75-163 | an address is covered exactly when strictly more sources place it in a wanted province than in another one |
| Ipdb.ScanFinds | util/ipdb/ipdb.go:85-106 | in sorted segments the segment that holds an address is the only one a scan can find |
| Ipdb.Lookup | util/ipdb/ipdb.go:85-106 | binary search answers as a linear scan does, for every address, and not at all for others than IPv4 |
| IpdbFormat.ParseBytes | util/ipdb/parse.go:13-115 | whatever is parsed successfully has no location reference out of range |
| IpdbFormat.WordLayout | util/ipdb/ipdb.go:246-263 | a 32-bit word is written lowest byte first |
| IpdbFormat.HeaderLayout | util/ipdb/ipdb.go:246-252 | magic, version, time and counts stand at offsets 0, 8, 12, 20 and 24 of the header |
| IpdbFormat.SegmentLayout | util/ipdb/ipdb.go:256-263 | a segment is written as first address, last address and location index, at offsets 0, 4 and 8 |
| IpdbFormat.LocationLayout | util/ipdb/ipdb.go:265-273 | a location is written as country, region, city and operator index, two bytes each, lowest first; the old version has no operator |
| IpdbFormat.ParseOfSerialise | util/ipdb/parse.go:13-115 | what is written within the count limits is read back, in both versions, whatever bytes follow |
| IpdbFormat.NoLocationsRejected | util/ipdb/parse.go:102-113 | a file with segments whose location count is 0 is refused |
| IpdbParse.Parse | util/ipdb/parse.go:13-115 | the bounded reader with its moving offset agrees with the recursive format definition on every input, errors included |
| IpdbBuild.Compact | util/ipdb/ipdb.go:191-241 | stops exactly on unordered, overlapping, too varied or no records; otherwise segments hold what the records hold, merged, and tables hold each location and string once |
| IpdbBuild.WriteStrings | util/ipdb/ipdb.go:276-290 | refuses exactly when a string is longer than its 16-bit length field |
| IpdbBuild.CutIndices | util/ipdb/ipdb.go:265-273 | every location is written with its fields' positions in the string table, cut to 16 bits |
| IpdbBuild.BuildRecords | util/ipdb/ipdb.go:191-297 | succeeds exactly on acceptable records, and writes a file made of compacted segments and interned tables |
| IpdbRoundTrip.TooManyLocationsRejected | util/ipdb/ipdb.go:224-252 | with 65536 locations, which the builder admits, the file never parses |
| IpdbRoundTrip.TooManyStringsMisread | util/ipdb/ipdb.go:265-273 | with more than 65536 strings some address is answered wrongly |
| IpdbRoundTrip.FullTableUnread | util/ipdb/ipdb.go:249-252 | with 2^32 segments, whose count wraps to 0, the file does not answer as its records do |
| IpdbRoundTrip.RoundTrip | util/ipdb/ipdb.go:191-297 | for accepted records: the parsed file answers every address as a scan of the records does if and only if the counts fit the format |
| IpdbRoundTrip.ParsedSorted | util/ipdb/parse.go:13-115 | a file built from records that fit parses to sorted segments, as binary search needs |
| IpdbRoundTrip.BuildParseLookup | util/ipdb/ipdb.go:85-106 | build, parse and search together answer as a scan of the records, despite merging and interning |
| IpdbLimits.TooManyLocations | util/ipdb/ipdb.go:224-252 | 65536 one-address records of different locations are accepted and do not fit the 16-bit location count |
| IpdbLimits.TooManyStrings | util/ipdb/ipdb.go:265-273 | 32768 records with two short names each are accepted and have more strings than 16-bit indices reach |
| IpdbLimits.TooManySegments | util/ipdb/ipdb.go:249-252 | 2^32 one-address records of alternating locations are accepted and do not fit the 32-bit segment count |
| IpdbLimits.BuildBeyondFormat | util/ipdb/ipdb.go:191-297 | whatever the builder accepts beyond the format, it writes a file that does not answer as its records do |
| MeterTags.ParseOfMeterTag | database/model/meter.go:21-46 | reading a tag gives back inbound and domain, dashes in the domain included |
| MeterTags.MeterTagInjective | database/model/meter.go:10-23 | different counters have different tags |
| MeterTags.TagExample | database/model/meter.go:14-23 | the tag of inbound 12 and x-y.z is a-ui-meter-12-x-y.z |
| MeterTags.ParsedTagCanonical | database/model/meter.go:32-46 | a tag that parses is the canonical one exactly when its number has no leading zero or plus |
| Router.StrategyExactly | web/service/routing_inject.go:278-289 | the resolving strategies are recognised by name in any case, and nothing else is |
| Metering.FilterMeterPool | web/service/routing_inject.go:195-211 | keeps, in order, the entries of enabled inbounds whose domain can be metered |
| Metering.AppendMeterOutbounds | web/service/routing_inject.go:234-260 | adds one copy of the default outbound per entry after the others, untouched before; none, with none reported as written, if there is no default object |
| Metering.MeterRuleNeedsIpGuard | web/service/routing_inject.go:278-289 | the guard is set exactly for the strategies in which the core resolves |
| Metering.BuildMeterRules | web/service/routing_inject.go:308-341 | all domain rules come before all address rules, one rule per entry |
| Metering.GuardBlocksFirstPass | web/service/routing_inject.go:262-277 | guarded rules never match a domain target before its address is known |
| Metering.PickWithMeter | web/service/routing_inject.go:106-117 | a connection decided by the other rules stays so; one left open goes to a metering tag of the pool or stays open |
| Metering.MeteringTransparent | web/service/routing_inject.go:262-277 | for every strategy, DNS answer and connection the way out is the same as without metering, up to the tag, dangling tags included |
| Metering.UnguardedNotTransparent | web/service/routing_inject.go:269-271 | without the guard the claim is false: an address rule loses its second pass |
| Metering.EntriesDistinct | database/model/meter.go:75-76 | a pool that names each domain of an inbound once has no tag twice |
| Metering.RefusedExactly | web/service/routing_inject.go:234-260 | metering makes the outbounds repeat a tag, which the core refuses, if and only if an outbound carries a metering tag of the pool, or a tag is there twice even before |
| Metering.DomainBeforeAddress | web/service/routing_inject.go:291-297 | traffic of a metered domain is counted on a domain row, never on the row of an address |
| Metering.EntryRuleApplies | web/service/routing_inject.go:308-358 | an entry's rule applies exactly to the connections the entry is for, once an address is known where the guard is set |
| Metering.CountedRightly | web/service/routing_inject.go:308-358 | what is counted under an entry's tag comes from its inbound and goes to its domain, or to the address it stands for |
| RuleCompiler.MergeExact | web/service/routing_inject.go:504-560 | merging lists keeps exactly the non-empty entries of any list, each once |
| RuleCompiler.MergeDomains | web/service/routing_inject.go:504-560 | the merging loop does that |
| RuleCompiler.BuildRule | web/service/routing_inject.go:477-642 | a stored rule becomes its generated rules, or is skipped for its reason: bad lists, no live inbound, no conditions, unusable outbound |
| RuleCompiler.BuildRules | web/service/routing_inject.go:420-457 | blocking and routing rules are kept apart, each in stored order |
| RuleCompiler.CompiledMeaning | web/service/routing_inject.go:477-642 | in either pass some generated rule applies exactly when the stored one covers the inbound and one of the domains or addresses that its groups hold matches; no condition is empty, no scoped rule becomes unscoped |
| RuleCompiler.ConditionsExact | web/service/routing_inject.go:499-560 | the merged lists hold exactly what the groups name, and are empty exactly if they name nothing |
| RuleCompiler.GeneratedExactly | web/service/routing_inject.go:477-642 | a stored rule is generated exactly if it names a condition, a live inbound or everyone, and a way out; its conditions are exactly the non-empty entries, by hand or subscribed, of its readable groups; and it is skipped for want of conditions exactly if there are none |
| RuleCompiler.CompilationPreservesMeaning | web/service/routing_inject.go:420-457 | in each matching pass the generated list picks what the stored rules say, blocks first, then in stored order, those without conditions, live inbound or way out not counting |
| RuleCompiler.GeneratedShape | web/service/routing_inject.go:600-642 | every generated rule has domains or addresses, not both, not neither, and a known outbound tag |
| Injector.TagDefaultOutbound | web/service/routing_inject.go:153-166 | the first outbound gets a tag if it is an object without one; the tag in force is returned |
| Injector.DefaultTagged | web/service/routing_inject.go:127-166 | the first outbound keeps everything but a missing tag, and no other changes |
| Injector.BuildOutbounds | web/service/routing_inject.go:360-412 | template outbounds, then the writable nodes, then the blackhole, with the tags that were really written |
| Injector.NodesWritten | web/service/routing_inject.go:360-412 | a tag is reported usable only if an outbound with it is written, and none of these is reserved |
| Injector.NoDanglingTag | web/service/routing_inject.go:119-125 | every tag that compiled rules use is on a generated outbound, and the default's tag leads to the default |
| Injector.ProxyReached | web/service/routing_inject.go:360-412 | a rule with a node as its way out leads to that node's own outbound |
| Injector.BlockedIsDropped | web/service/routing_inject.go:403-410 | a blocking rule leads to a blackhole, unless the template has an outbound of the reserved tag |
| Injector.PlainRulesDecide | web/service/routing_inject.go:102-117 | in a matching pass the template decides first, then the geo rules, then the blocking rules, then the others |
| Injector.OnlyTemplateCanClash | web/service/routing_inject.go:360-412 | nodes, blackhole and tagged default never carry a metering tag |
| Injector.TemplateClashRefused | web/service/routing_inject.go:374-376 | a template with an outbound of such a tag repeats no tag without metering and does with it |
| Injector.ApplyFreedomStrategy | web/service/dns_inject.go:104-180 | nothing changes unless the first outbound is freedom; then it and every metering outbound get the strategy, nothing else |
| Injector.StrategyInSettings | web/service/dns_inject.go:96-103 | the strategy is written among the settings, and every other member of outbound and settings stays |
| Injector.DnsCommutesWithCloning | web/service/dns_inject.go:146-172 | the DNS step on the metered outbounds is cloning after the DNS step, so each clone stays equal to the first outbound up to its tag |
| Injector.MeteringTransparentAfterDns | web/service/dns_inject.go:104-180 | metering is still transparent once the DNS step has run |
| Injector.Inject | web/service/routing_inject.go:32-125 | of the whole generation: the plain rules lead the list, metering rules follow, none dangles; the core refuses it exactly if it would without a pool, or metering repeats a tag; and if it starts, every connection leaves as without a pool, up to tags |
| Online.OnlineTracker.AddPendingLocked | web/service/online.go:213-224 | bytes are added to their source, and only refused for a new source in a full table |
| Online.OnlineTracker.DrainPending | web/service/online.go:227-234 | everything pending is handed over and nothing else changes |
| Online.OnlineTracker.RecordClosed | web/service/online.go:241-272 | the growth since the last baseline is credited, the baseline is dropped and the close remembered; nothing for a close already seen or an unwatched port |
| Online.OnlineTracker.CreditSamples | web/service/online.go:309-375 | a dump credits each watched connection's growth, and lists exactly those present |
| Online.OnlineTracker.Update | web/service/online.go:309-429 | one dump: credits, the new baselines, the baselines kept for missing connections, the closes still remembered |
| Online.SamplesKeepBaselines | web/service/online.go:309-375 | crediting a dump changes nothing but the pending bytes |
| Online.GrowthExactly | web/service/online.go:431-438 | the growth is the difference of the counters, and the whole counter if it ran back |
| Online.KeyExactly | web/service/online.go:300-307 | connections count for one source exactly if port and address agree, an IPv4 address and its mapped form being one |
| Conservation.RunKeepsInv | web/service/online.go:213-429 | in every legal run each kind of baseline holds the last seen counter exactly of the connections it is for |
| Conservation.EveryByteOnce | web/service/online.go:213-429 | in every run, for every source and direction: handed on + pending + refused is the sum over its connections of last seen counter minus starting counter |
| Conservation.DrainedByteOnce | web/service/online.go:227-234 | after a drain the handed-on bytes are all of them but the refused ones |
| Conservation.LossNeedsFullTable | web/service/online.go:213-224 | bytes are only refused for a source not in a full table; otherwise exactly these bytes are added to exactly this source |
| TagTables.SwapReaches | xray/hot_diff.go:82-140 | removing what changed or went and adding what changed or came turns one table into the other, each removed tag present and each added tag free when its turn comes |
| HotReload.EqualMeansSame | xray/hot_diff.go:358-397 | two raw sections compare equal exactly if they have one meaning |
| HotReload.InboundsByTag | xray/hot_diff.go:146-161 | the index is refused exactly for a missing or repeated tag |
| HotReload.DiffInbounds | xray/hot_diff.go:82-140 | refuses exactly when an inbound that must be touched is the api inbound, uses Reality or cannot be encoded; otherwise lists the changed, gone and new ones |
| HotReload.DecodeOutbounds | xray/hot_diff.go:269-305 | refuses exactly what is not a list of differently tagged outbounds with a tag each beyond the first |
| HotReload.DiffOutbounds | xray/hot_diff.go:195-254 | refuses exactly when the first outbound changes or a list does not decode; otherwise lists the changed, gone and new ones |
| HotReload.DiffRouting | xray/hot_diff.go:311-337 | refuses exactly when anything in the routing besides its reloadable members changes |
| HotReload.RoutingExactly | xray/hot_diff.go:311-356 | the routing may change in its rules and balancers and in no other member |
| HotReload.FixedEqual | xray/hot_diff.go:47-66 | the sections a running core cannot change are the same |
| HotReload.FixedExactly | xray/hot_diff.go:46-66 | log, dns, transport, policy, api, stats, reverse and fakeDns must each mean the same |
| HotReload.ComputeHotDiff | xray/hot_diff.go:40-79 | a diff is offered exactly for the acceptable changes, with exactly the operations `ApplyReaches` is about |
| HotReload.ApplyReaches | xray/hot_diff.go:40-79 | every operation of an offered diff succeeds on the core running the old configuration, and leaves what a start with the new one would: tables, default outbound, routing, fixed sections |
| HotReload.ApiUntouched | xray/hot_diff.go:98-102 | no operation removes or adds the api inbound |
| HotReload.RealityNeverRebuilt | xray/hot_diff.go:163-185 | no operation builds a Reality inbound at run time, and none that is removed comes back |
| HotReload.AddedCanBeBuilt | xray/hot_diff.go:103-140 | every inbound an operation adds has raw parts that are empty or decode, and does not use Reality, in whatever case it is written |
| HotReload.EmptyMeansSame | xray/hot_diff.go:24-30 | an empty diff means that the running core is already as the new configuration describes |
| MeterOnly.RoutingWithoutTags | xray/hot_diff.go:435-454 | the routing with the recognised rules taken out, refused if it does not decode |
| MeterOnly.OnlyTouchesTags | xray/hot_diff.go:405-431 | true exactly when nothing but recognised outbounds and the rules leading to them changes |
| MeterOnly.OthersSame | xray/hot_diff.go:399-431 | then both cores agree on inbounds, default outbound, fixed sections, other routing members and every other outbound |
| MeterOnly.BaseIsRest | xray/hot_diff.go:435-454 | taking the metering rules out of a generated list leaves exactly the rules generated before them |
| MeterOnly.ChoicesKept | xray/hot_diff.go:399-431 | between two generated configurations that differ so, a connection sent to any other outbound by one is sent there by the other |
| MeterOnly.PoolSwapTransparent | xray/hot_diff.go:399-431 | and exchanging the pool on a running core changes no connection's way out, up to the tag |
| Generation.RulesGenerated | web/service/routing_inject.go:106-117 | generated rules are rules without metering tags followed by metering rules, whatever nodes and stored rules there are |
| Generation.LoadedIsMetered | web/service/routing_inject.go:234-260 | a core started with a generated configuration has a default without metering tag, of which every metering outbound is a copy |
| Generation.GeneratedSwapTransparent | xray/hot_diff.go:399-431 | for two configurations as generated, a change that only touches metering tags can be applied to the running core and changes no connection's way out, up to the tag |
| Tailing.Tailer.Peek | util/accesslog/tailer.go:43-89 | returns the complete lines from the offset, at most one read's worth, without advancing; starts anew on a file that became shorter |
| Tailing.Tailer.Head | util/accesslog/tailer.go:107-126 | the first complete line within 4096 bytes, or nothing |
| Tailing.Tailer.Resume | util/accesslog/tailer.go:134-157 | the saved offset is taken exactly if the first line is the remembered one and the file is long enough |
| Tailing.Tailer.TruncateIfLargerThan | util/accesslog/tailer.go:164-180 | empties the file and goes back to its start exactly if it is larger |
| Tailing.LinesConcat | util/accesslog/tailer.go:70-88 | reading in pieces cut after line breaks gives the lines of the whole |
| Tailing.SplitIsLines | util/accesslog/tailer.go:80-88 | splitting the text without its last line break gives its lines |
| Tailing.LinesUnfold | util/accesslog/tailer.go:80-88 | the lines of a text are its first line and the lines of what follows the line break |
| Tailing.HeadStable | util/accesslog/tailer.go:104-106 | a file's identity does not change while it grows |
| Tailing.SameHeadSameLine | util/accesslog/tailer.go:104-126 | files of one identity begin with one line |
| Tailing.HeadIsFirstLine | util/accesslog/tailer.go:104-126 | a file's identity is its first line if that ends within 4096 bytes, and nothing otherwise |
| Tailing.PeekReadsLines | util/accesslog/tailer.go:43-89 | what a read returns are exactly the lines between the two offsets, and the new one stands after a line break, over-long lines included |
| Tailing.PeekAll | util/accesslog/tailer.go:43-89 | a read that is not cut off leaves no complete line behind |
| Collecting.AccessLogService.StoreWithCursor | web/service/accesslog.go:178-192 | rows and cursor are written together or not at all |
| Collecting.AccessLogService.ResumeTailer | web/service/accesslog.go:195-212 | the position is restored from the stored cursor if the file is still the same one |
| Collecting.AccessLogService.Collect | web/service/accesslog.go:572-636 | one collection, whichever step fails and whatever is appended meanwhile; with logging off or unreadable, or a full disk, nothing is read, stored or truncated |
| Collecting.StoredExactlyOnce | web/service/accesslog.go:572-636 | over any run of appends, collections, failures, crashes and truncations the stored rows are exactly the accepted lines up to the mark, once each and in order |
| Collecting.AcceptedExactly | web/service/accesslog.go:612-622 | stored are exactly the recognised lines that are not the control inbound's |
| Collecting.FailedStoreRereads | web/service/accesslog.go:610-634 | after a failed transaction everything is as before and the same chunk is read again |
| Collecting.CaughtUp | web/service/accesslog.go:572-636 | with no failure and no backlog beyond one read, no complete line stays behind, even on truncation |
| Collecting.RestartResumes | util/accesslog/tailer.go:128-157 | a restart goes on from the mark if and only if the file's first line is not empty and ends within 4096 bytes |
| Collecting.RestartDuplicates | util/accesslog/tailer.go:134-157 | otherwise the restart stores the lines a second time |
| Collecting.UnusableHeadDuplicates | util/accesslog/tailer.go:107-126 | from the start: such a file, a collection, a crash and a collection leave every row twice |
| Collecting.ExampleText | util/accesslog/tailer.go:107-126 | an empty first line is such a file |
| Coverage.CleanExact | web/service/routing_rule.go:459-475 | stored are exactly the positive ids, ascending, each once |
| Coverage.EncodingCanonical | web/service/routing_rule.go:459-475 | two lists are stored alike exactly if they name the same positive ids |
| Coverage.EncodeIds | web/service/routing_rule.go:459-475 | the encoder stores that form |
| Coverage.EncodeInboundIdsStrict | web/service/routing_rule.go:483-492 | refuses exactly the lists that would silently turn into everyone |
| Coverage.EncodeDomainGroupIdsStrict | web/service/routing_rule.go:545-558 | refuses exactly the lists without a valid group |
| Coverage.IntersectInbounds | web/service/routing_rule.go:97-111 | true exactly if some inbound is in both, empty meaning everyone; the reported one is in both |
| Coverage.IntersectGroups | web/service/routing_rule.go:585-599 | true exactly if a group is in both; the reported one is |
| Coverage.ExclusiveMeansOne | web/service/routing_rule.go:146-158 | the pairwise check means: no inbound is covered by two rules of one group |
| Coverage.AttachKeepsExclusive | web/service/routing_rule.go:351-387 | attaching an id keeps the rules apart if and only if no other rule of such a group lists it already |
| Coverage.AttachCovers | web/service/routing_rule.go:351-387 | attaching makes a scoped rule that takes in new inbounds cover the new one, and changes nothing for any other |
| RuleEdits.RoutingRuleService.Validate | web/service/routing_rule.go:56-90 | accepts exactly the well-formed rules whose groups and outbound exist |
| RuleEdits.RoutingRuleService.CheckConflict | web/service/routing_rule.go:159-223 | accepts exactly a rule that clashes with no other stored one, disabled ones included |
| RuleEdits.RoutingRuleService.Add | web/service/routing_rule.go:225-234 | appends the checked rule, or changes nothing |
| RuleEdits.RoutingRuleService.Update | web/service/routing_rule.go:236-278 | replaces the rule of the same id by the merged one, or changes nothing |
| RuleEdits.RoutingRuleService.Del | web/service/routing_rule.go:389-392 | takes out exactly the rules with the id |
| RuleEdits.RoutingRuleService.Reorder | web/service/routing_rule.go:314-344 | accepts exactly a list naming each rule once |
| RuleEdits.RoutingRuleService.AttachInbound | web/service/routing_rule.go:351-387 | adds the id to exactly the scoped rules that take in new inbounds |
| RuleEdits.RoutingRuleService.AddInbound | web/service/inbound.go:84-112 | the inbound and its rules change together or not at all |
| RuleEdits.RoutingRuleService.PlanOne | web/service/routing_rule.go:630-673 | a rule is touched exactly if it names the inbound, and keeps the others it names |
| RuleEdits.RoutingRuleService.DetachInbound | web/service/routing_rule.go:689-718 | takes the id out of every rule, deleting a rule left with nobody |
| RuleEdits.RoutingRuleService.DelInbound | web/service/inbound.go:151-219 | the inbound and its mentions go together or not at all |
| RuleEdits.RoutingRuleService.CheckDomainGroupRefs | web/service/routing_rule.go:406-434 | a group is free exactly if no rule uses it, an unreadable one counting as use |
| RuleEdits.StepKeepsValid | web/service/routing_rule.go:159-278 | every edit keeps ids unique, rules apart and references alive |
| RuleEdits.RemovedRule | web/service/routing_rule.go:389-392 | deleting takes out the rule and leaves all others, apart as before |
| RuleEdits.UpdateTakesForm | web/service/routing_rule.go:236-278 | an accepted update takes over all that the form has, the switch included, keeps id and priority, and leaves the other rules alone |
| RuleEdits.CoveredAtMostOnce | web/service/routing_rule.go:146-158 | in every reachable state at most one rule covers an inbound per domain group, even with ids used again |
| RuleEdits.DetachKeepsOthers | web/service/routing_rule.go:601-673 | deleting an inbound changes coverage for no other one, and no scoped rule becomes an everyone rule |
| RuleEdits.ReusedIdStartsClean | web/service/inbound.go:203-218 | an id handed out again is only named by rules that take in new inbounds |
| RuleEdits.ReorderPlaces | web/service/routing_rule.go:314-344 | after reordering, a rule's priority is its place in the list and nothing else changed |
| RuleEdits.DanglingListClashes | web/service/routing_rule.go:56-90 | a saved list with a future id breaks the invariant when that id is handed out |
| Calendar.InstantsOrdered | web/service/traffic_reset.go:66-82 | the monthly instants are strictly ordered, the day clamped to the month's length |
| Calendar.KnownSpans | web/service/traffic_reset.go:79-82 | four hundred years are 146097 days, and 1970 begins 719528 days after the start |
| Calendar.GregorianCalendar | web/service/traffic_reset.go:79-82 | every month begins where the common table of month lengths and the leap years put it |
| Calendar.InstantDay | web/service/traffic_reset.go:66-82 | a monthly instant is the midnight beginning that day of the month, or the month's last day where it has no such day |
| Calendar.ResetInstantLatest | web/service/traffic_reset.go:50-64 | the reset instant is the latest monthly instant at or before now |
| Calendar.NextResetInstantEarliest | web/service/inbound_attention.go:125-138 | the next one is the earliest after now |
| Calendar.ResetInstantSteps | web/service/traffic_reset.go:50-64 | the reset instant never goes back, and stays exactly until the next one |
| Calendar.UtcLawful | web/service/traffic_reset.go:72-77 | the proleptic Gregorian calendar in UTC fulfils what is assumed of a time zone |
| Quota.InboundService.DisableInvalidInbounds | web/service/inbound.go:346-364 | expired ones are switched off without a mark, then those over quota with one; the count is of the rows switched off |
| Quota.DisabledExactly | web/service/inbound.go:346-364 | a check switches off exactly the enabled rows that expired or used up their quota, for that reason |
| Quota.InboundService.ResetDueTraffic | web/service/traffic_reset.go:102-143 | exactly the due rows are reset, and exactly the marked, unexpired ones of them revived |
| Quota.CycleDay | web/service/traffic_reset.go:31-48 | a billing cycle begins on the day of the month on which the inbound expires, a monthly one on the first |
| Quota.InboundService.AddInbound | web/service/inbound.go:84-112 | a valid form becomes a row without mark |
| Quota.InboundService.UpdateInbound | web/service/inbound.go:231-294 | only that row changes; a changed reset mode moves the last reset to now |
| Quota.EditTakesForm | web/service/inbound.go:246-281 | an edit takes over what the form has, and only a changed reset mode moves the noted reset |
| Quota.InboundService.RenewInbound | web/service/inbound_renew.go:50-82 | only that row changes; valid arguments enable it with its mark cleared |
| Quota.RenewedByDays | web/service/inbound_renew.go:17-27 | renewing adds exactly the days to the later of expiry and now |
| Quota.RenewedTo | web/service/inbound_renew.go:50-82 | renewing to a date sets it; if it is still to come the row is on with its counters at zero |
| Quota.RunsKeepMark | web/service/inbound.go:260-267 | in every run an enabled inbound has no mark, and a marked one was last switched off by the quota |
| Quota.OnlyQuotaRevives | web/service/traffic_reset.go:110-140 | in every run, what the reset switches on was switched off by the quota, is unexpired and due; an admin's or expiry's switch-off stays |
| Quota.SwitchComparisonDead | web/service/inbound.go:254-267 | the comparison never holds: an edit that leaves the inbound off keeps the mark |
| Quota.MarkedEnabledWouldReturn | web/service/inbound.go:254-267 | for a marked enabled row, an admin's switch-off would be undone by the next reset |
| Quota.RevivalHolds | web/service/traffic_reset.go:110-140 | what the reset revives is not switched off again at the same moment |
| Quota.ExpiryWins | web/service/inbound.go:346-364 | an inbound both expired and over quota is not marked |
| Quota.RenewalExtends | web/service/inbound_renew.go:21-27 | renewing by days moves the expiry forward, past now |
| Quota.OncePerCycle | web/service/traffic_reset.go:102-143 | on a clock that does not run back, a run resets the series exactly if no earlier one fell into its cycle and the cycle began after the last reset |
| Quota.RowFollowsCycle | web/service/traffic_reset.go:110-140 | one run of the job on a row is one step of that series |
| Quota.QuietIsSteady | web/service/traffic_reset.go:36-48 | traffic, checks and resets in any order keep the reset mode and day |
| Quota.RowIsSeries | web/service/traffic_reset.go:102-143 | in such a schedule the noted reset is always that of the series of runs |
| Quota.RowResetsBySeries | web/service/traffic_reset.go:102-143 | in such a schedule the n-th run of the job resets the row exactly if the n-th step resets the series |
| Quota.ResetOrNothing | web/service/traffic_reset.go:110-140 | in such a schedule a run of the job zeroes both counters and notes its cycle, or leaves the row as it is |
| Quota.RowOncePerCycle | web/service/traffic_reset.go:102-143 | through any schedule of traffic, checks, edits and renewals that keeps the reset day, a cycle that began after the last reset and has a run of the job resets the row exactly once, by its first run, and no other cycle does |
| Quota.PromiseKept | web/service/inbound_attention.go:104-138 | the shown moment of return is kept, off before it and on by any run after it unless expired by then, if and only if the noted reset lies in the present cycle |
| Quota.DueAtOnce | web/service/inbound_attention.go:104-138 | a row whose reset is still due comes back in the very next run, before the shown moment |
| Quota.DueReached | web/service/inbound_attention.go:104-138 | a new row that goes over its quota before the reset job ever ran is such a row |
| Admission.SelectOverQuota | web/service/concurrency.go:24-46 | over the limit are exactly those with at least the limit many before them, by first sight, then address |
| Admission.LiveOnly | web/service/concurrency.go:190-198 | kept, in order, are the connected, active and unbanned ones |
| Admission.PlanRejections | web/service/concurrency.go:174-176 | sources idle, banned or cut off take no place and are never over the limit |
| Admission.Tracker.Sample | web/service/online.go:376-407 | sources seen are entered or refreshed and keep their first sight; others leave |
| Admission.FirstSightActive | web/service/online.go:376-385 | a source counts as active at first sight |
| Admission.IdleExactly | web/service/online.go:376-407 | a source that stays is idle exactly if no activity, noted before or in any round, falls within the limit |
| Admission.Tracker.SetRejected | web/service/online.go:275-298 | the present rejections are replaced, past ones kept for their retention |
| Admission.Tracker.Snapshot | web/service/online.go:451-506 | each present source is listed once with its state, and lately rejected ones besides |
| Admission.Tracker.MarkBanned | web/service/concurrency.go:83-102 | bans are marked on the list, and banned sources not connected are added |
| Admission.Tracker.Enforce | web/service/concurrency.go:108-147 | rejected are exactly the live sources that are not admitted |
| Admission.ExactlyTheEarliest | web/service/concurrency.go:15-46 | the number admitted is the limit or all live ones, and every admitted one precedes every other live one |
| Admission.NobodyCutsIn | web/service/online.go:376-407 | a source that stays keeps its first sight, and who precedes it at the end did so at the start |
| Admission.KeptExactly | web/service/concurrency.go:15-46 | a live source that stays is admitted after any rounds if and only if fewer than the limit of those who preceded it from the start take part; newcomers do not count |
| Admission.DisplacedExactly | web/service/concurrency.go:15-46 | a kept source that stays live is sent away under a limit that does not drop if and only if enough older sources that took no part come back to fill the places the others leave |
| Admission.OnlyReturnersDisplace | web/service/concurrency.go:15-46 | a kept source stays kept while it is live and the limit does not drop, if no older idle or banned one takes part again |
| Admission.ReturnerDisplaces | web/service/concurrency.go:178-198 | such a return does send a kept source away |
| Sharing.SharingAccumulator.Rollover | web/service/sharing_accumulator.go:278-308 | closing an hour writes exactly the eligible cells with something unwritten, each once, and starts empty |
| Sharing.SharingAccumulator.StashLooseLocked | web/service/sharing_accumulator.go:206-240 | bytes of a source without a cell are set aside until they are worth a cell, within both caps |
| Sharing.SharingAccumulator.ObserveOneLocked | web/service/sharing_accumulator.go:131-199 | one observation: placed, set aside or dropped at a cap, and written if due |
| Sharing.SharingAccumulator.GrowCell | web/service/sharing_accumulator.go:160-196 | seconds and bytes are added, the row is written exactly if due, and no row is added or lost |
| Sharing.SharingAccumulator.Observe | web/service/sharing_accumulator.go:131-199 | a round closes the old hour first and then takes the observations in order |
| Sharing.SharingAccumulator.Forget | web/service/sharing_accumulator.go:316-331 | everything held of the inbound goes, nothing of another |
| SharingExact.RunsKeepInv | web/service/sharing_accumulator.go:131-331 | in every run cells and set-aside bytes hold what was observed, and rows what was written |
| SharingExact.LastWriteExact | web/service/sharing_accumulator.go:242-308 | when an hour closes, the last write of each eligible cell has its totals, and there is none of the others |
| SharingExact.OriginFollows | web/service/sharing_accumulator.go:172-188 | a source's origin is that of its latest observation with one, all parts together |
| SharingExact.LagBounded | web/service/sharing_accumulator.go:249-263 | after each observation less than a minute of activity is unwritten, and bytes only for less than a minute |
| SharingExact.RowsWithin | web/service/sharing_accumulator.go:131-199 | the fifty-row cap holds for everything written and everything stored, hour by hour |
| SharingExact.HourlyExact | web/service/sharing_accumulator.go:131-308 | after the hour, a source that met no cap was last written with exactly its seconds and bytes if it passed the threshold, else never; for no hour, closed or open, were more than fifty rows of an inbound written or are stored |
| SharingExact.StoredIffWritten | web/service/sharing.go:196-221 | the stored row is the last one written if and only if that write succeeded |
| SharingExact.FailedWriteStaysLost | web/service/sharing_accumulator.go:88-92 | a failed write is not made good when the source is not used again in the hour |
| SharingRestart.RunOver | web/service/sharing.go:201-221 | a new process works on the rows of an old one as on none, and its own rows cover them |
| SharingRestart.RestartExact | web/service/sharing.go:201-221 | after a restart within the hour a source's row has the hour's totals if and only if they do not pass the threshold, nothing was observed before it, or nothing after it and all before it was written |
| SharingRestart.RestartForgets | web/service/sharing_accumulator.go:113-114 | a source with a megabyte before a restart and one after has a row of one megabyte for the hour |
| SharingSample.CollectActive | web/service/sharing.go:107-136 | each active source of the inbound is observed once, its bytes taken out of the drained ones |
| SharingSample.CollectRest | web/service/sharing.go:137-152 | the inactive sources that have bytes are observed once each |
| SharingSample.CollectSharingObservations | web/service/sharing.go:107-154 | every drained source of an enabled inbound is in exactly one observation with all its bytes, and no bytes come from elsewhere |
| Pipeline.DrainedObserved | web/service/sharing.go:107-154 | a round observes of a source exactly the bytes drained for it |
| Pipeline.EveryByteInOneHour | web/service/sharing.go:63-98 | for every source of an inbound that stays enabled, its connections' growth is what the hours observed, what is pending and what the full table refused; and a closed hour's row was last written with exactly that hour's bytes |
| MeterPool.Capacity | web/service/meter_pool.go:97-106 | all enabled inbounds together stay within 200, none beyond 60, each has at least one place up to 200 inbounds, and one place more each would not fit |
| MeterPool.AverageBytes | web/service/meter_pool.go:113-131 | the loop computes bytes per connection over the measured domains |
| MeterPool.UseOf | web/service/meter_pool.go:146-216 | the use of a listed domain is its entry's |
| MeterPool.WeightExactly | web/service/meter_pool.go:113-216 | a measured domain weighs its bytes, another one its connections times the bytes per connection of the measured ones |
| MeterPool.BuildCandidates | web/service/meter_pool.go:146-216 | listed are exactly the domains that may run, each once, strictly ranked |
| MeterPool.NotRunning | web/service/meter_pool.go:146-216 | what takes part can be metered, does not cool down, has not been idle for three rounds and, if new and unmeasured, has three connections at least |
| MeterPool.PickPool | web/service/meter_pool.go:222-247 | the first k of the held ones followed by the others by rank, given in the order of their names |
| MeterRounds.PickedIsChosen | web/service/meter_pool.go:222-247 | picked are exactly the domains with fewer than k ahead of them |
| MeterRounds.ChosenFills | web/service/meter_pool.go:222-247 | all places are used while there are candidates |
| MeterRounds.MeterPoolService.RecomputeInbound | web/service/meter_pool.go:409-519 | a round turns the rows into those of the chosen domains, idle counts and cooldowns; it reports no change exactly if the pool is the same |
| MeterRounds.MeterPoolService.Recompute | web/service/meter_pool.go:353-406 | all inbounds in turn after the clean-up, or nothing at all while frozen |
| MeterRounds.RoundPools | web/service/meter_pool.go:409-519 | after a round exactly the chosen domains are in the pool |
| MeterRounds.HeldStays | web/service/meter_pool.go:133-247 | a domain within its minimum hold is not displaced while the held ones fit |
| MeterRounds.NewcomerEnters | web/service/meter_pool.go:440-480 | a domain that enters starts its minimum hold then, with no idle round counted |
| MeterRounds.SwapMargin | web/service/meter_pool.go:133-247 | a newcomer displaces an incumbent only with at least 1.25 times its weight |
| MeterRounds.BudgetKept | web/service/meter_pool.go:88-106 | after an unfrozen round each inbound is within its capacity, and all together within 200 |
| MeterRounds.CooldownHolds | web/service/meter_pool.go:409-519 | a retired domain is out of the pool until its cooldown is over, whatever rounds follow |
| MeterRounds.IdleRetires | web/service/meter_pool.go:409-519 | an idle round on a row that already counts two retires the domain for 24 hours |
| MeterRounds.IdleCounts | web/service/meter_pool.go:409-519 | an idle round counts one, a used one starts anew |
| MeterRounds.IdleStaysOut | web/service/meter_pool.go:409-519 | a domain that carried nothing in three unfrozen rounds in a row, kept by the first two, is in no pool after the third nor after any round of the 24 hours from it |
| MeterRounds.SoundAfterRounds | web/service/meter_pool.go:353-519 | the assumption of the budget result holds after every run |
| AnomalyOnce.BatchRows | web/service/accesslog.go:513-522 | a batch holds exactly the rows after the cursor up to where it ends, at most 20000, and all of them if they are fewer |
| AnomalyOnce.TallyCounts | web/service/routing_anomaly.go:98-114 | an hour's sum is its number of different rows |
| AnomalyOnce.HitsAreNew | web/service/routing_anomaly.go:463-507 | what a rule counts in a batch was not counted while its watermark stood |
| AnomalyOnce.InWindow | web/service/routing_anomaly.go:332-448 | rows after the cursor's floor are always within the window |
| AnomalyOnce.WindowExactly | web/service/routing_anomaly.go:362-363 | the window is exactly the last 24 hours |
| AnomalyOnce.CountedAtMostOnce | web/service/routing_anomaly.go:332-448 | over scans of both classes, changes of class, resets, disabled rules and switch-offs, each row is counted at most once per rule, all at or below its watermark |
| AnomalyOnce.FirstScan | web/service/routing_anomaly.go:332-448 | a rule's account starts where its class stands when it is first scanned |
| AnomalyOnce.ExactUnlessSkipped | web/service/routing_anomaly.go:360-448 | a scan keeps a rule's account exact if and only if no row it wants lies between its cursor and the window |
| AnomalyOnce.BacklogLost | web/service/routing_anomaly.go:360-379 | a wanted row older than the window of the scan that could first read it is passed over and never counted |
| AnomalyOnce.CountedExactlyOnce | web/service/routing_anomaly.go:332-448 | as long as a rule keeps its class and its plan and no scan skips a wanted row, counted are exactly the wanted rows from where its account was last started up to the cursor, through failed scans and resets of any rule, its own included |
| AnomalyReadings.AccountOpens | web/service/routing_anomaly.go:332-448 | the first scan of a rule opens its account at the cursor of its class |
| AnomalyReadings.CountedByReading | web/service/routing_anomaly.go:332-448 | as long as a rule keeps its class, whatever else of its plan changes and whatever old rows the log loses, counted is what each scan's own plan wanted of the rows it read |
| AnomalyReadings.CountedIffWanted | web/service/routing_anomaly.go:463-507 | a row that a scan read is counted if and only if the plan of that scan wants it under the present ignore time |
| AnomalyReadings.ReadOnce | web/service/routing_anomaly.go:360-448 | no place is read by two scans of the class |
| AnomalyReadings.ReadOrPassed | web/service/routing_anomaly.go:360-448 | a place between the start of the account and the cursor was read by a scan, or passed over by one whose window begins later |
| AnomalyReadings.RetentionHarmless | web/service/accesslog.go:524-532 | rows deleted at or before where a scan starts, as those past their retention are, make no difference to it |
| AnomalyScan.Accumulate | web/service/routing_anomaly.go:484-507 | the row loop gives each rule the tally of its hits, with whatever matcher it is given that agrees with its own |
| AnomalyScan.ScanLarge | web/service/routing_anomaly.go:516-557 | scanning large rules group by group, each with the matcher of its group's first rule, gives the same as scanning them at once with their own |
| AnomalyScan.RoutingAuditService.ResetAnomalies | web/service/routing_anomaly.go:216-221 | the rule's sums go and its earlier rows are ignored; cursors and watermarks stay |
| AnomalyScan.RoutingAuditService.ClearAnomalies | web/service/routing_anomaly.go:314-320 | sums, watermarks and cursors go, reset times stay |
| AnomalyScan.RoutingAuditService.PruneAnomalies | web/service/routing_anomaly.go:561-589 | old hours, disabled rules' sums and deleted rules' reset times go |
| AnomalyScan.RoutingAuditService.ScanAccessLog | web/service/routing_anomaly.go:332-448 | one scan of one class, with resets and switch-offs in its middle, is the step the runs are made of; unreadable settings or rules change nothing, an unreadable log ends it after the pruning |
| AnomalyScan.RoutingAuditService.ScanClass | web/service/routing_anomaly.go:360-448 | the batch of a class is committed only if nothing was cleared meanwhile |

## Left out

- Metering.MeteringTransparent: assumes that no outbound carries a metering tag of the pool before; `Metering.RefusedExactly` says that the core does not start otherwise.
- Injector.Inject: errors of the settings store and of JSON decoding stop generation in the source before anything is written; they are not modelled, and geo rules enter as given rules.
- Conservation.EveryByteOnce: counts unbounded integers; the source's 64-bit sums would wrap after 2^64 bytes of one source.
- Admission.Tracker.Enforce: one inbound; the order of the lists, speeds, locations and the disconnecting itself are not modelled.
- Collecting.AccessLogService.Collect: a process without a database, which reads lines away unstored, and truncation of the file by others while the process runs are not modelled.
- Collecting.CaughtUp: truncation may drop unread lines when the backlog exceeds one read, as the source accepts.
- RuleEdits.RoutingRuleService.Validate: error texts and labels are not modelled; only which input is refused.
- Quota.InboundService.AddInbound: ports, protocol settings and regions are not modelled.
- Quota.InboundService.UpdateInbound: ports, protocol settings and regions are not modelled.
- RuleEdits.RoutingRuleService.DelInbound: the other records deleted with an inbound, and a failure to delete its bans, are not modelled.
- SharingExact.HourlyExact: one process; `SharingRestart.RestartExact` is about a restart within the hour, after which the row cap, too, starts anew.
- Pipeline.EveryByteInOneHour: one process, and the inbound is not deleted meanwhile.
- MeterOnly.RoutingWithoutTags: compares number literals as text, where the source decodes them as 64-bit floating point and so can take two long ones for the same.
- MeterOnly.OnlyTouchesTags: compares number literals as text, likewise.
- MeterRounds.MeterPoolService.Recompute: a database error in the middle of a round, and the order of the returned pool, are not modelled.
- AnomalyScan.RoutingAuditService.ScanAccessLog: each scan is atomic but for the interruptions given; users, routes and targets of a stray connection are not broken down, and a plan is given rather than built.
- AnomalyOnce.CountedExactlyOnce: the rule keeps its class and its plan, and the log grows behind the cursor and loses no row; `AnomalyReadings.CountedByReading` does without all but the class.
- SharingSample.CollectSharingObservations: the source's display data of an address is one value.
- Parsing and printing of addresses and CIDR notation, IPv6 ranges, and the union of several sources' blocks in `Multi.CIDRsOfProvinces`.
- Lower-casing and trimming beyond ASCII, and the case-insensitive member names of Go's JSON decoder.
- Sharing of one map between outbounds in memory: outbounds are values, so the copy that the source makes of the default one cannot be aliased.
- The proxy core itself: validation, probes, its control interface, domain and address matching, DNS.
- Network listings, traffic shaping, process control, the web interface, settings, accounts, installation and updates.
