# Verification of the DNS proxy core

The proxy takes DNS queries over UDP and TCP and answers them from block and override rules, from a cache, or from a
resolver reached over HTTPS, directly or through a chain of relays. This project models the parts that carry state or do
combinatorics, and proves what they keep over all inputs and all runs.

- **Cache** (`CacheObject`, `LruCache`, `LruRuns`, `CacheRuns`, `CacheTightness`, `CachePurges`). A list of entries
  ordered by last use, with a TTL per entry. `LruCache.Cache` is the cache as an object whose operations run undisturbed;
  `CacheRuns` is the same cache with any number of puts, gets and purges in between each other, one lock section at a
  time, each cancellable between its sections. Every list of actions is a run: an action that is not enabled changes
  nothing. `CacheTightness` says when the bound of `CacheRuns` is reached, `CachePurges` what purges remove.
- **Relay paths** (`Permutations`, `Paths`, `PathUrl`, `PathManager`, `PathConfig`, `PathSelect`, `PathBuild`). The
  enumeration of all relay chains, the loop filter, the URL of a chain, and the choice of a chain by health flags.
  `PathBuild` builds the path objects in the program's loops; the other modules say what the result is, `PathConfig` in
  terms of the configured URLs.
- **Rules** (`Text`, `Patterns`, `Trie`, `DomainBlock`, `BlockLines`, `DomainOverride`, `OverrideLines`, `Manipulators`,
  `RulesAsWritten`). The block list as two search trees, the override list as a hash map, the chain of both, and the
  earlier plugin chain it replaces. `Patterns` holds the regular expressions of the program with their meaning;
  `BlockLines`, `OverrideLines` and `RulesAsWritten` say what the rules do to a query in terms of the lines of the two
  files, those patterns and letters up to case, without any function of the build.
- **Admission** (`Counter`, `Proxy`). The connection counters and the UDP and TCP handlers as objects, and the counters as
  shared words that any number of tasks change by single atomic accesses.
- **Token** (`Auth`). The service that keeps the bearer token fresh; the network is a script of attempts.
- **Queries** (`Dns`, `RequestKey`, `Pipeline`, `DohClient`, `SeveralQuestions`). The cache key of a message, the whole
  way of a query, with any number of queries and purges in between, and the handler as one undisturbed call.
- **Whole proxy** (`WholeProxy`, `FullLoad`). Several listeners and the service that resolves the configured endpoints,
  over one client: each listener goes through a run of the counters, the client through a run of the pipeline, and their
  limits together give a bound on the cache by configured values, which some run reaches.

`Wrappers` and `Seqs` hold general helpers. Clock readings, random draws, upstream responses, the address parser, the
test for DNS names, the URL parser and the encoder's success are inputs. `dafny verify dfyconfig.toml` checks everything.

## What the code does that its documentation does not say

- The enumeration takes the larger of `max_mid_relays` and the number of mid relays
  (dap-lib/src/doh_client/path_manage.rs:276), so that setting never shortens a path, though README.md:225-227 calls it a
  maximum. `PathManager.ArrangementsForExact` states what is enumerated. The setting is kept exactly when no target and
  next hop leave more mid authorities usable than it says (`PathManager.BoundKeptIffFewUsable`); with pairwise different
  authorities, exactly when no more mid relays are configured (`PathManager.BoundKeptIffFewMids`).
- `max_connections` is logged as a limit for both protocols together (dap-lib/src/proxy/proxy_udp.rs:117-120). It is
  applied to each protocol by itself, so both together are bounded by twice the value (`Counter.CombinedLimit`), reach
  that (`Counter.BothProtocolsReachTheMaximum`), and keep the logged limit over all runs only if it is 0
  (`Counter.TogetherWithinMaximumIffZero`).
- A task that leaves early or panics never counts itself out, and a count-out whose single exchange fails is dropped. An
  exchange fails exactly when the tasks owed are not as many as at its load (`Counter.ExchangeLosesIffCountMoved`), and
  a counter at rest is back at zero exactly when neither happened (`Counter.GoodRunsRestAtZero`). Places lost this way
  are lost for good: `Counter.ClosedForGood`, `Counter.FailuresCloseTheListener`, `Counter.ContentionLoses`.
- A cache used by `n` puts at once can exceed its maximum by `n - 1`, and no less is true:
  `CacheRuns.SizeBound`, `CacheTightness.SizeBoundIsTight`. It keeps its maximum over all runs iff puts come one at a time
  (`CacheTightness.SizeWithinMaximumIffOnePut`).
- A put into a full cache drops the oldest entry even when its own key is already resident:
  `LruRuns.PutShrinksIffResidentBehindFront`.
- A purge removes by key, so it can drop an entry put after the purge looked (`CachePurges.PurgeCanRemoveFreshEntry`). A
  removal does so exactly when a get for the key would hit (`CachePurges.RemovalDropsFreshIffGetHits`), which takes an
  insert of the key since the purge began (`CachePurges.FreshRemovalNeedsInsertDuringPurge`); said on the history of the
  run, exactly when the last object inserted is unexpired and was not taken out since
  (`CachePurges.RemovalDropsFreshIffMapStillHolds`).
- A query that carries answers and asks for an overridden name makes the handler panic, because the DNS library refuses
  to insert into a non-empty section (dap-lib/src/doh_client/dns_message.rs:136-142):
  `Manipulators.PanicsIffOverriddenWithAnswers`, `Pipeline.DiesIffOverriddenWithAnswers`.
- The rules see only the least question of a message: it passes exactly if that question does
  (`SeveralQuestions.PassesIffLeastQuestionPasses`), so a blocked name passes behind any lesser one that is not
  (`SeveralQuestions.BlockedNamePassesBehindLesserOne`, `SeveralQuestions.BlockedNameExample`).
- The delays of the token service keep the token fresh exactly for attempts of less than 20 / 6 seconds:
  `Auth.AlwaysFreshIffQuickEnough`.

## Model

| member | source | states |
|---|---|---|
| CacheObject.Rewrite | dap-lib/src/doh_client/cache.rs:45-49 | a rewrite loop keeps the records, their order and number, and sets every TTL |
| CacheObject.BuildResponse | dap-lib/src/doh_client/cache.rs:41-63 | the three loops and the id make exactly the served message |
| CacheObject.MinTtlIsLeast | dap-lib/src/doh_client/cache.rs:91 | the lifetime is the TTL of some answer and at most that of each |
| CacheObject.ServedTtlIsExact | dap-lib/src/doh_client/cache.rs:36-43 | the served TTL is the least original TTL less the seconds begun, at least 0; the 32-bit cast loses nothing |
| CacheObject.EveryRecordServedWithRest | dap-lib/src/doh_client/cache.rs:36-60 | every record of all three sections is served with its name and data and, in plain numbers, the least answer TTL less the seconds begun, at least 0 |
| CacheObject.CacheableIffAnswersMayBeKept | dap-lib/src/doh_client/cache.rs:85-94 | a response may be cached iff its code is NOERROR or NXDOMAIN, it has answers, and all their TTLs are above zero |
| CacheObject.ExpiresWithFirstAnswer | dap-lib/src/doh_client/cache.rs:20-22 | a cached response counts as expired iff some answer is beyond its own TTL |
| CacheObject.ServingNeverLengthens | dap-lib/src/doh_client/cache.rs:41-62 | serving keeps every section's records, order and number, carries the query id, and no answer outlives its original TTL |
| LruCache.Cache.constructor | dap-lib/src/doh_client/cache.rs:75-80 | a new cache is empty |
| LruCache.Cache.Size | dap-lib/src/doh_client/cache.rs:144-149 | the number of entries |
| LruCache.Cache.Put | dap-lib/src/doh_client/cache.rs:83-114 | the whole new list of an undisturbed put, its error when there is no room at all, and that the maximum is kept |
| LruCache.PutStores | dap-lib/src/doh_client/cache.rs:83-114 | said on codes and TTLs: exactly these responses end up last, unchanged under id 0, until the least of their TTLs has passed; any other changes nothing |
| LruCache.Cache.Get | dap-lib/src/doh_client/cache.rs:117-141 | a hit goes to the back and is returned, an expired entry goes away, keys stay distinct |
| LruCache.Cache.PurgeExpiredEntries | dap-lib/src/doh_client/cache.rs:152-167 | an undisturbed purge leaves the unexpired entries in their order and returns the number removed |
| LruCache.UnexpiredFacts | dap-lib/src/doh_client/cache.rs:154-160 | what a purge leaves is exactly the unexpired entries, keys distinct |
| LruRuns.RunsAreOrderedByTouch | dap-lib/src/doh_client/cache.rs:105-122 | in every undisturbed run the list is strictly ordered by last touch, holds each key once and never exceeds the maximum |
| LruRuns.EvictedKeyWaitedLongest | dap-lib/src/doh_client/cache.rs:105-112 | a put drops another key only after at least maximum - 1 other resident keys were touched since that key was |
| LruRuns.PutShrinksIffResidentBehindFront | dap-lib/src/doh_client/cache.rs:105-112 | exactly when a put makes the list shorter: the cache is full and the key is resident, not in front |
| CacheRuns.UndisturbedPut | dap-lib/src/doh_client/cache.rs:96-113 | the lock sections of a put, with nothing in between, make up the put of the cache object |
| CacheRuns.SizeBound | dap-lib/src/doh_client/cache.rs:105-112 | over every interleaving with at most n puts in flight the cache holds at most maximum + n - 1 entries, none if the maximum is 0 |
| CacheTightness.SizeBoundIsTight | dap-lib/src/doh_client/cache.rs:105-112 | for every positive maximum and n a run reaches that number of entries |
| CacheTightness.SizeWithinMaximumIffOnePut | dap-lib/src/doh_client/cache.rs:105-112 | the maximum is kept over all runs with at most n puts in flight iff n is at most 1 or the maximum is 0 |
| CacheRuns.RunsAreConsistent | dap-lib/src/doh_client/cache.rs:83-167 | at any point of any interleaving keys are distinct and every entry is the last insert of its key, brought by a cacheable response |
| CacheRuns.GetAgreesWithTtlMap | dap-lib/src/doh_client/cache.rs:117-141 | a get returns what a map that never evicts would return, or nothing |
| CacheRuns.GetIsExactWithoutRemovals | dap-lib/src/doh_client/cache.rs:105-167 | a get differs from that map exactly when the map still has the object and a pop or a purge removal took this key out since its last insert |
| CachePurges.PurgesAreSound | dap-lib/src/doh_client/cache.rs:152-167 | a purge in progress has removed at most what it counted, and only goes for entries expired by now |
| CachePurges.UndisturbedPurge | dap-lib/src/doh_client/cache.rs:152-167 | the lock sections of a purge, with nothing in between, remove exactly the expired entries and count them |
| CachePurges.SnapshotIsPast | dap-lib/src/doh_client/cache.rs:153 | a purge works on what the cache held at an earlier moment of the run |
| CachePurges.PurgeRemovesOnlyExpiredSnapshots | dap-lib/src/doh_client/cache.rs:152-162 | a purge removes a key only if its snapshot held it with an object expired by now, and touches no other key |
| CachePurges.RemovalDropsFreshIffGetHits | dap-lib/src/doh_client/cache.rs:157-159 | a purge removal drops an unexpired entry exactly when a get for the key would hit at that moment |
| CachePurges.RemovalDropsFreshIffMapStillHolds | dap-lib/src/doh_client/cache.rs:153-160 | on the history: exactly when the key's last object is unexpired and no pop or purge removal took it out since its insert |
| CachePurges.FreshRemovalNeedsInsertDuringPurge | dap-lib/src/doh_client/cache.rs:153-160 | a removal drops an unexpired entry only if the key was inserted since the purge began |
| CachePurges.PurgeCanRemoveFreshEntry | dap-lib/src/doh_client/cache.rs:157-159 | for every key, cacheable response and positive maximum a run in which a purge drops the fresh entry |
| Permutations.ArrangementsSound | dap-lib/src/doh_client/path_manage.rs:278-281 | every generated selection is an arrangement, in strict lexicographic order |
| Permutations.ArrangementsComplete | dap-lib/src/doh_client/path_manage.rs:278-281 | every arrangement is generated |
| Permutations.CountArrangements | dap-lib/src/doh_client/path_manage.rs:278-281 | the number of arrangements of length k is the falling factorial |
| Permutations.FallingFactorialIsQuotient | dap-lib/src/doh_client/path_manage.rs:278-281 | the falling factorial is n! / (n - k)! |
| Permutations.CountBeyond | dap-lib/src/doh_client/path_manage.rs:276-281 | lengths beyond the number of relays add nothing |
| PathManager.ArrangementsForExact | dap-lib/src/doh_client/path_manage.rs:276-282 | whatever `max_mid_relays` is, the enumeration goes once through all lists of distinct positions |
| PathManager.LevelExact | dap-lib/src/doh_client/path_manage.rs:276-334 | a level is the next hop followed by each arrangement of distinct mid relays exactly once, kept iff target and relays have pairwise different authorities |
| PathManager.LevelWithoutMids | dap-lib/src/doh_client/path_manage.rs:286-334 | without mid relays a level is the next hop alone, or empty if it is the target |
| PathManager.PathsHaveNoEmptyLevels | dap-lib/src/doh_client/path_manage.rs:320-334 | no empty level is left, for every configuration |
| PathManager.PruningKeepsPaths | dap-lib/src/doh_client/path_manage.rs:330-334 | only empty levels are dropped; all paths stay, in order |
| PathManager.KeptLevel | dap-lib/src/doh_client/path_manage.rs:300-334 | every kept level belongs to one configured target and one configured next hop |
| PathManager.DisjointIsLoopFree | dap-lib/src/doh_client/path_manage.rs:118-127 | with pairwise different authorities no arrangement loops |
| PathManager.PathCount | dap-lib/src/doh_client/path_manage.rs:276-334 | with different authorities there are exactly targets times next hops times the sum of n! / (n - k)! paths, n the number of mid relays, 0 if none are configured |
| PathManager.MaxMidRelaysHonouredIff | dap-lib/src/doh_client/path_manage.rs:276-282 | the enumeration keeps `max_mid_relays` exactly when there are no more mid relays than that |
| PathManager.LevelVisitsAtMostIff | dap-lib/src/doh_client/path_manage.rs:284-334 | the longest path over a next hop to a target visits one relay for each mid authority that is neither of the two |
| PathManager.BoundKeptIffFewUsable | dap-lib/src/doh_client/path_manage.rs:228-341 | for every configuration the managed paths keep `max_mid_relays` exactly when no differing target and next hop leave more mid authorities usable |
| PathManager.BoundKeptIffFewMids | dap-lib/src/doh_client/path_manage.rs:276-334 | with different authorities, exactly when no more mid relays are configured than `max_mid_relays` |
| PathManager.ManagedPathsAreUsable | dap-lib/src/doh_client/path_manage.rs:93-113 | every managed relay path is loop-free, starts with a configured next hop, and its URL exists and reads back |
| PathConfig.ManagedIffConfigured | dap-lib/src/doh_client/path_manage.rs:228-341 | a route is managed iff it is loop-free and leads from a configured next hop over distinct configured mid relays, however many, to a configured target, each with the authority, path and scheme of its URL |
| PathConfig.StandardIsConfigured | dap-lib/src/doh_client/path_manage.rs:228-248 | without relays, one path per target in order, with the authority, path and scheme of its URL |
| Paths.DoHPath.constructor | dap-lib/src/doh_client/path_manage.rs:152-155 | a new path starts healthy |
| Paths.DoHPath.MakeHealthy | dap-lib/src/doh_client/path_manage.rs:156-158 | raises the flag |
| Paths.DoHPath.MakeUnhealthy | dap-lib/src/doh_client/path_manage.rs:159-161 | lowers the flag |
| Paths.DoHPath.IsLooped | dap-lib/src/doh_client/path_manage.rs:118-127 | true iff two of target and relays share an authority |
| Paths.DoHPath.AsUrl | dap-lib/src/doh_client/path_manage.rs:81-115 | the loop over the relays builds the specified URL or error |
| PathUrl.UrlReadsBack | dap-lib/src/doh_client/path_manage.rs:93-113 | the URL of an oblivious path exists iff its first relay may be a next hop, and reads back to next hop, target and later relays in order |
| PathUrl.UrlAsWritten | dap-lib/src/doh_client/path_manage.rs:81-115 | the URL itself: scheme, origin and path, then the pairs `targethost`, `targetpath`, and `relayhost[i]`, `relaypath[i]` with the decimal digits of i; and each of the errors |
| PathUrl.SameUrlIffSameHops | dap-lib/src/doh_client/path_manage.rs:93-113 | two paths share a URL iff they agree up to the schemes of target and later relays |
| PathSelect.NoneIffNoneHealthy | dap-lib/src/doh_client/path_manage.rs:189-211 | no path is returned iff none was read as healthy |
| PathSelect.ChosenIsHealthy | dap-lib/src/doh_client/path_manage.rs:189-225 | what is returned was read as healthy in the list, all random ranges non-empty |
| PathSelect.FirstWithoutRandomisation | dap-lib/src/doh_client/path_manage.rs:213-224 | for each setting: the first target with a healthy path unless targets are randomised, and the first such next hop of the chosen target unless next hops are |
| PathSelect.EveryHealthyPathCanBeChosen | dap-lib/src/doh_client/path_manage.rs:213-224 | for each setting some draw chooses any healthy path that lies on the fixed target and next hop, where these are fixed |
| PathBuild.CollectPermutations | dap-lib/src/doh_client/path_manage.rs:279 | the relay lists of one length, in generator order |
| PathBuild.EnumerateAfterNextHop | dap-lib/src/doh_client/path_manage.rs:276-282 | the loop over all lengths collects exactly the specified relay lists |
| PathBuild.ExtendNextHop | dap-lib/src/doh_client/path_manage.rs:284-297 | the next hop in front of every relay list |
| PathBuild.MakePaths | dap-lib/src/doh_client/path_manage.rs:306-314 | one new healthy path object per relay list, no two the same object |
| PathBuild.DropLooped | dap-lib/src/doh_client/path_manage.rs:323-327 | keeps exactly the loop-free paths, in order |
| PathBuild.BuildTarget | dap-lib/src/doh_client/path_manage.rs:301-331 | the non-empty levels of one target over new objects |
| PathBuild.BuildStandard | dap-lib/src/doh_client/path_manage.rs:238-248 | one path without relays per target |
| PathBuild.BuildOblivious | dap-lib/src/doh_client/path_manage.rs:300-334 | the non-empty levels of all targets over new objects |
| PathBuild.DoHPathManager.constructor | dap-lib/src/doh_client/path_manage.rs:228-341 | the built objects are exactly the paths of the configuration, all healthy, flags not shared, no empty level |
| PathBuild.DoHPathManager.GetPath | dap-lib/src/doh_client/path_manage.rs:189-225 | returns a held path whose flag is up, or none iff no flag is up |
| Trie.Build | dap-lib/src/doh_client/manipulation/domain_block.rs:66-82 | the tree holds every key under its position |
| Trie.CommonPrefixesAreStoredPrefixes | dap-lib/src/doh_client/manipulation/domain_block.rs:96-99 | the walk yields a value iff some prefix of the text is stored with it |
| Trie.FilledKnowsItsKeys | dap-lib/src/doh_client/manipulation/domain_block.rs:66-82 | a key is stored iff it is listed, and its position leads back to it |
| DomainBlock.TryFrom | dap-lib/src/doh_client/manipulation/domain_block.rs:38-90 | the build yields the rule of the surviving lines, each tree filled from its list |
| DomainBlock.WalkStaysInList | dap-lib/src/doh_client/manipulation/domain_block.rs:96-117 | every position the walk yields is a position of the list, so indexing is safe |
| DomainBlock.MatchedItemsAreListedPrefixes | dap-lib/src/doh_client/manipulation/domain_block.rs:94-117 | the matched items are exactly the listed strings that start the text |
| DomainBlock.MatchIffSomeLineBlocks | dap-lib/src/doh_client/manipulation/domain_block.rs:94-127 | the two tree lookups match iff some surviving line blocks the labels |
| DomainBlock.BlockedIffSomeLineBlocks | dap-lib/src/doh_client/manipulation/domain_block.rs:45-157 | `in_blocklist` is plain label matching on every name with a final dot, an error on others |
| DomainBlock.BlockingIgnoresCase | dap-lib/src/doh_client/manipulation/domain_block.rs:53-131 | letter case never matters, in rules or names (section 3 of RFC 4343), sameness said letter by letter |
| DomainBlock.DomainIsPattern | dap-lib/src/doh_client/manipulation/regexp_vals.rs:1 | the domain test of the override lines accepts exactly what the regular expression matches |
| DomainBlock.DomainOrPrefixIsPattern | dap-lib/src/doh_client/manipulation/regexp_vals.rs:2 | the test on labels accepts exactly what the regular expression matches |
| DomainBlock.StartsWithStarIsPattern | dap-lib/src/doh_client/manipulation/domain_block.rs:45 | the star in front is exactly a match of its pattern at the start |
| DomainBlock.EndsWithStarIsPattern | dap-lib/src/doh_client/manipulation/domain_block.rs:46 | the star behind is exactly a match of its pattern at the end |
| BlockLines.BlockedIffSomeLineSays | dap-lib/src/doh_client/manipulation/domain_block.rs:38-157 | a name is blocked iff some line, less a star and dot in front, matches the patterns and, letter case aside, ends the name after a dot or is the name, or starts it before a dot if a star follows |
| BlockLines.StarInFrontAddsNothing | dap-lib/src/doh_client/manipulation/domain_block.rs:52 | `*.x` blocks what `x` blocks, wherever it stands in the file |
| DomainOverride.WellFormedHasTwoFields | dap-lib/src/doh_client/manipulation/domain_override.rs:70-80 | a line that passes the pattern splits into exactly two fields, so the warning branch is never taken |
| DomainOverride.TryFrom | dap-lib/src/doh_client/manipulation/domain_override.rs:66-89 | the build loop yields the map of the lines |
| DomainOverride.FindMappingIsFirstMatchingLine | dap-lib/src/doh_client/manipulation/domain_override.rs:93-117 | a lookup is a first-match scan of the configured lines |
| DomainOverride.FirstMatchIsEarliest | dap-lib/src/doh_client/manipulation/domain_override.rs:76-117 | the scan finds the earliest fitting line, and none iff no line fits |
| OverrideLines.WellFormedIsPattern | dap-lib/src/doh_client/manipulation/domain_override.rs:70-75 | the lines that are read are exactly those the regular expression matches |
| OverrideLines.FindMappingReadsLines | dap-lib/src/doh_client/manipulation/domain_override.rs:66-117 | type 1 finds IPv4 addresses only, type 28 IPv6 only, no other type any; the first line whose domain is the name, letter case aside, with such an address decides, and there is none only if no line gives one |
| OverrideLines.FoundIffFirstGiven | dap-lib/src/doh_client/manipulation/domain_override.rs:93-117 | an address is the answer iff it is of the family asked for and the first of it the lines give to the name |
| OverrideLines.NoDotNoMapping | dap-lib/src/doh_client/manipulation/domain_override.rs:95-108 | a name without the final dot is never overridden |
| OverrideLines.OverridingIgnoresCase | dap-lib/src/doh_client/manipulation/domain_override.rs:96 | letter case never matters in the name asked |
| Manipulators.Apply | dap-lib/src/doh_client/manipulation/mod.rs:38-52 | the loop returns the first answer or error of the chain |
| Manipulators.TryFrom | dap-lib/src/doh_client/manipulation/mod.rs:57-71 | the chain is override, then block, each if configured |
| Manipulators.ChainDecidesByLines | dap-lib/src/doh_client/manipulation/mod.rs:38-72 | the chain decides as the configured lines say, an override winning over a block |
| Manipulators.PassingIgnoresMessage | dap-lib/src/doh_client/manipulation/mod.rs:38-52 | whether a query passes depends on its key alone |
| Manipulators.PanicsIffOverriddenWithAnswers | dap-lib/src/doh_client/dns_message.rs:132-143 | the chain panics exactly on a query for an overridden name, accepted as a name, that carries answers |
| RulesAsWritten.OverriddenNames | dap-lib/src/doh_client/dns_message.rs:125-145 | what an overridden name gets: its id, questions and other records back, code NOERROR, one record with its name, the configured TTL and the address; or the name or the record is refused |
| RulesAsWritten.OtherNames | dap-lib/src/doh_client/dns_message.rs:116-123 | any other name gets NXDOMAIN with everything else of the query kept if some line of the block file says so, else it passes |
| Manipulators.Execute | legacy/src/plugins/mod.rs:37-81 | the earlier loop computes the specified result, a block not stopping it |
| Manipulators.LoopDecides | legacy/src/plugins/mod.rs:37-81 | for any list of plugins: the first override with an address decides; without one, NXDOMAIN iff some plugin blocks the name |
| Manipulators.LegacyChainDecidesByLines | legacy/src/plugins/mod.rs:37-81 | the earlier chain, block first, said on the configured lines |
| Manipulators.ChainsAgreeIffFinalDot | legacy/src/config/config_parser.rs:131-157 | both chains give the same verdict and message exactly when the name ends in a dot or no block list is configured |
| RequestKey.TryFrom | dap-lib/src/doh_client/dns_message.rs:29-48 | the sorted lower-cased questions, an error without any |
| RequestKey.SortIsSortedPermutation | dap-lib/src/doh_client/dns_message.rs:46 | the key is sorted and holds each question as often as the message |
| RequestKey.SameKeyIffSameQuestions | dap-lib/src/doh_client/dns_message.rs:26-49 | keys are equal iff the messages ask each question equally often, letter case aside; only a message without questions has none |
| RequestKey.FirstKeyIsLeast | dap-lib/src/doh_client/dns_message.rs:46 | the first entry of a key is the least question asked |
| RequestKey.KeyOrder | dap-lib/src/doh_client/dns_message.rs:16-23 | least means: names decide first, character by character, then the type, then the class |
| RequestKey.KeyReadsBack | dap-lib/src/doh_client/dns_message.rs:36-45 | every entry of a key is a question asked, in small letters |
| Counter.ConnCounter.constructor | dap-lib/src/proxy/counter.rs:19-25 | all counters start at zero |
| Counter.ConnCounter.Increment | dap-lib/src/proxy/counter.rs:39-53 | undisturbed: one more of this protocol, the old count returned, the other untouched, the total their sum |
| Counter.ConnCounter.Decrement | dap-lib/src/proxy/counter.rs:55-84 | undisturbed: one less unless zero, the other untouched, the total their sum |
| Counter.CountersAccountForTasks | dap-lib/src/proxy/counter.rs:39-80 | over every interleaving a counter is exactly live plus leaked plus lost tasks of its protocol, modulo the word |
| Counter.AdmissionLimit | dap-lib/src/proxy/proxy_tcp.rs:43-75 | below a word of arrivals no counter underflows, and admitted tasks not counted out are at most the maximum less the leaked |
| Counter.AdmittedIffRoom | dap-lib/src/proxy/proxy_udp.rs:116-123 | the next query is served iff live, leaked and lost tasks are fewer than the maximum |
| Counter.CountAtRest | dap-lib/src/proxy/proxy_udp.rs:116-144 | with no task left the counter is what was leaked and lost |
| Counter.ClosedForGood | dap-lib/src/proxy/proxy_udp.rs:116-143 | once as many places as the maximum are gone no later query of the protocol is served |
| Counter.UndisturbedRelease | dap-lib/src/proxy/counter.rs:57-80 | a load and its exchange with nothing in between count the task out |
| Counter.ExchangeLosesIffCountMoved | dap-lib/src/proxy/counter.rs:57-80 | an exchange counts its task out exactly if the tasks owed are as many as at its load, else the count-out is lost |
| Counter.UncontendedLosesNothing | dap-lib/src/proxy/counter.rs:57-80 | over every run the lost count-outs are exactly the exchanges that find the count moved; none is lost iff there is none |
| Counter.BackToBackIsUncontended | dap-lib/src/proxy/counter.rs:57-80 | in a run whose loads are each followed at once by their exchange no exchange finds the count moved |
| Counter.ContentionLoses | dap-lib/src/proxy/counter.rs:57-80 | two tasks that load before either exchanges lose one count-out |
| Counter.NoFailuresNoLeaks | dap-lib/src/proxy/proxy_tcp.rs:53-75 | over every run the leaked places are exactly the TCP messages that cannot be read, the UDP answers that fail and the tasks that die; none is leaked iff there is none |
| Counter.GoodRunsRestAtZero | dap-lib/src/proxy/proxy_tcp.rs:43-88 | with its protocol at rest the counter is zero iff no such failure or death occurred and no exchange found the count moved |
| Counter.FailuresCloseTheListener | dap-lib/src/proxy/proxy_udp.rs:136-143 | as many failed queries of a protocol as the maximum, one after the other, close the listener to it |
| Counter.CombinedLimit | dap-lib/src/proxy/proxy_udp.rs:116-120 | both protocols together serve at most twice the maximum, less what both leaked |
| Counter.BothProtocolsReachTheMaximum | dap-lib/src/proxy/proxy_tcp.rs:43-50 | for every maximum a run reaches that combined bound |
| Counter.TogetherWithinMaximumIffZero | dap-lib/src/proxy/proxy_udp.rs:116-120 | both protocols together stay within the maximum over all runs iff it is 0 |
| Proxy.Listener.constructor | dap-lib/src/proxy/proxy_main.rs:17-24 | a listener starts with its own counters at zero |
| Proxy.Listener.ServeUdpQuery | dap-lib/src/proxy/proxy_udp.rs:108-148 | outcome and count of an undisturbed UDP query in every case, TCP untouched |
| Proxy.Listener.ServeTcpQuery | dap-lib/src/proxy/proxy_tcp.rs:40-89 | outcome and count of an undisturbed TCP query in every case, UDP untouched |
| Proxy.UdpOutcome | dap-lib/src/proxy/proxy_udp.rs:116-147 | which failure each error names, and that only refused or answered queries count themselves out |
| Proxy.TcpOutcome | dap-lib/src/proxy/proxy_tcp.rs:43-88 | which failure each error names, and exactly when the query counts itself out |
| Proxy.UdpTaskSteps | dap-lib/src/proxy/proxy_udp.rs:116-144 | the undisturbed UDP handler is the steps of one task over the shared counters, the same count at the end |
| Proxy.TcpTaskSteps | dap-lib/src/proxy/proxy_tcp.rs:43-75 | the undisturbed TCP handler is the steps of one task, whatever comes of its answer |
| Auth.Authenticator.Login | dap-lib/src/auth/auth_main.rs:61-65 | a login stores the token or fails |
| Auth.Authenticator.RefreshOrLogin | dap-lib/src/auth/auth_main.rs:67-88 | check, refresh near the end, login if that fails: the new state and the outcome of every case |
| Auth.AttemptInPlainNumbers | dap-lib/src/auth/auth_main.rs:67-88 | an attempt succeeds iff the check does and 121 seconds are left after it or the refresh or the login brings a token; the new expiry and the time taken in every case |
| Auth.Authenticator.AuthService | dap-lib/src/auth/auth_service.rs:35-52 | the nested loop runs as the specified service over every script |
| Auth.StopsIffFiveFailInARow | dap-lib/src/auth/auth_service.rs:36-51 | the service ends iff five attempts in a row fail, success, times and expiries said in plain numbers |
| Auth.TokenStaysFresh | dap-lib/src/auth/auth_service.rs:35-52 | with attempts of at most d, 6 d below 20 seconds and lives of two minutes, no held token ever expires while the service goes on |
| Auth.SlowAttemptsLetTokenExpire | dap-lib/src/constants.rs:64-73 | from 6 d = 20 seconds on a run with such attempts lets the token expire |
| Auth.AlwaysFreshIffQuickEnough | dap-lib/src/constants.rs:64-73 | the token is fresh over all runs iff 6 d is below 20 seconds |
| Pipeline.CacheRunsInside | dap-lib/src/doh_client/doh_client_main.rs:172-193 | the cache of any pipeline run goes through a run of the cache |
| Pipeline.ResidentsWereFetched | dap-lib/src/doh_client/doh_client_main.rs:187-193 | whatever the cache holds was fetched from upstream for a query with the same key |
| Pipeline.EveryReplyObeys | dap-lib/src/doh_client/doh_client_main.rs:147-197 | over every run: refused, blocked or overridden queries get exactly that answer; others a fetched object under their id, the upstream response to that very message, or the error of the very step that failed |
| Pipeline.LinesBindEveryReply | dap-lib/src/doh_client/doh_client_main.rs:161-170 | what the configured lines override or block is never answered from the cache or from upstream |
| Pipeline.DiesIffOverriddenWithAnswers | dap-lib/src/doh_client/doh_client_main.rs:161-170 | exactly which packets kill the handler: queries whose least question is overridden and that carry answers |
| Pipeline.ResidentKeysPass | dap-lib/src/doh_client/doh_client_main.rs:161-193 | the rules let the first question of every resident key pass |
| Pipeline.CachedRepliesAreEarlierResponses | dap-lib/src/doh_client/doh_client_main.rs:173-180 | a cached reply is an earlier upstream response to the same questions, under the query's id, every record with what is left of the least answer TTL |
| Pipeline.PutsAreAlwaysQueries | dap-lib/src/doh_client/doh_client_main.rs:190-193 | every put in flight belongs to a query in flight, also under time-outs |
| Pipeline.CacheStaysNearMaximum | dap-lib/src/proxy/proxy_tcp.rs:65-71 | with at most n queries in flight the cache holds at most maximum + n - 1 entries |
| DohClient.DoHClient.MakeDohQuery | dap-lib/src/doh_client/doh_client_main.rs:147-197 | the handler's answer and the new cache entries for every packet, clock and upstream |
| DohClient.ErrorNamesFailure | dap-lib/src/doh_client/doh_client_main.rs:147-219 | which failure each error names, and that a passing query without a hit gets the response or one of three errors |
| DohClient.CacheAnswersIffHit | dap-lib/src/doh_client/doh_client_main.rs:172-180 | a passing query is answered from the cache iff the cache holds an unexpired entry for its key that can be encoded |
| DohClient.SecondQueryIsServed | dap-lib/src/doh_client/doh_client_main.rs:172-193 | after a kept response from upstream, a query with the same questions gets it from the cache until the least TTL has passed, under its own id and with what is left |
| DohClient.UndisturbedQueryIsRun | dap-lib/src/doh_client/doh_client_main.rs:147-197 | from any state, a run of the pipeline does what the handler does and changes nothing else |
| SeveralQuestions.LeastQuestionDecides | dap-lib/src/doh_client/doh_client_main.rs:161-170 | messages with the same least question fare alike under the rules |
| SeveralQuestions.PassesIffLeastQuestionPasses | dap-lib/src/doh_client/doh_client_main.rs:161-170 | a message passes the configured lines exactly if its least question does |
| SeveralQuestions.BlockedNamePassesBehindLesserOne | dap-lib/src/doh_client/doh_client_main.rs:162 | for any rules two questions pass together exactly if the lesser one passes alone |
| SeveralQuestions.BlockedNameExample | dap-lib/src/doh_client/doh_client_main.rs:162 | one blocked name that is refused alone and passes behind a lesser one |
| WholeProxy.ClientRunsPipeline | dap-lib/src/lib.rs:83-112 | with any number of listeners, and the address service beside them, the client goes through a run of the pipeline |
| WholeProxy.ListenersRunCounters | dap-lib/src/proxy/proxy_main.rs:17-24 | each listener goes through a run of its own counters |
| WholeProxy.QueriesAreOwned | dap-lib/src/proxy/proxy_udp.rs:126-145 | every query in flight runs for a task that is being served or for a configured endpoint, no two for the same, also under time-outs and panics |
| WholeProxy.QueriesWithinEndpoints | dap-lib/src/trait_resolve_ips.rs:21-23 | the address service has at most one query in flight per endpoint |
| WholeProxy.QueriesInFlight | dap-lib/src/http_client/http_client_service.rs:48-58 | no more queries are in flight than twice the maximum of connections per listener, and one per endpoint |
| WholeProxy.CacheBoundByConfiguration | dap-lib/src/doh_client/cache.rs:105-112 | over every run the cache holds at most its maximum plus twice the maximum of connections per listener plus the endpoints, less one, entries |
| FullLoad.CacheBoundIsReached | dap-lib/src/doh_client/cache.rs:105-112 | without rules, for all such values some run with every listener full reaches that number of entries |

## Left out

- Sockets, HTTP, TLS, bootstrap resolution, oblivious encryption and DNS wire encoding: packets are given as decoded
  messages or as undecodable, and whether a message can be encoded is an input.
- Message fields beyond id, type, response code, questions and the three record sections; EDNS and flags are not part of
  this model.
- A panic ends its own task. The release profile (Cargo.toml:7-13) lets it end the process instead; then the run ends there.
- The permutation order and the double-array layout of the libraries: the generator is written out in the library's
  lexicographic order, the trees as plain character trees. Empty rule lines, which the tree library refuses, are dropped
  by the file reader (dap-bin/src/config/plugins.rs:44-53) and are ordinary short rules here.
- Paths.DoHPath.AsUrl: for standard DoH the bare authority goes through a URL parser given as an input, so nothing is
  claimed about its success. URL queries are decoded pairs; percent-encoding is not part of this model.
- CacheObject.ServingNeverLengthens: states the TTL bound for answers only, because the code overwrites the TTLs of
  authority and additional records with the answers' remaining TTL.
- PathSelect.ChosenIsHealthy: each flag is read once per choice; a flag that changes while the list is filtered is seen in
  either state. Draws are random words reduced to the range.
- WholeProxy.QueriesAreOwned: a task of the model may run several queries one after the other and leave with or without
  success or by a panic whatever came of them, and the address service may ask and stop at any time, so the runs of the
  proxy are among those of the model. What the service makes of its answers is not part of this model. Health probes
  bypass the cache.
- Counter.CountersAccountForTasks: the total counter is not covered under interleaving, since it is recomputed by racing
  loads and stores and decides nothing. Each atomic access is one step, and a task dies only while its query is
  answered.
- Auth.TokenStaysFresh: the remaining seconds are taken as the exact time left rounded down, and the time of writing the
  token is the time its response arrives.
- Manipulators.Execute: the minimum TTL, an argument of the earlier function, is read from the rule.
- RequestKey.TryFrom: the library sort is an insertion sort; a sorted permutation is unique here. Names are ASCII strings.
- Address texts in override rules: the parser, with the two address patterns in front of it, is an input.
- Reading configuration, hot reload, logging, the health probes and the refetch of oblivious configurations.
