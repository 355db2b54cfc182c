// All loop-free paths of a configuration: which there are, how many, and how long.
module PathManager {
  import opened Wrappers
  import opened Seqs
  import opened Paths
  import opened Permutations
  import PathUrl

  datatype UrlConfig = UrlConfig(scheme: string, authority: string, path: string)

  datatype NextHopRelayConfig = NextHopRelayConfig(odohRelayUrls: seq<UrlConfig>, odohRelayRandomization: bool)

  datatype SubseqRelayConfig = SubseqRelayConfig(midRelayUrls: seq<UrlConfig>, maxMidRelays: nat)

  datatype ProxyConfig = ProxyConfig(
    dohTargetUrls: seq<UrlConfig>,
    targetRandomization: bool,
    nexthopRelayConfig: Option<NextHopRelayConfig>,
    subseqRelayConfig: Option<SubseqRelayConfig>
  )

  function TargetOf(url: UrlConfig): DoHTarget {
    DoHTarget(url.authority, url.path, SchemeOf(url.scheme))
  }

  function RelayOf(url: UrlConfig, canBeNextHop: bool): DoHRelay {
    DoHRelay(url.authority, url.path, SchemeOf(url.scheme), canBeNextHop)
  }

  function RelaysOf(urls: seq<UrlConfig>, canBeNextHop: bool): seq<DoHRelay> {
    seq(|urls|, i requires 0 <= i < |urls| => RelayOf(urls[i], canBeNextHop))
  }

  function Max(a: nat, b: nat): nat {
    if a > b then a else b
  }

  /** The mid relays at the given positions. */
  function Pick(mids: seq<DoHRelay>, positions: seq<nat>): seq<DoHRelay>
    requires forall i :: 0 <= i < |positions| ==> positions[i] < |mids|
  {
    seq(|positions|, i requires 0 <= i < |positions| => mids[positions[i]])
  }

  /** The relay lists that can follow the next hop, one per arrangement. */
  ghost function AfterNextHop(mids: seq<DoHRelay>, arrangements: seq<seq<nat>>): seq<seq<DoHRelay>>
    requires forall i :: 0 <= i < |arrangements| ==> DistinctPositions(|mids|, arrangements[i])
  {
    seq(|arrangements|, i requires 0 <= i < |arrangements| && DistinctPositions(|mids|, arrangements[i]) =>
      Pick(mids, arrangements[i]))
  }

  /** Every arrangement the enumeration goes through: its bound is the larger of the configured one and the number of
      mid relays, so the configured one never shortens it. */
  function ArrangementsFor(mids: nat, maxMidRelays: nat): seq<seq<nat>> {
    ArrangementsBelow(mids, Max(maxMidRelays, mids) + 1)
  }

  /** They are all lists of distinct positions, each once. */
  lemma ArrangementsForExact(mids: nat, maxMidRelays: nat)
    ensures Distinct(ArrangementsFor(mids, maxMidRelays))
    ensures forall p :: p in ArrangementsFor(mids, maxMidRelays) <==> DistinctPositions(mids, p)
    ensures forall i :: 0 <= i < |ArrangementsFor(mids, maxMidRelays)| ==>
              DistinctPositions(mids, ArrangementsFor(mids, maxMidRelays)[i])
    ensures |ArrangementsFor(mids, maxMidRelays)| == CountBelow(mids, mids + 1)
  {
    var bound := Max(maxMidRelays, mids) + 1;
    ArrangementsBelowDistinct(mids, bound);
    CountArrangementsBelow(mids, bound);
    CountBeyond(mids, bound);
    forall p ensures p in ArrangementsFor(mids, maxMidRelays) <==> DistinctPositions(mids, p) {
      ArrangementsBelowMember(mids, bound, p);
      if DistinctPositions(mids, p) { DistinctPositionsFit(mids, p); }
    }
    forall i | 0 <= i < |ArrangementsFor(mids, maxMidRelays)|
      ensures DistinctPositions(mids, ArrangementsFor(mids, maxMidRelays)[i])
    {
      assert ArrangementsFor(mids, maxMidRelays)[i] in ArrangementsFor(mids, maxMidRelays);
    }
  }

  ghost function SubseqRelayPaths(config: Option<SubseqRelayConfig>): Option<seq<seq<DoHRelay>>> {
    match config
    case None => None
    case Some(c) =>
      ArrangementsForExact(|c.midRelayUrls|, c.maxMidRelays);
      Some(AfterNextHop(RelaysOf(c.midRelayUrls, false), ArrangementsFor(|c.midRelayUrls|, c.maxMidRelays)))
  }

  ghost function RelayPaths(nexthop: DoHRelay, subseq: Option<seq<seq<DoHRelay>>>): seq<seq<DoHRelay>> {
    match subseq
    case None => [[nexthop]]
    case Some(paths) => seq(|paths|, i requires 0 <= i < |paths| => [nexthop] + paths[i])
  }

  ghost function Routes(target: DoHTarget, relayPaths: seq<seq<DoHRelay>>): seq<Route> {
    seq(|relayPaths|, i requires 0 <= i < |relayPaths| => Route(target, relayPaths[i], Oblivious))
  }

  ghost const LOOP_FREE: Route -> bool := r => LoopFree(r)

  /** The loop-free paths over one next hop to one target. */
  ghost function Level(target: DoHTarget, nexthop: DoHRelay, subseq: Option<seq<seq<DoHRelay>>>): seq<Route> {
    Filter(LOOP_FREE, Routes(target, RelayPaths(nexthop, subseq)))
  }

  ghost function LevelsOf(target: DoHTarget, nexthops: seq<DoHRelay>, subseq: Option<seq<seq<DoHRelay>>>): seq<seq<Route>> {
    seq(|nexthops|, i requires 0 <= i < |nexthops| => Level(target, nexthops[i], subseq))
  }

  ghost function PerTarget(urls: seq<UrlConfig>, nexthops: seq<DoHRelay>, subseq: Option<seq<seq<DoHRelay>>>)
    : seq<seq<seq<Route>>>
  {
    seq(|urls|, i requires 0 <= i < |urls| => DropEmpty(LevelsOf(TargetOf(urls[i]), nexthops, subseq)))
  }

  ghost function StandardPaths(urls: seq<UrlConfig>): seq<seq<seq<Route>>> {
    seq(|urls|, i requires 0 <= i < |urls| => [[Route(TargetOf(urls[i]), [], Standard)]])
  }

  /** The three-dimensional list: per target, per next hop, paths. */
  ghost function PathsOf(config: ProxyConfig): seq<seq<seq<Route>>> {
    match config.nexthopRelayConfig
    case None => StandardPaths(config.dohTargetUrls)
    case Some(c) =>
      DropEmpty(PerTarget(config.dohTargetUrls, RelaysOf(c.odohRelayUrls, true), SubseqRelayPaths(config.subseqRelayConfig)))
  }

  // ---------- What a level holds ----------

  /** The positions whose relays, after the next hop, stay loop-free. */
  ghost predicate KeepsLoopFree(target: DoHTarget, nexthop: DoHRelay, mids: seq<DoHRelay>, p: seq<nat>) {
    DistinctPositions(|mids|, p) && LoopFree(Route(target, [nexthop] + Pick(mids, p), Oblivious))
  }

  /** A level is the next hop followed by every arrangement of distinct mid relays, of every length, whose authorities
      are pairwise distinct and differ from those of next hop and target: `kept` lists each such arrangement once. */
  lemma LevelExact(target: DoHTarget, nexthop: DoHRelay, config: SubseqRelayConfig) returns (kept: seq<seq<nat>>)
    ensures Distinct(kept)
    ensures var mids := RelaysOf(config.midRelayUrls, false);
            && (forall p :: p in kept <==> KeepsLoopFree(target, nexthop, mids, p))
            && var level := Level(target, nexthop, SubseqRelayPaths(Some(config)));
               && |level| == |kept|
               && forall i :: 0 <= i < |kept| ==>
                    kept[i] in kept && level[i] == Route(target, [nexthop] + Pick(mids, kept[i]), Oblivious)
  {
    var mids := RelaysOf(config.midRelayUrls, false);
    var arrs := ArrangementsFor(|mids|, config.maxMidRelays);
    ArrangementsForExact(|mids|, config.maxMidRelays);
    var all := Routes(target, RelayPaths(nexthop, SubseqRelayPaths(Some(config))));
    assert forall j :: 0 <= j < |arrs| ==> all[j] == Route(target, [nexthop] + Pick(mids, arrs[j]), Oblivious);
    kept := FilterPartners(LOOP_FREE, arrs, all);
    forall p | p in kept ensures KeepsLoopFree(target, nexthop, mids, p) {
      var i :| 0 <= i < |kept| && kept[i] == p;
      var j :| 0 <= j < |all| && LOOP_FREE(all[j]) && kept[i] == arrs[j];
    }
    forall p | KeepsLoopFree(target, nexthop, mids, p) ensures p in kept {
      var j :| 0 <= j < |arrs| && arrs[j] == p;
      assert LOOP_FREE(all[j]);
    }
  }

  /** Without mid relays a level is the next hop alone, unless it is the target itself. */
  lemma LevelWithoutMids(target: DoHTarget, nexthop: DoHRelay)
    ensures Level(target, nexthop, None) ==
            if target.authority == nexthop.authority then [] else [Route(target, [nexthop], Oblivious)]
  {
    var all := Routes(target, [[nexthop]]);
    var names := [target.authority] + Authorities([nexthop]);
    assert all[1..] == [];
    assert all[0] == Route(target, [nexthop], Oblivious);
    assert names == [target.authority, nexthop.authority];
    assert Filter(LOOP_FREE, all) == (if LOOP_FREE(all[0]) then [all[0]] else []) + Filter(LOOP_FREE, all[1..]);
    assert LoopFree(all[0]) <==> names[0] != names[1];
  }

  // ---------- The whole list ----------

  ghost predicate NoEmptyLevels<T>(paths: seq<seq<seq<T>>>) {
    && (forall i :: 0 <= i < |paths| ==> paths[i] != [])
    && (forall i, j :: 0 <= i < |paths| && 0 <= j < |paths[i]| ==> paths[i][j] != [])
  }

  /** No level is empty, so indexing the first path of the first next hop of a target is always safe. */
  lemma PathsHaveNoEmptyLevels(config: ProxyConfig)
    ensures NoEmptyLevels(PathsOf(config))
  {
    match config.nexthopRelayConfig
    case None =>
    case Some(c) =>
      PrunedHasNoEmptyLevels(config.dohTargetUrls, RelaysOf(c.odohRelayUrls, true),
                             SubseqRelayPaths(config.subseqRelayConfig));
  }

  lemma PrunedHasNoEmptyLevels(urls: seq<UrlConfig>, nexthops: seq<DoHRelay>, subseq: Option<seq<seq<DoHRelay>>>)
    ensures NoEmptyLevels(DropEmpty(PerTarget(urls, nexthops, subseq)))
  {
    var per := PerTarget(urls, nexthops, subseq);
    var paths := DropEmpty(per);
    DropEmptyMembers(per);
    forall i | 0 <= i < |paths| ensures paths[i] != [] && [] !in paths[i] {
      assert paths[i] in paths;
      var t :| 0 <= t < |per| && per[t] == paths[i];
      DropEmptyMembers(LevelsOf(TargetOf(urls[t]), nexthops, subseq));
    }
  }

  /** The unpruned list. */
  ghost function AllLevels(urls: seq<UrlConfig>, nexthops: seq<DoHRelay>, subseq: Option<seq<seq<DoHRelay>>>)
    : seq<seq<Route>>
  {
    if urls == [] then [] else LevelsOf(TargetOf(urls[0]), nexthops, subseq) + AllLevels(urls[1..], nexthops, subseq)
  }

  /** Pruning only drops empty levels: read in order, the paths are those of all levels of all targets. */
  lemma PruningKeepsPaths(config: ProxyConfig)
    requires config.nexthopRelayConfig.Some?
    ensures Flatten(Flatten(PathsOf(config))) ==
            Flatten(AllLevels(config.dohTargetUrls, RelaysOf(config.nexthopRelayConfig.value.odohRelayUrls, true),
                              SubseqRelayPaths(config.subseqRelayConfig)))
  {
    var nexthops := RelaysOf(config.nexthopRelayConfig.value.odohRelayUrls, true);
    var subseq := SubseqRelayPaths(config.subseqRelayConfig);
    FlattenDropEmpty(PerTarget(config.dohTargetUrls, nexthops, subseq));
    FlattenPerTarget(config.dohTargetUrls, nexthops, subseq);
  }

  lemma {:induction false} FlattenPerTarget(urls: seq<UrlConfig>, nexthops: seq<DoHRelay>,
                                            subseq: Option<seq<seq<DoHRelay>>>)
    ensures Flatten(Flatten(PerTarget(urls, nexthops, subseq))) == Flatten(AllLevels(urls, nexthops, subseq))
  {
    if urls != [] {
      var per := PerTarget(urls, nexthops, subseq);
      var levels := LevelsOf(TargetOf(urls[0]), nexthops, subseq);
      assert per[1..] == PerTarget(urls[1..], nexthops, subseq);
      FlattenPerTarget(urls[1..], nexthops, subseq);
      FlattenConcat(per[0], Flatten(per[1..]));
      FlattenConcat(levels, AllLevels(urls[1..], nexthops, subseq));
      FlattenDropEmpty(levels);
    }
  }

  // ---------- How many paths ----------

  ghost predicate DisjointAuthorities(config: ProxyConfig, nexthops: seq<UrlConfig>, mids: seq<UrlConfig>) {
    && (forall i, j :: 0 <= i < j < |mids| ==> mids[i].authority != mids[j].authority)
    && (forall i, j :: 0 <= i < |mids| && 0 <= j < |nexthops| ==> mids[i].authority != nexthops[j].authority)
    && (forall i, j :: 0 <= i < |mids| && 0 <= j < |config.dohTargetUrls| ==>
          mids[i].authority != config.dohTargetUrls[j].authority)
    && (forall i, j :: 0 <= i < |nexthops| && 0 <= j < |config.dohTargetUrls| ==>
          nexthops[i].authority != config.dohTargetUrls[j].authority)
  }

  /** With pairwise different authorities no arrangement loops. */
  lemma DisjointIsLoopFree(target: DoHTarget, nexthop: DoHRelay, mids: seq<DoHRelay>, p: seq<nat>)
    requires DistinctPositions(|mids|, p)
    requires target.authority != nexthop.authority
    requires forall i, j :: 0 <= i < j < |mids| ==> mids[i].authority != mids[j].authority
    requires forall i :: 0 <= i < |mids| ==> mids[i].authority != nexthop.authority && mids[i].authority != target.authority
    ensures LoopFree(Route(target, [nexthop] + Pick(mids, p), Oblivious))
  {
    var names := [target.authority] + Authorities([nexthop] + Pick(mids, p));
    assert |names| == |p| + 2 && names[0] == target.authority && names[1] == nexthop.authority;
    forall i | 0 <= i < |p| ensures names[i + 2] == mids[p[i]].authority {
    }
    forall i, j | 0 <= i < j < |names| ensures names[i] != names[j] {
      if j >= 2 {
        assert names[(j - 2) + 2] == mids[p[j - 2]].authority;
        if i >= 2 {
          assert names[(i - 2) + 2] == mids[p[i - 2]].authority;
          assert p[i - 2] != p[j - 2];
        }
      }
    }
  }

  lemma LevelSize(target: DoHTarget, nexthop: DoHRelay, config: SubseqRelayConfig)
    requires target.authority != nexthop.authority
    requires forall i, j :: 0 <= i < j < |config.midRelayUrls| ==>
               config.midRelayUrls[i].authority != config.midRelayUrls[j].authority
    requires forall i :: 0 <= i < |config.midRelayUrls| ==>
               config.midRelayUrls[i].authority != nexthop.authority && config.midRelayUrls[i].authority != target.authority
    ensures var n := |config.midRelayUrls|;
            |Level(target, nexthop, SubseqRelayPaths(Some(config)))| == CountBelow(n, n + 1)
  {
    var mids := RelaysOf(config.midRelayUrls, false);
    ArrangementsForExact(|mids|, config.maxMidRelays);
    var arrs := ArrangementsFor(|mids|, config.maxMidRelays);
    var all := Routes(target, RelayPaths(nexthop, SubseqRelayPaths(Some(config))));
    forall r | r in all ensures LOOP_FREE(r) {
      var i :| 0 <= i < |all| && all[i] == r;
      assert arrs[i] in arrs;
      DisjointIsLoopFree(target, nexthop, mids, arrs[i]);
      assert r == Route(target, [nexthop] + Pick(mids, arrs[i]), Oblivious);
    }
    FilterAll(LOOP_FREE, all);
  }

  ghost predicate LevelsHaveSize(urls: seq<UrlConfig>, nexthops: seq<DoHRelay>, subseq: Option<seq<seq<DoHRelay>>>, n: nat) {
    forall i, j :: 0 <= i < |urls| && 0 <= j < |nexthops| ==> |Level(TargetOf(urls[i]), nexthops[j], subseq)| == n
  }

  lemma AllLevelsSize(urls: seq<UrlConfig>, nexthops: seq<DoHRelay>, subseq: Option<seq<seq<DoHRelay>>>, n: nat)
    requires LevelsHaveSize(urls, nexthops, subseq, n)
    ensures forall level :: level in AllLevels(urls, nexthops, subseq) ==> |level| == n
  {
    forall level | level in AllLevels(urls, nexthops, subseq) ensures |level| == n {
      AllLevelsMember(urls, nexthops, subseq, level);
    }
  }

  lemma {:induction false} AllLevelsCount(urls: seq<UrlConfig>, nexthops: seq<DoHRelay>, subseq: Option<seq<seq<DoHRelay>>>)
    ensures |AllLevels(urls, nexthops, subseq)| == |urls| * |nexthops|
  {
    if urls != [] {
      AllLevelsCount(urls[1..], nexthops, subseq);
      OneMore(|urls| - 1, |nexthops|);
    }
  }

  lemma DisjointLevelsHaveSize(config: ProxyConfig, urls: seq<UrlConfig>, mids: SubseqRelayConfig)
    requires DisjointAuthorities(config, urls, mids.midRelayUrls)
    ensures var n := |mids.midRelayUrls|;
            LevelsHaveSize(config.dohTargetUrls, RelaysOf(urls, true), SubseqRelayPaths(Some(mids)), CountBelow(n, n + 1))
  {
    var nexthops := RelaysOf(urls, true);
    var n := |mids.midRelayUrls|;
    forall i, j | 0 <= i < |config.dohTargetUrls| && 0 <= j < |nexthops|
      ensures |Level(TargetOf(config.dohTargetUrls[i]), nexthops[j], SubseqRelayPaths(Some(mids)))| == CountBelow(n, n + 1)
    {
      assert nexthops[j].authority == urls[j].authority;
      LevelSize(TargetOf(config.dohTargetUrls[i]), nexthops[j], mids);
    }
  }

  lemma UniformCount(urls: seq<UrlConfig>, nexthops: seq<DoHRelay>, subseq: Option<seq<seq<DoHRelay>>>, n: nat)
    requires LevelsHaveSize(urls, nexthops, subseq, n)
    ensures |Flatten(AllLevels(urls, nexthops, subseq))| == (|urls| * |nexthops|) * n
  {
    AllLevelsSize(urls, nexthops, subseq, n);
    AllLevelsCount(urls, nexthops, subseq);
    FlattenUniformLength(AllLevels(urls, nexthops, subseq), n);
  }

  lemma NextHopLevelsHaveSize(config: ProxyConfig, urls: seq<UrlConfig>)
    requires DisjointAuthorities(config, urls, [])
    ensures LevelsHaveSize(config.dohTargetUrls, RelaysOf(urls, true), None, 1)
  {
    var nexthops := RelaysOf(urls, true);
    forall i, j | 0 <= i < |config.dohTargetUrls| && 0 <= j < |nexthops|
      ensures |Level(TargetOf(config.dohTargetUrls[i]), nexthops[j], None)| == 1
    {
      assert nexthops[j].authority == urls[j].authority;
      LevelWithoutMids(TargetOf(config.dohTargetUrls[i]), nexthops[j]);
    }
  }

  /** The configured mid relays, if any. */
  function MidUrls(config: ProxyConfig): seq<UrlConfig> {
    match config.subseqRelayConfig
    case None => []
    case Some(c) => c.midRelayUrls
  }

  /** With pairwise different authorities the manager holds exactly |targets| |nexthops| sum over k of n! / (n - k)! paths,
      whatever bound on the number of mid relays is configured; without mid relays, |targets| |nexthops|. */
  lemma PathCount(config: ProxyConfig)
    requires config.nexthopRelayConfig.Some?
    requires DisjointAuthorities(config, config.nexthopRelayConfig.value.odohRelayUrls, MidUrls(config))
    ensures var n := |MidUrls(config)|;
            |Flatten(Flatten(PathsOf(config)))| ==
            (|config.dohTargetUrls| * |config.nexthopRelayConfig.value.odohRelayUrls|) * CountBelow(n, n + 1)
  {
    ConfiguredLevelsHaveSize(config);
    PathCountBySize(config, CountBelow(|MidUrls(config)|, |MidUrls(config)| + 1));
  }

  lemma ConfiguredLevelsHaveSize(config: ProxyConfig)
    requires config.nexthopRelayConfig.Some?
    requires DisjointAuthorities(config, config.nexthopRelayConfig.value.odohRelayUrls, MidUrls(config))
    ensures var n := |MidUrls(config)|;
            LevelsHaveSize(config.dohTargetUrls, RelaysOf(config.nexthopRelayConfig.value.odohRelayUrls, true),
                           SubseqRelayPaths(config.subseqRelayConfig), CountBelow(n, n + 1))
  {
    var urls := config.nexthopRelayConfig.value.odohRelayUrls;
    match config.subseqRelayConfig
    case None =>
      NextHopLevelsHaveSize(config, urls);
      assert CountBelow(0, 1) == 1;
    case Some(c) => DisjointLevelsHaveSize(config, urls, c);
  }

  lemma PathCountBySize(config: ProxyConfig, n: nat)
    requires config.nexthopRelayConfig.Some?
    requires LevelsHaveSize(config.dohTargetUrls, RelaysOf(config.nexthopRelayConfig.value.odohRelayUrls, true),
                            SubseqRelayPaths(config.subseqRelayConfig), n)
    ensures |Flatten(Flatten(PathsOf(config)))| ==
            (|config.dohTargetUrls| * |config.nexthopRelayConfig.value.odohRelayUrls|) * n
  {
    var nexthops := RelaysOf(config.nexthopRelayConfig.value.odohRelayUrls, true);
    PruningKeepsPaths(config);
    assert |nexthops| == |config.nexthopRelayConfig.value.odohRelayUrls|;
    UniformCount(config.dohTargetUrls, nexthops, SubseqRelayPaths(config.subseqRelayConfig), n);
  }

  // ---------- How long paths get ----------

  /** The bound on the number of mid relays is kept by the enumeration exactly if there are no more mid relays than that. */
  lemma MaxMidRelaysHonouredIff(mids: nat, m: nat)
    ensures (forall p :: p in ArrangementsFor(mids, m) ==> |p| <= m) <==> mids <= m
  {
    ArrangementsForExact(mids, m);
    if mids <= m {
      forall p | p in ArrangementsFor(mids, m) ensures |p| <= m { DistinctPositionsFit(mids, p); }
    } else {
      assert DistinctPositions(mids, Range(mids));
      assert Range(mids) in ArrangementsFor(mids, m);
    }
  }

  /** The mid authorities a path over this next hop to this target can visit. */
  function Usable(target: DoHTarget, nexthop: DoHRelay, mids: seq<DoHRelay>): set<string> {
    if mids == [] then {}
    else
      var n := |mids| - 1;
      var a := mids[n].authority;
      Usable(target, nexthop, mids[..n]) + if a == target.authority || a == nexthop.authority then {} else {a}
  }

  lemma {:induction false} UsableMember(target: DoHTarget, nexthop: DoHRelay, mids: seq<DoHRelay>, i: nat)
    requires i < |mids| && mids[i].authority != target.authority && mids[i].authority != nexthop.authority
    ensures mids[i].authority in Usable(target, nexthop, mids)
  {
    if i < |mids| - 1 { UsableMember(target, nexthop, mids[..|mids| - 1], i); }
  }

  /** The mid relays differ from one another and from both ends. */
  ghost predicate Apart(target: DoHTarget, nexthop: DoHRelay, ms: seq<DoHRelay>) {
    && Distinct(Authorities(ms))
    && forall a :: a in Authorities(ms) ==> a != target.authority && a != nexthop.authority
  }

  lemma LoopFreeIsApart(target: DoHTarget, nexthop: DoHRelay, ms: seq<DoHRelay>)
    requires LoopFree(Route(target, [nexthop] + ms, Oblivious))
    ensures target.authority != nexthop.authority && Apart(target, nexthop, ms)
  {
    var names, later := [target.authority] + Authorities([nexthop] + ms), Authorities(ms);
    assert names == [target.authority, nexthop.authority] + later;
    assert names[0] != names[1];
    forall i, j | 0 <= i < j < |later| ensures later[i] != later[j] { assert names[i + 2] != names[j + 2]; }
    forall a | a in later ensures a != target.authority && a != nexthop.authority {
      var i :| 0 <= i < |later| && later[i] == a;
      assert names[0] != names[i + 2] && names[1] != names[i + 2];
    }
  }

  lemma ApartIsLoopFree(target: DoHTarget, nexthop: DoHRelay, ms: seq<DoHRelay>)
    requires target.authority != nexthop.authority && Apart(target, nexthop, ms)
    ensures LoopFree(Route(target, [nexthop] + ms, Oblivious))
  {
    var names, later := [target.authority] + Authorities([nexthop] + ms), Authorities(ms);
    assert names == [target.authority, nexthop.authority] + later;
    forall i, j | 0 <= i < j < |names| ensures names[i] != names[j] {
      if j >= 2 {
        assert names[j] == later[j - 2] && later[j - 2] in later;
        if i >= 2 { assert later[i - 2] != later[j - 2]; }
      }
    }
  }

  lemma {:induction false} DistinctFitsSet(s: seq<string>, all: set<string>)
    requires Distinct(s) && forall x :: x in s ==> x in all
    ensures |s| <= |all|
  {
    if s != [] {
      var n := |s| - 1;
      assert s == s[..n] + [s[n]] && s[n] in s;
      DistinctFitsSet(s[..n], all - {s[n]});
    }
  }

  /** No loop-free path visits more mid relays than there are usable authorities. */
  lemma UsableBoundsLength(target: DoHTarget, nexthop: DoHRelay, mids: seq<DoHRelay>, p: seq<nat>)
    requires KeepsLoopFree(target, nexthop, mids, p)
    ensures |p| <= |Usable(target, nexthop, mids)|
  {
    var ms := Pick(mids, p);
    LoopFreeIsApart(target, nexthop, ms);
    forall a | a in Authorities(ms) ensures a in Usable(target, nexthop, mids) {
      var i :| 0 <= i < |ms| && Authorities(ms)[i] == a;
      assert ms[i] == mids[p[i]];
      UsableMember(target, nexthop, mids, p[i]);
    }
    DistinctFitsSet(Authorities(ms), Usable(target, nexthop, mids));
  }

  /** One position per usable authority. */
  function OnePerUsable(target: DoHTarget, nexthop: DoHRelay, mids: seq<DoHRelay>): seq<nat> {
    if mids == [] then []
    else
      var n := |mids| - 1;
      var a := mids[n].authority;
      OnePerUsable(target, nexthop, mids[..n]) +
      if a == target.authority || a == nexthop.authority || a in Usable(target, nexthop, mids[..n]) then [] else [n]
  }

  lemma {:induction false} OnePerUsableCovers(target: DoHTarget, nexthop: DoHRelay, mids: seq<DoHRelay>)
    ensures var p := OnePerUsable(target, nexthop, mids);
            && |p| == |Usable(target, nexthop, mids)|
            && (forall i :: 0 <= i < |p| ==> p[i] < |mids| && mids[p[i]].authority in Usable(target, nexthop, mids))
  {
    if mids != [] {
      OnePerUsableCovers(target, nexthop, mids[..|mids| - 1]);
    }
  }

  lemma {:induction false} OnePerUsableFacts(target: DoHTarget, nexthop: DoHRelay, mids: seq<DoHRelay>)
    ensures var p := OnePerUsable(target, nexthop, mids);
            && |p| == |Usable(target, nexthop, mids)|
            && (forall i :: 0 <= i < |p| ==> p[i] < |mids| && mids[p[i]].authority in Usable(target, nexthop, mids))
            && (forall i, j :: 0 <= i < j < |p| ==> mids[p[i]].authority != mids[p[j]].authority)
  {
    OnePerUsableCovers(target, nexthop, mids);
    if mids != [] {
      var before := mids[..|mids| - 1];
      OnePerUsableFacts(target, nexthop, before);
      var p := OnePerUsable(target, nexthop, before);
      assert forall i :: 0 <= i < |p| ==> mids[p[i]].authority == before[p[i]].authority;
    }
  }

  lemma {:induction false} UsableDiffers(target: DoHTarget, nexthop: DoHRelay, mids: seq<DoHRelay>)
    ensures target.authority !in Usable(target, nexthop, mids) && nexthop.authority !in Usable(target, nexthop, mids)
  {
    if mids != [] { UsableDiffers(target, nexthop, mids[..|mids| - 1]); }
  }

  /** And some loop-free path visits that many. */
  lemma UsableIsReached(target: DoHTarget, nexthop: DoHRelay, mids: seq<DoHRelay>)
    requires target.authority != nexthop.authority
    ensures KeepsLoopFree(target, nexthop, mids, OnePerUsable(target, nexthop, mids))
    ensures |OnePerUsable(target, nexthop, mids)| == |Usable(target, nexthop, mids)|
  {
    var p := OnePerUsable(target, nexthop, mids);
    OnePerUsableFacts(target, nexthop, mids);
    UsableDiffers(target, nexthop, mids);
    var ms := Pick(mids, p);
    assert forall i :: 0 <= i < |p| ==> Authorities(ms)[i] == mids[p[i]].authority;
    ApartIsLoopFree(target, nexthop, ms);
  }

  /** No path of the list visits more than `m` mid relays. */
  ghost predicate VisitAtMost(paths: seq<Route>, m: nat) {
    forall r :: r in paths ==> |r.relays| <= m + 1
  }

  /** A level keeps the bound iff it is empty or no more than `m` mid authorities are usable in it. */
  lemma LevelVisitsAtMostIff(target: DoHTarget, nexthop: DoHRelay, config: SubseqRelayConfig, m: nat)
    ensures VisitAtMost(Level(target, nexthop, SubseqRelayPaths(Some(config))), m) <==>
            target.authority == nexthop.authority
            || |Usable(target, nexthop, RelaysOf(config.midRelayUrls, false))| <= m
  {
    var mids := RelaysOf(config.midRelayUrls, false);
    var level := Level(target, nexthop, SubseqRelayPaths(Some(config)));
    var kept := LevelExact(target, nexthop, config);
    if target.authority == nexthop.authority || |Usable(target, nexthop, mids)| <= m {
      forall r | r in level ensures |r.relays| <= m + 1 {
        var i :| 0 <= i < |level| && level[i] == r;
        LoopFreeIsApart(target, nexthop, Pick(mids, kept[i]));
        UsableBoundsLength(target, nexthop, mids, kept[i]);
      }
    } else {
      UsableIsReached(target, nexthop, mids);
      var i :| 0 <= i < |kept| && kept[i] == OnePerUsable(target, nexthop, mids);
      assert level[i] in level;
    }
  }

  lemma {:induction false} LevelInAllLevels(urls: seq<UrlConfig>, nexthops: seq<DoHRelay>,
                                            subseq: Option<seq<seq<DoHRelay>>>, i: nat, j: nat)
    requires i < |urls| && j < |nexthops|
    ensures Level(TargetOf(urls[i]), nexthops[j], subseq) in AllLevels(urls, nexthops, subseq)
  {
    if i == 0 {
      assert LevelsOf(TargetOf(urls[0]), nexthops, subseq)[j] in LevelsOf(TargetOf(urls[0]), nexthops, subseq);
    } else {
      LevelInAllLevels(urls[1..], nexthops, subseq, i - 1, j);
    }
  }

  /** The managed paths are those of the levels. */
  lemma PathsKeepBoundIffLevelsDo(config: ProxyConfig, m: nat)
    requires config.nexthopRelayConfig.Some?
    ensures var urls, nexthops := config.dohTargetUrls, RelaysOf(config.nexthopRelayConfig.value.odohRelayUrls, true);
            var subseq := SubseqRelayPaths(config.subseqRelayConfig);
            VisitAtMost(Flatten(Flatten(PathsOf(config))), m) <==>
            forall i, j :: 0 <= i < |urls| && 0 <= j < |nexthops| ==>
              VisitAtMost(Level(TargetOf(urls[i]), nexthops[j], subseq), m)
  {
    var urls, nexthops := config.dohTargetUrls, RelaysOf(config.nexthopRelayConfig.value.odohRelayUrls, true);
    var subseq := SubseqRelayPaths(config.subseqRelayConfig);
    var all := AllLevels(urls, nexthops, subseq);
    PruningKeepsPaths(config);
    if VisitAtMost(Flatten(all), m) {
      forall i, j | 0 <= i < |urls| && 0 <= j < |nexthops|
        ensures VisitAtMost(Level(TargetOf(urls[i]), nexthops[j], subseq), m)
      {
        LevelInAllLevels(urls, nexthops, subseq, i, j);
        forall r | r in Level(TargetOf(urls[i]), nexthops[j], subseq) ensures r in Flatten(all) { FlattenMember(all, r); }
      }
    }
    if forall i, j :: 0 <= i < |urls| && 0 <= j < |nexthops| ==>
         VisitAtMost(Level(TargetOf(urls[i]), nexthops[j], subseq), m) {
      forall r: Route | r in Flatten(all) ensures |r.relays| <= m + 1 {
        FlattenMember(all, r);
        var level :| level in all && r in level;
        AllLevelsMember(urls, nexthops, subseq, level);
      }
    }
  }

  /** No configured pair of target and next hop leaves more mid authorities usable than the configured bound. */
  ghost predicate FewUsable(config: ProxyConfig, nexthops: seq<DoHRelay>, c: SubseqRelayConfig) {
    forall i, j :: 0 <= i < |config.dohTargetUrls| && 0 <= j < |nexthops| ==>
      var target := TargetOf(config.dohTargetUrls[i]);
      target.authority == nexthops[j].authority
      || |Usable(target, nexthops[j], RelaysOf(c.midRelayUrls, false))| <= c.maxMidRelays
  }

  /** Exactly when the configured bound is kept, for every configuration: no pair of target and next hop that differ leaves
      more mid authorities usable. */
  lemma BoundKeptIffFewUsable(config: ProxyConfig)
    requires config.nexthopRelayConfig.Some? && config.subseqRelayConfig.Some?
    ensures VisitAtMost(Flatten(Flatten(PathsOf(config))), config.subseqRelayConfig.value.maxMidRelays) <==>
            FewUsable(config, RelaysOf(config.nexthopRelayConfig.value.odohRelayUrls, true), config.subseqRelayConfig.value)
  {
    var c := config.subseqRelayConfig.value;
    var urls, nexthops := config.dohTargetUrls, RelaysOf(config.nexthopRelayConfig.value.odohRelayUrls, true);
    PathsKeepBoundIffLevelsDo(config, c.maxMidRelays);
    forall i, j | 0 <= i < |urls| && 0 <= j < |nexthops|
      ensures VisitAtMost(Level(TargetOf(urls[i]), nexthops[j], SubseqRelayPaths(Some(c))), c.maxMidRelays) <==>
              TargetOf(urls[i]).authority == nexthops[j].authority
              || |Usable(TargetOf(urls[i]), nexthops[j], RelaysOf(c.midRelayUrls, false))| <= c.maxMidRelays
    {
      LevelVisitsAtMostIff(TargetOf(urls[i]), nexthops[j], c, c.maxMidRelays);
    }
  }

  lemma {:induction false} UsableOrigin(target: DoHTarget, nexthop: DoHRelay, mids: seq<DoHRelay>, a: string)
    returns (i: nat)
    requires a in Usable(target, nexthop, mids)
    ensures i < |mids| && mids[i].authority == a
  {
    var n := |mids| - 1;
    if mids[n].authority == a { i := n; } else { i := UsableOrigin(target, nexthop, mids[..n], a); }
  }

  lemma {:induction false} AllUsable(target: DoHTarget, nexthop: DoHRelay, mids: seq<DoHRelay>)
    requires forall i, j :: 0 <= i < j < |mids| ==> mids[i].authority != mids[j].authority
    requires forall i :: 0 <= i < |mids| ==> mids[i].authority != nexthop.authority && mids[i].authority != target.authority
    ensures |Usable(target, nexthop, mids)| == |mids|
  {
    if mids != [] {
      var n := |mids| - 1;
      AllUsable(target, nexthop, mids[..n]);
      if mids[n].authority in Usable(target, nexthop, mids[..n]) {
        var i := UsableOrigin(target, nexthop, mids[..n], mids[n].authority);
      }
    }
  }

  /** With pairwise different authorities, and a target and a next hop to go by, the bound is kept exactly if there are no
      more mid relays than it says. */
  lemma BoundKeptIffFewMids(config: ProxyConfig)
    requires config.nexthopRelayConfig.Some? && config.subseqRelayConfig.Some?
    requires DisjointAuthorities(config, config.nexthopRelayConfig.value.odohRelayUrls, MidUrls(config))
    requires config.dohTargetUrls != [] && config.nexthopRelayConfig.value.odohRelayUrls != []
    ensures VisitAtMost(Flatten(Flatten(PathsOf(config))), config.subseqRelayConfig.value.maxMidRelays) <==>
            |MidUrls(config)| <= config.subseqRelayConfig.value.maxMidRelays
  {
    var c := config.subseqRelayConfig.value;
    var relayUrls := config.nexthopRelayConfig.value.odohRelayUrls;
    var urls, nexthops, mids := config.dohTargetUrls, RelaysOf(relayUrls, true), RelaysOf(c.midRelayUrls, false);
    BoundKeptIffFewUsable(config);
    forall i, j | 0 <= i < |urls| && 0 <= j < |nexthops|
      ensures TargetOf(urls[i]).authority != nexthops[j].authority
      ensures |Usable(TargetOf(urls[i]), nexthops[j], mids)| == |c.midRelayUrls|
    {
      assert nexthops[j].authority == relayUrls[j].authority;
      assert forall k :: 0 <= k < |mids| ==> mids[k].authority == c.midRelayUrls[k].authority;
      AllUsable(TargetOf(urls[i]), nexthops[j], mids);
    }
    assert 0 < |urls| && 0 < |nexthops|;
  }

  // ---------- Every path is usable ----------

  lemma {:induction false} AllLevelsMember(urls: seq<UrlConfig>, nexthops: seq<DoHRelay>,
                                           subseq: Option<seq<seq<DoHRelay>>>, level: seq<Route>)
    requires level in AllLevels(urls, nexthops, subseq)
    ensures exists i, j :: 0 <= i < |urls| && 0 <= j < |nexthops| && level == Level(TargetOf(urls[i]), nexthops[j], subseq)
  {
    var first := LevelsOf(TargetOf(urls[0]), nexthops, subseq);
    if level in first {
      var j :| 0 <= j < |first| && first[j] == level;
      assert level == Level(TargetOf(urls[0]), nexthops[j], subseq);
    } else {
      AllLevelsMember(urls[1..], nexthops, subseq, level);
      var i, j :| 0 <= i < |urls[1..]| && 0 <= j < |nexthops| && level == Level(TargetOf(urls[1..][i]), nexthops[j], subseq);
      assert urls[1..][i] == urls[i + 1];
    }
  }

  lemma LevelMember(target: DoHTarget, nexthop: DoHRelay, subseq: Option<seq<seq<DoHRelay>>>, r: Route)
    requires r in Level(target, nexthop, subseq)
    ensures LoopFree(r) && r.dohType == Oblivious && r.target == target
    ensures r.relays != [] && r.relays[0] == nexthop
  {
    var all := Routes(target, RelayPaths(nexthop, subseq));
    var idx := FilterKeeps(LOOP_FREE, all);
    var level := Level(target, nexthop, subseq);
    var k :| 0 <= k < |level| && level[k] == r;
    assert r == all[idx[k]] && LOOP_FREE(r);
  }

  /** Every path the manager holds over relays is loop-free, starts with a configured next hop, and has a URL. */
  lemma ManagedPathsAreUsable(config: ProxyConfig, r: Route, parse: UrlParser)
    requires config.nexthopRelayConfig.Some? && r in Flatten(Flatten(PathsOf(config)))
    requires r.relays != [] ==> PathUrl.ReadsOrigin(parse, r.relays[0])
    ensures LoopFree(r) && r.dohType == Oblivious
    ensures r.relays != [] && r.relays[0] in RelaysOf(config.nexthopRelayConfig.value.odohRelayUrls, true)
    ensures UrlOf(parse, r).Ok? && PathUrl.Decode(UrlOf(parse, r).value) == Some(PathUrl.Visible(r))
  {
    var nexthops := RelaysOf(config.nexthopRelayConfig.value.odohRelayUrls, true);
    var subseq := SubseqRelayPaths(config.subseqRelayConfig);
    PruningKeepsPaths(config);
    FlattenMember(AllLevels(config.dohTargetUrls, nexthops, subseq), r);
    var level :| level in AllLevels(config.dohTargetUrls, nexthops, subseq) && r in level;
    AllLevelsMember(config.dohTargetUrls, nexthops, subseq, level);
    var i, j :| 0 <= i < |config.dohTargetUrls| && 0 <= j < |nexthops|
      && level == Level(TargetOf(config.dohTargetUrls[i]), nexthops[j], subseq);
    LevelMember(TargetOf(config.dohTargetUrls[i]), nexthops[j], subseq, r);
    PathUrl.UrlReadsBack(parse, r);
  }

  /** Every kept level is the level of one target and one next hop, in the order of the configuration. */
  lemma KeptLevel(config: ProxyConfig, i: nat, j: nat) returns (t: nat, h: nat)
    requires config.nexthopRelayConfig.Some?
    requires i < |PathsOf(config)| && j < |PathsOf(config)[i]|
    ensures t < |config.dohTargetUrls| && h < |config.nexthopRelayConfig.value.odohRelayUrls|
    ensures var nexthops := RelaysOf(config.nexthopRelayConfig.value.odohRelayUrls, true);
            PathsOf(config)[i][j] ==
            Level(TargetOf(config.dohTargetUrls[t]), nexthops[h], SubseqRelayPaths(config.subseqRelayConfig))
  {
    var nexthops := RelaysOf(config.nexthopRelayConfig.value.odohRelayUrls, true);
    var subseq := SubseqRelayPaths(config.subseqRelayConfig);
    var per := PerTarget(config.dohTargetUrls, nexthops, subseq);
    DropEmptyMembers(per);
    assert PathsOf(config)[i] in PathsOf(config);
    t :| 0 <= t < |per| && per[t] == PathsOf(config)[i];
    var levels := LevelsOf(TargetOf(config.dohTargetUrls[t]), nexthops, subseq);
    DropEmptyMembers(levels);
    assert PathsOf(config)[i][j] in PathsOf(config)[i];
    h :| 0 <= h < |levels| && levels[h] == PathsOf(config)[i][j];
  }
}
