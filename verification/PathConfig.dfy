// The managed paths, said on the configured URLs.
module PathConfig {
  import opened Wrappers
  import opened Seqs
  import opened Paths
  import opened Permutations
  import opened PathManager

  /** The scheme `http` stands for itself, any other is taken as `https`. */
  predicate IsSchemeOf(scheme: Scheme, name: string) {
    scheme == Http <==> name == "http"
  }

  predicate IsTarget(target: DoHTarget, url: UrlConfig) {
    target.authority == url.authority && target.path == url.path && IsSchemeOf(target.scheme, url.scheme)
  }

  predicate IsRelay(relay: DoHRelay, url: UrlConfig, canBeNextHop: bool) {
    && relay.authority == url.authority && relay.path == url.path && IsSchemeOf(relay.scheme, url.scheme)
    && relay.canBeNextHop == canBeNextHop
  }

  /** The route goes to configured target `t` over next hop `h` and then the mid relays at these positions. */
  ghost predicate Configured(config: ProxyConfig, r: Route, t: nat, h: nat, positions: seq<nat>)
    requires config.nexthopRelayConfig.Some?
  {
    var nexthops, mids := config.nexthopRelayConfig.value.odohRelayUrls, MidUrls(config);
    && t < |config.dohTargetUrls| && h < |nexthops| && DistinctPositions(|mids|, positions)
    && r.dohType == Oblivious && IsTarget(r.target, config.dohTargetUrls[t])
    && |r.relays| == |positions| + 1 && IsRelay(r.relays[0], nexthops[h], true)
    && forall k :: 0 <= k < |positions| ==> IsRelay(r.relays[k + 1], mids[positions[k]], false)
  }

  lemma TargetIsConfigured(target: DoHTarget, url: UrlConfig)
    ensures IsTarget(target, url) <==> target == TargetOf(url)
  {
  }

  lemma RelayIsConfigured(relay: DoHRelay, url: UrlConfig, canBeNextHop: bool)
    ensures IsRelay(relay, url, canBeNextHop) <==> relay == RelayOf(url, canBeNextHop)
  {
  }

  lemma ConfiguredRoute(config: ProxyConfig, r: Route, t: nat, h: nat, positions: seq<nat>)
    requires config.nexthopRelayConfig.Some?
    requires t < |config.dohTargetUrls| && h < |config.nexthopRelayConfig.value.odohRelayUrls|
    requires DistinctPositions(|MidUrls(config)|, positions)
    ensures Configured(config, r, t, h, positions) <==>
            r == Route(TargetOf(config.dohTargetUrls[t]),
                       [RelayOf(config.nexthopRelayConfig.value.odohRelayUrls[h], true)] +
                       Pick(RelaysOf(MidUrls(config), false), positions), Oblivious)
  {
    var mids := RelaysOf(MidUrls(config), false);
    var nexthop := RelayOf(config.nexthopRelayConfig.value.odohRelayUrls[h], true);
    var relays := [nexthop] + Pick(mids, positions);
    assert forall k :: 0 <= k < |positions| ==> relays[k + 1] == RelayOf(MidUrls(config)[positions[k]], false);
    if Configured(config, r, t, h, positions) {
      forall k | 0 <= k < |relays| ensures r.relays[k] == relays[k] {
        if k > 0 { assert r.relays[(k - 1) + 1] == relays[(k - 1) + 1]; }
      }
      assert r.relays == relays;
    }
  }

  /** What a level holds, with or without mid relays. */
  lemma LevelHolds(config: ProxyConfig, target: DoHTarget, nexthop: DoHRelay, r: Route)
    ensures r in Level(target, nexthop, SubseqRelayPaths(config.subseqRelayConfig)) <==>
            exists p :: KeepsLoopFree(target, nexthop, RelaysOf(MidUrls(config), false), p)
              && r == Route(target, [nexthop] + Pick(RelaysOf(MidUrls(config), false), p), Oblivious)
  {
    var mids := RelaysOf(MidUrls(config), false);
    match config.subseqRelayConfig
    case Some(c) =>
      var kept := LevelExact(target, nexthop, c);
      var level := Level(target, nexthop, SubseqRelayPaths(Some(c)));
      if r in level {
        var i :| 0 <= i < |level| && level[i] == r;
        assert KeepsLoopFree(target, nexthop, mids, kept[i]);
      }
      if p :| KeepsLoopFree(target, nexthop, mids, p) && r == Route(target, [nexthop] + Pick(mids, p), Oblivious) {
        var i :| 0 <= i < |kept| && kept[i] == p;
        assert level[i] in level;
      }
    case None =>
      NoMidsLevelHolds(target, nexthop, r);
  }

  lemma NoMidsLevelHolds(target: DoHTarget, nexthop: DoHRelay, r: Route)
    ensures r in Level(target, nexthop, None) <==>
            exists p :: KeepsLoopFree(target, nexthop, [], p) && r == Route(target, [nexthop] + Pick([], p), Oblivious)
  {
    LevelWithoutMids(target, nexthop);
    var names := [target.authority] + Authorities([nexthop]);
    assert names == [target.authority, nexthop.authority];
    assert Distinct(names) <==> names[0] != names[1];
    assert [nexthop] + Pick([], []) == [nexthop];
    if target.authority != nexthop.authority { assert KeepsLoopFree(target, nexthop, [], []); }
    forall p: seq<nat> | DistinctPositions(0, p) ensures p == [] {
      DistinctPositionsFit(0, p);
    }
  }

  lemma InSomeLevel(config: ProxyConfig, r: Route)
    requires config.nexthopRelayConfig.Some?
    ensures var urls, nexthops := config.dohTargetUrls, RelaysOf(config.nexthopRelayConfig.value.odohRelayUrls, true);
            var subseq := SubseqRelayPaths(config.subseqRelayConfig);
            r in Flatten(Flatten(PathsOf(config))) <==>
            exists t, h :: 0 <= t < |urls| && 0 <= h < |nexthops| && r in Level(TargetOf(urls[t]), nexthops[h], subseq)
  {
    var urls, nexthops := config.dohTargetUrls, RelaysOf(config.nexthopRelayConfig.value.odohRelayUrls, true);
    var subseq := SubseqRelayPaths(config.subseqRelayConfig);
    var all := AllLevels(urls, nexthops, subseq);
    PruningKeepsPaths(config);
    FlattenMember(all, r);
    if level :| level in all && r in level {
      AllLevelsMember(urls, nexthops, subseq, level);
    }
    if t, h :| 0 <= t < |urls| && 0 <= h < |nexthops| && r in Level(TargetOf(urls[t]), nexthops[h], subseq) {
      LevelInAllLevels(urls, nexthops, subseq, t, h);
    }
  }

  lemma ManagedIsConfigured(config: ProxyConfig, r: Route) returns (t: nat, h: nat, positions: seq<nat>)
    requires config.nexthopRelayConfig.Some? && r in Flatten(Flatten(PathsOf(config)))
    ensures LoopFree(r) && Configured(config, r, t, h, positions)
  {
    var urls, nexthops := config.dohTargetUrls, RelaysOf(config.nexthopRelayConfig.value.odohRelayUrls, true);
    InSomeLevel(config, r);
    t, h :| t < |urls| && h < |nexthops|
      && r in Level(TargetOf(urls[t]), nexthops[h], SubseqRelayPaths(config.subseqRelayConfig));
    LevelHolds(config, TargetOf(urls[t]), nexthops[h], r);
    positions :| KeepsLoopFree(TargetOf(urls[t]), nexthops[h], RelaysOf(MidUrls(config), false), positions)
      && r == Route(TargetOf(urls[t]), [nexthops[h]] + Pick(RelaysOf(MidUrls(config), false), positions), Oblivious);
    ConfiguredRoute(config, r, t, h, positions);
  }

  lemma ConfiguredIsManaged(config: ProxyConfig, r: Route, t: nat, h: nat, positions: seq<nat>)
    requires config.nexthopRelayConfig.Some? && LoopFree(r) && Configured(config, r, t, h, positions)
    ensures r in Flatten(Flatten(PathsOf(config)))
  {
    var urls, nexthops := config.dohTargetUrls, RelaysOf(config.nexthopRelayConfig.value.odohRelayUrls, true);
    ConfiguredRoute(config, r, t, h, positions);
    assert KeepsLoopFree(TargetOf(urls[t]), nexthops[h], RelaysOf(MidUrls(config), false), positions);
    LevelHolds(config, TargetOf(urls[t]), nexthops[h], r);
    InSomeLevel(config, r);
  }

  /** With relays, a route is managed exactly if it is loop-free and goes from a configured next hop over distinct
      configured mid relays, any number of them, to a configured target, each with the authority, path and scheme of its
      URL. `max_mid_relays` does not appear. */
  lemma ManagedIffConfigured(config: ProxyConfig, r: Route)
    requires config.nexthopRelayConfig.Some?
    ensures r in Flatten(Flatten(PathsOf(config))) <==>
            LoopFree(r) && exists t, h, positions :: Configured(config, r, t, h, positions)
  {
    if r in Flatten(Flatten(PathsOf(config))) {
      var t, h, positions := ManagedIsConfigured(config, r);
    }
    if t: nat, h: nat, positions: seq<nat> :| LoopFree(r) && Configured(config, r, t, h, positions) {
      ConfiguredIsManaged(config, r, t, h, positions);
    }
  }

  /** Without relays there is one path for each target, in order. */
  lemma StandardIsConfigured(config: ProxyConfig)
    requires config.nexthopRelayConfig == None
    ensures |PathsOf(config)| == |config.dohTargetUrls|
    ensures forall t :: 0 <= t < |PathsOf(config)| ==>
              && |PathsOf(config)[t]| == 1 && |PathsOf(config)[t][0]| == 1
              && var r := PathsOf(config)[t][0][0];
                 r.dohType == Standard && r.relays == [] && IsTarget(r.target, config.dohTargetUrls[t])
  {
  }
}
