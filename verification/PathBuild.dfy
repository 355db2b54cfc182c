// Building the path objects, in the loops the program builds them in, and choosing one by its flags.
module PathBuild {
  import opened Wrappers
  import opened Seqs
  import opened Paths
  import opened PathManager
  import opened Permutations
  import PathSelect

  ghost function ViewLevel(level: seq<DoHPath>): seq<Route> {
    seq(|level|, i requires 0 <= i < |level| => level[i].AsRoute())
  }

  ghost function ViewTarget(per: seq<seq<DoHPath>>): seq<seq<Route>> {
    seq(|per|, i requires 0 <= i < |per| => ViewLevel(per[i]))
  }

  ghost function View(paths: seq<seq<seq<DoHPath>>>): seq<seq<seq<Route>>> {
    seq(|paths|, i requires 0 <= i < |paths| => ViewTarget(paths[i]))
  }

  lemma {:induction false} FilterSnoc<T>(p: T -> bool, s: seq<T>, x: T)
    ensures Filter(p, s + [x]) == Filter(p, s) + (if p(x) then [x] else [])
  {
    if s == [] {
      assert s + [x] == [x] && [x][1..] == [];
    } else {
      assert (s + [x])[1..] == s[1..] + [x];
      FilterSnoc(p, s[1..], x);
      var head := if p(s[0]) then [s[0]] else [];
      var tail := if p(x) then [x] else [];
      assert head + (Filter(p, s[1..]) + tail) == (head + Filter(p, s[1..])) + tail;
    }
  }

  lemma {:induction false} DropEmptySnoc<T>(ss: seq<seq<T>>, s: seq<T>)
    ensures DropEmpty(ss + [s]) == DropEmpty(ss) + (if s == [] then [] else [s])
  {
    if ss == [] {
      assert ss + [s] == [s] && [s][1..] == [];
    } else {
      assert (ss + [s])[1..] == ss[1..] + [s];
      DropEmptySnoc(ss[1..], s);
    }
  }

  lemma TakeNext<T>(s: seq<T>, i: nat)
    requires i < |s|
    ensures s[..i + 1] == s[..i] + [s[i]]
  {
  }

  /** The relay vectors of one `permutations` call. */
  method CollectPermutations(mids: seq<DoHRelay>, num: nat) returns (picked: seq<seq<DoHRelay>>)
    ensures forall i :: 0 <= i < |Arrangements(Range(|mids|), num)| ==>
              DistinctPositions(|mids|, Arrangements(Range(|mids|), num)[i])
    ensures picked == AfterNextHop(mids, Arrangements(Range(|mids|), num))
  {
    var x := Arrangements(Range(|mids|), num);
    ListedPositions(|mids|, num);
    picked := [];
    for j := 0 to |x|
      invariant |picked| == j
      invariant forall k :: 0 <= k < j ==> picked[k] == Pick(mids, x[k])
    {
      picked := picked + [Pick(mids, x[j])];
    }
  }

  lemma AfterNextHopConcat(mids: seq<DoHRelay>, a: seq<seq<nat>>, b: seq<seq<nat>>)
    requires forall i :: 0 <= i < |a| ==> DistinctPositions(|mids|, a[i])
    requires forall i :: 0 <= i < |b| ==> DistinctPositions(|mids|, b[i])
    requires forall i :: 0 <= i < |a + b| ==> DistinctPositions(|mids|, (a + b)[i])
    ensures AfterNextHop(mids, a + b) == AfterNextHop(mids, a) + AfterNextHop(mids, b)
  {
  }

  /** The list of relay lists after the next hop: for every length up to the bound, every permutation. */
  method EnumerateAfterNextHop(config: SubseqRelayConfig) returns (paths: seq<seq<DoHRelay>>)
    ensures Some(paths) == SubseqRelayPaths(Some(config))
  {
    var subseqRelays := RelaysOf(config.midRelayUrls, false);
    ghost var n := |subseqRelays|;
    var max := Max(config.maxMidRelays, |subseqRelays|);
    paths := [];
    for num := 0 to max + 1
      invariant forall i :: 0 <= i < |ArrangementsBelow(n, num)| ==> DistinctPositions(n, ArrangementsBelow(n, num)[i])
      invariant paths == AfterNextHop(subseqRelays, ArrangementsBelow(n, num))
    {
      var x := CollectPermutations(subseqRelays, num);
      paths := paths + x;
      ListedPositions(n, num + 1);
      AfterNextHopConcat(subseqRelays, ArrangementsBelow(n, num), Arrangements(Range(n), num));
    }
  }

  /** Every object of a list is one of `made`, which are new and healthy. */
  ghost predicate AmongNew(level: seq<DoHPath>, made: set<DoHPath>)
    reads made
  {
    (forall p :: p in level ==> p in made) && (forall p :: p in made ==> p.healthy)
  }

  /** An object per relay list. */
  method MakePaths(target: DoHTarget, relayPaths: seq<seq<DoHRelay>>)
    returns (all: seq<DoHPath>, ghost made: set<DoHPath>)
    ensures ViewLevel(all) == Routes(target, relayPaths)
    ensures Distinct(all) && fresh(made) && AmongNew(all, made)
  {
    ghost var routes := Routes(target, relayPaths);
    all, made := [], {};
    for i := 0 to |relayPaths|
      invariant ViewLevel(all) == routes[..i]
      invariant Distinct(all) && fresh(made) && AmongNew(all, made)
    {
      var path := new DoHPath(target, relayPaths[i], Oblivious);
      all, made := all + [path], made + {path};
    }
  }

  /** The looped paths filtered out. */
  method DropLooped(all: seq<DoHPath>) returns (level: seq<DoHPath>)
    requires Distinct(all)
    ensures ViewLevel(level) == Filter(LOOP_FREE, ViewLevel(all))
    ensures Distinct(level) && forall p :: p in level ==> p in all
  {
    ghost var routes := ViewLevel(all);
    level := [];
    for i := 0 to |all|
      invariant ViewLevel(level) == Filter(LOOP_FREE, routes[..i])
      invariant Distinct(level)
      invariant forall p :: p in level ==> p in all[..i]
    {
      var looped := all[i].IsLooped();
      TakeNext(routes, i);
      FilterSnoc(LOOP_FREE, routes[..i], routes[i]);
      TakeNext(all, i);
      if !looped {
        assert all[i] !in all[..i];
        level := level + [all[i]];
      }
    }
    assert routes[..|all|] == routes;
  }

  method BuildLevel(target: DoHTarget, relayPaths: seq<seq<DoHRelay>>)
    returns (level: seq<DoHPath>, ghost made: set<DoHPath>)
    ensures ViewLevel(level) == Filter(LOOP_FREE, Routes(target, relayPaths))
    ensures Distinct(level) && fresh(made) && AmongNew(level, made)
  {
    var all;
    all, made := MakePaths(target, relayPaths);
    level := DropLooped(all);
  }

  lemma ViewTargetSnoc(per: seq<seq<DoHPath>>, level: seq<DoHPath>)
    ensures ViewTarget(per + [level]) == ViewTarget(per) + [ViewLevel(level)]
  {
  }

  lemma ViewSnoc(paths: seq<seq<seq<DoHPath>>>, per: seq<seq<DoHPath>>)
    ensures View(paths + [per]) == View(paths) + [ViewTarget(per)]
  {
  }

  /** The levels of one target, empty ones dropped. */
  method BuildTarget(target: DoHTarget, nexthops: seq<DoHRelay>, subseq: Option<seq<seq<DoHRelay>>>)
    returns (per: seq<seq<DoHPath>>, ghost made: set<DoHPath>)
    ensures ViewTarget(per) == DropEmpty(LevelsOf(target, nexthops, subseq))
    ensures Distinct(Flatten(per)) && fresh(made) && AmongNew(Flatten(per), made)
  {
    ghost var levels := LevelsOf(target, nexthops, subseq);
    per, made := [], {};
    for i := 0 to |nexthops|
      invariant ViewTarget(per) == DropEmpty(levels[..i])
      invariant Distinct(Flatten(per)) && fresh(made) && AmongNew(Flatten(per), made)
    {
      var relayPaths := ExtendNextHop(nexthops[i], subseq);
      var level, new_ := BuildLevel(target, relayPaths);
      TakeNext(levels, i);
      DropEmptySnoc(levels[..i], levels[i]);
      if level != [] {
        ViewTargetSnoc(per, level);
        FlattenSnoc(per, level);
        DistinctConcat(Flatten(per), level);
        per := per + [level];
      }
      made := made + new_;
    }
    assert levels[..|nexthops|] == levels;
  }

  /** The next hop in front of every relay list. */
  method ExtendNextHop(nexthop: DoHRelay, subseq: Option<seq<seq<DoHRelay>>>) returns (relayPaths: seq<seq<DoHRelay>>)
    ensures relayPaths == RelayPaths(nexthop, subseq)
  {
    match subseq
    case None =>
      relayPaths := [[nexthop]];
    case Some(paths) =>
      relayPaths := [];
      for i := 0 to |paths|
        invariant |relayPaths| == i && forall k :: 0 <= k < i ==> relayPaths[k] == [nexthop] + paths[k]
      {
        relayPaths := relayPaths + [[nexthop] + paths[i]];
      }
  }

  /** The standard case: one path per target, without relays. */
  method BuildStandard(urls: seq<UrlConfig>) returns (paths: seq<seq<seq<DoHPath>>>, ghost made: set<DoHPath>)
    ensures View(paths) == StandardPaths(urls)
    ensures Distinct(Flatten(Flatten(paths))) && fresh(made) && AmongNew(Flatten(Flatten(paths)), made)
  {
    ghost var all := StandardPaths(urls);
    paths, made := [], {};
    for i := 0 to |urls|
      invariant View(paths) == all[..i]
      invariant Distinct(Flatten(Flatten(paths))) && fresh(made) && AmongNew(Flatten(Flatten(paths)), made)
    {
      var path := new DoHPath(TargetOf(urls[i]), [], Standard);
      assert ViewLevel([path]) == [Route(TargetOf(urls[i]), [], Standard)];
      assert ViewTarget([[path]]) == [ViewLevel([path])];
      TakeNext(all, i);
      ViewSnoc(paths, [[path]]);
      FlattenSnoc(paths, [[path]]);
      FlattenSnoc(Flatten(paths), [path]);
      DistinctConcat(Flatten(Flatten(paths)), [path]);
      paths, made := paths + [[[path]]], made + {path};
    }
    assert all[..|urls|] == all;
  }

  /** The relay case: the levels of every target, targets without any left dropped. */
  method BuildOblivious(urls: seq<UrlConfig>, nexthops: seq<DoHRelay>, subseq: Option<seq<seq<DoHRelay>>>)
    returns (paths: seq<seq<seq<DoHPath>>>, ghost made: set<DoHPath>)
    ensures View(paths) == DropEmpty(PerTarget(urls, nexthops, subseq))
    ensures Distinct(Flatten(Flatten(paths))) && fresh(made) && AmongNew(Flatten(Flatten(paths)), made)
  {
    ghost var all := PerTarget(urls, nexthops, subseq);
    paths, made := [], {};
    for i := 0 to |urls|
      invariant View(paths) == DropEmpty(all[..i])
      invariant Distinct(Flatten(Flatten(paths))) && fresh(made) && AmongNew(Flatten(Flatten(paths)), made)
    {
      var per, new_ := BuildTarget(TargetOf(urls[i]), nexthops, subseq);
      TakeNext(all, i);
      DropEmptySnoc(all[..i], all[i]);
      if per != [] {
        ViewSnoc(paths, per);
        FlattenSnoc(paths, per);
        FlattenConcat(Flatten(paths), per);
        DistinctConcat(Flatten(Flatten(paths)), Flatten(per));
        paths := paths + [per];
      }
      made := made + new_;
    }
    assert all[..|urls|] == all;
  }

  // ---------- The manager ----------

  function ReadLevel(level: seq<DoHPath>): (r: seq<PathSelect.Reading<DoHPath>>)
    reads set p | p in level
    ensures |r| == |level|
    ensures forall k :: 0 <= k < |level| ==> r[k] == PathSelect.Reading(level[k], level[k].healthy)
  {
    if level == [] then [] else [PathSelect.Reading(level[0], level[0].healthy)] + ReadLevel(level[1..])
  }

  function ReadTarget(per: seq<seq<DoHPath>>): (r: seq<seq<PathSelect.Reading<DoHPath>>>)
    reads set p | p in Flatten(per)
    ensures |r| == |per|
    ensures forall j :: 0 <= j < |per| ==> r[j] == ReadLevel(per[j])
  {
    if per == [] then [] else [ReadLevel(per[0])] + ReadTarget(per[1..])
  }

  function ReadAll(paths: seq<seq<seq<DoHPath>>>): (r: seq<seq<seq<PathSelect.Reading<DoHPath>>>>)
    reads set p | p in Flatten(Flatten(paths))
    ensures |r| == |paths|
    ensures forall i :: 0 <= i < |paths| ==> r[i] == ReadTarget(paths[i])
  {
    FlattenConcat(if paths == [] then [] else paths[0], Flatten(paths[if paths == [] then 0 else 1..]));
    if paths == [] then [] else [ReadTarget(paths[0])] + ReadAll(paths[1..])
  }

  lemma InFlatten(paths: seq<seq<seq<DoHPath>>>, p: DoHPath)
    ensures p in Flatten(Flatten(paths)) <==>
            exists i, j :: 0 <= i < |paths| && 0 <= j < |paths[i]| && p in paths[i][j]
  {
    FlattenMember(Flatten(paths), p);
    if level :| level in Flatten(paths) && p in level {
      FlattenMember(paths, level);
      var per :| per in paths && level in per;
      var i :| 0 <= i < |paths| && paths[i] == per;
      var j :| 0 <= j < |per| && per[j] == level;
      assert p in paths[i][j];
    }
    if i, j :| 0 <= i < |paths| && 0 <= j < |paths[i]| && p in paths[i][j] {
      FlattenMember(paths, paths[i][j]);
      assert paths[i] in paths && paths[i][j] in paths[i];
    }
  }

  lemma ReadingIsFlag(paths: seq<seq<seq<DoHPath>>>, i: nat, j: nat, p: DoHPath)
    requires PathSelect.HealthyAt(ReadAll(paths), i, j, p)
    ensures p in Flatten(Flatten(paths)) && p.healthy
  {
    var level := ReadLevel(paths[i][j]);
    assert ReadAll(paths)[i][j] == level;
    var k :| 0 <= k < |level| && level[k] == PathSelect.Reading(p, true);
    assert p in paths[i][j];
    InFlatten(paths, p);
  }

  lemma AnyHealthyIsSomeFlag(paths: seq<seq<seq<DoHPath>>>)
    ensures PathSelect.AnyHealthy(ReadAll(paths)) <==> exists p :: p in Flatten(Flatten(paths)) && p.healthy
  {
    var all: seq<seq<seq<PathSelect.Reading<DoHPath>>>> := ReadAll(paths);
    if PathSelect.AnyHealthy(all) {
      var i :| 0 <= i < |all| && PathSelect.SomeHealthyTarget(all[i]);
      var j :| 0 <= j < |all[i]| && PathSelect.SomeHealthy(all[i][j]);
      var k :| 0 <= k < |all[i][j]| && all[i][j][k].healthy;
      assert all[i][j] == ReadLevel(paths[i][j]);
      assert paths[i][j][k] in paths[i][j];
      InFlatten(paths, paths[i][j][k]);
    }
    if p :| p in Flatten(Flatten(paths)) && p.healthy {
      InFlatten(paths, p);
      var i, j :| 0 <= i < |paths| && 0 <= j < |paths[i]| && p in paths[i][j];
      var k :| 0 <= k < |paths[i][j]| && paths[i][j][k] == p;
      assert all[i][j] == ReadLevel(paths[i][j]);
      assert all[i][j][k].healthy;
    }
  }

  class DoHPathManager {
    const paths: seq<seq<seq<DoHPath>>>
    const targetRandomization: bool
    const nexthopRandomization: bool

    ghost predicate Valid() {
      NoEmptyLevels(paths) && Distinct(Flatten(Flatten(paths)))
    }

    /** Builds every path of the configuration; all start healthy, and no two share a flag. */
    constructor (config: ProxyConfig)
      ensures Valid() && View(paths) == PathsOf(config)
      ensures forall p :: p in Flatten(Flatten(paths)) ==> fresh(p) && p.healthy
      ensures targetRandomization == config.targetRandomization
      ensures nexthopRandomization <==>
              config.nexthopRelayConfig.Some? && config.nexthopRelayConfig.value.odohRelayRandomization
    {
      var built: seq<seq<seq<DoHPath>>>;
      ghost var made: set<DoHPath>;
      var randomization := false;
      match config.nexthopRelayConfig {
        case None =>
          built, made := BuildStandard(config.dohTargetUrls);
        case Some(c) =>
          var subseq: Option<seq<seq<DoHRelay>>> := None;
          if config.subseqRelayConfig.Some? {
            var after := EnumerateAfterNextHop(config.subseqRelayConfig.value);
            subseq := Some(after);
          }
          built, made := BuildOblivious(config.dohTargetUrls, RelaysOf(c.odohRelayUrls, true), subseq);
          randomization := c.odohRelayRandomization;
      }
      PathsHaveNoEmptyLevels(config);
      NoEmptyLevelsOfView(built);
      paths := built;
      targetRandomization := config.targetRandomization;
      nexthopRandomization := randomization;
    }

    /** The targets, read off the first path of the first next hop of each. */
    function Targets(): seq<DoHTarget>
      requires Valid()
    {
      seq(|paths|, i requires 0 <= i < |paths| => paths[i][0][0].target)
    }

    /** The flags as they are now. */
    function Readings(): (r: seq<seq<seq<PathSelect.Reading<DoHPath>>>>)
      reads set p | p in Flatten(Flatten(paths))
    {
      ReadAll(paths)
    }

    /** A path read as healthy, or none. */
    method GetPath(seeds: (nat, nat, nat)) returns (r: Option<DoHPath>)
      ensures r == PathSelect.GetPath(Readings(), targetRandomization, nexthopRandomization, seeds)
      ensures r == None <==> forall p :: p in Flatten(Flatten(paths)) ==> !p.healthy
      ensures r.Some? ==> r.value in Flatten(Flatten(paths)) && r.value.healthy
    {
      r := PathSelect.GetPath(Readings(), targetRandomization, nexthopRandomization, seeds);
      PathSelect.NoneIffNoneHealthy(Readings(), targetRandomization, nexthopRandomization, seeds);
      AnyHealthyIsSomeFlag(paths);
      if r.Some? {
        var i, j := PathSelect.ChosenIsHealthy(Readings(), targetRandomization, nexthopRandomization, seeds);
        ReadingIsFlag(paths, i, j, r.value);
      }
    }
  }

  lemma NoEmptyLevelsOfView(paths: seq<seq<seq<DoHPath>>>)
    requires NoEmptyLevels(View(paths))
    ensures NoEmptyLevels(paths)
  {
    forall i | 0 <= i < |paths|
      ensures paths[i] != [] && forall j :: 0 <= j < |paths[i]| ==> paths[i][j] != []
    {
      assert View(paths)[i] == ViewTarget(paths[i]);
      assert forall j :: 0 <= j < |paths[i]| ==> View(paths)[i][j] == ViewLevel(paths[i][j]);
    }
  }
}
