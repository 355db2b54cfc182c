// Choosing a healthy path out of the three-dimensional list. Every flag is read once on the way, so the choice depends
// on the values read, however the health check changes the flags meanwhile.
module PathSelect {
  import opened Wrappers
  import opened Seqs

  /** A path and the health flag as it was read. */
  datatype Reading<P> = Reading(path: P, healthy: bool)

  function HealthyOf<P>(level: seq<Reading<P>>): seq<P> {
    if level == [] then []
    else (if level[0].healthy then [level[0].path] else []) + HealthyOf(level[1..])
  }

  function HealthyLevels<P>(per: seq<seq<Reading<P>>>): seq<seq<P>> {
    seq(|per|, i requires 0 <= i < |per| => HealthyOf(per[i]))
  }

  function HealthyPerTarget<P>(all: seq<seq<seq<Reading<P>>>>): seq<seq<seq<P>>> {
    seq(|all|, i requires 0 <= i < |all| => DropEmpty(HealthyLevels(all[i])))
  }

  function HealthyPaths<P>(all: seq<seq<seq<Reading<P>>>>): seq<seq<seq<P>>> {
    DropEmpty(HealthyPerTarget(all))
  }

  /** `gen_range(0..n)` as a function of a random word; an empty range is not allowed. */
  function GenRange(n: nat, seed: nat): (r: nat)
    requires n > 0
    ensures r < n
  {
    seed % n
  }

  lemma HealthyPathsNoEmpty<P>(all: seq<seq<seq<Reading<P>>>>)
    ensures forall i :: 0 <= i < |HealthyPaths(all)| ==> HealthyPaths(all)[i] != []
    ensures forall i, j :: 0 <= i < |HealthyPaths(all)| && 0 <= j < |HealthyPaths(all)[i]| ==> HealthyPaths(all)[i][j] != []
  {
    var hp := HealthyPaths(all);
    forall i | 0 <= i < |hp| ensures hp[i] != [] && forall j :: 0 <= j < |hp[i]| ==> hp[i][j] != [] {
      var t := DropEmptyOrigin(HealthyPerTarget(all), i);
      forall j | 0 <= j < |hp[i]| ensures hp[i][j] != [] {
        var h := DropEmptyOrigin(HealthyLevels(all[t]), j);
      }
    }
  }

  /** The chosen position in a list without empty levels. */
  function Choose<P>(healthyPaths: seq<seq<seq<P>>>, targetRandomization: bool, nexthopRandomization: bool,
                     seeds: (nat, nat, nat)): (r: (nat, nat, nat))
    requires healthyPaths != []
    requires forall i :: 0 <= i < |healthyPaths| ==> healthyPaths[i] != []
    requires forall i, j :: 0 <= i < |healthyPaths| && 0 <= j < |healthyPaths[i]| ==> healthyPaths[i][j] != []
    ensures r.0 < |healthyPaths| && r.1 < |healthyPaths[r.0]| && r.2 < |healthyPaths[r.0][r.1]|
  {
    var t := if targetRandomization then GenRange(|healthyPaths|, seeds.0) else 0;
    var h := if nexthopRandomization then GenRange(|healthyPaths[t]|, seeds.1) else 0;
    var p := GenRange(|healthyPaths[t][h]|, seeds.2);
    (t, h, p)
  }

  /** `get_path` with the random words it draws. */
  function GetPath<P>(all: seq<seq<seq<Reading<P>>>>, targetRandomization: bool, nexthopRandomization: bool,
                      seeds: (nat, nat, nat)): Option<P>
  {
    var healthyPaths := HealthyPaths(all);
    if healthyPaths == [] then None
    else
      HealthyPathsNoEmpty(all);
      var (t, h, p) := Choose(healthyPaths, targetRandomization, nexthopRandomization, seeds);
      Some(healthyPaths[t][h][p])
  }

  // ---------- What the filters keep ----------

  ghost predicate HealthyIn<P>(level: seq<Reading<P>>, p: P) {
    Reading(p, true) in level
  }

  lemma {:induction false} HealthyOfMembers<P>(level: seq<Reading<P>>, p: P)
    ensures p in HealthyOf(level) <==> HealthyIn(level, p)
  {
    if level != [] {
      HealthyOfMembers(level[1..], p);
      assert level == [level[0]] + level[1..];
    }
  }

  ghost predicate SomeHealthy<P>(level: seq<Reading<P>>) {
    exists k :: 0 <= k < |level| && level[k].healthy
  }

  lemma HealthyOfEmpty<P>(level: seq<Reading<P>>)
    ensures HealthyOf(level) == [] <==> !SomeHealthy(level)
  {
    if SomeHealthy(level) {
      var k :| 0 <= k < |level| && level[k].healthy;
      HealthyOfMembers(level, level[k].path);
      assert level[k] == Reading(level[k].path, true);
    }
    if HealthyOf(level) != [] {
      var p := HealthyOf(level)[0];
      HealthyOfMembers(level, p);
      var k :| 0 <= k < |level| && level[k] == Reading(p, true);
    }
  }

  ghost predicate SomeHealthyTarget<P>(per: seq<seq<Reading<P>>>) {
    exists j :: 0 <= j < |per| && SomeHealthy(per[j])
  }

  lemma HealthyTargetEmpty<P>(per: seq<seq<Reading<P>>>)
    ensures DropEmpty(HealthyLevels(per)) == [] <==> !SomeHealthyTarget(per)
  {
    if j: nat :| j < |per| && SomeHealthy(per[j]) {
      HealthyOfEmpty(per[j]);
      var m := DropEmptyKeeps(HealthyLevels(per), j);
    }
    if DropEmpty(HealthyLevels(per)) != [] {
      var j := DropEmptyOrigin(HealthyLevels(per), 0);
      HealthyOfEmpty(per[j]);
    }
  }

  ghost predicate AnyHealthy<P>(all: seq<seq<seq<Reading<P>>>>) {
    exists i :: 0 <= i < |all| && SomeHealthyTarget(all[i])
  }

  /** No path is returned exactly when no path was read as healthy. */
  lemma NoneIffNoneHealthy<P>(all: seq<seq<seq<Reading<P>>>>, tr: bool, nr: bool, seeds: (nat, nat, nat))
    ensures GetPath(all, tr, nr, seeds) == None <==> !AnyHealthy(all)
  {
    if i: nat :| i < |all| && SomeHealthyTarget(all[i]) {
      HealthyTargetEmpty(all[i]);
      var m := DropEmptyKeeps(HealthyPerTarget(all), i);
    }
    if HealthyPaths(all) != [] {
      var i := DropEmptyOrigin(HealthyPerTarget(all), 0);
      HealthyTargetEmpty(all[i]);
    }
  }

  ghost predicate HealthyAt<P>(all: seq<seq<seq<Reading<P>>>>, i: nat, j: nat, p: P) {
    i < |all| && j < |all[i]| && HealthyIn(all[i][j], p)
  }

  /** Whatever is returned was read as healthy. */
  lemma ChosenIsHealthy<P>(all: seq<seq<seq<Reading<P>>>>, tr: bool, nr: bool, seeds: (nat, nat, nat))
    returns (i: nat, j: nat)
    requires GetPath(all, tr, nr, seeds).Some?
    ensures HealthyAt(all, i, j, GetPath(all, tr, nr, seeds).value)
  {
    var hp := HealthyPaths(all);
    HealthyPathsNoEmpty(all);
    var (t, h, k) := Choose(hp, tr, nr, seeds);
    i := DropEmptyOrigin(HealthyPerTarget(all), t);
    j := DropEmptyOrigin(HealthyLevels(all[i]), h);
    assert hp[t][h] == HealthyOf(all[i][j]);
    HealthyOfMembers(all[i][j], hp[t][h][k]);
  }

  // ---------- Without randomisation ----------

  lemma {:induction false} DropEmptyFirst<T>(ss: seq<seq<T>>) returns (i: nat)
    requires DropEmpty(ss) != []
    ensures i < |ss| && DropEmpty(ss)[0] == ss[i] && forall m :: 0 <= m < i ==> ss[m] == []
  {
    if ss[0] != [] {
      i := 0;
    } else {
      var r := DropEmptyFirst(ss[1..]);
      i := r + 1;
      assert forall m :: 1 <= m < i ==> ss[m] == ss[1..][m - 1];
    }
  }

  /** What is fixed without randomisation: the target is the first with a healthy path, the next hop the first with one
      within its target. */
  ghost predicate FirstWhereFixed<P>(all: seq<seq<seq<Reading<P>>>>, tr: bool, nr: bool, i: nat, j: nat)
    requires i < |all| && j < |all[i]|
  {
    && (!tr ==> forall m :: 0 <= m < i ==> !SomeHealthyTarget(all[m]))
    && (!nr ==> forall m :: 0 <= m < j ==> !SomeHealthy(all[i][m]))
  }

  lemma FirstTarget<P>(all: seq<seq<seq<Reading<P>>>>) returns (i: nat)
    requires HealthyPaths(all) != []
    ensures i < |all| && HealthyPaths(all)[0] == HealthyPerTarget(all)[i]
    ensures forall m :: 0 <= m < i ==> !SomeHealthyTarget(all[m])
  {
    i := DropEmptyFirst(HealthyPerTarget(all));
    forall m | 0 <= m < i ensures !SomeHealthyTarget(all[m]) {
      assert HealthyPerTarget(all)[m] == [];
      HealthyTargetEmpty(all[m]);
    }
  }

  lemma FirstNextHop<P>(per: seq<seq<Reading<P>>>) returns (j: nat)
    requires DropEmpty(HealthyLevels(per)) != []
    ensures j < |per| && DropEmpty(HealthyLevels(per))[0] == HealthyOf(per[j])
    ensures forall m :: 0 <= m < j ==> !SomeHealthy(per[m])
  {
    j := DropEmptyFirst(HealthyLevels(per));
    forall m | 0 <= m < j ensures !SomeHealthy(per[m]) {
      assert HealthyLevels(per)[m] == [];
      HealthyOfEmpty(per[m]);
    }
  }

  /** For each setting of the two randomisations: what is returned was read as healthy, over the first target with a
      healthy path unless targets are randomised, and over the first next hop with one of the chosen target unless next
      hops are. */
  lemma FirstWithoutRandomisation<P>(all: seq<seq<seq<Reading<P>>>>, tr: bool, nr: bool, seeds: (nat, nat, nat))
    returns (i: nat, j: nat)
    requires GetPath(all, tr, nr, seeds).Some?
    ensures HealthyAt(all, i, j, GetPath(all, tr, nr, seeds).value)
    ensures FirstWhereFixed(all, tr, nr, i, j)
  {
    var hp := HealthyPaths(all);
    HealthyPathsNoEmpty(all);
    var (t, h, k) := Choose(hp, tr, nr, seeds);
    if tr { i := DropEmptyOrigin(HealthyPerTarget(all), t); } else { i := FirstTarget(all); }
    if nr { j := DropEmptyOrigin(HealthyLevels(all[i]), h); } else { j := FirstNextHop(all[i]); }
    assert hp[t][h] == HealthyOf(all[i][j]);
    HealthyOfMembers(all[i][j], hp[t][h][k]);
  }

  // ---------- What can be chosen ----------

  /** The position of a target in the filtered list: the first, if none before it has a healthy path. */
  lemma TargetPosition<P>(all: seq<seq<seq<Reading<P>>>>, i: nat, tr: bool) returns (t: nat)
    requires i < |all| && SomeHealthyTarget(all[i])
    requires !tr ==> forall m :: 0 <= m < i ==> !SomeHealthyTarget(all[m])
    ensures t < |HealthyPaths(all)| && HealthyPaths(all)[t] == HealthyPerTarget(all)[i]
    ensures !tr ==> t == 0
  {
    HealthyTargetEmpty(all[i]);
    t := DropEmptyKeeps(HealthyPerTarget(all), i);
    if !tr {
      var first := FirstTarget(all);
      if first < i {
        HealthyTargetEmpty(all[first]);
        HealthyPathsNoEmpty(all);
      }
      t := 0;
    }
  }

  lemma NextHopPosition<P>(per: seq<seq<Reading<P>>>, j: nat, nr: bool) returns (h: nat)
    requires j < |per| && SomeHealthy(per[j])
    requires !nr ==> forall m :: 0 <= m < j ==> !SomeHealthy(per[m])
    ensures h < |DropEmpty(HealthyLevels(per))| && DropEmpty(HealthyLevels(per))[h] == HealthyOf(per[j])
    ensures !nr ==> h == 0
  {
    HealthyOfEmpty(per[j]);
    h := DropEmptyKeeps(HealthyLevels(per), j);
    if !nr {
      var first := FirstNextHop(per);
      if first < j {
        HealthyOfEmpty(per[first]);
        var o := DropEmptyOrigin(HealthyLevels(per), 0);
      }
      h := 0;
    }
  }

  /** And any path read as healthy can be chosen, for each setting, if it is over the first target and the first next hop
      where these are fixed. */
  lemma EveryHealthyPathCanBeChosen<P>(all: seq<seq<seq<Reading<P>>>>, tr: bool, nr: bool, i: nat, j: nat, p: P)
    returns (seeds: (nat, nat, nat))
    requires HealthyAt(all, i, j, p) && FirstWhereFixed(all, tr, nr, i, j)
    ensures GetPath(all, tr, nr, seeds) == Some(p)
  {
    var hp := HealthyPaths(all);
    HealthyPathsNoEmpty(all);
    var level := HealthyOf(all[i][j]);
    HealthyOfMembers(all[i][j], p);
    HealthyOfEmpty(all[i][j]);
    var k: nat :| k < |level| && level[k] == p;
    var h := NextHopPosition(all[i], j, nr);
    var t := TargetPosition(all, i, tr);
    seeds := (t, h, k);
    SmallMod(t, |hp|);
    SmallMod(h, |hp[t]|);
    SmallMod(k, |hp[t][h]|);
    assert Choose(hp, tr, nr, seeds) == (t, h, k);
  }

  lemma SmallMod(a: nat, n: nat)
    requires a < n
    ensures a % n == a
  {
  }
}
