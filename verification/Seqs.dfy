// Sequences: filtering, flattening, and lists without repetition.
module Seqs {

  ghost predicate Distinct<T>(s: seq<T>) {
    forall i, j :: 0 <= i < j < |s| ==> s[i] != s[j]
  }

  lemma {:induction false} SubsetSize<T>(a: set<T>, b: set<T>)
    requires a <= b
    ensures |a| <= |b|
  {
    if x :| x in a { SubsetSize(a - {x}, b - {x}); }
  }

  function Numbers(from: nat, to: nat): (r: set<nat>)
    ensures forall u :: u in r <==> from <= u < to
    ensures |r| == if from <= to then to - from else 0
  {
    if from >= to then {} else Numbers(from, to - 1) + {to - 1}
  }

  function Filter<T>(p: T -> bool, s: seq<T>): seq<T> {
    if s == [] then []
    else (if p(s[0]) then [s[0]] else []) + Filter(p, s[1..])
  }

  function Flatten<T>(ss: seq<seq<T>>): seq<T> {
    if ss == [] then [] else ss[0] + Flatten(ss[1..])
  }

  ghost predicate StrictlyIncreasing(idx: seq<nat>) {
    forall i, j :: 0 <= i < j < |idx| ==> idx[i] < idx[j]
  }

  /** The positions from `start` on whose elements pass. */
  function KeptFrom<T>(p: T -> bool, s: seq<T>, start: nat): seq<nat>
    requires start <= |s|
    decreases |s| - start
  {
    if start == |s| then []
    else (if p(s[start]) then [start] else []) + KeptFrom(p, s, start + 1)
  }

  /** `idx` lists, in order, exactly the positions whose elements pass, and `r` holds those elements. */
  ghost predicate KeptAt<T>(p: T -> bool, s: seq<T>, idx: seq<nat>, r: seq<T>) {
    && |idx| == |r|
    && StrictlyIncreasing(idx)
    && (forall i :: 0 <= i < |idx| ==> idx[i] < |s| && p(s[idx[i]]) && r[i] == s[idx[i]])
    && (forall j :: 0 <= j < |s| && p(s[j]) ==> j in idx)
  }

  lemma {:induction false} KeptFromPasses<T>(p: T -> bool, s: seq<T>, start: nat, i: nat)
    requires start <= |s| && i < |KeptFrom(p, s, start)|
    ensures var j := KeptFrom(p, s, start)[i]; start <= j < |s| && p(s[j])
    decreases |s| - start
  {
    if !p(s[start]) {
      KeptFromPasses(p, s, start + 1, i);
    } else if i > 0 {
      KeptFromPasses(p, s, start + 1, i - 1);
    }
  }

  lemma {:induction false} KeptFromIncreases<T>(p: T -> bool, s: seq<T>, start: nat, i: nat, j: nat)
    requires start <= |s| && i < j < |KeptFrom(p, s, start)|
    ensures KeptFrom(p, s, start)[i] < KeptFrom(p, s, start)[j]
    decreases |s| - start
  {
    if !p(s[start]) {
      KeptFromIncreases(p, s, start + 1, i, j);
    } else if i > 0 {
      KeptFromIncreases(p, s, start + 1, i - 1, j - 1);
    } else {
      KeptFromPasses(p, s, start + 1, j - 1);
    }
  }

  lemma {:induction false} KeptFromIsComplete<T>(p: T -> bool, s: seq<T>, start: nat, j: nat)
    requires start <= j < |s| && p(s[j])
    ensures j in KeptFrom(p, s, start)
    decreases |s| - start
  {
    if start < j { KeptFromIsComplete(p, s, start + 1, j); }
  }

  lemma {:induction false} KeptFromGivesFilter<T>(p: T -> bool, s: seq<T>, start: nat)
    requires start <= |s|
    ensures var idx, r := KeptFrom(p, s, start), Filter(p, s[start..]);
            |idx| == |r| && forall i :: 0 <= i < |idx| ==> idx[i] < |s| && r[i] == s[idx[i]]
    decreases |s| - start
  {
    if start < |s| {
      assert s[start..][1..] == s[start + 1..];
      KeptFromGivesFilter(p, s, start + 1);
    }
  }

  /** Filtering keeps exactly the elements that pass, in order. */
  lemma FilterKeeps<T>(p: T -> bool, s: seq<T>) returns (idx: seq<nat>)
    ensures KeptAt(p, s, idx, Filter(p, s))
  {
    idx := KeptFrom(p, s, 0);
    forall i | 0 <= i < |idx| ensures idx[i] < |s| && p(s[idx[i]]) {
      KeptFromPasses(p, s, 0, i);
    }
    forall i, j | 0 <= i < j < |idx| ensures idx[i] < idx[j] {
      KeptFromIncreases(p, s, 0, i, j);
    }
    forall j | 0 <= j < |s| && p(s[j]) ensures j in idx {
      KeptFromIsComplete(p, s, 0, j);
    }
    KeptFromGivesFilter(p, s, 0);
    assert s[0..] == s;
  }

  /** Filtering one of two parallel lists: `kept` holds the partners of the elements that pass. */
  lemma FilterPartners<A, B>(p: B -> bool, partners: seq<A>, s: seq<B>) returns (kept: seq<A>)
    requires |partners| == |s| && Distinct(partners)
    ensures Distinct(kept) && |kept| == |Filter(p, s)|
    ensures forall i :: 0 <= i < |kept| ==>
              exists j :: 0 <= j < |s| && p(s[j]) && kept[i] == partners[j] && Filter(p, s)[i] == s[j]
    ensures forall j :: 0 <= j < |s| && p(s[j]) ==> partners[j] in kept
  {
    var idx := FilterKeeps(p, s);
    kept := seq(|idx|, i requires 0 <= i < |idx| => partners[idx[i]]);
    assert forall i :: 0 <= i < |idx| ==> kept[i] == partners[idx[i]];
    forall i, j | 0 <= i < j < |kept| ensures kept[i] != kept[j] {
      assert idx[i] < idx[j] < |partners|;
    }
    forall i | 0 <= i < |kept|
      ensures exists j :: 0 <= j < |s| && p(s[j]) && kept[i] == partners[j] && Filter(p, s)[i] == s[j]
    {
      assert kept[i] == partners[idx[i]] && Filter(p, s)[i] == s[idx[i]];
    }
    forall j | 0 <= j < |s| && p(s[j]) ensures partners[j] in kept {
      var i :| 0 <= i < |idx| && idx[i] == j;
      assert kept[i] == partners[j];
    }
  }

  lemma {:induction false} FilterAll<T>(p: T -> bool, s: seq<T>)
    requires forall x :: x in s ==> p(x)
    ensures Filter(p, s) == s
  {
    if s != [] {
      FilterAll(p, s[1..]);
    }
  }

  lemma {:induction false} FlattenConcat<T>(a: seq<seq<T>>, b: seq<seq<T>>)
    ensures Flatten(a + b) == Flatten(a) + Flatten(b)
  {
    if a == [] {
      assert a + b == b;
    } else {
      assert (a + b)[1..] == a[1..] + b;
      FlattenConcat(a[1..], b);
      assert a[0] + (Flatten(a[1..]) + Flatten(b)) == (a[0] + Flatten(a[1..])) + Flatten(b);
    }
  }

  lemma FlattenSnoc<T>(a: seq<seq<T>>, x: seq<T>)
    ensures Flatten(a + [x]) == Flatten(a) + x
  {
    FlattenConcat(a, [x]);
    assert [x][1..] == [];
  }

  /** The non-empty parts, in order. */
  function DropEmpty<T>(ss: seq<seq<T>>): seq<seq<T>> {
    if ss == [] then []
    else (if ss[0] == [] then [] else [ss[0]]) + DropEmpty(ss[1..])
  }

  lemma {:induction false} DropEmptyMembers<T>(ss: seq<seq<T>>)
    ensures forall s :: s in DropEmpty(ss) <==> s in ss && s != []
  {
    if ss != [] {
      DropEmptyMembers(ss[1..]);
      assert ss == [ss[0]] + ss[1..];
    }
  }

  /** Where a kept part comes from. */
  lemma {:induction false} DropEmptyOrigin<T>(ss: seq<seq<T>>, i: nat) returns (t: nat)
    requires i < |DropEmpty(ss)|
    ensures t < |ss| && ss[t] == DropEmpty(ss)[i] && ss[t] != []
  {
    if ss[0] == [] {
      t := DropEmptyOrigin(ss[1..], i);
      t := t + 1;
    } else if i == 0 {
      t := 0;
    } else {
      t := DropEmptyOrigin(ss[1..], i - 1);
      t := t + 1;
    }
  }

  /** Where a non-empty part goes. */
  lemma {:induction false} DropEmptyKeeps<T>(ss: seq<seq<T>>, t: nat) returns (i: nat)
    requires t < |ss| && ss[t] != []
    ensures i < |DropEmpty(ss)| && DropEmpty(ss)[i] == ss[t]
  {
    if t == 0 {
      i := 0;
    } else {
      i := DropEmptyKeeps(ss[1..], t - 1);
      if ss[0] != [] { i := i + 1; }
    }
  }

  /** Dropping empty parts loses no element and no order. */
  lemma {:induction false} FlattenDropEmpty<T>(ss: seq<seq<T>>)
    ensures Flatten(DropEmpty(ss)) == Flatten(ss)
  {
    if ss != [] {
      FlattenDropEmpty(ss[1..]);
      assert ss == [ss[0]] + ss[1..];
      var rest := DropEmpty(ss[1..]);
      if ss[0] != [] {
        assert ([ss[0]] + rest)[1..] == rest;
      } else {
        assert Flatten(ss) == [] + Flatten(ss[1..]) == Flatten(ss[1..]);
        assert DropEmpty(ss) == [] + rest == rest;
      }
    }
  }

  lemma {:induction false} FlattenMember<T>(ss: seq<seq<T>>, x: T)
    ensures x in Flatten(ss) <==> exists s :: s in ss && x in s
  {
    if ss != [] {
      FlattenMember(ss[1..], x);
      assert ss == [ss[0]] + ss[1..];
    }
  }

  lemma OneMore(m: nat, n: nat)
    ensures n + m * n == (m + 1) * n
  {
  }

  lemma {:induction false} FlattenUniformLength<T>(ss: seq<seq<T>>, n: nat)
    requires forall s :: s in ss ==> |s| == n
    ensures |Flatten(ss)| == |ss| * n
  {
    if ss != [] {
      assert ss == [ss[0]] + ss[1..];
      FlattenUniformLength(ss[1..], n);
      OneMore(|ss| - 1, n);
    }
  }

  lemma DistinctConcat<T>(a: seq<T>, b: seq<T>)
    requires Distinct(a) && Distinct(b) && forall x :: x in a ==> x !in b
    ensures Distinct(a + b)
  {
    var s := a + b;
    forall i, j | 0 <= i < j < |s| ensures s[i] != s[j] {
      if i < |a| <= j {
        assert s[i] in a && s[j] == b[j - |a|];
      }
    }
  }
}
