// All ordered selections of k positions out of n, in the order the relay enumeration uses.
module Permutations {
  import opened Seqs

  function RemoveAt<T>(s: seq<T>, i: nat): (r: seq<T>)
    requires i < |s|
    ensures |r| == |s| - 1
  {
    s[..i] + s[i + 1..]
  }

  function Prepend<T>(x: T, ls: seq<seq<T>>): (r: seq<seq<T>>)
    ensures |r| == |ls| && forall i :: 0 <= i < |ls| ==> r[i] == [x] + ls[i]
  {
    seq(|ls|, i requires 0 <= i < |ls| => [x] + ls[i])
  }

  /** `permutations(k)`: pick a first element in order, then arrange `k - 1` of the remaining ones. */
  function Arrangements(avail: seq<nat>, k: nat): seq<seq<nat>>
    decreases k, |avail| + 1
  {
    if k == 0 then [[]] else ArrangementsFrom(avail, k, 0)
  }

  /** Those that start with the element at position `i` or a later one. */
  function ArrangementsFrom(avail: seq<nat>, k: nat, i: nat): seq<seq<nat>>
    requires k > 0 && i <= |avail|
    decreases k, |avail| - i
  {
    if i == |avail| then []
    else Prepend(avail[i], Arrangements(RemoveAt(avail, i), k - 1)) + ArrangementsFrom(avail, k, i + 1)
  }

  ghost predicate IsArrangement(avail: seq<nat>, k: nat, p: seq<nat>) {
    |p| == k && Distinct(p) && forall x :: x in p ==> x in avail
  }

  // ---------- Order ----------

  ghost predicate LexLess(p: seq<nat>, q: seq<nat>)
    decreases |p|
  {
    p != [] && q != [] && (p[0] < q[0] || (p[0] == q[0] && LexLess(p[1..], q[1..])))
  }

  lemma {:induction false} LexLessIrreflexive(p: seq<nat>)
    ensures !LexLess(p, p)
    decreases |p|
  {
    if p != [] { LexLessIrreflexive(p[1..]); }
  }

  ghost predicate Ascending(ls: seq<seq<nat>>) {
    forall i, j :: 0 <= i < j < |ls| ==> LexLess(ls[i], ls[j])
  }

  lemma AscendingIsDistinct(ls: seq<seq<nat>>)
    requires Ascending(ls)
    ensures Distinct(ls)
  {
    forall i, j | 0 <= i < j < |ls| ensures ls[i] != ls[j] {
      LexLessIrreflexive(ls[i]);
    }
  }

  lemma PrependAscending(x: nat, ls: seq<seq<nat>>)
    requires Ascending(ls)
    ensures Ascending(Prepend(x, ls))
  {
    var r := Prepend(x, ls);
    forall i, j | 0 <= i < j < |r| ensures LexLess(r[i], r[j]) {
      assert r[i][1..] == ls[i] && r[j][1..] == ls[j];
    }
  }

  lemma ConcatAscending(a: seq<seq<nat>>, b: seq<seq<nat>>)
    requires Ascending(a) && Ascending(b)
    requires forall i, j :: 0 <= i < |a| && 0 <= j < |b| ==> LexLess(a[i], b[j])
    ensures Ascending(a + b)
  {
    var s := a + b;
    forall i, j | 0 <= i < j < |s| ensures LexLess(s[i], s[j]) {
      if |a| <= j {
        assert s[j] == b[j - |a|];
        if |a| <= i { assert s[i] == b[i - |a|]; }
      }
    }
  }

  lemma RemoveAtMembers(avail: seq<nat>, i: nat, x: nat)
    requires StrictlyIncreasing(avail) && i < |avail|
    ensures x in RemoveAt(avail, i) <==> x in avail && x != avail[i]
  {
    var r := RemoveAt(avail, i);
    assert forall j :: 0 <= j < |r| ==> r[j] == if j < i then avail[j] else avail[j + 1];
    if x in r {
      var j :| 0 <= j < |r| && r[j] == x;
      assert x == if j < i then avail[j] else avail[j + 1];
    }
    if x in avail && x != avail[i] {
      var j :| 0 <= j < |avail| && avail[j] == x;
      if j < i { assert r[j] == x; } else { assert r[j - 1] == x; }
    }
  }

  lemma RemoveAtAscending(avail: seq<nat>, i: nat)
    requires StrictlyIncreasing(avail) && i < |avail|
    ensures StrictlyIncreasing(RemoveAt(avail, i))
    ensures forall x :: x in RemoveAt(avail, i) <==> x in avail && x != avail[i]
  {
    var r := RemoveAt(avail, i);
    assert forall j :: 0 <= j < |r| ==> r[j] == if j < i then avail[j] else avail[j + 1];
    forall x ensures x in r <==> x in avail && x != avail[i] { RemoveAtMembers(avail, i, x); }
  }

  // ---------- Soundness and order ----------

  lemma ConsIsArrangement(avail: seq<nat>, k: nat, i: nat, p: seq<nat>)
    requires StrictlyIncreasing(avail) && i < |avail| && k > 0
    requires IsArrangement(RemoveAt(avail, i), k - 1, p)
    ensures IsArrangement(avail, k, [avail[i]] + p)
  {
    RemoveAtAscending(avail, i);
    var q := [avail[i]] + p;
    forall a, b | 0 <= a < b < |q| ensures q[a] != q[b] {
      assert q[b] == p[b - 1] && p[b - 1] in p;
      if a > 0 { assert q[a] == p[a - 1]; }
    }
  }

  /** Every listed selection is an arrangement, and the list is in strict lexicographic order. */
  lemma {:induction false} ArrangementsSound(avail: seq<nat>, k: nat)
    requires StrictlyIncreasing(avail)
    ensures Ascending(Arrangements(avail, k))
    ensures forall p :: p in Arrangements(avail, k) ==> IsArrangement(avail, k, p)
    decreases k, |avail| + 1
  {
    if k > 0 { ArrangementsFromSound(avail, k, 0); }
  }

  lemma LaterStartsHigher(avail: seq<nat>, i: nat, p: seq<nat>, q: seq<nat>)
    requires StrictlyIncreasing(avail) && i < |avail|
    requires p != [] && p[0] == avail[i] && q != [] && q[0] in avail[i + 1..]
    ensures LexLess(p, q)
  {
    var j :| 0 <= j < |avail[i + 1..]| && avail[i + 1..][j] == q[0];
    assert avail[i + 1 + j] == q[0];
  }

  lemma {:induction false} ArrangementsFromSound(avail: seq<nat>, k: nat, i: nat)
    requires StrictlyIncreasing(avail) && k > 0 && i <= |avail|
    ensures var ls := ArrangementsFrom(avail, k, i);
            && Ascending(ls)
            && forall p :: p in ls ==> IsArrangement(avail, k, p) && p[0] in avail[i..]
    decreases k, |avail| - i
  {
    if i < |avail| {
      RemoveAtAscending(avail, i);
      ArrangementsSound(RemoveAt(avail, i), k - 1);
      ArrangementsFromSound(avail, k, i + 1);
      var subs := Arrangements(RemoveAt(avail, i), k - 1);
      var block, rest := Prepend(avail[i], subs), ArrangementsFrom(avail, k, i + 1);
      PrependAscending(avail[i], subs);
      forall p | p in block ensures IsArrangement(avail, k, p) && p[0] == avail[i] {
        var j :| 0 <= j < |block| && block[j] == p;
        assert subs[j] in subs;
        ConsIsArrangement(avail, k, i, subs[j]);
      }
      forall a, b | 0 <= a < |block| && 0 <= b < |rest| ensures LexLess(block[a], rest[b]) {
        assert block[a] in block && rest[b] in rest;
        LaterStartsHigher(avail, i, block[a], rest[b]);
      }
      ConcatAscending(block, rest);
      assert avail[i..] == [avail[i]] + avail[i + 1..];
    }
  }

  // ---------- Completeness ----------

  lemma {:induction false} BlockListed(avail: seq<nat>, k: nat, i: nat, j: nat, p: seq<nat>)
    requires k > 0 && j <= i < |avail|
    requires p in Prepend(avail[i], Arrangements(RemoveAt(avail, i), k - 1))
    ensures p in ArrangementsFrom(avail, k, j)
    decreases i - j
  {
    if j < i { BlockListed(avail, k, i, j + 1, p); }
  }

  /** Every arrangement is listed. */
  lemma {:induction false} ArrangementsComplete(avail: seq<nat>, k: nat, p: seq<nat>)
    requires StrictlyIncreasing(avail) && IsArrangement(avail, k, p)
    ensures p in Arrangements(avail, k)
    decreases k
  {
    if k == 0 {
      assert p == [];
    } else {
      assert p[0] in avail;
      var i :| 0 <= i < |avail| && avail[i] == p[0];
      var sub, tail := RemoveAt(avail, i), p[1..];
      RemoveAtAscending(avail, i);
      forall x | x in tail ensures x in sub {
        var j :| 0 <= j < |tail| && tail[j] == x;
        assert p[j + 1] == x && p[j + 1] in p && p[0] != p[j + 1];
      }
      ArrangementsComplete(sub, k - 1, tail);
      var subs := Arrangements(sub, k - 1);
      var j :| 0 <= j < |subs| && subs[j] == tail;
      assert p == [avail[i]] + tail;
      assert Prepend(avail[i], subs)[j] == p;
      BlockListed(avail, k, i, 0, p);
    }
  }

  // ---------- Counting ----------

  /** n (n - 1) ... (n - k + 1), which is 0 for k > n. */
  function FallingFactorial(n: nat, k: nat): nat
    decreases k
  {
    if k == 0 then 1 else if n == 0 then 0 else n * FallingFactorial(n - 1, k - 1)
  }

  function Factorial(n: nat): nat {
    if n == 0 then 1 else n * Factorial(n - 1)
  }

  lemma ProductAssoc(a: nat, b: nat, c: nat)
    ensures a * b * c == a * (b * c)
  {
  }

  /** The falling factorial is n! / (n - k)!. */
  lemma {:induction false} FallingFactorialIsQuotient(n: nat, k: nat)
    requires k <= n
    ensures FallingFactorial(n, k) * Factorial(n - k) == Factorial(n)
    decreases k
  {
    if k == 0 {
      assert FallingFactorial(n, 0) == 1;
    } else {
      calc {
        FallingFactorial(n, k) * Factorial(n - k);
        n * FallingFactorial(n - 1, k - 1) * Factorial(n - k);
        { ProductAssoc(n, FallingFactorial(n - 1, k - 1), Factorial(n - k)); }
        n * (FallingFactorial(n - 1, k - 1) * Factorial((n - 1) - (k - 1)));
        { FallingFactorialIsQuotient(n - 1, k - 1); }
        n * Factorial(n - 1);
        Factorial(n);
      }
    }
  }

  lemma {:induction false} TooManyNone(n: nat, k: nat)
    requires k > n
    ensures FallingFactorial(n, k) == 0
  {
    if n > 0 { TooManyNone(n - 1, k - 1); }
  }

  lemma {:induction false} CountArrangements(avail: seq<nat>, k: nat)
    ensures |Arrangements(avail, k)| == FallingFactorial(|avail|, k)
    decreases k, |avail| + 1
  {
    if k > 0 {
      CountArrangementsFrom(avail, k, 0);
    }
  }

  lemma {:induction false} CountArrangementsFrom(avail: seq<nat>, k: nat, i: nat)
    requires k > 0 && i <= |avail|
    ensures |avail| == 0 ==> |ArrangementsFrom(avail, k, i)| == 0
    ensures |avail| > 0 ==>
              |ArrangementsFrom(avail, k, i)| == (|avail| - i) * FallingFactorial(|avail| - 1, k - 1)
    decreases k, |avail| - i
  {
    if i < |avail| {
      CountArrangements(RemoveAt(avail, i), k - 1);
      CountArrangementsFrom(avail, k, i + 1);
      var f := FallingFactorial(|avail| - 1, k - 1);
      assert f + (|avail| - (i + 1)) * f == (|avail| - i) * f;
    }
  }

  // ---------- All lengths ----------

  function Range(n: nat): (r: seq<nat>)
    ensures |r| == n && forall i :: 0 <= i < n ==> r[i] == i
  {
    seq(n, i => i)
  }

  /** The arrangements of the positions below `n` of every length below `bound`, shorter ones first. */
  function ArrangementsBelow(n: nat, bound: nat): seq<seq<nat>> {
    if bound == 0 then [] else ArrangementsBelow(n, bound - 1) + Arrangements(Range(n), bound - 1)
  }

  function CountBelow(n: nat, bound: nat): nat {
    if bound == 0 then 0 else CountBelow(n, bound - 1) + FallingFactorial(n, bound - 1)
  }

  ghost predicate DistinctPositions(n: nat, p: seq<nat>) {
    Distinct(p) && forall i :: 0 <= i < |p| ==> p[i] < n
  }

  lemma InRange(n: nat, k: nat, p: seq<nat>)
    ensures p in Arrangements(Range(n), k) <==> |p| == k && DistinctPositions(n, p)
  {
    ArrangementsSound(Range(n), k);
    assert forall i :: 0 <= i < |p| ==> p[i] in p;
    if |p| == k && DistinctPositions(n, p) {
      forall x | x in p ensures x in Range(n) {
        assert Range(n)[x] == x;
      }
      ArrangementsComplete(Range(n), k, p);
    }
  }

  /** Each list of distinct positions shorter than the bound occurs, and nothing else does. */
  lemma {:induction false} ArrangementsBelowMember(n: nat, bound: nat, p: seq<nat>)
    ensures p in ArrangementsBelow(n, bound) <==> |p| < bound && DistinctPositions(n, p)
  {
    if bound > 0 {
      ArrangementsBelowMember(n, bound - 1, p);
      InRange(n, bound - 1, p);
    }
  }

  /** No list occurs twice. */
  lemma {:induction false} ArrangementsBelowDistinct(n: nat, bound: nat)
    ensures Distinct(ArrangementsBelow(n, bound))
  {
    if bound > 0 {
      var shorter, last := ArrangementsBelow(n, bound - 1), Arrangements(Range(n), bound - 1);
      ArrangementsBelowDistinct(n, bound - 1);
      ArrangementsSound(Range(n), bound - 1);
      AscendingIsDistinct(last);
      forall p | p in shorter ensures p !in last {
        ArrangementsBelowMember(n, bound - 1, p);
        InRange(n, bound - 1, p);
      }
      DistinctConcat(shorter, last);
    }
  }

  lemma {:induction false} CountArrangementsBelow(n: nat, bound: nat)
    ensures |ArrangementsBelow(n, bound)| == CountBelow(n, bound)
  {
    if bound > 0 {
      CountArrangementsBelow(n, bound - 1);
      CountArrangements(Range(n), bound - 1);
    }
  }

  lemma RemoveAtDistinct(p: seq<nat>, i: nat)
    requires Distinct(p) && i < |p|
    ensures Distinct(RemoveAt(p, i))
    ensures forall x :: x in RemoveAt(p, i) ==> x in p && x != p[i]
  {
    var r := RemoveAt(p, i);
    assert forall j :: 0 <= j < |r| ==> r[j] == if j < i then p[j] else p[j + 1];
  }

  lemma {:induction false} DistinctPositionsFit(n: nat, p: seq<nat>)
    requires DistinctPositions(n, p)
    ensures |p| <= n
  {
    assert |p| > 0 ==> p[0] < n;
    if n == 0 {
    } else if n - 1 in p {
      var i :| 0 <= i < |p| && p[i] == n - 1;
      RemoveAtDistinct(p, i);
      assert forall j :: 0 <= j < |p| - 1 ==> RemoveAt(p, i)[j] in RemoveAt(p, i);
      DistinctPositionsFit(n - 1, RemoveAt(p, i));
    } else {
      assert forall j :: 0 <= j < |p| ==> p[j] in p;
      DistinctPositionsFit(n - 1, p);
    }
  }

  /** Lengths beyond `n` add nothing, so any bound above `n` gives all lists of distinct positions. */
  lemma {:induction false} CountBeyond(n: nat, bound: nat)
    requires bound > n
    ensures CountBelow(n, bound) == CountBelow(n, n + 1)
  {
    if bound > n + 1 {
      TooManyNone(n, bound - 1);
      CountBeyond(n, bound - 1);
    }
  }

  lemma ListedPositions(n: nat, k: nat)
    ensures forall i :: 0 <= i < |Arrangements(Range(n), k)| ==> DistinctPositions(n, Arrangements(Range(n), k)[i])
    ensures forall i :: 0 <= i < |ArrangementsBelow(n, k)| ==> DistinctPositions(n, ArrangementsBelow(n, k)[i])
  {
    var last, below := Arrangements(Range(n), k), ArrangementsBelow(n, k);
    forall i | 0 <= i < |last| ensures DistinctPositions(n, last[i]) {
      assert last[i] in last;
      InRange(n, k, last[i]);
    }
    forall i | 0 <= i < |below| ensures DistinctPositions(n, below[i]) {
      assert below[i] in below;
      ArrangementsBelowMember(n, k, below[i]);
    }
  }
}
