// The bound on the size of the cache under concurrency is reached: runs whose puts all look at the size before any of
// them inserts.
module CacheTightness {
  import opened Wrappers
  import opened Dns
  import opened RequestKey
  import opened CacheObject
  import opened LruCache
  import opened CacheRuns
  import Seqs

  const SAMPLE := Message(7, Response, NoError, [], [Record("a.", 1, Address(V4(1)))], [], [])

  function KeyNo(i: nat): Request {
    [QueryKey(seq(i, _ => 'a'), TYPE_A, 1)]
  }

  lemma KeysDiffer(i: nat, j: nat)
    requires i != j
    ensures KeyNo(i) != KeyNo(j)
  {
    assert |KeyNo(i)[0].name| != |KeyNo(j)[0].name|;
  }

  function Filled(m: nat): EntryList {
    seq(m, i requires 0 <= i < m => Entry(KeyNo(i), ObjectOf(SAMPLE, 0)))
  }

  /** The task of a put that has seen room, or has not looked yet. */
  function PutNo(i: nat, sized: bool): Task {
    if sized then Inserting(KeyNo(i), ObjectOf(SAMPLE, 0)) else Sizing(KeyNo(i), ObjectOf(SAMPLE, 0))
  }

  /** The puts `from..to` are in flight; those below `sized` have seen room. */
  function PutsAt(from: nat, sized: nat, to: nat, base: nat): map<nat, Task> {
    if from >= to then map[] else PutsAt(from, sized, to - 1, base)[to - 1 := PutNo(base + to - 1, to - 1 < sized)]
  }

  lemma {:induction false} PutsAtFacts(from: nat, sized: nat, to: nat, base: nat)
    ensures forall u :: u in PutsAt(from, sized, to, base) <==> from <= u < to
    ensures forall u :: u in PutsAt(from, sized, to, base) ==>
              PutsAt(from, sized, to, base)[u] == PutNo(base + u, u < sized)
  {
    if from < to { PutsAtFacts(from, sized, to - 1, base); }
  }

  /** `base` entries, and `to` puts of which `sized` have seen room and `inserted` are done. */
  function Moment(base: nat, inserted: nat, sized: nat, to: nat): State {
    State(0, Filled(base + inserted), PutsAt(inserted, sized, to, base))
  }

  lemma FilledGrows(m: nat)
    ensures InsertBack(Filled(m), KeyNo(m), ObjectOf(SAMPLE, 0)) == Filled(m + 1)
  {
    forall i | 0 <= i < m ensures Filled(m)[i].key != KeyNo(m) { KeysDiffer(i, m); }
    assert !Has(Filled(m), KeyNo(m));
  }

  lemma SampleIsCacheable()
    ensures Cacheable(SAMPLE)
  {
  }

  lemma PutsAtSize(sized: nat, to: nat, base: nat)
    requires sized < to
    ensures sized in PutsAt(0, sized, to, base) && PutsAt(0, sized, to, base)[sized] == PutNo(base + sized, false)
    ensures PutsAt(0, sized, to, base)[sized := PutNo(base + sized, true)] == PutsAt(0, sized + 1, to, base)
  {
    PutsAtFacts(0, sized, to, base);
    PutsAtFacts(0, sized + 1, to, base);
  }

  lemma PutsAtDone(from: nat, to: nat, base: nat)
    requires from < to
    ensures from in PutsAt(from, to, to, base) && PutsAt(from, to, to, base)[from] == PutNo(base + from, true)
    ensures PutsAt(from, to, to, base) - {from} == PutsAt(from + 1, to, to, base)
  {
    PutsAtFacts(from, to, to, base);
    PutsAtFacts(from + 1, to, to, base);
  }

  lemma StartOne(maxSize: nat, b: nat, t: nat)
    ensures Step(maxSize, Moment(b, 0, 0, t), PutStart(t, KeyNo(b + t), SAMPLE)) == Moment(b, 0, 0, t + 1)
  {
    SampleIsCacheable();
    PutsAtFacts(0, 0, t, b);
  }

  lemma SizeOne(maxSize: nat, b: nat, t: nat, n: nat)
    requires b < maxSize && t < n
    ensures Step(maxSize, Moment(b, 0, t, n), PutSize(t)) == Moment(b, 0, t + 1, n)
  {
    PutsAtSize(t, n, b);
  }

  lemma InsertStep(maxSize: nat, s: State, t: nat)
    requires t in s.tasks && s.tasks[t].Inserting?
    ensures Step(maxSize, s, PutInsert(t)) ==
            Done(s, t).(entries := InsertBack(s.entries, s.tasks[t].key, s.tasks[t].obj))
  {
  }

  lemma InsertOne(maxSize: nat, b: nat, t: nat, n: nat)
    requires t < n
    ensures Step(maxSize, Moment(b, t, n, n), PutInsert(t)) == Moment(b, t + 1, n, n)
  {
    PutsAtDone(t, n, b);
    InsertStep(maxSize, Moment(b, t, n, n), t);
    FilledGrows(b + t);
  }

  predicate StartsBelow(acts: seq<Action>, n: nat) {
    forall i :: 0 <= i < |acts| ==> acts[i].PutStart? ==> acts[i].task < n
  }

  lemma {:induction false} FewIds(maxSize: nat, acts: seq<Action>, n: nat)
    requires StartsBelow(acts, n)
    ensures |Puts(After(maxSize, acts).tasks)| <= n
    ensures forall t :: t in Puts(After(maxSize, acts).tasks) ==> t < n
  {
    var s := After(maxSize, acts);
    if acts != [] {
      var last := |acts| - 1;
      FewIds(maxSize, acts[..last], n);
      forall t | t in Puts(s.tasks) ensures t < n {
        var s0 := After(maxSize, acts[..last]);
        PutTasksAfterStep(maxSize, s0, acts[last], t);
        assert t in Puts(s0.tasks) || (acts[last].PutStart? && acts[last].task == t);
      }
    }
    Seqs.SubsetSize(Puts(s.tasks), Seqs.Numbers(0, n));
  }

  lemma {:induction false} AllStart(maxSize: nat, acts: seq<Action>, b: nat, t: nat, n: nat) returns (more: seq<Action>)
    requires t <= n && StartsBelow(acts, n) && After(maxSize, acts) == Moment(b, 0, 0, t)
    ensures StartsBelow(more, n) && After(maxSize, more) == Moment(b, 0, 0, n)
    decreases n - t
  {
    more := acts;
    if t < n {
      StartOne(maxSize, b, t);
      AfterSnoc(maxSize, acts, PutStart(t, KeyNo(b + t), SAMPLE));
      more := AllStart(maxSize, acts + [PutStart(t, KeyNo(b + t), SAMPLE)], b, t + 1, n);
    }
  }

  lemma {:induction false} AllSize(maxSize: nat, acts: seq<Action>, b: nat, t: nat, n: nat) returns (more: seq<Action>)
    requires b < maxSize && t <= n && StartsBelow(acts, n) && After(maxSize, acts) == Moment(b, 0, t, n)
    ensures StartsBelow(more, n) && After(maxSize, more) == Moment(b, 0, n, n)
    decreases n - t
  {
    more := acts;
    if t < n {
      SizeOne(maxSize, b, t, n);
      AfterSnoc(maxSize, acts, PutSize(t));
      more := AllSize(maxSize, acts + [PutSize(t)], b, t + 1, n);
    }
  }

  lemma {:induction false} AllInsert(maxSize: nat, acts: seq<Action>, b: nat, t: nat, n: nat) returns (more: seq<Action>)
    requires t <= n && StartsBelow(acts, n) && After(maxSize, acts) == Moment(b, t, n, n)
    ensures StartsBelow(more, n) && After(maxSize, more) == Moment(b, n, n, n)
    decreases n - t
  {
    more := acts;
    if t < n {
      InsertOne(maxSize, b, t, n);
      AfterSnoc(maxSize, acts, PutInsert(t));
      more := AllInsert(maxSize, acts + [PutInsert(t)], b, t + 1, n);
    }
  }

  /** From `b` entries, `n` puts that all look at the size before any of them inserts. */
  lemma Overlapped(maxSize: nat, before: seq<Action>, b: nat, n: nat) returns (acts: seq<Action>)
    requires b < maxSize && StartsBelow(before, n) && After(maxSize, before) == Moment(b, 0, 0, 0)
    ensures StartsBelow(acts, n) && After(maxSize, acts) == Moment(b, n, n, n)
  {
    acts := AllStart(maxSize, before, b, 0, n);
    acts := AllSize(maxSize, acts, b, 0, n);
    acts := AllInsert(maxSize, acts, b, 0, n);
  }

  /** Puts one at a time until there are `b` entries. */
  lemma {:induction false} OneAtATime(maxSize: nat, b: nat) returns (acts: seq<Action>)
    requires b <= maxSize
    ensures StartsBelow(acts, 1) && After(maxSize, acts) == Moment(b, 0, 0, 0)
  {
    if b == 0 {
      acts := [];
    } else {
      acts := OneAtATime(maxSize, b - 1);
      acts := Overlapped(maxSize, acts, b - 1, 1);
    }
  }

  /** No smaller bound holds: for every maximum and every number of puts in flight, some run fills the cache that far. */
  lemma SizeBoundIsTight(maxSize: nat, n: nat) returns (acts: seq<Action>)
    requires maxSize >= 1 && n >= 1
    ensures AtMostInFlight(maxSize, acts, n)
    ensures |After(maxSize, acts).entries| == maxSize + n - 1
  {
    acts := OneAtATime(maxSize, maxSize - 1);
    acts := Overlapped(maxSize, acts, maxSize - 1, n);
    forall i | 0 <= i <= |acts| ensures |Puts(After(maxSize, acts[..i]).tasks)| <= n {
      FewIds(maxSize, acts[..i], n);
    }
  }

  ghost predicate SizeWithinMaximum(maxSize: nat, acts: seq<Action>) {
    |After(maxSize, acts).entries| <= maxSize
  }

  /** The configured maximum is kept over all runs with at most `n` puts in flight iff that is one at a time, or the
      maximum is 0. */
  lemma SizeWithinMaximumIffOnePut(maxSize: nat, n: nat)
    ensures (forall acts :: AtMostInFlight(maxSize, acts, n) ==> SizeWithinMaximum(maxSize, acts)) <==>
            n <= 1 || maxSize == 0
  {
    if n <= 1 || maxSize == 0 {
      forall acts | AtMostInFlight(maxSize, acts, n) ensures SizeWithinMaximum(maxSize, acts) {
        SizeBound(maxSize, acts, if n == 0 then 1 else n);
      }
    } else {
      var acts := SizeBoundIsTight(maxSize, n);
      assert !SizeWithinMaximum(maxSize, acts);
    }
  }
}
