// Runs of undisturbed cache operations: the list is always ordered by last touch, and only the entry untouched for
// longest is evicted.
module LruRuns {
  import opened Wrappers
  import opened Dns
  import opened RequestKey
  import opened CacheObject
  import opened LruCache

  /** One operation at its clock reading; readings need not be ordered. */
  datatype Op =
    | PutOp(key: Request, response: Message, now: Instant)
    | GetOp(key: Request, now: Instant)
    | PurgeOp(now: Instant)

  function Apply(maxSize: nat, l: EntryList, op: Op): EntryList {
    match op
    case PutOp(key, response, now) => PutSections(maxSize, l, key, response, now).0
    case GetOp(key, now) => GetSection(l, key, now).0
    case PurgeOp(now) => Unexpired(l, now)
  }

  /** The list after a run from an empty cache. */
  function After(maxSize: nat, ops: seq<Op>): EntryList {
    if ops == [] then []
    else Apply(maxSize, After(maxSize, ops[..|ops| - 1]), ops[|ops| - 1])
  }

  /** A put that stores its response touches its key, and so does a get that hits. */
  predicate Touches(maxSize: nat, l: EntryList, op: Op, k: Request) {
    match op
    case PutOp(key, response, now) =>
      key == k && Cacheable(response) && PutSections(maxSize, l, key, response, now).1.Ok?
    case GetOp(key, now) => key == k && GetSection(l, key, now).1.Some?
    case PurgeOp(_) => false
  }

  /** The number of the last operation of the run that touched a key, counted from 1; 0 if none did. */
  function LastTouch(maxSize: nat, ops: seq<Op>, k: Request): nat {
    if ops == [] then 0
    else if Touches(maxSize, After(maxSize, ops[..|ops| - 1]), ops[|ops| - 1], k) then |ops|
    else LastTouch(maxSize, ops[..|ops| - 1], k)
  }

  lemma {:induction false} LastTouchInRun(maxSize: nat, ops: seq<Op>, k: Request)
    ensures LastTouch(maxSize, ops, k) <= |ops|
  {
    if ops != [] { LastTouchInRun(maxSize, ops[..|ops| - 1], k); }
  }

  ghost function TouchTimes(maxSize: nat, ops: seq<Op>): Request -> nat {
    k => LastTouch(maxSize, ops, k)
  }

  /** Strictly ordered by a number given to each key. */
  ghost predicate OrderedBy(f: Request -> nat, l: EntryList) {
    forall i, j :: 0 <= i < j < |l| ==> f(l[i].key) < f(l[j].key)
  }

  lemma RemoveKeyOrdered(f: Request -> nat, l: EntryList, k: Request)
    requires OrderedBy(f, l)
    ensures OrderedBy(f, RemoveKey(l, k))
  {
    var n := IndexOf(l, k);
    var r := RemoveKey(l, k);
    if n < |l| {
      assert forall i :: 0 <= i < |r| ==> r[i] == if i < n then l[i] else l[i + 1];
    }
  }

  lemma {:induction false} UnexpiredOrdered(f: Request -> nat, l: EntryList, now: Instant)
    requires OrderedBy(f, l) && DistinctKeys(l)
    ensures OrderedBy(f, Unexpired(l, now))
  {
    if l != [] {
      var rest, kept := l[1..], Unexpired(l[1..], now);
      UnexpiredOrdered(f, rest, now);
      UnexpiredFacts(rest, now);
      forall j | 0 <= j < |kept| ensures f(l[0].key) < f(kept[j].key) {
        assert kept[j] in kept;
        var m :| 0 <= m < |rest| && rest[m] == kept[j];
        assert l[m + 1] == kept[j];
      }
    }
  }

  lemma AppendOrdered(f: Request -> nat, g: Request -> nat, l: EntryList, e: Entry)
    requires OrderedBy(f, l)
    requires forall i :: 0 <= i < |l| ==> g(l[i].key) == f(l[i].key) < g(e.key)
    ensures OrderedBy(g, l + [e])
  {
  }

  lemma SameOrder(f: Request -> nat, g: Request -> nat, l: EntryList)
    requires OrderedBy(f, l)
    requires forall i :: 0 <= i < |l| ==> g(l[i].key) == f(l[i].key)
    ensures OrderedBy(g, l)
  {
  }

  /** How one more operation changes the touch times. */
  lemma TouchTimesStep(maxSize: nat, ops: seq<Op>, op: Op, k: Request)
    ensures TouchTimes(maxSize, ops + [op])(k) ==
            if Touches(maxSize, After(maxSize, ops), op, k) then |ops| + 1 else TouchTimes(maxSize, ops)(k)
    ensures TouchTimes(maxSize, ops)(k) < |ops| + 1
  {
    var all := ops + [op];
    assert all[..|all| - 1] == ops && all[|all| - 1] == op;
    LastTouchInRun(maxSize, ops, k);
  }

  lemma TouchedGoesLast(maxSize: nat, ops: seq<Op>, op: Op, kept: EntryList, e: Entry)
    requires OrderedBy(TouchTimes(maxSize, ops), kept)
    requires forall k :: Touches(maxSize, After(maxSize, ops), op, k) <==> k == e.key
    requires !Has(kept, e.key)
    ensures OrderedBy(TouchTimes(maxSize, ops + [op]), kept + [e])
  {
    var f, g := TouchTimes(maxSize, ops), TouchTimes(maxSize, ops + [op]);
    TouchTimesStep(maxSize, ops, op, e.key);
    forall i | 0 <= i < |kept| ensures g(kept[i].key) == f(kept[i].key) < g(e.key) {
      TouchTimesStep(maxSize, ops, op, kept[i].key);
      assert Has(kept, kept[i].key);
    }
    AppendOrdered(f, g, kept, e);
  }

  lemma UntouchedStays(maxSize: nat, ops: seq<Op>, op: Op, kept: EntryList)
    requires OrderedBy(TouchTimes(maxSize, ops), kept)
    requires forall k :: !Touches(maxSize, After(maxSize, ops), op, k)
    ensures OrderedBy(TouchTimes(maxSize, ops + [op]), kept)
  {
    var f, g := TouchTimes(maxSize, ops), TouchTimes(maxSize, ops + [op]);
    forall i | 0 <= i < |kept| ensures g(kept[i].key) == f(kept[i].key) {
      TouchTimesStep(maxSize, ops, op, kept[i].key);
    }
    SameOrder(f, g, kept);
  }

  lemma GetKeepsOrder(maxSize: nat, ops: seq<Op>, key: Request, now: Instant)
    requires DistinctKeys(After(maxSize, ops)) && OrderedBy(TouchTimes(maxSize, ops), After(maxSize, ops))
    ensures OrderedBy(TouchTimes(maxSize, ops + [GetOp(key, now)]), GetSection(After(maxSize, ops), key, now).0)
  {
    var l, f := After(maxSize, ops), TouchTimes(maxSize, ops);
    RemoveKeyOrdered(f, l, key);
    RemoveKeyFacts(l, key);
    if GetSection(l, key, now).1.Some? {
      TouchedGoesLast(maxSize, ops, GetOp(key, now), RemoveKey(l, key), Entry(key, l[IndexOf(l, key)].obj));
    } else {
      UntouchedStays(maxSize, ops, GetOp(key, now), GetSection(l, key, now).0);
    }
  }

  lemma PutKeepsOrder(maxSize: nat, ops: seq<Op>, key: Request, response: Message, now: Instant)
    requires DistinctKeys(After(maxSize, ops)) && OrderedBy(TouchTimes(maxSize, ops), After(maxSize, ops))
    ensures OrderedBy(TouchTimes(maxSize, ops + [PutOp(key, response, now)]),
                      PutSections(maxSize, After(maxSize, ops), key, response, now).0)
  {
    var l, op := After(maxSize, ops), PutOp(key, response, now);
    if Cacheable(response) && PutSections(maxSize, l, key, response, now).1.Ok? {
      var base := if |l| < maxSize then l else l[1..];
      RemoveKeyOrdered(TouchTimes(maxSize, ops), base, key);
      RemoveKeyFacts(base, key);
      TouchedGoesLast(maxSize, ops, op, RemoveKey(base, key), Entry(key, ObjectOf(response, now)));
    } else {
      UntouchedStays(maxSize, ops, op, l);
    }
  }

  lemma StepKeepsOrder(maxSize: nat, ops: seq<Op>, op: Op)
    requires DistinctKeys(After(maxSize, ops)) && OrderedBy(TouchTimes(maxSize, ops), After(maxSize, ops))
    ensures OrderedBy(TouchTimes(maxSize, ops + [op]), Apply(maxSize, After(maxSize, ops), op))
  {
    match op
    case PurgeOp(now) =>
      UnexpiredOrdered(TouchTimes(maxSize, ops), After(maxSize, ops), now);
      UntouchedStays(maxSize, ops, op, Unexpired(After(maxSize, ops), now));
    case GetOp(key, now) => GetKeepsOrder(maxSize, ops, key, now);
    case PutOp(key, response, now) => PutKeepsOrder(maxSize, ops, key, response, now);
  }

  lemma GetKeepsBounds(l: EntryList, key: Request, now: Instant)
    requires DistinctKeys(l)
    ensures DistinctKeys(GetSection(l, key, now).0) && |GetSection(l, key, now).0| <= |l|
  {
    RemoveKeyFacts(l, key);
    if Has(l, key) { InsertBackFacts(l, key, l[IndexOf(l, key)].obj); }
  }

  lemma PutKeepsBounds(maxSize: nat, l: EntryList, key: Request, response: Message, now: Instant)
    requires DistinctKeys(l) && |l| <= maxSize
    ensures var put := PutSections(maxSize, l, key, response, now).0; DistinctKeys(put) && |put| <= maxSize
  {
    if |l| < maxSize {
      InsertBackFacts(l, key, ObjectOf(response, now));
    } else if l != [] {
      InsertBackFacts(l[1..], key, ObjectOf(response, now));
    }
  }

  lemma StepKeepsBounds(maxSize: nat, l: EntryList, op: Op)
    requires DistinctKeys(l) && |l| <= maxSize
    ensures DistinctKeys(Apply(maxSize, l, op)) && |Apply(maxSize, l, op)| <= maxSize
  {
    match op
    case PurgeOp(now) =>
      UnexpiredFacts(l, now);
      UnexpiredLength(l, now);
    case GetOp(key, now) => GetKeepsBounds(l, key, now);
    case PutOp(key, response, now) => PutKeepsBounds(maxSize, l, key, response, now);
  }

  lemma {:induction false} UnexpiredLength(l: EntryList, now: Instant)
    ensures |Unexpired(l, now)| <= |l|
  {
    if l != [] { UnexpiredLength(l[1..], now); }
  }

  /** In every run the list holds each key once, never more than the maximum, strictly ordered by last touch. */
  lemma {:induction false} RunsAreOrderedByTouch(maxSize: nat, ops: seq<Op>)
    ensures DistinctKeys(After(maxSize, ops)) && |After(maxSize, ops)| <= maxSize
    ensures OrderedBy(TouchTimes(maxSize, ops), After(maxSize, ops))
  {
    if ops != [] {
      var n := |ops| - 1;
      RunsAreOrderedByTouch(maxSize, ops[..n]);
      StepKeepsOrder(maxSize, ops[..n], ops[n]);
      StepKeepsBounds(maxSize, After(maxSize, ops[..n]), ops[n]);
      assert ops[..n] + [ops[n]] == ops;
    }
  }

  lemma {:induction false} ResidentKeys(l: EntryList) returns (keys: set<Request>)
    requires DistinctKeys(l)
    ensures |keys| == |l|
    ensures forall k :: k in keys <==> Has(l, k)
  {
    if l == [] {
      keys := {};
    } else {
      keys := ResidentKeys(l[1..]);
      assert !Has(l[1..], l[0].key);
      keys := keys + {l[0].key};
      forall k ensures k in keys <==> Has(l, k) {
        if Has(l, k) && k != l[0].key { assert IndexOf(l, k) == 1 + IndexOf(l[1..], k); }
      }
    }
  }

  lemma DroppedIsFront(maxSize: nat, l: EntryList, key: Request, response: Message, now: Instant, k: Request)
    requires DistinctKeys(l) && Has(l, k) && k != key
    requires !Has(PutSections(maxSize, l, key, response, now).0, k)
    ensures |l| >= maxSize && l[0].key == k
  {
    var i := IndexOf(l, k);
    var o := ObjectOf(response, now);
    if |l| < maxSize {
      InsertBackFacts(l, key, o);
      EntryFound(InsertBack(l, key, o), l[i]);
    } else if i > 0 {
      assert l[1..][i - 1] == l[i];
      InsertBackFacts(l[1..], key, o);
      EntryFound(InsertBack(l[1..], key, o), l[i]);
    }
  }

  /** A put drops another key only if that key has waited longest: at least `maxSize - 1` other resident keys were all
      touched after it. */
  lemma EvictedKeyWaitedLongest(maxSize: nat, ops: seq<Op>, key: Request, response: Message, now: Instant, k: Request)
    returns (others: set<Request>)
    requires Has(After(maxSize, ops), k) && k != key
    requires !Has(Apply(maxSize, After(maxSize, ops), PutOp(key, response, now)), k)
    ensures |others| >= maxSize - 1 && k !in others
    ensures forall x :: x in others ==>
              Has(After(maxSize, ops), x) && LastTouch(maxSize, ops, k) < LastTouch(maxSize, ops, x)
  {
    var l := After(maxSize, ops);
    RunsAreOrderedByTouch(maxSize, ops);
    DroppedIsFront(maxSize, l, key, response, now, k);
    others := ResidentKeys(l[1..]);
    forall x | x in others
      ensures Has(l, x) && LastTouch(maxSize, ops, k) < LastTouch(maxSize, ops, x) && x != k
    {
      var j := IndexOf(l[1..], x);
      assert l[j + 1].key == x;
      AtIndex(l, j + 1);
      assert TouchTimes(maxSize, ops)(l[0].key) < TouchTimes(maxSize, ops)(l[j + 1].key);
    }
  }

  /** A put that finds no room drops the front entry even if its own key is resident: exactly then the list gets
      shorter, unless the key is the front one. */
  lemma PutShrinksIffResidentBehindFront(maxSize: nat, l: EntryList, key: Request, response: Message, now: Instant)
    requires DistinctKeys(l)
    ensures |PutSections(maxSize, l, key, response, now).0| < |l| <==>
            Cacheable(response) && l != [] && |l| >= maxSize && Has(l[1..], key)
  {
    InsertBackFacts(l, key, ObjectOf(response, now));
    if l != [] {
      InsertBackFacts(l[1..], key, ObjectOf(response, now));
    }
  }
}
