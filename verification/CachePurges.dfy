// Purges with other tasks in between: what they remove, and when that is an entry put after they looked.
module CachePurges {
  import opened Wrappers
  import opened Dns
  import opened RequestKey
  import opened CacheObject
  import opened LruCache
  import opened CacheRuns

  // ---------- Purging in between ----------

  /** A purge's counters are honest, and the entry it is about to remove has expired. */
  predicate PurgeSound(p: Task, now: Instant)
    requires p.Purging? || p.Removing?
  {
    && p.removed <= p.count <= p.next
    && (p.Removing? ==> p.next < |p.snapshot| && Expired(p.snapshot[p.next].obj, now))
  }

  /** A purge step goes on with its snapshot and stays sound; a new purge starts from the entries of the moment. */
  lemma PurgeStep(maxSize: nat, s: State, a: Action, t: nat)
    requires var s' := Step(maxSize, s, a); t in s'.tasks && !s'.tasks[t].IsPut()
    requires t in s.tasks && !s.tasks[t].IsPut() ==> PurgeSound(s.tasks[t], s.now)
    ensures var s' := Step(maxSize, s, a);
            && PurgeSound(s'.tasks[t], s'.now)
            && (if t in s.tasks then !s.tasks[t].IsPut() && s'.tasks[t].snapshot == s.tasks[t].snapshot
                else a == PurgeStart(t) && s'.tasks[t].snapshot == s.entries)
  {
  }

  lemma {:induction false} PurgesAreSound(maxSize: nat, acts: seq<Action>, t: nat)
    requires t in After(maxSize, acts).tasks && !After(maxSize, acts).tasks[t].IsPut()
    ensures PurgeSound(After(maxSize, acts).tasks[t], After(maxSize, acts).now)
  {
    var n := |acts| - 1;
    var s := After(maxSize, acts[..n]);
    if t in s.tasks && !s.tasks[t].IsPut() {
      PurgesAreSound(maxSize, acts[..n], t);
    }
    PurgeStep(maxSize, s, acts[n], t);
  }

  /** A running purge works on what the cache held at the moment `j` when it started. */
  lemma {:induction false} SnapshotIsPast(maxSize: nat, acts: seq<Action>, t: nat) returns (j: nat)
    requires t in After(maxSize, acts).tasks && !After(maxSize, acts).tasks[t].IsPut()
    ensures j < |acts| && acts[j] == PurgeStart(t)
    ensures After(maxSize, acts).tasks[t].snapshot == After(maxSize, acts[..j]).entries
  {
    var n := |acts| - 1;
    var s := After(maxSize, acts[..n]);
    if t in s.tasks && !s.tasks[t].IsPut() {
      PurgesAreSound(maxSize, acts[..n], t);
    }
    PurgeStep(maxSize, s, acts[n], t);
    if t in s.tasks {
      j := SnapshotIsPast(maxSize, acts[..n], t);
      assert acts[..n][..j] == acts[..j];
    } else {
      j := n;
    }
  }

  /** A purge removes a key only if its snapshot, taken at moment `j` of the run, held that key with an object that has
      expired by now; it never touches another key, and it counts at least what it removes. */
  lemma PurgeRemovesOnlyExpiredSnapshots(maxSize: nat, acts: seq<Action>, t: nat, k: Request)
    returns (j: nat, e: Entry)
    requires var s := After(maxSize, acts);
             Has(s.entries, k) && !Has(Step(maxSize, s, PurgeRemove(t)).entries, k)
    ensures j < |acts| && acts[j] == PurgeStart(t)
    ensures e in After(maxSize, acts[..j]).entries && e.key == k && Expired(e.obj, After(maxSize, acts).now)
    ensures var s := After(maxSize, acts);
            t in s.tasks && s.tasks[t].Removing? && s.tasks[t].removed <= s.tasks[t].count
    ensures forall other :: other != k && Has(After(maxSize, acts).entries, other) ==>
              Has(Step(maxSize, After(maxSize, acts), PurgeRemove(t)).entries, other)
  {
    var s := After(maxSize, acts);
    PurgesAreSound(maxSize, acts, t);
    RunsAreConsistent(maxSize, acts);
    var p := s.tasks[t];
    e := p.snapshot[p.next];
    forall other | other != e.key && Has(s.entries, other) ensures Has(RemoveKey(s.entries, e.key), other) {
      RemoveKeyFacts(s.entries, e.key);
      EntryFound(RemoveKey(s.entries, e.key), s.entries[IndexOf(s.entries, other)]);
    }
    j := SnapshotIsPast(maxSize, acts, t);
  }

  // ---------- When a purge drops a fresh entry ----------

  /** An unexpired entry is gone. */
  ghost predicate LosesFresh(l: EntryList, kept: EntryList, now: Instant) {
    exists e :: e in l && e !in kept && !Expired(e.obj, now)
  }

  lemma RemovalLosesFreshIffGetHits(l: EntryList, k: Request, now: Instant)
    requires DistinctKeys(l)
    ensures LosesFresh(l, RemoveKey(l, k), now) <==> GetSection(l, k, now).1.Some?
  {
    RemoveKeyFacts(l, k);
    if Has(l, k) {
      var e := l[IndexOf(l, k)];
      assert e in l && e !in RemoveKey(l, k);
      forall x | x in l && x !in RemoveKey(l, k) ensures x == e {
        EntryFound(l, x);
      }
    }
  }

  lemma RemoveStep(maxSize: nat, s: State, t: nat)
    requires t in s.tasks && s.tasks[t].Removing? && s.tasks[t].next < |s.tasks[t].snapshot|
    ensures Step(maxSize, s, PurgeRemove(t)).entries == RemoveKey(s.entries, s.tasks[t].snapshot[s.tasks[t].next].key)
  {
  }

  /** The removal is by key, not by object: it drops an unexpired entry exactly if a get for the key would hit. */
  lemma RemovalDropsFreshIffGetHits(maxSize: nat, acts: seq<Action>, t: nat)
    requires t in After(maxSize, acts).tasks && After(maxSize, acts).tasks[t].Removing?
    ensures var s := After(maxSize, acts);
            var p := s.tasks[t];
            && p.next < |p.snapshot|
            && (LosesFresh(s.entries, Step(maxSize, s, PurgeRemove(t)).entries, s.now)
                <==> CacheGet(maxSize, acts, p.snapshot[p.next].key).Some?)
  {
    var s := After(maxSize, acts);
    PurgesAreSound(maxSize, acts, t);
    RunsAreConsistent(maxSize, acts);
    RemoveStep(maxSize, s, t);
    RemovalLosesFreshIffGetHits(s.entries, s.tasks[t].snapshot[s.tasks[t].next].key, s.now);
  }

  /** Said on the history of the run: exactly if the last object inserted for the key has not expired and no pop or purge
      removal has taken the key out since. */
  lemma RemovalDropsFreshIffMapStillHolds(maxSize: nat, acts: seq<Action>, t: nat)
    requires t in After(maxSize, acts).tasks && After(maxSize, acts).tasks[t].Removing?
    ensures After(maxSize, acts).tasks[t].next < |After(maxSize, acts).tasks[t].snapshot|
    ensures var s := After(maxSize, acts);
            var k := s.tasks[t].snapshot[s.tasks[t].next].key;
            LosesFresh(s.entries, Step(maxSize, s, PurgeRemove(t)).entries, s.now) <==>
            ReferenceGet(maxSize, acts, k).Some? && !DroppedSinceInsert(maxSize, acts, k)
  {
    RemovalDropsFreshIffGetHits(maxSize, acts, t);
    var p := After(maxSize, acts).tasks[t];
    GetAgreesWithTtlMap(maxSize, acts, p.snapshot[p.next].key);
    GetIsExactWithoutRemovals(maxSize, acts, p.snapshot[p.next].key);
  }

  /** Action `i` of the run is an insert section for this key. */
  predicate InsertsAt(maxSize: nat, acts: seq<Action>, i: nat, k: Request) {
    i < |acts| && Inserts(After(maxSize, acts[..i]), acts[i], k)
  }

  lemma InsertsBefore(maxSize: nat, acts: seq<Action>, n: nat, i: nat, k: Request)
    requires i < n <= |acts|
    ensures InsertsAt(maxSize, acts[..n], i, k) <==> InsertsAt(maxSize, acts, i, k)
  {
    assert acts[..n][..i] == acts[..i];
  }

  lemma {:induction false} LatestUnlessInserted(maxSize: nat, acts: seq<Action>, j: nat, k: Request)
    requires j <= |acts| && forall i: nat :: j <= i ==> !InsertsAt(maxSize, acts, i, k)
    ensures Latest(maxSize, acts, k) == Latest(maxSize, acts[..j], k)
  {
    var n := |acts| - 1;
    if j == |acts| {
      assert acts[..j] == acts;
    } else {
      forall i: nat | j <= i < n ensures !InsertsAt(maxSize, acts[..n], i, k) {
        InsertsBefore(maxSize, acts, n, i, k);
      }
      LatestUnlessInserted(maxSize, acts[..n], j, k);
      assert acts[..n][..j] == acts[..j];
      assert !InsertsAt(maxSize, acts, n, k);
    }
  }

  /** So it can drop a fresh entry only if the key was inserted again at some moment `i` after the purge began at `j`. */
  lemma FreshRemovalNeedsInsertDuringPurge(maxSize: nat, acts: seq<Action>, t: nat) returns (j: nat, i: nat)
    requires t in After(maxSize, acts).tasks && After(maxSize, acts).tasks[t].Removing?
    requires var s := After(maxSize, acts);
             LosesFresh(s.entries, Step(maxSize, s, PurgeRemove(t)).entries, s.now)
    ensures j <= i < |acts| && acts[j] == PurgeStart(t)
    ensures var p := After(maxSize, acts).tasks[t];
            p.next < |p.snapshot| && InsertsAt(maxSize, acts, i, p.snapshot[p.next].key)
  {
    RemovalDropsFreshIffGetHits(maxSize, acts, t);
    var p := After(maxSize, acts).tasks[t];
    var e := p.snapshot[p.next];
    PurgesAreSound(maxSize, acts, t);
    j := SnapshotIsPast(maxSize, acts, t);
    RunsAreConsistent(maxSize, acts[..j]);
    assert Tracked(maxSize, acts[..j], e);
    GetAgreesWithTtlMap(maxSize, acts, e.key);
    if forall i: nat :: j <= i ==> !InsertsAt(maxSize, acts, i, e.key) {
      LatestUnlessInserted(maxSize, acts, j, e.key);
      assert false;
    }
    i :| j <= i && InsertsAt(maxSize, acts, i, e.key);
  }

  // It does happen, for every key and every response, with any room at all.

  function PutOf(k: Request, r: Message): seq<Action> {
    [PutStart(0, k, r)] + [PutSize(0)] + [PutPop(0)] + [PutInsert(0)]
  }

  lemma AfterFour(maxSize: nat, acts: seq<Action>, a: Action, b: Action, c: Action, d: Action)
    ensures After(maxSize, acts + ([a] + [b] + [c] + [d])) ==
            Step(maxSize, Step(maxSize, Step(maxSize, Step(maxSize, After(maxSize, acts), a), b), c), d)
  {
    assert acts + ([a] + [b] + [c] + [d]) == acts + [a] + [b] + [c] + [d];
    AfterSnoc(maxSize, acts, a);
    AfterSnoc(maxSize, acts + [a], b);
    AfterSnoc(maxSize, acts + [a] + [b], c);
    AfterSnoc(maxSize, acts + [a] + [b] + [c], d);
  }

  lemma AfterPut(maxSize: nat, acts: seq<Action>, k: Request, r: Message)
    requires 0 !in After(maxSize, acts).tasks
    ensures var s := After(maxSize, acts);
            After(maxSize, acts + PutOf(k, r)) == s.(entries := PutSections(maxSize, s.entries, k, r, s.now).0)
  {
    AfterFour(maxSize, acts, PutStart(0, k, r), PutSize(0), PutPop(0), PutInsert(0));
    UndisturbedPut(maxSize, After(maxSize, acts), 0, k, r);
  }

  lemma PutOverSameKey(maxSize: nat, l: EntryList, k: Request, r: Message, now: Instant)
    requires maxSize >= 1 && Cacheable(r) && (l == [] || (|l| == 1 && l[0].key == k))
    ensures PutSections(maxSize, l, k, r, now).0 == [Entry(k, ObjectOf(r, now))]
  {
    if l != [] { assert l[1..] == []; }
  }

  /** Longer than the response lives. */
  function Lifetime(r: Message): nat {
    MinTtl(r.answers) * SECOND + 1
  }

  function PurgeBegins(k: Request, r: Message): seq<Action> {
    PutOf(k, r) + [Tick(Lifetime(r))] + [PurgeStart(1)] + [PurgeCheck(1)]
  }

  lemma PurgeOfStale(maxSize: nat, s: State, stale: EntryList, wait: nat)
    requires s == State(0, stale, map[]) && stale != [] && Expired(stale[0].obj, wait)
    ensures var started := Step(maxSize, Step(maxSize, s, Tick(wait)), PurgeStart(1));
            Step(maxSize, started, PurgeCheck(1)) == State(wait, stale, map[1 := Removing(stale, 0, 0, 0)])
  {
    var started := Step(maxSize, Step(maxSize, s, Tick(wait)), PurgeStart(1));
    assert started == State(wait, stale, map[1 := Purging(stale, 0, 0, 0)]);
    assert started.tasks[1 := Removing(stale, 0, 0, 0)] == map[1 := Removing(stale, 0, 0, 0)];
  }

  lemma AfterPurgeBegins(maxSize: nat, k: Request, r: Message)
    requires maxSize >= 1 && Cacheable(r)
    ensures var stale := [Entry(k, ObjectOf(r, 0))];
            After(maxSize, PurgeBegins(k, r)) == State(Lifetime(r), stale, map[1 := Removing(stale, 0, 0, 0)])
  {
    AfterPut(maxSize, [], k, r);
    assert [] + PutOf(k, r) == PutOf(k, r);
    PutOverSameKey(maxSize, [], k, r, 0);
    PurgeOfStale(maxSize, After(maxSize, PutOf(k, r)), [Entry(k, ObjectOf(r, 0))], Lifetime(r));
    AfterSnoc(maxSize, PutOf(k, r), Tick(Lifetime(r)));
    AfterSnoc(maxSize, PutOf(k, r) + [Tick(Lifetime(r))], PurgeStart(1));
    AfterSnoc(maxSize, PutOf(k, r) + [Tick(Lifetime(r))] + [PurgeStart(1)], PurgeCheck(1));
  }

  /** A put, its expiry, the start of a purge, the same put again: now the purge drops the fresh entry. */
  lemma PurgeCanRemoveFreshEntry(maxSize: nat, k: Request, r: Message) returns (acts: seq<Action>)
    requires maxSize >= 1 && Cacheable(r)
    ensures 1 in After(maxSize, acts).tasks && After(maxSize, acts).tasks[1].Removing?
    ensures CacheGet(maxSize, acts, k).Some? && CacheGet(maxSize, acts + [PurgeRemove(1)], k) == None
    ensures var s := After(maxSize, acts);
            LosesFresh(s.entries, Step(maxSize, s, PurgeRemove(1)).entries, s.now)
  {
    acts := PurgeBegins(k, r) + PutOf(k, r);
    AfterPurgeBegins(maxSize, k, r);
    AfterPut(maxSize, PurgeBegins(k, r), k, r);
    PutOverSameKey(maxSize, [Entry(k, ObjectOf(r, 0))], k, r, Lifetime(r));
    var s := After(maxSize, acts);
    assert s.entries == [Entry(k, ObjectOf(r, Lifetime(r)))];
    FreshHit(s.entries, k, s.now);
    RemovalDropsFreshIffGetHits(maxSize, acts, 1);
    AfterSnoc(maxSize, acts, PurgeRemove(1));
    RemoveStep(maxSize, s, 1);
    RemoveKeyFacts(s.entries, k);
  }

  lemma FreshHit(l: EntryList, k: Request, now: Instant)
    requires |l| == 1 && l[0].key == k && !Expired(l[0].obj, now)
    ensures GetSection(l, k, now).1 == Some(l[0].obj)
  {
  }

  // ---------- A purge with nothing in between ----------

  /** The purge looks at `n` entries, each time removing what it saw expired. */
  function Turns(maxSize: nat, s: State, t: nat, n: nat): State {
    if n == 0 then s
    else Step(maxSize, Step(maxSize, Turns(maxSize, s, t, n - 1), PurgeCheck(t)), PurgeRemove(t))
  }

  /** A purge that has looked at the first `i` entries of `l` and dropped the expired ones among them. */
  ghost predicate Midway(before: State, s: State, t: nat, i: nat)
    requires i <= |before.entries|
  {
    var gone := |before.entries| - |Halfway(before.entries, i, before.now)|;
    && gone >= 0
    && s == State(before.now, Halfway(before.entries, i, before.now),
                  before.tasks[t := Purging(before.entries, i, gone, gone)])
  }

  lemma OneTurn(maxSize: nat, before: State, s: State, t: nat, i: nat)
    requires DistinctKeys(before.entries) && i < |before.entries| && Midway(before, s, t, i)
    ensures Midway(before, Step(maxSize, Step(maxSize, s, PurgeCheck(t)), PurgeRemove(t)), t, i + 1)
  {
    var l, now := before.entries, before.now;
    var seen := Step(maxSize, s, PurgeCheck(t));
    PurgeOne(l, i, now);
    if Expired(l[i].obj, now) {
      var gone := |l| - |Halfway(l, i, now)|;
      assert seen.tasks == before.tasks[t := Removing(l, i, gone, gone)];
      assert Has(s.entries, l[i].key);
      assert Step(maxSize, seen, PurgeRemove(t)).tasks == before.tasks[t := Purging(l, i + 1, gone + 1, gone + 1)];
    } else {
      assert Step(maxSize, seen, PurgeRemove(t)) == seen;
      assert seen.tasks == before.tasks[t := Purging(l, i + 1, s.tasks[t].count, s.tasks[t].removed)];
    }
  }

  lemma NoTurn(maxSize: nat, before: State, t: nat)
    requires t !in before.tasks
    ensures Midway(before, Step(maxSize, before, PurgeStart(t)), t, 0)
  {
    assert Halfway(before.entries, 0, before.now) == before.entries;
  }

  lemma {:induction false} AllTurns(maxSize: nat, before: State, start: State, t: nat, n: nat)
    requires DistinctKeys(before.entries) && n <= |before.entries| && Midway(before, start, t, 0)
    ensures Midway(before, Turns(maxSize, start, t, n), t, n)
  {
    if n > 0 {
      AllTurns(maxSize, before, start, t, n - 1);
      OneTurn(maxSize, before, Turns(maxSize, start, t, n - 1), t, n - 1);
    }
  }

  lemma LastCheck(maxSize: nat, before: State, last: State, t: nat)
    requires t !in before.tasks && Midway(before, last, t, |before.entries|)
    ensures var gone := |before.entries| - |Unexpired(before.entries, before.now)|;
            && gone >= 0
            && last.tasks == before.tasks[t := Purging(before.entries, |before.entries|, gone, gone)]
    ensures Step(maxSize, last, PurgeCheck(t)) == State(before.now, Unexpired(before.entries, before.now), before.tasks)
  {
    var l := before.entries;
    assert l[..|l|] == l && l[|l|..] == [];
    assert Halfway(l, |l|, before.now) == Unexpired(l, before.now);
    assert last.tasks - {t} == before.tasks;
  }

  /** The lock sections of a purge, with nothing in between, do what the purge of the cache object does: exactly the
      expired entries go, both counters say how many, and the purge is over. */
  lemma UndisturbedPurge(maxSize: nat, s: State, t: nat) returns (last: State)
    requires DistinctKeys(s.entries) && t !in s.tasks
    ensures last == Turns(maxSize, Step(maxSize, s, PurgeStart(t)), t, |s.entries|)
    ensures var gone := |s.entries| - |Unexpired(s.entries, s.now)|;
            gone >= 0 && last.tasks == s.tasks[t := Purging(s.entries, |s.entries|, gone, gone)]
    ensures Step(maxSize, last, PurgeCheck(t)) == State(s.now, Unexpired(s.entries, s.now), s.tasks)
  {
    NoTurn(maxSize, s, t);
    AllTurns(maxSize, s, Step(maxSize, s, PurgeStart(t)), t, |s.entries|);
    last := Turns(maxSize, Step(maxSize, s, PurgeStart(t)), t, |s.entries|);
    LastCheck(maxSize, s, last, t);
  }
}
