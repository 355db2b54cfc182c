// The cache under concurrency. A put takes the lock up to three times, a purge once per removed entry, and other tasks
// run in between. One action is one lock section or one purely local step; any task may be cancelled between sections.
module CacheRuns {
  import opened Wrappers
  import opened Dns
  import opened RequestKey
  import opened CacheObject
  import opened LruCache
  import Seqs

  datatype Task =
    | Sizing(key: Request, obj: CacheObject)     // a put about to read the size
    | Popping(key: Request, obj: CacheObject)    // a put that saw no room
    | Inserting(key: Request, obj: CacheObject)  // a put that saw room, or has made some
    | Purging(snapshot: EntryList, next: nat, count: nat, removed: nat)   // a purge about to look at entry `next`
    | Removing(snapshot: EntryList, next: nat, count: nat, removed: nat)  // a purge that saw entry `next` expired
  {
    predicate IsPut() {
      Sizing? || Popping? || Inserting?
    }
  }

  datatype State = State(now: Instant, entries: EntryList, tasks: map<nat, Task>)

  const INITIAL := State(0, [], map[])

  datatype Action =
    | Tick(nanos: nat)
    | PutStart(task: nat, key: Request, response: Message)
    | PutSize(task: nat)
    | PutPop(task: nat)
    | PutInsert(task: nat)
    | Get(key: Request)
    | PurgeStart(task: nat)
    | PurgeCheck(task: nat)
    | PurgeRemove(task: nat)
    | Cancel(task: nat)

  function Done(s: State, t: nat): State {
    s.(tasks := s.tasks - {t})
  }

  function Goto(s: State, t: nat, task: Task): State {
    s.(tasks := s.tasks[t := task])
  }

  /** One action. An action that is not enabled changes nothing. */
  function Step(maxSize: nat, s: State, a: Action): State {
    match a
    case Tick(nanos) => s.(now := s.now + nanos)
    case PutStart(t, key, response) =>
      if t !in s.tasks && Cacheable(response) then Goto(s, t, Sizing(key, ObjectOf(response, s.now))) else s
    case PutSize(t) =>
      if t in s.tasks && s.tasks[t].Sizing? then
        if |s.entries| >= maxSize then Goto(s, t, Popping(s.tasks[t].key, s.tasks[t].obj))
        else Goto(s, t, Inserting(s.tasks[t].key, s.tasks[t].obj))
      else s
    case PutPop(t) =>
      if t in s.tasks && s.tasks[t].Popping? then
        if s.entries == [] then Done(s, t)
        else Goto(s, t, Inserting(s.tasks[t].key, s.tasks[t].obj)).(entries := s.entries[1..])
      else s
    case PutInsert(t) =>
      if t in s.tasks && s.tasks[t].Inserting? then
        Done(s, t).(entries := InsertBack(s.entries, s.tasks[t].key, s.tasks[t].obj))
      else s
    case Get(key) => s.(entries := GetSection(s.entries, key, s.now).0)
    case PurgeStart(t) => if t !in s.tasks then Goto(s, t, Purging(s.entries, 0, 0, 0)) else s
    case PurgeCheck(t) =>
      if t in s.tasks && s.tasks[t].Purging? then
        var p := s.tasks[t];
        if p.next >= |p.snapshot| then Done(s, t)
        else if Expired(p.snapshot[p.next].obj, s.now) then Goto(s, t, Removing(p.snapshot, p.next, p.count, p.removed))
        else Goto(s, t, Purging(p.snapshot, p.next + 1, p.count, p.removed))
      else s
    case PurgeRemove(t) =>
      if t in s.tasks && s.tasks[t].Removing? && s.tasks[t].next < |s.tasks[t].snapshot| then
        var p := s.tasks[t];
        var k := p.snapshot[p.next].key;
        var gone := if Has(s.entries, k) then 1 else 0;
        Goto(s, t, Purging(p.snapshot, p.next + 1, p.count + 1, p.removed + gone)).(entries := RemoveKey(s.entries, k))
      else s
    case Cancel(t) => Done(s, t)
  }

  /** The state after a run. Every list of actions is a run. */
  function After(maxSize: nat, acts: seq<Action>): State {
    if acts == [] then INITIAL
    else Step(maxSize, After(maxSize, acts[..|acts| - 1]), acts[|acts| - 1])
  }

  lemma AfterSnoc(maxSize: nat, acts: seq<Action>, a: Action)
    ensures After(maxSize, acts + [a]) == Step(maxSize, After(maxSize, acts), a)
  {
    assert (acts + [a])[..|acts|] == acts;
  }

  lemma ClockStep(maxSize: nat, s: State, a: Action)
    ensures s.now <= Step(maxSize, s, a).now
  {
  }

  lemma InsertingEnds(maxSize: nat, s: State, t: nat, k: Request, o: CacheObject)
    ensures Step(maxSize, Goto(s, t, Inserting(k, o)), PutInsert(t)) == Done(s, t).(entries := InsertBack(s.entries, k, o))
  {
    assert Goto(s, t, Inserting(k, o)).tasks - {t} == s.tasks - {t};
  }

  lemma PoppingInserts(maxSize: nat, s: State, t: nat, k: Request, o: CacheObject)
    requires s.entries != []
    ensures Step(maxSize, Goto(s, t, Popping(k, o)), PutPop(t)) ==
            Goto(s.(entries := s.entries[1..]), t, Inserting(k, o))
  {
    assert s.tasks[t := Popping(k, o)][t := Inserting(k, o)] == s.tasks[t := Inserting(k, o)];
  }

  lemma PoppingFails(maxSize: nat, s: State, t: nat, k: Request, o: CacheObject)
    requires s.entries == []
    ensures Step(maxSize, Goto(s, t, Popping(k, o)), PutPop(t)) == Done(s, t)
  {
    assert s.tasks[t := Popping(k, o)] - {t} == s.tasks - {t};
  }

  lemma PutSectionsAsSteps(maxSize: nat, s: State, t: nat)
    requires t in s.tasks && s.tasks[t].Sizing?
    ensures var popped := Step(maxSize, Step(maxSize, s, PutSize(t)), PutPop(t));
            var k, o := s.tasks[t].key, s.tasks[t].obj;
            Step(maxSize, popped, PutInsert(t)) ==
            Done(s, t).(entries := if |s.entries| < maxSize then InsertBack(s.entries, k, o)
                                   else if s.entries == [] then [] else InsertBack(s.entries[1..], k, o))
  {
    if |s.entries| < maxSize {
      InsertingEnds(maxSize, s, t, s.tasks[t].key, s.tasks[t].obj);
    } else if s.entries == [] {
      PoppingFails(maxSize, s, t, s.tasks[t].key, s.tasks[t].obj);
    } else {
      PoppingInserts(maxSize, s, t, s.tasks[t].key, s.tasks[t].obj);
      InsertingEnds(maxSize, s.(entries := s.entries[1..]), t, s.tasks[t].key, s.tasks[t].obj);
    }
  }

  /** With nothing in between, the lock sections of a put make up the put of the cache object; the pop is skipped when
      there was room, the insert when the pop failed. */
  lemma UndisturbedPut(maxSize: nat, s: State, t: nat, key: Request, response: Message)
    requires t !in s.tasks
    ensures var started := Step(maxSize, s, PutStart(t, key, response));
            var popped := Step(maxSize, Step(maxSize, started, PutSize(t)), PutPop(t));
            Step(maxSize, popped, PutInsert(t)) == s.(entries := PutSections(maxSize, s.entries, key, response, s.now).0)
  {
    if Cacheable(response) {
      var started := Step(maxSize, s, PutStart(t, key, response));
      PutSectionsAsSteps(maxSize, started, t);
      assert started.tasks - {t} == s.tasks;
    }
  }

  // ---------- Size ----------

  /** The puts in flight. */
  function Puts(tasks: map<nat, Task>): set<nat> {
    set t | t in tasks && tasks[t].IsPut()
  }

  /** The puts that will insert without looking at the size again. */
  function Holding(tasks: map<nat, Task>): set<nat> {
    set t | t in tasks && tasks[t].Inserting?
  }

  /** At no point of the run more than `n` puts are in flight. */
  ghost predicate AtMostInFlight(maxSize: nat, acts: seq<Action>, n: nat) {
    forall i :: 0 <= i <= |acts| ==> |Puts(After(maxSize, acts[..i]).tasks)| <= n
  }

  /** Entries plus entries that are bound to come. */
  function Load(s: State): nat {
    |s.entries| + |Holding(s.tasks)|
  }

  lemma GotoCounts(tasks: map<nat, Task>, t: nat, task: Task)
    ensures Holding(tasks[t := task]) == if task.Inserting? then Holding(tasks) + {t} else Holding(tasks) - {t}
    ensures Puts(tasks[t := task]) == if task.IsPut() then Puts(tasks) + {t} else Puts(tasks) - {t}
  {
  }

  lemma DoneCounts(tasks: map<nat, Task>, t: nat)
    ensures Holding(tasks - {t}) == Holding(tasks) - {t}
    ensures Puts(tasks - {t}) == Puts(tasks) - {t}
  {
  }

  ghost predicate WithinLoad(maxSize: nat, s: State, n: nat) {
    if maxSize == 0 then Load(s) == 0 else Load(s) < maxSize + n
  }

  lemma InsertBackLength(l: EntryList, k: Request, o: CacheObject)
    ensures |InsertBack(l, k, o)| <= |l| + 1
  {
  }

  lemma RoomSeen(maxSize: nat, s: State, t: nat, n: nat)
    requires t in s.tasks && s.tasks[t].Sizing? && |s.entries| < maxSize
    requires |Puts(s.tasks)| <= n
    ensures Load(Step(maxSize, s, PutSize(t))) < maxSize + n
  {
    var next := Inserting(s.tasks[t].key, s.tasks[t].obj);
    GotoCounts(s.tasks, t, next);
    assert Holding(s.tasks) + {t} <= Puts(s.tasks);
    Seqs.SubsetSize(Holding(s.tasks) + {t}, Puts(s.tasks));
  }

  lemma LoadShrinks(s: State, s': State)
    requires |s'.entries| <= |s.entries| && Holding(s'.tasks) <= Holding(s.tasks)
    ensures Load(s') <= Load(s)
  {
    Seqs.SubsetSize(Holding(s'.tasks), Holding(s.tasks));
  }

  lemma PopKeepsLoad(maxSize: nat, s: State, t: nat)
    requires t in s.tasks && s.tasks[t].Popping?
    ensures Load(Step(maxSize, s, PutPop(t))) <= Load(s)
  {
    if s.entries == [] {
      DoneCounts(s.tasks, t);
      LoadShrinks(s, Done(s, t));
    } else {
      GotoCounts(s.tasks, t, Inserting(s.tasks[t].key, s.tasks[t].obj));
      assert t !in Holding(s.tasks);
    }
  }

  lemma InsertKeepsLoad(maxSize: nat, s: State, t: nat)
    requires t in s.tasks && s.tasks[t].Inserting?
    ensures Load(Step(maxSize, s, PutInsert(t))) <= Load(s)
  {
    DoneCounts(s.tasks, t);
    assert t in Holding(s.tasks);
    InsertBackLength(s.entries, s.tasks[t].key, s.tasks[t].obj);
  }

  /** Every other action only loses entries and pending inserts. */
  lemma OthersKeepLoad(maxSize: nat, s: State, a: Action)
    requires !a.PutSize? && !a.PutPop? && !a.PutInsert?
    ensures Load(Step(maxSize, s, a)) <= Load(s)
  {
    match a {
      case Get(key) => GetLength(s.entries, key, s.now);
      case PurgeRemove(t) =>
        if t in s.tasks && s.tasks[t].Removing? && s.tasks[t].next < |s.tasks[t].snapshot| {
          RemoveKeyLength(s.entries, s.tasks[t].snapshot[s.tasks[t].next].key);
        }
      case _ =>
    }
    LoadShrinks(s, Step(maxSize, s, a));
  }

  lemma StepKeepsLoad(maxSize: nat, s: State, a: Action, n: nat)
    requires WithinLoad(maxSize, s, n) && |Puts(s.tasks)| <= n
    ensures WithinLoad(maxSize, Step(maxSize, s, a), n)
  {
    match a
    case PutSize(t) =>
      if t in s.tasks && s.tasks[t].Sizing? {
        if |s.entries| >= maxSize {
          LoadShrinks(s, Step(maxSize, s, a));
        } else {
          RoomSeen(maxSize, s, t, n);
        }
      }
    case PutPop(t) => if t in s.tasks && s.tasks[t].Popping? { PopKeepsLoad(maxSize, s, t); }
    case PutInsert(t) => if t in s.tasks && s.tasks[t].Inserting? { InsertKeepsLoad(maxSize, s, t); }
    case _ => OthersKeepLoad(maxSize, s, a);
  }

  lemma RemoveKeyLength(l: EntryList, k: Request)
    ensures |RemoveKey(l, k)| <= |l|
  {
  }

  lemma GetLength(l: EntryList, k: Request, now: Instant)
    ensures |GetSection(l, k, now).0| <= |l|
  {
  }

  /** Over every interleaving with at most `n >= 1` puts in flight at once the cache holds at most `maxSize + n - 1`
      entries, and it stays empty if the maximum is 0. With one put at a time that is the configured maximum. */
  lemma {:induction false} SizeBound(maxSize: nat, acts: seq<Action>, n: nat)
    requires n >= 1 && AtMostInFlight(maxSize, acts, n)
    ensures WithinLoad(maxSize, After(maxSize, acts), n)
    ensures |After(maxSize, acts).entries| <= if maxSize == 0 then 0 else maxSize + n - 1
  {
    if acts == [] {
      assert Holding(INITIAL.tasks) == {};
    } else {
      var before := acts[..|acts| - 1];
      assert forall i :: 0 <= i <= |before| ==> before[..i] == acts[..i];
      SizeBound(maxSize, before, n);
      StepKeepsLoad(maxSize, After(maxSize, before), acts[|acts| - 1], n);
    }
  }

  // ---------- Agreement with an unbounded TTL map ----------

  /** The action is the insert section of a put of this key. */
  predicate Inserts(s: State, a: Action, k: Request) {
    a.PutInsert? && a.task in s.tasks && s.tasks[a.task].Inserting? && s.tasks[a.task].key == k
  }

  /** The object of the last insert section for a key: what a map that never evicts would hold. */
  function Latest(maxSize: nat, acts: seq<Action>, k: Request): Option<CacheObject> {
    if acts == [] then None
    else
      var before, a := acts[..|acts| - 1], acts[|acts| - 1];
      var s := After(maxSize, before);
      if Inserts(s, a, k) then Some(s.tasks[a.task].obj) else Latest(maxSize, before, k)
  }

  /** What that map answers: the latest object, unless it has expired. */
  function ReferenceGet(maxSize: nat, acts: seq<Action>, k: Request): Option<CacheObject> {
    match Latest(maxSize, acts, k)
    case None => None
    case Some(o) => if Expired(o, After(maxSize, acts).now) then None else Some(o)
  }

  function CacheGet(maxSize: nat, acts: seq<Action>, k: Request): Option<CacheObject> {
    GetSection(After(maxSize, acts).entries, k, After(maxSize, acts).now).1
  }

  /** An object comes from a cacheable response that a put of that key brought earlier in the run. */
  ghost predicate BroughtAt(maxSize: nat, acts: seq<Action>, j: nat, k: Request, o: CacheObject) {
    && j < |acts|
    && acts[j].PutStart? && acts[j].key == k
    && Cacheable(acts[j].response)
    && o == ObjectOf(acts[j].response, After(maxSize, acts[..j]).now)
  }

  ghost predicate Brought(maxSize: nat, acts: seq<Action>, k: Request, o: CacheObject) {
    exists j :: BroughtAt(maxSize, acts, j, k, o)
  }

  lemma BroughtLater(maxSize: nat, acts: seq<Action>, a: Action, k: Request, o: CacheObject)
    requires Brought(maxSize, acts, k, o)
    ensures Brought(maxSize, acts + [a], k, o)
  {
    var j: nat :| BroughtAt(maxSize, acts, j, k, o);
    assert (acts + [a])[..j] == acts[..j];
    assert BroughtAt(maxSize, acts + [a], j, k, o);
  }

  ghost predicate Tracked(maxSize: nat, acts: seq<Action>, e: Entry) {
    Latest(maxSize, acts, e.key) == Some(e.obj) && Brought(maxSize, acts, e.key, e.obj)
  }

  /** Every entry is the latest for its key, and every object on its way was brought by a put. */
  ghost predicate Consistent(maxSize: nat, acts: seq<Action>) {
    var s := After(maxSize, acts);
    && DistinctKeys(s.entries)
    && (forall e :: e in s.entries ==> Tracked(maxSize, acts, e))
    && (forall t :: t in s.tasks && s.tasks[t].IsPut() ==> Brought(maxSize, acts, s.tasks[t].key, s.tasks[t].obj))
  }

  lemma LatestSnoc(maxSize: nat, acts: seq<Action>, a: Action, k: Request)
    ensures var s := After(maxSize, acts);
            Latest(maxSize, acts + [a], k) ==
            if Inserts(s, a, k) then Some(s.tasks[a.task].obj) else Latest(maxSize, acts, k)
  {
    assert (acts + [a])[..|acts|] == acts;
  }

  /** What an action can do to the entries: drop some, or put the object of an inserting task in. */
  lemma EntriesAfterStep(maxSize: nat, s: State, a: Action, e: Entry)
    requires DistinctKeys(s.entries) && e in Step(maxSize, s, a).entries
    ensures if Inserts(s, a, e.key) then e.obj == s.tasks[a.task].obj else e in s.entries
  {
    match a
    case PutInsert(t) =>
      if t in s.tasks && s.tasks[t].Inserting? { InsertBackFacts(s.entries, s.tasks[t].key, s.tasks[t].obj); }
    case Get(key) =>
      GetKeepsEntries(s.entries, key, s.now);
    case PurgeRemove(t) =>
      if t in s.tasks && s.tasks[t].Removing? && s.tasks[t].next < |s.tasks[t].snapshot| {
        RemoveKeyFacts(s.entries, s.tasks[t].snapshot[s.tasks[t].next].key);
      }
    case _ =>
  }

  lemma GetKeepsEntries(l: EntryList, k: Request, now: Instant)
    requires DistinctKeys(l)
    ensures DistinctKeys(GetSection(l, k, now).0)
    ensures forall e :: e in GetSection(l, k, now).0 <==> e in l && (e.key == k ==> !Expired(e.obj, now))
  {
    var i := IndexOf(l, k);
    RemoveKeyFacts(l, k);
    forall e | e in l && e.key == k ensures i < |l| && e == l[i] {
      EntryFound(l, e);
    }
    if i < |l| {
      InsertBackFacts(l, k, l[i].obj);
      assert l[i] in l;
    }
  }

  lemma StepKeepsDistinct(maxSize: nat, s: State, a: Action)
    requires DistinctKeys(s.entries)
    ensures DistinctKeys(Step(maxSize, s, a).entries)
  {
    match a
    case PutInsert(t) =>
      if t in s.tasks && s.tasks[t].Inserting? { InsertBackFacts(s.entries, s.tasks[t].key, s.tasks[t].obj); }
    case Get(key) =>
      GetKeepsEntries(s.entries, key, s.now);
    case PurgeRemove(t) =>
      if t in s.tasks && s.tasks[t].Removing? && s.tasks[t].next < |s.tasks[t].snapshot| {
        RemoveKeyFacts(s.entries, s.tasks[t].snapshot[s.tasks[t].next].key);
      }
    case _ =>
  }

  lemma PutTasksAfterStep(maxSize: nat, s: State, a: Action, t: nat)
    requires var s' := Step(maxSize, s, a); t in s'.tasks && s'.tasks[t].IsPut()
    ensures var p := Step(maxSize, s, a).tasks[t];
            (t in s.tasks && s.tasks[t].IsPut() && s.tasks[t].key == p.key && s.tasks[t].obj == p.obj)
            || (a.PutStart? && a.task == t && t !in s.tasks && Cacheable(a.response)
                && p.key == a.key && p.obj == ObjectOf(a.response, s.now))
  {
  }

  lemma ConsistentStep(maxSize: nat, acts: seq<Action>, a: Action)
    requires Consistent(maxSize, acts)
    ensures Consistent(maxSize, acts + [a])
  {
    var s := After(maxSize, acts);
    var all := acts + [a];
    AfterSnoc(maxSize, acts, a);
    StepKeepsDistinct(maxSize, s, a);
    forall e | e in Step(maxSize, s, a).entries ensures Tracked(maxSize, all, e) {
      EntriesAfterStep(maxSize, s, a, e);
      LatestSnoc(maxSize, acts, a, e.key);
      BroughtLater(maxSize, acts, a, e.key, e.obj);
    }
    forall t | t in Step(maxSize, s, a).tasks && Step(maxSize, s, a).tasks[t].IsPut()
      ensures Brought(maxSize, all, Step(maxSize, s, a).tasks[t].key, Step(maxSize, s, a).tasks[t].obj)
    {
      var p := Step(maxSize, s, a).tasks[t];
      PutTasksAfterStep(maxSize, s, a, t);
      if t in s.tasks && s.tasks[t].IsPut() {
        BroughtLater(maxSize, acts, a, p.key, p.obj);
      } else {
        assert all[..|acts|] == acts;
        assert BroughtAt(maxSize, all, |acts|, p.key, p.obj);
      }
    }
  }

  lemma {:induction false} RunsAreConsistent(maxSize: nat, acts: seq<Action>)
    ensures Consistent(maxSize, acts)
  {
    if acts != [] {
      var n := |acts| - 1;
      RunsAreConsistent(maxSize, acts[..n]);
      ConsistentStep(maxSize, acts[..n], acts[n]);
      assert acts[..n] + [acts[n]] == acts;
    }
  }

  /** At any point of any interleaving, what a get returns is what a map that never evicts would return, or nothing: it is
      the object of the last insert for the key, not expired, and made from a cacheable response put under that key. */
  lemma GetAgreesWithTtlMap(maxSize: nat, acts: seq<Action>, k: Request)
    ensures CacheGet(maxSize, acts, k) == None || CacheGet(maxSize, acts, k) == ReferenceGet(maxSize, acts, k)
    ensures CacheGet(maxSize, acts, k).Some? ==> Brought(maxSize, acts, k, CacheGet(maxSize, acts, k).value)
  {
    RunsAreConsistent(maxSize, acts);
    var l := After(maxSize, acts).entries;
    var i := IndexOf(l, k);
    if i < |l| {
      assert l[i] in l && Tracked(maxSize, acts, l[i]);
    }
  }

  // ---------- When the cache and the map differ ----------

  /** A pop or a purge removal that takes this key out. */
  predicate Drops(maxSize: nat, s: State, a: Action, k: Request) {
    (a.PutPop? || a.PurgeRemove?) && Has(s.entries, k) && !Has(Step(maxSize, s, a).entries, k)
  }

  /** Such a removal has taken the key out since its last insert section. */
  predicate DroppedSinceInsert(maxSize: nat, acts: seq<Action>, k: Request) {
    acts != [] &&
    var before, a := acts[..|acts| - 1], acts[|acts| - 1];
    var s := After(maxSize, before);
    !Inserts(s, a, k) && (Drops(maxSize, s, a, k) || DroppedSinceInsert(maxSize, before, k))
  }

  lemma InsertMakesResident(maxSize: nat, s: State, a: Action, k: Request)
    requires DistinctKeys(s.entries) && Inserts(s, a, k)
    ensures Has(Step(maxSize, s, a).entries, k)
  {
    var o := s.tasks[a.task].obj;
    InsertBackFacts(s.entries, k, o);
    EntryFound(InsertBack(s.entries, k, o), Entry(k, o));
  }

  /** Nothing but an insert of the key makes it resident. */
  lemma AbsentAfterStep(maxSize: nat, s: State, a: Action, k: Request)
    requires DistinctKeys(s.entries) && !Has(s.entries, k) && !Inserts(s, a, k)
    ensures !Has(Step(maxSize, s, a).entries, k)
  {
    var l := Step(maxSize, s, a).entries;
    if Has(l, k) {
      var e := l[IndexOf(l, k)];
      EntriesAfterStep(maxSize, s, a, e);
      EntryFound(s.entries, e);
    }
  }

  lemma GetKeepsUnexpired(l: EntryList, key: Request, now: Instant, k: Request)
    requires DistinctKeys(l) && Has(l, k) && !Expired(l[IndexOf(l, k)].obj, now)
    ensures Has(GetSection(l, key, now).0, k)
  {
    GetKeepsEntries(l, key, now);
    EntryFound(GetSection(l, key, now).0, l[IndexOf(l, k)]);
  }

  lemma InsertKeepsOthers(l: EntryList, key: Request, o: CacheObject, k: Request)
    requires DistinctKeys(l) && Has(l, k) && k != key
    ensures Has(InsertBack(l, key, o), k)
  {
    InsertBackFacts(l, key, o);
    EntryFound(InsertBack(l, key, o), l[IndexOf(l, k)]);
  }

  /** An unexpired resident stays unless it is dropped. */
  lemma ResidentAfterStep(maxSize: nat, s: State, a: Action, k: Request)
    requires DistinctKeys(s.entries) && !Drops(maxSize, s, a, k)
    requires Has(s.entries, k) && !Expired(s.entries[IndexOf(s.entries, k)].obj, s.now)
    ensures Has(Step(maxSize, s, a).entries, k)
  {
    if Inserts(s, a, k) {
      InsertMakesResident(maxSize, s, a, k);
    } else {
      match a {
        case PutInsert(t) =>
          if t in s.tasks && s.tasks[t].Inserting? {
            InsertKeepsOthers(s.entries, s.tasks[t].key, s.tasks[t].obj, k);
          }
        case Get(key) => GetKeepsUnexpired(s.entries, key, s.now, k);
        case _ =>
      }
    }
  }

  /** An unexpired latest object is resident iff it was not dropped since its insert. */
  lemma {:induction false} ResidentIffNotDropped(maxSize: nat, acts: seq<Action>, k: Request)
    requires ReferenceGet(maxSize, acts, k).Some?
    ensures Has(After(maxSize, acts).entries, k) <==> !DroppedSinceInsert(maxSize, acts, k)
  {
    var n := |acts| - 1;
    var before, a := acts[..n], acts[n];
    var s := After(maxSize, before);
    RunsAreConsistent(maxSize, before);
    if Inserts(s, a, k) {
      InsertMakesResident(maxSize, s, a, k);
    } else {
      ClockStep(maxSize, s, a);
      ResidentIffNotDropped(maxSize, before, k);
      if Has(s.entries, k) {
        assert Tracked(maxSize, before, s.entries[IndexOf(s.entries, k)]);
        if !Drops(maxSize, s, a, k) { ResidentAfterStep(maxSize, s, a, k); }
      } else {
        AbsentAfterStep(maxSize, s, a, k);
      }
    }
  }

  /** Exactly when a get misses what the map still has: a pop or a purge removal has taken the key out since its last
      insert. */
  lemma GetIsExactWithoutRemovals(maxSize: nat, acts: seq<Action>, k: Request)
    ensures CacheGet(maxSize, acts, k) == ReferenceGet(maxSize, acts, k) <==>
            ReferenceGet(maxSize, acts, k) == None || !DroppedSinceInsert(maxSize, acts, k)
  {
    GetAgreesWithTtlMap(maxSize, acts, k);
    if ReferenceGet(maxSize, acts, k).Some? {
      var l := After(maxSize, acts).entries;
      ResidentIffNotDropped(maxSize, acts, k);
      RunsAreConsistent(maxSize, acts);
      if Has(l, k) { assert Tracked(maxSize, acts, l[IndexOf(l, k)]); }
    }
  }
}
