// The response cache: a list of entries in the order of their last use, with at most one entry per key.
module LruCache {
  import opened Wrappers
  import opened Dns
  import opened RequestKey
  import opened CacheObject

  datatype Entry = Entry(key: Request, obj: CacheObject)

  /** A linked hash map: least recently used entry first. */
  type EntryList = seq<Entry>

  ghost predicate DistinctKeys(l: EntryList) {
    forall i, j :: 0 <= i < j < |l| ==> l[i].key != l[j].key
  }

  /** Position of the entry for a key, or the length if there is none. */
  function IndexOf(l: EntryList, k: Request): (i: nat)
    ensures i <= |l|
    ensures i < |l| ==> l[i].key == k
    ensures forall j :: 0 <= j < i ==> l[j].key != k
  {
    if l == [] || l[0].key == k then 0 else 1 + IndexOf(l[1..], k)
  }

  predicate Has(l: EntryList, k: Request) {
    IndexOf(l, k) < |l|
  }

  /** `remove_entry` */
  function RemoveKey(l: EntryList, k: Request): EntryList {
    var i := IndexOf(l, k);
    if i < |l| then l[..i] + l[i + 1..] else l
  }

  /** `insert`: a present key gets the new value, and the entry goes to the back. */
  function InsertBack(l: EntryList, k: Request, o: CacheObject): EntryList {
    RemoveKey(l, k) + [Entry(k, o)]
  }

  /** The lock section of `get`. A hit moves the entry to the back; an expired entry is removed. */
  function GetSection(l: EntryList, k: Request, now: Instant): (EntryList, Option<CacheObject>) {
    var i := IndexOf(l, k);
    if i == |l| then (l, None)
    else if !Expired(l[i].obj, now) then (InsertBack(l, k, l[i].obj), Some(l[i].obj))
    else (RemoveKey(l, k), None)
  }

  /** `put` with nothing in between its lock sections. */
  function PutSections(maxSize: nat, l: EntryList, k: Request, response: Message, now: Instant)
    : (EntryList, Result<(), DapError>)
  {
    if !Cacheable(response) then (l, Ok(()))
    else if |l| < maxSize then (InsertBack(l, k, ObjectOf(response, now)), Ok(()))
    else if l == [] then (l, Err(InvalidCache))
    else (InsertBack(l[1..], k, ObjectOf(response, now)), Ok(()))
  }

  function Unexpired(l: EntryList, now: Instant): EntryList {
    if l == [] then []
    else (if Expired(l[0].obj, now) then [] else [l[0]]) + Unexpired(l[1..], now)
  }

  // ---------- Facts about the list ----------

  lemma AtIndex(l: EntryList, i: nat)
    requires DistinctKeys(l) && i < |l|
    ensures IndexOf(l, l[i].key) == i
  {
  }

  lemma RemoveKeyMembers(l: EntryList, k: Request, e: Entry)
    requires DistinctKeys(l)
    ensures e in RemoveKey(l, k) <==> e in l && e.key != k
  {
    var i, r := IndexOf(l, k), RemoveKey(l, k);
    if i < |l| {
      assert forall j :: 0 <= j < |r| ==> r[j] == if j < i then l[j] else l[j + 1];
      if e in l && e.key != k {
        var j :| 0 <= j < |l| && l[j] == e;
        if j < i { assert r[j] == e; } else { assert r[j - 1] == e; }
      }
    }
  }

  lemma RemoveKeyDistinct(l: EntryList, k: Request)
    requires DistinctKeys(l)
    ensures DistinctKeys(RemoveKey(l, k)) && !Has(RemoveKey(l, k), k)
  {
    var i, r := IndexOf(l, k), RemoveKey(l, k);
    if i < |l| {
      forall j | 0 <= j < |r| ensures r[j] == (if j < i then l[j] else l[j + 1]) && r[j].key != k {
      }
    }
  }

  lemma RemoveKeyFacts(l: EntryList, k: Request)
    requires DistinctKeys(l)
    ensures DistinctKeys(RemoveKey(l, k)) && !Has(RemoveKey(l, k), k)
    ensures |RemoveKey(l, k)| == if Has(l, k) then |l| - 1 else |l|
    ensures forall e :: e in RemoveKey(l, k) <==> e in l && e.key != k
  {
    var r := RemoveKey(l, k);
    RemoveKeyDistinct(l, k);
    forall e ensures e in r <==> e in l && e.key != k { RemoveKeyMembers(l, k, e); }
  }

  lemma InsertBackFacts(l: EntryList, k: Request, o: CacheObject)
    requires DistinctKeys(l)
    ensures DistinctKeys(InsertBack(l, k, o))
    ensures |InsertBack(l, k, o)| == if Has(l, k) then |l| else |l| + 1
    ensures forall e :: e in InsertBack(l, k, o) <==> e == Entry(k, o) || (e in l && e.key != k)
  {
    RemoveKeyFacts(l, k);
    var r := RemoveKey(l, k);
    assert forall i :: 0 <= i < |r| ==> r[i] in r;
  }

  lemma EntryFound(l: EntryList, e: Entry)
    requires DistinctKeys(l) && e in l
    ensures Has(l, e.key) && l[IndexOf(l, e.key)] == e
  {
    var i :| 0 <= i < |l| && l[i] == e;
    AtIndex(l, i);
  }

  lemma GetKeepsDistinct(l: EntryList, k: Request, now: Instant)
    requires DistinctKeys(l)
    ensures DistinctKeys(GetSection(l, k, now).0)
  {
    var i := IndexOf(l, k);
    if i < |l| {
      InsertBackFacts(l, k, l[i].obj);
      RemoveKeyDistinct(l, k);
    }
  }

  lemma PutKeepsDistinct(maxSize: nat, l: EntryList, k: Request, response: Message, now: Instant)
    requires DistinctKeys(l)
    ensures DistinctKeys(PutSections(maxSize, l, k, response, now).0)
  {
    InsertBackFacts(l, k, ObjectOf(response, now));
    if l != [] { InsertBackFacts(l[1..], k, ObjectOf(response, now)); }
  }

  /** Which responses a put stores: the successful and the NXDOMAIN ones whose answers, at least one, all have a TTL above
      zero. They end up last, as they came, from now on until the least of these TTLs; any other changes nothing. */
  lemma PutStores(maxSize: nat, l: EntryList, k: Request, response: Message, now: Instant)
    ensures var (after, r) := PutSections(maxSize, l, k, response, now);
            if (response.responseCode == NoError || response.responseCode == NXDomain) && response.answers != []
              && forall i :: 0 <= i < |response.answers| ==> response.answers[i].ttl > 0
            then
              if l == [] && maxSize == 0 then after == l && r.Err?
              else
                && r.Ok? && after != []
                && var e := after[|after| - 1];
                && e.key == k && e.obj.message.id == 0 && e.obj.message.(id := response.id) == response
                && e.obj.createAt == now
                && exists m: nat :: LeastTtl(response.answers, m) && e.obj.expireAt == now + m * 1_000_000_000
            else after == l && r.Ok?
  {
    CacheableIffAnswersMayBeKept(response);
    MinTtlIsLeast(response.answers);
    assert Cacheable(response) ==> LeastTtl(response.answers, MinTtl(response.answers));
  }

  // ---------- The cache object ----------

  class Cache {
    var entries: EntryList
    const maxSize: nat

    ghost predicate Valid()
      reads this
    {
      DistinctKeys(entries)
    }

    constructor (maxSize: nat)
      ensures Valid() && entries == [] && this.maxSize == maxSize
    {
      this.maxSize := maxSize;
      entries := [];
    }

    method Size() returns (n: nat)
      ensures n == |entries|
    {
      n := |entries|;
    }

    /** An undisturbed `put`. With room, or after dropping the least recently used entry, the response becomes the most
        recently used entry; other entries stay. Without any room at all it fails and changes nothing. */
    method Put(key: Request, response: Message, now: Instant) returns (r: Result<(), DapError>)
      requires Valid()
      modifies this
      ensures Valid()
      ensures (entries, r) == PutSections(maxSize, old(entries), key, response, now)
      ensures old(|entries|) <= maxSize ==> |entries| <= maxSize
    {
      if response.responseCode != NoError && response.responseCode != NXDomain {
        return Ok(());
      }
      var minTtl := MinTtl(response.answers);
      if minTtl == 0 {
        return Ok(());
      }
      var cacheObject := CacheObject(response.(id := 0), now, now + minTtl * SECOND);
      var size := Size();
      if size >= maxSize {
        if entries == [] {
          return Err(InvalidCache);
        }
        entries := entries[1..];
      }
      InsertBackFacts(entries, key, cacheObject);
      entries := InsertBack(entries, key, cacheObject);
      r := Ok(());
    }

    method Get(key: Request, now: Instant) returns (r: Option<CacheObject>)
      requires Valid()
      modifies this
      ensures Valid()
      ensures (entries, r) == GetSection(old(entries), key, now)
    {
      var i := IndexOf(entries, key);
      if i == |entries| {
        return None;
      }
      var found := entries[i].obj;
      InsertBackFacts(entries, key, found);
      RemoveKeyFacts(entries, key);
      entries := InsertBack(entries, key, found);
      if !Expired(found, now) {
        r := Some(found);
      } else {
        ToBackThenRemove(old(entries), key, found);
        entries := RemoveKey(entries, key);
        r := None;
      }
    }

    /** An undisturbed purge at one clock reading removes exactly the expired entries, keeps the order of the rest and
        returns how many it removed. */
    method PurgeExpiredEntries(now: Instant) returns (count: nat)
      requires Valid()
      modifies this
      ensures Valid()
      ensures entries == Unexpired(old(entries), now)
      ensures count == |old(entries)| - |entries|
    {
      var snapshot := entries;
      count := 0;
      assert Halfway(snapshot, 0, now) == snapshot;
      for i := 0 to |snapshot|
        invariant DistinctKeys(snapshot)
        invariant entries == Halfway(snapshot, i, now)
        invariant count == |snapshot| - |entries|
      {
        PurgeOne(snapshot, i, now);
        if Expired(snapshot[i].obj, now) {
          entries := RemoveKey(entries, snapshot[i].key);
          count := count + 1;
        }
      }
      assert snapshot[..|snapshot|] == snapshot;
      UnexpiredFacts(snapshot, now);
    }
  }

  /** The list after the first `i` entries were looked at. */
  ghost function Halfway(l: EntryList, i: nat, now: Instant): EntryList
    requires i <= |l|
  {
    Unexpired(l[..i], now) + l[i..]
  }

  lemma PurgeOne(l: EntryList, i: nat, now: Instant)
    requires DistinctKeys(l) && i < |l|
    ensures Halfway(l, i + 1, now) ==
            if Expired(l[i].obj, now) then RemoveKey(Halfway(l, i, now), l[i].key) else Halfway(l, i, now)
    ensures |Halfway(l, i + 1, now)| == |Halfway(l, i, now)| - (if Expired(l[i].obj, now) then 1 else 0)
  {
    var head, tail := Unexpired(l[..i], now), l[i + 1..];
    UnexpiredSnoc(l, i, now);
    if Expired(l[i].obj, now) {
      RemoveMiddle(l, i, now);
      assert head + [] == head;
    } else {
      assert (head + [l[i]]) + tail == head + ([l[i]] + tail);
    }
  }

  lemma ToBackThenRemove(l: EntryList, k: Request, o: CacheObject)
    requires DistinctKeys(l)
    ensures RemoveKey(InsertBack(l, k, o), k) == RemoveKey(l, k)
  {
    RemoveKeyFacts(l, k);
    InsertBackFacts(l, k, o);
    var b := InsertBack(l, k, o);
    AtIndex(b, |b| - 1);
  }

  lemma {:induction false} UnexpiredFacts(l: EntryList, now: Instant)
    requires DistinctKeys(l)
    ensures DistinctKeys(Unexpired(l, now))
    ensures forall e :: e in Unexpired(l, now) <==> e in l && !Expired(e.obj, now)
  {
    if l != [] {
      UnexpiredFacts(l[1..], now);
      assert l == [l[0]] + l[1..];
      var rest := Unexpired(l[1..], now);
      assert forall j :: 0 <= j < |rest| ==> rest[j] in rest;
    }
  }

  lemma {:induction false} UnexpiredConcat(a: EntryList, b: EntryList, now: Instant)
    ensures Unexpired(a + b, now) == Unexpired(a, now) + Unexpired(b, now)
  {
    if a == [] {
      assert a + b == b;
    } else {
      assert (a + b)[1..] == a[1..] + b;
      UnexpiredConcat(a[1..], b, now);
    }
  }

  lemma UnexpiredSnoc(l: EntryList, i: nat, now: Instant)
    requires i < |l|
    ensures Unexpired(l[..i + 1], now) == Unexpired(l[..i], now) + (if Expired(l[i].obj, now) then [] else [l[i]])
    ensures l[i..] == [l[i]] + l[i + 1..]
  {
    assert l[..i + 1] == l[..i] + [l[i]];
    UnexpiredConcat(l[..i], [l[i]], now);
    assert [l[i]][1..] == [];
  }

  lemma RemoveMiddle(l: EntryList, i: nat, now: Instant)
    requires DistinctKeys(l) && i < |l|
    ensures RemoveKey(Halfway(l, i, now), l[i].key) == Unexpired(l[..i], now) + l[i + 1..]
  {
    var head := Unexpired(l[..i], now);
    var all := Halfway(l, i, now);
    UnexpiredFacts(l[..i], now);
    forall j | 0 <= j < |head| ensures head[j].key != l[i].key {
      assert head[j] in head;
      var m :| 0 <= m < i && l[..i][m] == head[j];
    }
    assert all[|head|] == l[i];
    assert IndexOf(all, l[i].key) == |head|;
  }
}
