// A cached response: when it expires, and what is served from it.
module CacheObject {
  import opened Dns

  /** Points in time in nanoseconds. */
  type Instant = int

  const SECOND := 1_000_000_000

  datatype CacheObject = CacheObject(message: Message, createAt: Instant, expireAt: Instant)

  /** Still valid at the very instant of expiry. */
  predicate Expired(o: CacheObject, now: Instant) {
    o.expireAt < now
  }

  /** `saturating_duration_since`, in nanoseconds. */
  function RemainedTtl(o: CacheObject, now: Instant): nat {
    if o.expireAt < now then 0 else o.expireAt - now
  }

  /** The `as u32` cast. */
  function AsU32(n: nat): u32 {
    n % 0x1_0000_0000
  }

  /** The least answer TTL, 0 without answers. */
  function MinTtl(answers: seq<Record>): u32 {
    if answers == [] then 0
    else if |answers| == 1 then answers[0].ttl
    else
      var rest := MinTtl(answers[1..]);
      if answers[0].ttl <= rest then answers[0].ttl else rest
  }

  /** Only successful and NXDOMAIN responses whose answers all may be kept are cached. */
  predicate Cacheable(response: Message) {
    (response.responseCode == NoError || response.responseCode == NXDomain) && MinTtl(response.answers) != 0
  }

  function ObjectOf(response: Message, now: Instant): CacheObject {
    CacheObject(response.(id := 0), now, now + MinTtl(response.answers) * SECOND)
  }

  function WithTtl(records: seq<Record>, ttl: u32): seq<Record> {
    seq(|records|, i requires 0 <= i < |records| => records[i].(ttl := ttl))
  }

  function ServedTtl(o: CacheObject, now: Instant): u32 {
    AsU32(RemainedTtl(o, now) / SECOND)
  }

  /** What is served: every record with the remaining TTL, under the id of the query. */
  function Served(o: CacheObject, queryId: u16, now: Instant): Message {
    var ttl := ServedTtl(o, now);
    o.message.(id := queryId, answers := WithTtl(o.message.answers, ttl),
               nameServers := WithTtl(o.message.nameServers, ttl), additionals := WithTtl(o.message.additionals, ttl))
  }

  /** One rewrite loop: take the records out, set each TTL, put it back. */
  method Rewrite(records: seq<Record>, ttl: u32) returns (rewritten: seq<Record>)
    ensures rewritten == WithTtl(records, ttl)
  {
    rewritten := [];
    for i := 0 to |records|
      invariant rewritten == WithTtl(records, ttl)[..i]
    {
      var record := records[i].(ttl := ttl);
      rewritten := rewritten + [record];
    }
  }

  /** `build_response` up to the encoding. */
  method BuildResponse(o: CacheObject, queryId: u16, now: Instant) returns (msg: Message)
    ensures msg == Served(o, queryId, now)
  {
    msg := o.message;
    var remainedTtl := AsU32(RemainedTtl(o, now) / SECOND);
    var answers := Rewrite(msg.answers, remainedTtl);
    msg := msg.(answers := answers);
    var additionals := Rewrite(msg.additionals, remainedTtl);
    msg := msg.(additionals := additionals);
    var nameServers := Rewrite(msg.nameServers, remainedTtl);
    msg := msg.(nameServers := nameServers);
    msg := msg.(id := queryId);
  }

  lemma {:induction false} MinTtlIsLeast(answers: seq<Record>)
    ensures forall i :: 0 <= i < |answers| ==> MinTtl(answers) <= answers[i].ttl
    ensures answers != [] ==> exists i :: 0 <= i < |answers| && MinTtl(answers) == answers[i].ttl
  {
    if |answers| > 1 {
      MinTtlIsLeast(answers[1..]);
      var rest := MinTtl(answers[1..]);
      if answers[0].ttl <= rest {
        assert answers[0].ttl == MinTtl(answers);
      } else {
        var i :| 0 <= i < |answers[1..]| && rest == answers[1..][i].ttl;
        assert answers[i + 1].ttl == MinTtl(answers);
      }
      forall i | 0 <= i < |answers| ensures MinTtl(answers) <= answers[i].ttl {
        if i > 0 { assert answers[i] == answers[1..][i - 1]; }
      }
    } else if |answers| == 1 {
      assert answers[0].ttl == MinTtl(answers);
    }
  }

  /** Seconds begun since, rounded up. */
  function SecondsBegun(elapsed: nat): nat {
    (elapsed + SECOND - 1) / SECOND
  }

  /** With a clock that does not go back, the TTL served is the least original TTL less the seconds begun since the
      response came, at least 0, and the cast to 32 bits loses nothing. */
  lemma ServedTtlIsExact(response: Message, createdAt: Instant, now: Instant)
    requires createdAt <= now
    ensures var m, begun := MinTtl(response.answers), SecondsBegun(now - createdAt);
            ServedTtl(ObjectOf(response, createdAt), now) == if begun <= m then m - begun else 0
  {
  }

  // ---------- In plain numbers ----------

  /** `m` is the least TTL among the answers. */
  ghost predicate LeastTtl(answers: seq<Record>, m: nat) {
    && (exists i :: 0 <= i < |answers| && answers[i].ttl == m)
    && forall i :: 0 <= i < |answers| ==> m <= answers[i].ttl
  }

  /** In so many nanoseconds `n` seconds have begun. */
  predicate HaveBegun(n: nat, elapsed: int) {
    (n - 1) * 1_000_000_000 < elapsed <= n * 1_000_000_000
  }

  /** The same records in the same order, each with `left` seconds to live. */
  ghost predicate WithLife(served: seq<Record>, records: seq<Record>, left: nat) {
    && |served| == |records|
    && forall i :: 0 <= i < |records| ==>
         && served[i].name == records[i].name && served[i].data == records[i].data
         && served[i].ttl == left
  }

  /** `m` and `n` are the least answer TTL and the seconds begun since; every record of every section is served with
      what is left of the one after the other. */
  ghost predicate ServedWithRest(served: Message, response: Message, elapsed: int, m: nat, n: nat) {
    && LeastTtl(response.answers, m) && HaveBegun(n, elapsed)
    && var left := if n <= m then m - n else 0;
    && WithLife(served.answers, response.answers, left)
    && WithLife(served.nameServers, response.nameServers, left)
    && WithLife(served.additionals, response.additionals, left)
  }

  lemma EveryRecordServedWithRest(response: Message, createdAt: Instant, now: Instant, queryId: u16)
    returns (m: nat, n: nat)
    requires createdAt <= now && response.answers != []
    ensures ServedWithRest(Served(ObjectOf(response, createdAt), queryId, now), response, now - createdAt, m, n)
  {
    m, n := MinTtl(response.answers), SecondsBegun(now - createdAt);
    MinTtlIsLeast(response.answers);
    ServedTtlIsExact(response, createdAt, now);
  }

  /** Exactly the successful and the NXDOMAIN responses that carry answers, all of them with a TTL above zero. */
  lemma CacheableIffAnswersMayBeKept(response: Message)
    ensures Cacheable(response) <==>
            && (response.responseCode == NoError || response.responseCode == NXDomain)
            && response.answers != []
            && forall i :: 0 <= i < |response.answers| ==> response.answers[i].ttl > 0
  {
    MinTtlIsLeast(response.answers);
  }

  /** A cached response expires when the least of its answers' TTLs has been exceeded, and not before: until then every
      answer is within its own TTL, afterwards some answer is beyond it. */
  lemma ExpiresWithFirstAnswer(response: Message, createdAt: Instant, now: Instant)
    requires response.answers != []
    ensures Expired(ObjectOf(response, createdAt), now) <==>
            exists i :: 0 <= i < |response.answers| && now - createdAt > response.answers[i].ttl * 1_000_000_000
  {
    MinTtlIsLeast(response.answers);
    var i :| 0 <= i < |response.answers| && MinTtl(response.answers) == response.answers[i].ttl;
    assert Expired(ObjectOf(response, createdAt), now) <==> now - createdAt > response.answers[i].ttl * SECOND;
  }

  /** Serving from the cache keeps every section's records, their order and their number, and never lengthens the life of
      an answer (TTL as in section 3.2.1 of RFC 1035). */
  lemma ServingNeverLengthens(response: Message, createdAt: Instant, now: Instant, queryId: u16)
    requires createdAt <= now
    ensures var served := Served(ObjectOf(response, createdAt), queryId, now);
            && served.id == queryId
            && served.(id := response.id, answers := response.answers, nameServers := response.nameServers,
                       additionals := response.additionals) == response
            && |served.answers| == |response.answers|
            && |served.nameServers| == |response.nameServers|
            && |served.additionals| == |response.additionals|
            && (forall i :: 0 <= i < |response.answers| ==>
                  && served.answers[i].(ttl := response.answers[i].ttl) == response.answers[i]
                  && (served.answers[i].ttl == 0
                      || served.answers[i].ttl * SECOND + (now - createdAt) <= response.answers[i].ttl * SECOND))
            && (forall i :: 0 <= i < |response.nameServers| ==>
                  served.nameServers[i].(ttl := response.nameServers[i].ttl) == response.nameServers[i])
            && (forall i :: 0 <= i < |response.additionals| ==>
                  served.additionals[i].(ttl := response.additionals[i].ttl) == response.additionals[i])
  {
    MinTtlIsLeast(response.answers);
    ServedTtlIsExact(response, createdAt, now);
  }
}
