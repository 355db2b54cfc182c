// A query on its way: examined, answered from the cache or from upstream, and the response put into the cache, with any
// number of queries and purges in between.
module Pipeline {
  import opened Wrappers
  import opened Dns
  import opened RequestKey
  import opened CacheObject
  import opened LruCache
  import opened Manipulators
  import Runs = CacheRuns
  import Seqs

  /** What stays fixed during a run. `encodes` says which messages the DNS library can encode. */
  datatype Env = Env(lib: Library, manipulators: Option<seq<Manipulator>>, maxSize: nat, encodes: Message -> bool)
  {
    ghost predicate Valid() {
      manipulators.Some? ==> AllValid(manipulators.value)
    }
  }

  /** `Died`: the handler panicked, and nothing comes back. */
  datatype Answer =
    | Synthetic(msg: Message)
    | FromCache(msg: Message)
    | FromUpstream(msg: Message)
    | Failed(error: DapError)
    | Died

  /** The end of a query: what was asked, what came back, and when. A packet that does not decode is `None`. */
  datatype Reply = Reply(packet: Option<Message>, answer: Answer, at: Instant)

  datatype Query =
    | AtCache(msg: Message, req: Request)
    | AtReply(msg: Message, req: Request, hit: CacheObject)
    | AtUpstream(msg: Message, req: Request)
    | Putting(msg: Message, req: Request, response: Message)

  datatype State = State(cache: Runs.State, queries: map<nat, Query>, replies: seq<Reply>)

  const INITIAL := State(Runs.INITIAL, map[], [])

  datatype Action =
    | Accept(task: nat, packet: Option<Message>)
    | Lookup(task: nat)
    | Build(task: nat)
    | NoPath(task: nat)
    | Upstream(task: nat, response: Option<Message>)
    | Finish(task: nat)
    | Timeout(task: nat)
    | Background(section: Runs.Action)

  // ---------- Examining a query ----------

  datatype Examined = Refused(answer: Answer) | Passed(msg: Message, req: Request)

  function Verdict(env: Env, msg: Message, key: QueryKey): Manipulators.Outcome
    requires env.Valid()
  {
    if env.manipulators.None? then Ok(PassThrough) else ApplyAll(env.lib, env.manipulators.value, msg, key)
  }

  /** Everything before the cache. */
  function Examine(env: Env, packet: Option<Message>): Examined
    requires env.Valid()
  {
    if packet.None? || packet.value.messageType != MessageType.Query then Refused(Failed(InvalidDnsQuery))
    else
      var msg := packet.value;
      match RequestOf(msg)
      case Err(_) => Refused(Failed(InvalidDnsQuery))
      case Ok(req) =>
        match Verdict(env, msg, req[0])
        case Err(e) => Refused(if e == InsertRefused then Died else Failed(e))
        case Ok(PassThrough) => Passed(msg, req)
        case Ok(SyntheticResponse(res)) => Refused(if env.encodes(res) then Synthetic(res) else Failed(EncodingFailed))
  }

  // ---------- Steps ----------

  function End(s: State, t: nat, packet: Option<Message>, answer: Answer): State {
    s.(queries := s.queries - {t}, replies := s.replies + [Reply(packet, answer, s.cache.now)])
  }

  function Goto(s: State, t: nat, q: Query): State {
    s.(queries := s.queries[t := q])
  }

  /** A response that decodes as one. */
  predicate IsResponse(response: Option<Message>) {
    response.Some? && response.value.messageType == Response
  }

  /** The cache section an action runs, a tick of no length if none. Sections of queries come from their own actions. */
  function Section(s: State, a: Action): Runs.Action {
    match a
    case Lookup(t) => if t in s.queries && s.queries[t].AtCache? then Runs.Get(s.queries[t].req) else Runs.Tick(0)
    case Upstream(t, response) =>
      if t in s.queries && s.queries[t].AtUpstream? && IsResponse(response)
      then Runs.PutStart(t, s.queries[t].req, response.value) else Runs.Tick(0)
    case Timeout(t) => if t in s.queries then Runs.Cancel(t) else Runs.Tick(0)
    case Background(section) =>
      (match section
       case PutStart(_, _, _) => Runs.Tick(0)
       case Get(_) => Runs.Tick(0)
       case Cancel(_) => Runs.Tick(0)
       case PurgeStart(t) => if t in s.queries then Runs.Tick(0) else section
       case _ => section)
    case _ => Runs.Tick(0)
  }

  /** What an action does beside its cache section. */
  function Outside(env: Env, s: State, a: Action): State
    requires env.Valid()
  {
    match a
    case Accept(t, packet) =>
      if t in s.queries || t in s.cache.tasks then s
      else
        (match Examine(env, packet)
         case Refused(answer) => End(s, t, packet, answer)
         case Passed(msg, req) => Goto(s, t, AtCache(msg, req)))
    case Lookup(t) =>
      if t !in s.queries || !s.queries[t].AtCache? then s
      else
        var q := s.queries[t];
        (match GetSection(s.cache.entries, q.req, s.cache.now).1
         case Some(hit) => Goto(s, t, AtReply(q.msg, q.req, hit))
         case None => Goto(s, t, AtUpstream(q.msg, q.req)))
    case Build(t) =>
      if t !in s.queries || !s.queries[t].AtReply? then s
      else
        var q := s.queries[t];
        var res := Served(q.hit, q.msg.id, s.cache.now);
        if env.encodes(res) then End(s, t, Some(q.msg), FromCache(res)) else Goto(s, t, AtUpstream(q.msg, q.req))
    case NoPath(t) =>
      if t !in s.queries || !s.queries[t].AtUpstream? then s
      else End(s, t, Some(s.queries[t].msg), Failed(NoPathAvailable))
    case Upstream(t, response) =>
      if t !in s.queries || !s.queries[t].AtUpstream? then s
      else if response.None? then End(s, t, Some(s.queries[t].msg), Failed(UpstreamFailed))
      else if !IsResponse(response) then End(s, t, Some(s.queries[t].msg), Failed(InvalidDnsResponse))
      else Goto(s, t, Putting(s.queries[t].msg, s.queries[t].req, response.value))
    case Finish(t) =>
      if t !in s.queries || !s.queries[t].Putting? || t in s.cache.tasks then s
      else End(s, t, Some(s.queries[t].msg), FromUpstream(s.queries[t].response))
    case Timeout(t) => s.(queries := s.queries - {t})
    case Background(_) => s
  }

  /** One action. An action that is not enabled changes nothing. */
  function Step(env: Env, s: State, a: Action): State
    requires env.Valid()
  {
    Outside(env, s, a).(cache := Runs.Step(env.maxSize, s.cache, Section(s, a)))
  }

  function After(env: Env, acts: seq<Action>): State
    requires env.Valid()
  {
    if acts == [] then INITIAL else Step(env, After(env, acts[..|acts| - 1]), acts[|acts| - 1])
  }

  // ---------- The cache of the pipeline is a run of the cache ----------

  function Sections(env: Env, acts: seq<Action>): (sections: seq<Runs.Action>)
    requires env.Valid()
    ensures |sections| == |acts|
  {
    if acts == [] then []
    else
      var before := acts[..|acts| - 1];
      Sections(env, before) + [Section(After(env, before), acts[|acts| - 1])]
  }

  /** Everything proved of the cache over its runs holds inside the pipeline. */
  lemma {:induction false} CacheRunsInside(env: Env, acts: seq<Action>)
    requires env.Valid()
    ensures After(env, acts).cache == Runs.After(env.maxSize, Sections(env, acts))
  {
    if acts != [] {
      var n := |acts| - 1;
      CacheRunsInside(env, acts[..n]);
      Runs.AfterSnoc(env.maxSize, Sections(env, acts[..n]), Section(After(env, acts[..n]), acts[n]));
    }
  }

  lemma {:induction false} SectionsBefore(env: Env, acts: seq<Action>, j: nat)
    requires env.Valid() && j <= |acts|
    ensures Sections(env, acts)[..j] == Sections(env, acts[..j])
  {
    var n := |acts| - 1;
    if j <= n {
      SectionsBefore(env, acts[..n], j);
      assert acts[..n][..j] == acts[..j];
    } else {
      assert acts[..j] == acts;
    }
  }

  lemma SectionAt(env: Env, acts: seq<Action>, j: nat)
    requires env.Valid() && j < |acts|
    ensures Sections(env, acts)[j] == Section(After(env, acts[..j]), acts[j])
  {
    SectionsBefore(env, acts, j + 1);
    assert acts[..j + 1][..j] == acts[..j];
    assert Sections(env, acts)[j] == Sections(env, acts)[..j + 1][j];
  }

  // ---------- Where cached objects come from ----------

  /** Action `j` brought the response of object `o` from upstream, for a query with this key. */
  ghost predicate FetchedAt(env: Env, acts: seq<Action>, j: nat, key: Request, o: CacheObject)
    requires env.Valid()
  {
    && j < |acts| && acts[j].Upstream? && IsResponse(acts[j].response)
    && var s := After(env, acts[..j]);
    && acts[j].task in s.queries && s.queries[acts[j].task].AtUpstream? && s.queries[acts[j].task].req == key
    && Cacheable(acts[j].response.value)
    && o == ObjectOf(acts[j].response.value, s.cache.now)
  }

  ghost predicate Fetched(env: Env, acts: seq<Action>, key: Request, o: CacheObject)
    requires env.Valid()
  {
    exists j :: FetchedAt(env, acts, j, key, o)
  }

  lemma FetchedLater(env: Env, acts: seq<Action>, a: Action, key: Request, o: CacheObject)
    requires env.Valid() && Fetched(env, acts, key, o)
    ensures Fetched(env, acts + [a], key, o)
  {
    var j: nat :| FetchedAt(env, acts, j, key, o);
    assert (acts + [a])[..j] == acts[..j];
    assert FetchedAt(env, acts + [a], j, key, o);
  }

  lemma BroughtIsFetched(env: Env, acts: seq<Action>, key: Request, o: CacheObject)
    requires env.Valid() && Runs.Brought(env.maxSize, Sections(env, acts), key, o)
    ensures Fetched(env, acts, key, o)
  {
    var j: nat :| Runs.BroughtAt(env.maxSize, Sections(env, acts), j, key, o);
    SectionAt(env, acts, j);
    SectionsBefore(env, acts, j);
    CacheRunsInside(env, acts[..j]);
    assert FetchedAt(env, acts, j, key, o);
  }

  /** Whatever the cache holds was fetched from upstream for a query with the same key. */
  lemma ResidentsWereFetched(env: Env, acts: seq<Action>, e: Entry)
    requires env.Valid() && e in After(env, acts).cache.entries
    ensures Fetched(env, acts, e.key, e.obj)
  {
    CacheRunsInside(env, acts);
    Runs.RunsAreConsistent(env.maxSize, Sections(env, acts));
    assert Runs.Tracked(env.maxSize, Sections(env, acts), e);
    BroughtIsFetched(env, acts, e.key, e.obj);
  }

  // ---------- Queries in flight ----------

  ghost predicate HasPassed(env: Env, q: Query)
    requires env.Valid()
  {
    Examine(env, Some(q.msg)) == Passed(q.msg, q.req)
  }

  lemma PassedFacts(env: Env, packet: Option<Message>)
    requires env.Valid() && Examine(env, packet).Passed?
    ensures var x := Examine(env, packet);
            && packet == Some(x.msg) && x.msg.messageType == MessageType.Query && x.msg.queries != []
            && RequestOf(x.msg) == Ok(x.req) && x.req != []
            && Verdict(env, x.msg, x.req[0]) == Ok(PassThrough)
  {
  }

  /** A query keeps its message and key; a hit comes from the cache, a response to put from upstream. */
  lemma QueryAfterStep(env: Env, s: State, a: Action, t: nat)
    requires env.Valid() && t in Step(env, s, a).queries
    ensures var q := Step(env, s, a).queries[t];
            if t in s.queries then
              && s.queries[t].msg == q.msg && s.queries[t].req == q.req
              && (q.AtReply? && q != s.queries[t] ==>
                    GetSection(s.cache.entries, q.req, s.cache.now).1 == Some(q.hit))
              && (q.Putting? && q != s.queries[t] ==> s.queries[t].AtUpstream? && a == Upstream(t, Some(q.response))
                                                      && q.response.messageType == Response)
            else
              q.AtCache? && a.Accept? && Examine(env, a.packet) == Passed(q.msg, q.req)
  {
  }

  lemma {:induction false} InFlight(env: Env, acts: seq<Action>, t: nat)
    requires env.Valid() && t in After(env, acts).queries
    ensures HasPassed(env, After(env, acts).queries[t])
  {
    var n := |acts| - 1;
    var s := After(env, acts[..n]);
    QueryAfterStep(env, s, acts[n], t);
    if t in s.queries {
      InFlight(env, acts[..n], t);
    } else {
      PassedFacts(env, acts[n].packet);
    }
  }

  /** Action `j` brought this response from upstream for this query message. */
  ghost predicate RespondedAt(env: Env, acts: seq<Action>, j: nat, msg: Message, response: Message)
    requires env.Valid()
  {
    && j < |acts| && acts[j].Upstream? && acts[j].response == Some(response) && response.messageType == Response
    && var s := After(env, acts[..j]);
    && acts[j].task in s.queries && s.queries[acts[j].task].AtUpstream? && s.queries[acts[j].task].msg == msg
  }

  ghost predicate Responded(env: Env, acts: seq<Action>, msg: Message, response: Message)
    requires env.Valid()
  {
    exists j :: RespondedAt(env, acts, j, msg, response)
  }

  lemma RespondedLater(env: Env, acts: seq<Action>, a: Action, msg: Message, response: Message)
    requires env.Valid() && Responded(env, acts, msg, response)
    ensures Responded(env, acts + [a], msg, response)
  {
    var j: nat :| RespondedAt(env, acts, j, msg, response);
    assert (acts + [a])[..j] == acts[..j];
    assert RespondedAt(env, acts + [a], j, msg, response);
  }

  lemma PutFollowsResponse(env: Env, before: seq<Action>, a: Action, t: nat)
    requires env.Valid()
    requires var s, s' := After(env, before), Step(env, After(env, before), a);
             t in s'.queries && s'.queries[t].Putting? && !(t in s.queries && s.queries[t] == s'.queries[t])
    ensures var q := Step(env, After(env, before), a).queries[t];
            RespondedAt(env, before + [a], |before|, q.msg, q.response)
  {
    QueryAfterStep(env, After(env, before), a, t);
    assert (before + [a])[..|before|] == before;
  }

  lemma {:induction false} PutsWereResponses(env: Env, acts: seq<Action>, t: nat)
    requires env.Valid() && t in After(env, acts).queries && After(env, acts).queries[t].Putting?
    ensures Responded(env, acts, After(env, acts).queries[t].msg, After(env, acts).queries[t].response)
  {
    var n := |acts| - 1;
    var s, q := After(env, acts[..n]), After(env, acts).queries[t];
    assert acts[..n] + [acts[n]] == acts;
    if t in s.queries && q == s.queries[t] {
      PutsWereResponses(env, acts[..n], t);
      RespondedLater(env, acts[..n], acts[n], q.msg, q.response);
    } else {
      PutFollowsResponse(env, acts[..n], acts[n], t);
      assert RespondedAt(env, acts, n, q.msg, q.response);
    }
  }

  lemma HitWasFetched(env: Env, acts: seq<Action>, key: Request, hit: CacheObject)
    requires env.Valid()
    requires GetSection(After(env, acts).cache.entries, key, After(env, acts).cache.now).1 == Some(hit)
    ensures Fetched(env, acts, key, hit)
  {
    CacheRunsInside(env, acts);
    Runs.GetAgreesWithTtlMap(env.maxSize, Sections(env, acts), key);
    BroughtIsFetched(env, acts, key, hit);
  }

  lemma {:induction false} HitsWereFetched(env: Env, acts: seq<Action>, t: nat)
    requires env.Valid() && t in After(env, acts).queries && After(env, acts).queries[t].AtReply?
    ensures Fetched(env, acts, After(env, acts).queries[t].req, After(env, acts).queries[t].hit)
  {
    var n := |acts| - 1;
    var s, q := After(env, acts[..n]), After(env, acts).queries[t];
    QueryAfterStep(env, s, acts[n], t);
    assert acts[..n] + [acts[n]] == acts;
    if q == s.queries[t] {
      HitsWereFetched(env, acts[..n], t);
    } else {
      HitWasFetched(env, acts[..n], q.req, q.hit);
    }
    FetchedLater(env, acts[..n], acts[n], q.req, q.hit);
  }

  // ---------- Replies ----------

  /** The reply of a query in flight. */
  predicate ReplyOf(q: Query, r: Reply) {
    && r.packet == Some(q.msg)
    && match r.answer
       case Synthetic(_) => false
       case FromCache(m) => q.AtReply? && m == Served(q.hit, q.msg.id, r.at)
       case FromUpstream(m) => q.Putting? && m == q.response
       case Failed(e) => q.AtUpstream?
       case Died => false
  }

  /** The error a query on its way upstream ends with: no path, nothing back, or something that is not a response. */
  predicate FailsWith(a: Action, e: DapError) {
    match a
    case NoPath(_) => e == NoPathAvailable
    case Upstream(_, None) => e == UpstreamFailed
    case Upstream(_, Some(m)) => m.messageType == MessageType.Query && e == InvalidDnsResponse
    case _ => false
  }

  /** Action `j` ended a query for this message with this error. */
  ghost predicate FailedAt(env: Env, acts: seq<Action>, j: nat, msg: Message, e: DapError)
    requires env.Valid()
  {
    && j < |acts| && FailsWith(acts[j], e)
    && var s := After(env, acts[..j]);
    && acts[j].task in s.queries && s.queries[acts[j].task].AtUpstream? && s.queries[acts[j].task].msg == msg
  }

  ghost predicate FailedBy(env: Env, acts: seq<Action>, msg: Message, e: DapError)
    requires env.Valid()
  {
    exists j :: FailedAt(env, acts, j, msg, e)
  }

  lemma FailedLater(env: Env, acts: seq<Action>, a: Action, msg: Message, e: DapError)
    requires env.Valid() && FailedBy(env, acts, msg, e)
    ensures FailedBy(env, acts + [a], msg, e)
  {
    var j: nat :| FailedAt(env, acts, j, msg, e);
    assert (acts + [a])[..j] == acts[..j];
    assert FailedAt(env, acts + [a], j, msg, e);
  }

  lemma RepliesAfterStep(env: Env, s: State, a: Action)
    requires env.Valid()
    ensures var replies := Step(env, s, a).replies;
            || replies == s.replies
            || (|replies| == |s.replies| + 1 && replies[..|s.replies|] == s.replies
                && var r := replies[|s.replies|];
                && r.at == s.cache.now
                && if a.Accept? then r.packet == a.packet && Examine(env, a.packet) == Refused(r.answer)
                   else
                     && !a.Background? && a.task in s.queries && ReplyOf(s.queries[a.task], r)
                     && (r.answer.Failed? ==> FailsWith(a, r.answer.error))
                     && (r.answer.FromCache? ==> env.encodes(r.answer.msg)))
  {
  }

  /** A cached reply is a fetched object, served under the id of the query and with the TTLs of the moment. */
  ghost predicate ServedFromFetched(env: Env, acts: seq<Action>, r: Reply, o: CacheObject)
    requires env.Valid() && r.answer.FromCache? && Examine(env, r.packet).Passed?
  {
    var x := Examine(env, r.packet);
    && Fetched(env, acts, x.req, o) && o.createAt <= r.at
    && r.answer.msg == Served(o, x.msg.id, r.at) && env.encodes(r.answer.msg)
  }

  /** The examination binds the reply: a query that is refused, blocked or overridden gets exactly that answer and never
      one from the cache or from upstream; any other gets a fetched object from the cache, the response upstream gave to
      this message, unchanged, or the error its way there ended with. */
  ghost predicate Obeys(env: Env, acts: seq<Action>, r: Reply)
    requires env.Valid()
  {
    match Examine(env, r.packet)
    case Refused(answer) => r.answer == answer
    case Passed(msg, req) =>
      match r.answer
      case Synthetic(_) => false
      case FromCache(m) => exists o :: ServedFromFetched(env, acts, r, o)
      case FromUpstream(m) => Responded(env, acts, msg, m)
      case Failed(e) => FailedBy(env, acts, msg, e)
      case Died => false
  }

  lemma {:induction false} ClockGoesOn(env: Env, acts: seq<Action>, j: nat)
    requires env.Valid() && j <= |acts|
    ensures After(env, acts[..j]).cache.now <= After(env, acts).cache.now
  {
    var n := |acts| - 1;
    if j <= n {
      ClockGoesOn(env, acts[..n], j);
      assert acts[..n][..j] == acts[..j];
      var s := After(env, acts[..n]);
      Runs.ClockStep(env.maxSize, s.cache, Section(s, acts[n]));
    } else {
      assert acts[..j] == acts;
    }
  }

  lemma FetchedEarlier(env: Env, acts: seq<Action>, key: Request, o: CacheObject)
    requires env.Valid() && Fetched(env, acts, key, o)
    ensures o.createAt <= After(env, acts).cache.now
  {
    var j: nat :| FetchedAt(env, acts, j, key, o);
    ClockGoesOn(env, acts, j);
  }

  lemma ObeysLater(env: Env, acts: seq<Action>, a: Action, r: Reply)
    requires env.Valid() && Obeys(env, acts, r)
    ensures Obeys(env, acts + [a], r)
  {
    if Examine(env, r.packet).Passed? {
      if r.answer.FromCache? {
        var o :| ServedFromFetched(env, acts, r, o);
        FetchedLater(env, acts, a, Examine(env, r.packet).req, o);
        assert ServedFromFetched(env, acts + [a], r, o);
      } else if r.answer.FromUpstream? {
        RespondedLater(env, acts, a, Examine(env, r.packet).msg, r.answer.msg);
      } else {
        FailedLater(env, acts, a, Examine(env, r.packet).msg, r.answer.error);
      }
    }
  }

  lemma NewReplyObeys(env: Env, acts: seq<Action>, a: Action, r: Reply)
    requires env.Valid() && !a.Accept? && !a.Background? && a.task in After(env, acts).queries
    requires ReplyOf(After(env, acts).queries[a.task], r) && r.at == After(env, acts).cache.now
    requires r.answer.Failed? ==> FailsWith(a, r.answer.error)
    requires r.answer.FromCache? ==> env.encodes(r.answer.msg)
    ensures Obeys(env, acts + [a], r)
  {
    var t, q := a.task, After(env, acts).queries[a.task];
    InFlight(env, acts, t);
    if r.answer.FromCache? {
      HitsWereFetched(env, acts, t);
      FetchedEarlier(env, acts, q.req, q.hit);
      assert ServedFromFetched(env, acts, r, q.hit);
      ObeysLater(env, acts, a, r);
    } else if r.answer.FromUpstream? {
      PutsWereResponses(env, acts, t);
      ObeysLater(env, acts, a, r);
    } else {
      assert (acts + [a])[..|acts|] == acts;
      assert FailedAt(env, acts + [a], |acts|, q.msg, r.answer.error);
    }
  }

  /** Over every run, every reply obeys the examination of its packet. */
  lemma {:induction false} EveryReplyObeys(env: Env, acts: seq<Action>, i: nat)
    requires env.Valid() && i < |After(env, acts).replies|
    ensures Obeys(env, acts, After(env, acts).replies[i])
  {
    var n := |acts| - 1;
    var s, r := After(env, acts[..n]), After(env, acts).replies[i];
    RepliesAfterStep(env, s, acts[n]);
    assert acts[..n] + [acts[n]] == acts;
    if i < |s.replies| {
      EveryReplyObeys(env, acts[..n], i);
      assert r == s.replies[i];
      ObeysLater(env, acts[..n], acts[n], r);
    } else if !acts[n].Accept? {
      NewReplyObeys(env, acts[..n], acts[n], r);
    }
  }

  // ---------- What this means for rules, keys and answers ----------

  /** With the chain of a configuration, the configured lines decide on the least question: what they override or block is
      never answered from the cache or from upstream. */
  lemma LinesBindEveryReply(env: Env, config: QueryManipulationConfig, acts: seq<Action>, i: nat)
    requires env.manipulators == Some(ChainOf(env.lib, config)) && i < |After(env, acts).replies|
    requires var packet := After(env, acts).replies[i].packet;
             packet.Some? && packet.value.messageType == MessageType.Query && packet.value.queries != []
    ensures var r := After(env, acts).replies[i];
            var req := RequestOf(r.packet.value).value;
            match LineVerdict(env.lib, config, r.packet.value, req[0])
            case Err(e) => r.answer == if e == InsertRefused then Died else Failed(e)
            case Ok(SyntheticResponse(m)) => r.answer == if env.encodes(m) then Synthetic(m) else Failed(EncodingFailed)
            case Ok(PassThrough) => !r.answer.Synthetic?
  {
    EveryReplyObeys(env, acts, i);
    var msg := After(env, acts).replies[i].packet.value;
    ChainDecidesByLines(env.lib, config, msg, RequestOf(msg).value[0]);
  }

  /** Exactly which packets kill the handler: queries whose least question is overridden and that carry answers. */
  lemma DiesIffOverriddenWithAnswers(env: Env, config: QueryManipulationConfig, packet: Option<Message>)
    requires env.manipulators == Some(ChainOf(env.lib, config))
    ensures Examine(env, packet) == Refused(Died) <==>
            && packet.Some? && packet.value.messageType == MessageType.Query && packet.value.queries != []
            && var key := RequestOf(packet.value).value[0];
            && OverrideAddress(env.lib, config, key).Some? && env.lib.parsesName(key.name) && packet.value.answers != []
  {
    if packet.Some? && packet.value.queries != [] {
      PanicsIffOverriddenWithAnswers(env.lib, config, packet.value, RequestOf(packet.value).value[0]);
    }
  }

  /** The manipulators let the first question of every resident key pass, whatever message asks it. */
  lemma ResidentKeysPass(env: Env, acts: seq<Action>, e: Entry, msg: Message)
    requires env.Valid() && e in After(env, acts).cache.entries
    ensures e.key != [] && Verdict(env, msg, e.key[0]) == Ok(PassThrough)
  {
    ResidentsWereFetched(env, acts, e);
    var j: nat :| FetchedAt(env, acts, j, e.key, e.obj);
    var asked := After(env, acts[..j]).queries[acts[j].task].msg;
    InFlight(env, acts[..j], acts[j].task);
    PassedFacts(env, Some(asked));
    if env.manipulators.Some? {
      PassingIgnoresMessage(env.lib, env.manipulators.value, asked, msg, e.key[0]);
    }
  }

  /** A reply from the cache is the response upstream gave earlier to a query with the same questions, letter case and
      order aside. It carries the id of the query and keeps all records; each of them, in every section, has what is left
      of the least answer TTL, so no answer lives longer than upstream said. */
  lemma CachedRepliesAreEarlierResponses(env: Env, acts: seq<Action>, i: nat)
    returns (j: nat, asked: Message, least: nat, begun: nat)
    requires env.Valid() && i < |After(env, acts).replies| && After(env, acts).replies[i].answer.FromCache?
    ensures j < |acts| && acts[j].Upstream? && IsResponse(acts[j].response)
    ensures var s := After(env, acts[..j]);
            acts[j].task in s.queries && s.queries[acts[j].task].AtUpstream? && s.queries[acts[j].task].msg == asked
    ensures var r := After(env, acts).replies[i];
            var m, response := r.answer.msg, acts[j].response.value;
            var elapsed := r.at - After(env, acts[..j]).cache.now;
            && r.packet.Some? && AskTheSame(r.packet.value.queries, asked.queries)
            && m.id == r.packet.value.id && m.responseCode == response.responseCode && m.queries == response.queries
            && elapsed >= 0 && ServedWithRest(m, response, elapsed, least, begun)
            && forall k :: 0 <= k < |m.answers| ==>
                 m.answers[k].ttl == 0 || m.answers[k].ttl * SECOND + elapsed <= response.answers[k].ttl * SECOND
  {
    EveryReplyObeys(env, acts, i);
    var r := After(env, acts).replies[i];
    PassedFacts(env, r.packet);
    var msg, req := Examine(env, r.packet).msg, Examine(env, r.packet).req;
    var o :| ServedFromFetched(env, acts, r, o);
    j :| FetchedAt(env, acts, j, req, o);
    asked := After(env, acts[..j]).queries[acts[j].task].msg;
    InFlight(env, acts[..j], acts[j].task);
    PassedFacts(env, Some(asked));
    SameKeyIffSameQuestions(msg, asked);
    CacheableIffAnswersMayBeKept(acts[j].response.value);
    ServingNeverLengthens(acts[j].response.value, o.createAt, r.at, msg.id);
    least, begun := EveryRecordServedWithRest(acts[j].response.value, o.createAt, r.at, msg.id);
  }

  // ---------- How far the cache can grow ----------

  /** Every put in flight belongs to a query that is putting its response. */
  ghost predicate PutsAreQueries(s: State) {
    forall t :: t in s.cache.tasks && s.cache.tasks[t].IsPut() ==> t in s.queries && s.queries[t].Putting?
  }

  /** A put in flight keeps its query: only its end or its time-out takes the query away. */
  lemma PuttingAfterStep(env: Env, s: State, a: Action, t: nat)
    requires env.Valid() && t in s.queries && s.queries[t].Putting? && t in s.cache.tasks
    requires t in Step(env, s, a).cache.tasks
    ensures t in Step(env, s, a).queries && Step(env, s, a).queries[t].Putting?
  {
  }

  lemma PutsAreQueriesStep(env: Env, s: State, a: Action)
    requires env.Valid() && PutsAreQueries(s)
    ensures PutsAreQueries(Step(env, s, a))
  {
    var s' := Step(env, s, a);
    forall t | t in s'.cache.tasks && s'.cache.tasks[t].IsPut() ensures t in s'.queries && s'.queries[t].Putting? {
      Runs.PutTasksAfterStep(env.maxSize, s.cache, Section(s, a), t);
      if t in s.cache.tasks {
        PuttingAfterStep(env, s, a, t);
      } else {
        assert a.Upstream? && a.task == t;
      }
    }
  }

  lemma {:induction false} PutsAreAlwaysQueries(env: Env, acts: seq<Action>)
    requires env.Valid()
    ensures PutsAreQueries(After(env, acts))
  {
    if acts != [] {
      var n := |acts| - 1;
      PutsAreAlwaysQueries(env, acts[..n]);
      PutsAreQueriesStep(env, After(env, acts[..n]), acts[n]);
    }
  }

  /** With at most `n >= 1` queries in flight at any time the cache holds at most `maxSize + n - 1` entries. */
  lemma {:induction false} CacheStaysNearMaximum(env: Env, acts: seq<Action>, n: nat)
    requires env.Valid() && n >= 1
    requires forall i :: 0 <= i <= |acts| ==> |After(env, acts[..i]).queries.Keys| <= n
    ensures Runs.WithinLoad(env.maxSize, After(env, acts).cache, n)
    ensures |After(env, acts).cache.entries| <= if env.maxSize == 0 then 0 else env.maxSize + n - 1
  {
    if acts == [] {
      assert Runs.Holding(Runs.INITIAL.tasks) == {};
    } else {
      var last := |acts| - 1;
      var s := After(env, acts[..last]);
      assert forall i :: 0 <= i <= last ==> acts[..last][..i] == acts[..i];
      CacheStaysNearMaximum(env, acts[..last], n);
      PutsAreAlwaysQueries(env, acts[..last]);
      Seqs.SubsetSize(Runs.Puts(s.cache.tasks), s.queries.Keys);
      Runs.StepKeepsLoad(env.maxSize, s.cache, Section(s, acts[last]), n);
    }
  }
}
