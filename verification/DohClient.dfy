// The query handler as the client runs it, and its place among the runs of the pipeline.
module DohClient {
  import opened Wrappers
  import opened Dns
  import opened RequestKey
  import opened CacheObject
  import opened LruCache
  import opened Manipulators
  import opened Pipeline
  import Runs = CacheRuns

  /** What the outside does to one query: the clock at the lookup, at the rewriting of a hit and at the put, whether a
      path is found, and the packet that comes back from upstream. */
  datatype World = World(
    getAt: Instant, buildAt: Instant, putAt: Instant, pathFound: bool, response: Option<Message>
  )

  /** The part after a cache miss. */
  function Forwarded(env: Env, l: EntryList, req: Request, w: World): (EntryList, Answer) {
    if !w.pathFound then (l, Failed(NoPathAvailable))
    else if w.response.None? then (l, Failed(UpstreamFailed))
    else if !IsResponse(w.response) then (l, Failed(InvalidDnsResponse))
    else (PutSections(env.maxSize, l, req, w.response.value, w.putAt).0, FromUpstream(w.response.value))
  }

  /** The part after the examination. */
  function LookedUp(env: Env, l: EntryList, msg: Message, req: Request, w: World): (EntryList, Answer) {
    var (looked, hit) := GetSection(l, req, w.getAt);
    if hit.Some? && env.encodes(Served(hit.value, msg.id, w.buildAt))
    then (looked, FromCache(Served(hit.value, msg.id, w.buildAt)))
    else Forwarded(env, looked, req, w)
  }

  /** The cache entries and the answer after one query with nothing in between. */
  function Undisturbed(env: Env, l: EntryList, packet: Option<Message>, w: World): (EntryList, Answer)
    requires env.Valid()
  {
    match Examine(env, packet)
    case Refused(answer) => (l, answer)
    case Passed(msg, req) => LookedUp(env, l, msg, req, w)
  }

  /** Which failure the error of a query names: a packet that is no query with a question; no path; nothing back from
      upstream; something else than a response. A query that passes and has no hit to serve fails in no other way. */
  lemma ErrorNamesFailure(env: Env, l: EntryList, packet: Option<Message>, w: World)
    requires env.Valid()
    ensures var answer := Undisturbed(env, l, packet, w).1;
            && (answer == Failed(InvalidDnsQuery) <==>
                packet.None? || packet.value.messageType == MessageType.Response || packet.value.queries == [])
            && (answer == Failed(NoPathAvailable) ==> !w.pathFound)
            && (answer == Failed(UpstreamFailed) ==> w.pathFound && w.response == None)
            && (answer == Failed(InvalidDnsResponse) ==>
                  w.pathFound && w.response.Some? && w.response.value.messageType == MessageType.Query)
            && (Examine(env, packet).Passed? && !answer.FromCache? ==>
                  if w.pathFound && w.response.Some? && w.response.value.messageType == Response
                  then answer == FromUpstream(w.response.value)
                  else answer in {Failed(NoPathAvailable), Failed(UpstreamFailed), Failed(InvalidDnsResponse)})
  {
    if packet.Some? && packet.value.queries != [] && env.manipulators.Some? {
      ChainErrors(env.lib, env.manipulators.value, packet.value, RequestOf(packet.value).value[0]);
    }
  }

  // ---------- The cache in front of upstream ----------

  /** The cache answers a query that passes exactly if it holds an entry for its key that is not expired and can be
      encoded under the id of the query. */
  lemma CacheAnswersIffHit(env: Env, l: EntryList, packet: Option<Message>, w: World)
    requires env.Valid() && DistinctKeys(l) && Examine(env, packet).Passed?
    ensures var x, answer := Examine(env, packet), Undisturbed(env, l, packet, w).1;
            answer.FromCache? <==>
            exists e :: e in l && e.key == x.req && w.getAt <= e.obj.expireAt
              && env.encodes(Served(e.obj, x.msg.id, w.buildAt))
  {
    var req := Examine(env, packet).req;
    var i := IndexOf(l, req);
    if i < |l| { assert l[i] in l; }
    forall e | e in l && e.key == req ensures i < |l| && l[i] == e { EntryFound(l, e); }
  }

  /** Successful or NXDOMAIN, with answers whose TTLs are all above zero. */
  predicate MayBeKept(response: Message) {
    && (response.responseCode == NoError || response.responseCode == NXDomain) && response.answers != []
    && forall i :: 0 <= i < |response.answers| ==> response.answers[i].ttl > 0
  }

  lemma ResponseIsStored(env: Env, l: EntryList, packet: Option<Message>, w: World)
    requires env.Valid() && env.maxSize > 0 && Examine(env, packet).Passed?
    requires Undisturbed(env, l, packet, w).1.FromUpstream? && MayBeKept(Undisturbed(env, l, packet, w).1.msg)
    ensures var (entries, answer) := Undisturbed(env, l, packet, w);
            && Entry(Examine(env, packet).req, ObjectOf(answer.msg, w.putAt)) in entries
            && (DistinctKeys(l) ==> DistinctKeys(entries))
  {
    var (looked, _) := GetSection(l, Examine(env, packet).req, w.getAt);
    var response := Undisturbed(env, l, packet, w).1.msg;
    CacheableIffAnswersMayBeKept(response);
    var key := Examine(env, packet).req;
    var entries := Undisturbed(env, l, packet, w).0;
    assert entries[|entries| - 1] == Entry(key, ObjectOf(response, w.putAt));
    if DistinctKeys(l) {
      GetKeepsDistinct(l, key, w.getAt);
      PutKeepsDistinct(env.maxSize, looked, key, response, w.putAt);
    }
  }

  lemma SameQuestionsPass(env: Env, first: Message, second: Message)
    requires env.Valid() && Examine(env, Some(first)).Passed?
    requires second.messageType == MessageType.Query && AskTheSame(first.queries, second.queries)
    ensures Examine(env, Some(second)) == Passed(second, Examine(env, Some(first)).req)
  {
    assert TimesAsked(first.queries, first.queries[0]) == TimesAsked(second.queries, first.queries[0]);
    SameQuestionToItself(first.queries[0]);
    SameKeyIffSameQuestions(first, second);
    if env.manipulators.Some? {
      PassingIgnoresMessage(env.lib, env.manipulators.value, first, second, RequestOf(first).value[0]);
    }
  }

  lemma SameQuestionToItself(q: Question)
    ensures SameQuestion(q, q)
  {
  }

  /** What a cache is for: after a query was answered from upstream with a response that may be kept, a query with the
      same questions, letter case and order aside, gets that response from the cache until the least of its TTLs has
      passed, under its own id and with what is left of that TTL, provided it can be encoded. */
  lemma SecondQueryIsServed(env: Env, l: EntryList, first: Message, w1: World, second: Message, w2: World)
    returns (reply: Message, least: nat, begun: nat)
    requires env.Valid() && DistinctKeys(l) && env.maxSize > 0 && Examine(env, Some(first)).Passed?
    requires Undisturbed(env, l, Some(first), w1).1.FromUpstream? && MayBeKept(Undisturbed(env, l, Some(first), w1).1.msg)
    requires second.messageType == MessageType.Query && AskTheSame(first.queries, second.queries)
    requires w1.putAt <= w2.getAt <= w2.buildAt
    requires var response := Undisturbed(env, l, Some(first), w1).1.msg;
             forall i :: 0 <= i < |response.answers| ==> w2.getAt - w1.putAt <= response.answers[i].ttl * 1_000_000_000
    ensures var response := Undisturbed(env, l, Some(first), w1).1.msg;
            && reply.id == second.id && reply.queries == response.queries && reply.responseCode == response.responseCode
            && ServedWithRest(reply, response, w2.buildAt - w1.putAt, least, begun)
    ensures var entries := Undisturbed(env, l, Some(first), w1).0;
            env.encodes(reply) ==> Undisturbed(env, entries, Some(second), w2).1 == FromCache(reply)
  {
    var (entries, answer) := Undisturbed(env, l, Some(first), w1);
    var o := ObjectOf(answer.msg, w1.putAt);
    var e := Entry(Examine(env, Some(first)).req, o);
    ResponseIsStored(env, l, Some(first), w1);
    SameQuestionsPass(env, first, second);
    ExpiresWithFirstAnswer(answer.msg, w1.putAt, w2.getAt);
    EntryFound(entries, e);
    reply := Served(o, second.id, w2.buildAt);
    least, begun := EveryRecordServedWithRest(answer.msg, w1.putAt, w2.buildAt, second.id);
  }

  class DoHClient {
    const env: Env
    const cache: Cache

    ghost predicate Valid()
      reads cache
    {
      env.Valid() && cache.Valid() && cache.maxSize == env.maxSize
    }

    constructor (env: Env)
      requires env.Valid()
      ensures Valid() && fresh(cache) && cache.entries == [] && this.env == env
    {
      this.env := env;
      this.cache := new Cache(env.maxSize);
    }

    method MakeDohQuery(packet: Option<Message>, w: World) returns (answer: Answer)
      requires Valid()
      modifies cache
      ensures Valid()
      ensures (cache.entries, answer) == Undisturbed(env, old(cache.entries), packet, w)
    {
      if packet.None? || packet.value.messageType != MessageType.Query {
        return Failed(InvalidDnsQuery);
      }
      var queryMsg := packet.value;
      var queryId := queryMsg.id;
      var req := RequestKey.TryFrom(queryMsg);
      if req.Err? {
        return Failed(InvalidDnsQuery);
      }
      if env.manipulators.Some? {
        var executionResult := Apply(env.lib, env.manipulators.value, queryMsg, req.value[0]);
        match executionResult
        case Err(e) => return if e == InsertRefused then Died else Failed(e);
        case Ok(PassThrough) =>
        case Ok(SyntheticResponse(responseMsg)) =>
          return if env.encodes(responseMsg) then Synthetic(responseMsg) else Failed(EncodingFailed);
      }
      var hit := cache.Get(req.value, w.getAt);
      if hit.Some? {
        var res := BuildResponse(hit.value, queryId, w.buildAt);
        if env.encodes(res) {
          return FromCache(res);
        }
      }
      if !w.pathFound {
        return Failed(NoPathAvailable);
      }
      if w.response.None? {
        return Failed(UpstreamFailed);
      }
      if w.response.value.messageType != Response {
        return Failed(InvalidDnsResponse);
      }
      var _ := cache.Put(req.value, w.response.value, w.putAt);
      answer := FromUpstream(w.response.value);
    }
  }

  // ---------- An undisturbed query is a run of the pipeline ----------

  function Steps(env: Env, s: State, acts: seq<Action>): State
    requires env.Valid()
    decreases |acts|
  {
    if acts == [] then s else Steps(env, Step(env, s, acts[0]), acts[1..])
  }

  lemma {:induction false} StepsConcat(env: Env, s: State, a: seq<Action>, b: seq<Action>)
    requires env.Valid()
    ensures Steps(env, s, a + b) == Steps(env, Steps(env, s, a), b)
    decreases |a|
  {
    if a == [] {
      assert a + b == b;
    } else {
      assert (a + b)[1..] == a[1..] + b;
      StepsConcat(env, Step(env, s, a[0]), a[1..], b);
    }
  }

  lemma StepsOne(env: Env, s: State, before: seq<Action>, a: Action)
    requires env.Valid()
    ensures Steps(env, s, before + [a]) == Step(env, Steps(env, s, before), a)
  {
    StepsConcat(env, s, before, [a]);
    assert [a][1..] == [];
  }

  // One action at a time.

  function At(s: State, now: Instant): State {
    s.(cache := s.cache.(now := now))
  }

  predicate Idle(s: State, t: nat) {
    t !in s.queries && t !in s.cache.tasks
  }

  lemma WhenIdle(env: Env, s: State, t: nat, a: Action)
    requires env.Valid() && Idle(s, t)
    requires a in {Lookup(t), Build(t), NoPath(t), Finish(t), Background(Runs.PutSize(t)), Background(Runs.PutPop(t)),
                   Background(Runs.PutInsert(t))}
             || (a.Upstream? && a.task == t)
    ensures Step(env, s, a) == s
  {
  }

  lemma WaitFacts(env: Env, s: State, pause: nat)
    requires env.Valid()
    ensures Step(env, s, Background(Runs.Tick(pause))) == At(s, s.cache.now + pause)
  {
  }

  lemma AcceptFacts(env: Env, s: State, t: nat, packet: Option<Message>)
    requires env.Valid() && Idle(s, t)
    ensures Step(env, s, Accept(t, packet)) ==
            match Examine(env, packet)
            case Refused(answer) => s.(replies := s.replies + [Reply(packet, answer, s.cache.now)])
            case Passed(msg, req) => s.(queries := s.queries[t := AtCache(msg, req)])
  {
    assert s.queries - {t} == s.queries;
  }

  lemma LookupFacts(env: Env, s: State, t: nat, msg: Message, req: Request)
    requires env.Valid() && t in s.queries && s.queries[t] == AtCache(msg, req)
    ensures var (looked, hit) := GetSection(s.cache.entries, req, s.cache.now);
            Step(env, s, Lookup(t)) ==
            State(s.cache.(entries := looked),
                  s.queries[t := if hit.Some? then AtReply(msg, req, hit.value) else AtUpstream(msg, req)], s.replies)
  {
  }

  lemma BuildFacts(env: Env, s: State, t: nat)
    requires env.Valid() && t in s.queries
    ensures var q := s.queries[t];
            Step(env, s, Build(t)) ==
            if !q.AtReply? then s
            else
              var res := Served(q.hit, q.msg.id, s.cache.now);
              if env.encodes(res) then
                State(s.cache, s.queries - {t}, s.replies + [Reply(Some(q.msg), FromCache(res), s.cache.now)])
              else s.(queries := s.queries[t := AtUpstream(q.msg, q.req)])
  {
  }

  lemma NotForwardedFacts(env: Env, s: State, t: nat, w: World)
    requires env.Valid() && t in s.queries && s.queries[t].AtUpstream? && !(w.pathFound && IsResponse(w.response))
    ensures var q := s.queries[t];
            Step(env, s, if w.pathFound then Upstream(t, w.response) else NoPath(t)) ==
            State(s.cache, s.queries - {t},
                  s.replies + [Reply(Some(q.msg), Forwarded(env, s.cache.entries, q.req, w).1, s.cache.now)])
  {
  }

  lemma ResponseFacts(env: Env, s: State, t: nat, response: Message)
    requires env.Valid() && t in s.queries && s.queries[t].AtUpstream? && response.messageType == Response
    ensures var q := s.queries[t];
            Step(env, s, Upstream(t, Some(response))) ==
            State(Runs.Step(env.maxSize, s.cache, Runs.PutStart(t, q.req, response)),
                  s.queries[t := Putting(q.msg, q.req, response)], s.replies)
  {
  }

  lemma PutSectionFacts(env: Env, s: State, section: Runs.Action)
    requires env.Valid() && (section.PutSize? || section.PutPop? || section.PutInsert?)
    ensures Step(env, s, Background(section)) == s.(cache := Runs.Step(env.maxSize, s.cache, section))
  {
  }

  lemma FinishFacts(env: Env, s: State, t: nat)
    requires env.Valid() && t in s.queries && s.queries[t].Putting? && t !in s.cache.tasks
    ensures Step(env, s, Finish(t)) ==
            State(s.cache, s.queries - {t},
                  s.replies + [Reply(Some(s.queries[t].msg), FromUpstream(s.queries[t].response), s.cache.now)])
  {
  }

  // The two stages of a query.

  /** Look into the cache, and answer from it a little later. */
  function LookActions(t: nat, pause: nat): seq<Action> {
    [] + [Lookup(t)] + [Background(Runs.Tick(pause))] + [Build(t)]
  }

  /** Go upstream a little later, and put the response. */
  function ForwardActions(t: nat, w: World, pause: nat): seq<Action> {
    [] + [Background(Runs.Tick(pause))] + [if w.pathFound then Upstream(t, w.response) else NoPath(t)]
    + [Background(Runs.PutSize(t))] + [Background(Runs.PutPop(t))] + [Background(Runs.PutInsert(t))] + [Finish(t)]
  }

  lemma LookSteps(env: Env, s: State, t: nat, pause: nat)
    returns (one: State, two: State)
    requires env.Valid()
    ensures one == Step(env, s, Lookup(t)) && two == Step(env, one, Background(Runs.Tick(pause)))
    ensures Steps(env, s, LookActions(t, pause)) == Step(env, two, Build(t))
  {
    one := Step(env, s, Lookup(t));
    two := Step(env, one, Background(Runs.Tick(pause)));
    StepsOne(env, s, [], Lookup(t));
    StepsOne(env, s, [] + [Lookup(t)], Background(Runs.Tick(pause)));
    StepsOne(env, s, [] + [Lookup(t)] + [Background(Runs.Tick(pause))], Build(t));
  }

  lemma ForwardSteps(env: Env, s: State, t: nat, w: World, pause: nat)
    returns (one: State, two: State, three: State, four: State, five: State)
    requires env.Valid()
    ensures one == Step(env, s, Background(Runs.Tick(pause)))
    ensures two == Step(env, one, if w.pathFound then Upstream(t, w.response) else NoPath(t))
    ensures three == Step(env, two, Background(Runs.PutSize(t)))
    ensures four == Step(env, three, Background(Runs.PutPop(t)))
    ensures five == Step(env, four, Background(Runs.PutInsert(t)))
    ensures Steps(env, s, ForwardActions(t, w, pause)) == Step(env, five, Finish(t))
  {
    var l1 := [] + [Background(Runs.Tick(pause))];
    var l2 := l1 + [if w.pathFound then Upstream(t, w.response) else NoPath(t)];
    var l3 := l2 + [Background(Runs.PutSize(t))];
    var l4 := l3 + [Background(Runs.PutPop(t))];
    var l5 := l4 + [Background(Runs.PutInsert(t))];
    one, two, three, four, five :=
      Steps(env, s, l1), Steps(env, s, l2), Steps(env, s, l3), Steps(env, s, l4), Steps(env, s, l5);
    StepsOne(env, s, [], Background(Runs.Tick(pause)));
    StepsOne(env, s, l1, if w.pathFound then Upstream(t, w.response) else NoPath(t));
    StepsOne(env, s, l2, Background(Runs.PutSize(t)));
    StepsOne(env, s, l3, Background(Runs.PutPop(t)));
    StepsOne(env, s, l4, Background(Runs.PutInsert(t)));
    StepsOne(env, s, l5, Finish(t));
  }

  lemma LookWhenIdle(env: Env, s: State, t: nat, pause: nat)
    requires env.Valid() && Idle(s, t)
    ensures Steps(env, s, LookActions(t, pause)) == At(s, s.cache.now + pause)
  {
    var one, two := LookSteps(env, s, t, pause);
    WhenIdle(env, s, t, Lookup(t));
    WaitFacts(env, s, pause);
    WhenIdle(env, two, t, Build(t));
  }

  lemma ForwardWhenIdle(env: Env, s: State, t: nat, w: World, pause: nat)
    requires env.Valid() && Idle(s, t)
    ensures Steps(env, s, ForwardActions(t, w, pause)) == At(s, s.cache.now + pause)
  {
    var one, two, three, four, five := ForwardSteps(env, s, t, w, pause);
    WaitFacts(env, s, pause);
    WhenIdle(env, one, t, if w.pathFound then Upstream(t, w.response) else NoPath(t));
    PutWhenIdle(env, one, t);
  }

  lemma PutWhenIdle(env: Env, s: State, t: nat)
    requires env.Valid() && Idle(s, t)
    ensures Step(env, s, Background(Runs.PutSize(t))) == s && Step(env, s, Background(Runs.PutPop(t))) == s
    ensures Step(env, s, Background(Runs.PutInsert(t))) == s && Step(env, s, Finish(t)) == s
  {
    WhenIdle(env, s, t, Background(Runs.PutSize(t)));
    WhenIdle(env, s, t, Background(Runs.PutPop(t)));
    WhenIdle(env, s, t, Background(Runs.PutInsert(t)));
    WhenIdle(env, s, t, Finish(t));
  }

  /** The end of one query: the cache as given, one more reply, everything else as before. */
  predicate Answered(s: State, end: State, now: Instant, entries: EntryList, packet: Option<Message>, answer: Answer) {
    && end.cache == Runs.State(now, entries, s.cache.tasks)
    && end.queries == s.queries
    && |end.replies| == |s.replies| + 1 && end.replies[..|s.replies|] == s.replies
    && end.replies[|s.replies|].packet == packet && end.replies[|s.replies|].answer == answer
  }

  /** The state with query `t` in flight. */
  function InFlightAs(s: State, t: nat, q: Query): State {
    s.(queries := s.queries[t := q])
  }

  lemma LookStage(env: Env, s: State, t: nat, msg: Message, req: Request, pause: nat)
    requires env.Valid() && Idle(s, t)
    ensures var (looked, hit) := GetSection(s.cache.entries, req, s.cache.now);
            var now := s.cache.now + pause;
            var end := Steps(env, InFlightAs(s, t, AtCache(msg, req)), LookActions(t, pause));
            if hit.Some? && env.encodes(Served(hit.value, msg.id, now)) then
              Answered(s, end, now, looked, Some(msg), FromCache(Served(hit.value, msg.id, now)))
            else
              end == InFlightAs(s.(cache := Runs.State(now, looked, s.cache.tasks)), t, AtUpstream(msg, req))
  {
    var start := InFlightAs(s, t, AtCache(msg, req));
    var one, two := LookSteps(env, start, t, pause);
    LookupFacts(env, start, t, msg, req);
    WaitFacts(env, one, pause);
    BuildFacts(env, two, t);
    assert two.queries - {t} == s.queries;
    assert two.queries[t := AtUpstream(msg, req)] == s.queries[t := AtUpstream(msg, req)];
  }

  lemma ForwardStage(env: Env, s: State, t: nat, msg: Message, req: Request, w: World, pause: nat)
    requires env.Valid() && Idle(s, t) && s.cache.now + pause == w.putAt
    ensures var (put, answer) := Forwarded(env, s.cache.entries, req, w);
            Answered(s, Steps(env, InFlightAs(s, t, AtUpstream(msg, req)), ForwardActions(t, w, pause)),
                     w.putAt, put, Some(msg), answer)
  {
    if w.pathFound && IsResponse(w.response) {
      ForwardAnswers(env, s, t, msg, req, w, pause);
    } else {
      ForwardFails(env, s, t, msg, req, w, pause);
    }
  }

  lemma ForwardFails(env: Env, s: State, t: nat, msg: Message, req: Request, w: World, pause: nat)
    requires env.Valid() && Idle(s, t) && s.cache.now + pause == w.putAt && !(w.pathFound && IsResponse(w.response))
    ensures var (put, answer) := Forwarded(env, s.cache.entries, req, w);
            Answered(s, Steps(env, InFlightAs(s, t, AtUpstream(msg, req)), ForwardActions(t, w, pause)),
                     w.putAt, put, Some(msg), answer)
  {
    var start := InFlightAs(s, t, AtUpstream(msg, req));
    var one, two, three, four, five := ForwardSteps(env, start, t, w, pause);
    WaitFacts(env, start, pause);
    NotForwardedFacts(env, one, t, w);
    assert one.queries - {t} == s.queries;
    PutWhenIdle(env, two, t);
  }

  lemma ForwardAnswers(env: Env, s: State, t: nat, msg: Message, req: Request, w: World, pause: nat)
    requires env.Valid() && Idle(s, t) && s.cache.now + pause == w.putAt && w.pathFound && IsResponse(w.response)
    ensures var (put, answer) := Forwarded(env, s.cache.entries, req, w);
            Answered(s, Steps(env, InFlightAs(s, t, AtUpstream(msg, req)), ForwardActions(t, w, pause)),
                     w.putAt, put, Some(msg), answer)
  {
    var start, response := InFlightAs(s, t, AtUpstream(msg, req)), w.response.value;
    var one, two, three, four, five := ForwardSteps(env, start, t, w, pause);
    WaitFacts(env, start, pause);
    ResponseFacts(env, one, t, response);
    PutSectionFacts(env, two, Runs.PutSize(t));
    PutSectionFacts(env, three, Runs.PutPop(t));
    PutSectionFacts(env, four, Runs.PutInsert(t));
    Runs.UndisturbedPut(env.maxSize, one.cache, t, req, response);
    FinishFacts(env, five, t);
    assert five.queries - {t} == s.queries;
  }

  lemma AfterHit(env: Env, s: State, t: nat, looked: State, entries: EntryList, packet: Option<Message>, answer: Answer,
                 w: World)
    requires env.Valid() && Idle(s, t) && w.buildAt <= w.putAt
    requires Answered(s, looked, w.buildAt, entries, packet, answer)
    ensures Answered(s, Steps(env, looked, ForwardActions(t, w, w.putAt - w.buildAt)), w.putAt, entries, packet, answer)
  {
    ForwardWhenIdle(env, looked, t, w, w.putAt - w.buildAt);
  }

  lemma AfterMiss(env: Env, s: State, t: nat, looked: State, entries: EntryList, msg: Message, req: Request, w: World)
    requires env.Valid() && Idle(s, t) && w.buildAt <= w.putAt
    requires looked == InFlightAs(s.(cache := Runs.State(w.buildAt, entries, s.cache.tasks)), t, AtUpstream(msg, req))
    ensures var (put, answer) := Forwarded(env, entries, req, w);
            Answered(s, Steps(env, looked, ForwardActions(t, w, w.putAt - w.buildAt)), w.putAt, put, Some(msg), answer)
  {
    ForwardStage(env, s.(cache := Runs.State(w.buildAt, entries, s.cache.tasks)), t, msg, req, w, w.putAt - w.buildAt);
  }

  lemma AfterPassing(env: Env, s: State, t: nat, msg: Message, req: Request, w: World)
    requires env.Valid() && Idle(s, t) && s.cache.now == w.getAt <= w.buildAt <= w.putAt
    ensures var (entries, answer) := LookedUp(env, s.cache.entries, msg, req, w);
            var looked := Steps(env, InFlightAs(s, t, AtCache(msg, req)), LookActions(t, w.buildAt - w.getAt));
            Answered(s, Steps(env, looked, ForwardActions(t, w, w.putAt - w.buildAt)), w.putAt, entries, Some(msg), answer)
  {
    var looked := Steps(env, InFlightAs(s, t, AtCache(msg, req)), LookActions(t, w.buildAt - w.getAt));
    LookStage(env, s, t, msg, req, w.buildAt - w.getAt);
    var (entries, hit) := GetSection(s.cache.entries, req, w.getAt);
    if hit.Some? && env.encodes(Served(hit.value, msg.id, w.buildAt)) {
      AfterHit(env, s, t, looked, entries, Some(msg), FromCache(Served(hit.value, msg.id, w.buildAt)), w);
    } else {
      AfterMiss(env, s, t, looked, entries, msg, req, w);
    }
  }

  lemma AfterRefusal(env: Env, s: State, t: nat, packet: Option<Message>, answer: Answer, w: World)
    requires env.Valid() && Idle(s, t) && s.cache.now == w.getAt <= w.buildAt <= w.putAt
    ensures var refused := s.(replies := s.replies + [Reply(packet, answer, s.cache.now)]);
            var looked := Steps(env, refused, LookActions(t, w.buildAt - w.getAt));
            Answered(s, Steps(env, looked, ForwardActions(t, w, w.putAt - w.buildAt)), w.putAt, s.cache.entries,
                     packet, answer)
  {
    var refused := s.(replies := s.replies + [Reply(packet, answer, s.cache.now)]);
    LookWhenIdle(env, refused, t, w.buildAt - w.getAt);
    ForwardWhenIdle(env, At(refused, w.buildAt), t, w, w.putAt - w.buildAt);
  }

  lemma ThreeStages(env: Env, s: State, accept: Action, look: seq<Action>, forward: seq<Action>)
    returns (acts: seq<Action>)
    requires env.Valid()
    ensures Steps(env, s, acts) == Steps(env, Steps(env, Step(env, s, accept), look), forward)
  {
    acts := [] + [accept] + look + forward;
    StepsOne(env, s, [], accept);
    StepsConcat(env, s, [] + [accept], look);
    StepsConcat(env, s, [] + [accept] + look, forward);
  }

  /** From any state of the pipeline, the steps of one query with nothing in between do to the cache and answer exactly
      what the handler does. Steps that do not apply change nothing. */
  lemma UndisturbedQueryIsRun(env: Env, s: State, t: nat, packet: Option<Message>, w: World)
    returns (acts: seq<Action>)
    requires env.Valid() && Idle(s, t) && s.cache.now == w.getAt <= w.buildAt <= w.putAt
    ensures var (entries, answer) := Undisturbed(env, s.cache.entries, packet, w);
            Answered(s, Steps(env, s, acts), w.putAt, entries, packet, answer)
  {
    acts := ThreeStages(env, s, Accept(t, packet), LookActions(t, w.buildAt - w.getAt),
                        ForwardActions(t, w, w.putAt - w.buildAt));
    AcceptFacts(env, s, t, packet);
    match Examine(env, packet)
    case Refused(answer) => AfterRefusal(env, s, t, packet, answer, w);
    case Passed(msg, req) =>
      PassedFacts(env, packet);
      AfterPassing(env, s, t, msg, req, w);
  }
}
