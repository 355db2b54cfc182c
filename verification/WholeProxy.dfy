// The whole proxy: several listeners, each with its own counters, and the service that resolves the configured endpoints,
// all over one client with one cache. Their limits together bound the cache by configured values alone.
module WholeProxy {
  import opened Wrappers
  import opened Dns
  import opened Counter
  import Pipeline
  import Runs = CacheRuns
  import Seqs

  /** `endpoints` counts the configured URLs the address service resolves: the next hops or the targets, and the token
      server. */
  datatype Config = Config(env: Pipeline.Env, listeners: nat, maxConnections: nat, endpoints: nat)

  /** On whose behalf a query runs: a task of a listener, or the address service for one of its endpoints. */
  datatype Owner = ForTask(listener: nat, task: nat) | ForEndpoint(index: nat)

  datatype System = System(listeners: seq<Counter.State>, client: Pipeline.State, owner: map<nat, Owner>)

  datatype Ending = Answered | Unanswered | Died

  /** A task counts in, reads and counts out by itself; while it is served it may run a query; it stops being served with
      or without an answer, or by a panic, and then its query, if still in flight, is dropped. The address service runs at
      most one query per endpoint, without a counter and without a time-out, until it is stopped. */
  datatype Event =
    | Conn(listener: nat, step: Counter.Action)
    | Ask(owner: Owner, query: nat, packet: Option<Message>)
    | Client(action: Pipeline.Action)
    | Leave(listener: nat, task: nat, query: nat, ending: Ending)
    | StopResolving(endpoint: nat, query: nat)

  function Start(c: Config): System {
    System(seq(c.listeners, _ => Counter.INITIAL), Pipeline.INITIAL, map[])
  }

  predicate Owns(s: System, o: Owner, q: nat) {
    q in s.client.queries && q in s.owner && s.owner[q] == o
  }

  predicate Served(s: System, l: nat, t: nat) {
    l < |s.listeners| && InPhase(s.listeners[l], t, Querying)
  }

  predicate MayAsk(c: Config, s: System, o: Owner) {
    match o
    case ForTask(l, t) => Served(s, l, t)
    case ForEndpoint(i) => i < c.endpoints
  }

  ghost predicate NoQuery(s: System, o: Owner) {
    forall q :: !Owns(s, o, q)
  }

  ghost predicate Enabled(c: Config, s: System, e: Event) {
    match e
    case Conn(l, step) => l < |s.listeners| && !step.Serve? && !step.Die?
    case Ask(o, q, _) => MayAsk(c, s, o) && NoQuery(s, o) && q !in s.client.queries
    case Client(action) => !action.Accept? && !action.Timeout?
    case Leave(l, t, q, _) => Served(s, l, t) && (Owns(s, ForTask(l, t), q) || NoQuery(s, ForTask(l, t)))
    case StopResolving(i, q) => Owns(s, ForEndpoint(i), q)
  }

  const IDLE := Pipeline.Background(Runs.Tick(0))

  /** What an event is for the client. */
  ghost function ClientStep(c: Config, s: System, e: Event): Pipeline.Action {
    if !Enabled(c, s, e) then IDLE
    else
      match e
      case Conn(_, _) => IDLE
      case Ask(_, q, packet) => Pipeline.Accept(q, packet)
      case Client(action) => action
      case Leave(l, t, q, _) => if Owns(s, ForTask(l, t), q) then Pipeline.Timeout(q) else IDLE
      case StopResolving(_, q) => Pipeline.Timeout(q)
  }

  /** What an event is for a listener: at most one step. */
  ghost function ListenerSteps(c: Config, s: System, e: Event, l: nat): seq<Counter.Action> {
    if !Enabled(c, s, e) then []
    else
      match e
      case Conn(k, step) => if k == l then [step] else []
      case Leave(k, t, _, ending) =>
        if k == l then [if ending.Died? then Die(t) else Serve(t, ending.Answered?)] else []
      case _ => []
  }

  ghost function StepListener(max: nat, s: Counter.State, steps: seq<Counter.Action>): Counter.State {
    if steps == [] then s else Counter.Step(max, s, steps[0])
  }

  /** One event. An event that is not enabled changes nothing. */
  ghost function Step(c: Config, s: System, e: Event): System
    requires c.env.Valid()
  {
    System(
      seq(|s.listeners|, l requires 0 <= l < |s.listeners| =>
        StepListener(c.maxConnections, s.listeners[l], ListenerSteps(c, s, e, l))),
      Pipeline.Step(c.env, s.client, ClientStep(c, s, e)),
      if Enabled(c, s, e) && e.Ask? then s.owner[e.query := e.owner] else s.owner
    )
  }

  ghost function After(c: Config, events: seq<Event>): System
    requires c.env.Valid()
  {
    if events == [] then Start(c) else Step(c, After(c, events[..|events| - 1]), events[|events| - 1])
  }

  // ---------- Each part goes through a run of its own ----------

  ghost function ClientSteps(c: Config, events: seq<Event>): seq<Pipeline.Action>
    requires c.env.Valid()
  {
    if events == [] then []
    else
      var n := |events| - 1;
      ClientSteps(c, events[..n]) + [ClientStep(c, After(c, events[..n]), events[n])]
  }

  ghost function StepsOf(c: Config, events: seq<Event>, l: nat): seq<Counter.Action>
    requires c.env.Valid()
  {
    if events == [] then []
    else
      var n := |events| - 1;
      StepsOf(c, events[..n], l) + ListenerSteps(c, After(c, events[..n]), events[n], l)
  }

  lemma PipelineSnoc(env: Pipeline.Env, acts: seq<Pipeline.Action>, a: Pipeline.Action)
    requires env.Valid()
    ensures Pipeline.After(env, acts + [a]) == Pipeline.Step(env, Pipeline.After(env, acts), a)
  {
    assert (acts + [a])[..|acts|] == acts;
  }

  /** Everything proved of the pipeline over its runs holds of the client. */
  lemma {:induction false} ClientRunsPipeline(c: Config, events: seq<Event>)
    requires c.env.Valid()
    ensures After(c, events).client == Pipeline.After(c.env, ClientSteps(c, events))
  {
    if events != [] {
      var n := |events| - 1;
      ClientRunsPipeline(c, events[..n]);
      PipelineSnoc(c.env, ClientSteps(c, events[..n]), ClientStep(c, After(c, events[..n]), events[n]));
    }
  }

  lemma StepListenerIsAfter(max: nat, acts: seq<Counter.Action>, steps: seq<Counter.Action>)
    requires |steps| <= 1
    ensures Counter.After(max, acts + steps) == StepListener(max, Counter.After(max, acts), steps)
  {
    if steps == [] {
      assert acts + steps == acts;
    } else {
      assert steps == [steps[0]];
      Counter.AfterSnoc(max, acts, steps[0]);
    }
  }

  /** Everything proved of the counters over their runs holds of each listener. */
  lemma {:induction false} ListenersRunCounters(c: Config, events: seq<Event>, l: nat)
    requires c.env.Valid() && l < c.listeners
    ensures |After(c, events).listeners| == c.listeners
    ensures After(c, events).listeners[l] == Counter.After(c.maxConnections, StepsOf(c, events, l))
  {
    if events != [] {
      var n := |events| - 1;
      ListenersRunCounters(c, events[..n], l);
      StepListenerIsAfter(c.maxConnections, StepsOf(c, events[..n], l),
                          ListenerSteps(c, After(c, events[..n]), events[n], l));
    }
  }

  // ---------- Queries and places ----------

  /** Every query runs for a task that is being served or for a configured endpoint, and no two for the same. */
  ghost predicate Owned(c: Config, s: System) {
    && (forall q :: q in s.client.queries ==> q in s.owner && MayAsk(c, s, s.owner[q]))
    && (forall q, r :: q in s.client.queries && r in s.client.queries && q != r ==>
          q in s.owner && r in s.owner && s.owner[q] != s.owner[r])
  }

  /** Only a task's own leaving ends its being served. */
  lemma ServedAfterStep(c: Config, s: System, e: Event, l: nat, t: nat)
    requires c.env.Valid() && Served(s, l, t)
    ensures Served(Step(c, s, e), l, t) || (e.Leave? && Enabled(c, s, e) && e.listener == l && e.task == t)
  {
  }

  /** Only an acceptance brings a query, and a time-out takes it away. */
  lemma QueriesAfterStep(env: Pipeline.Env, s: Pipeline.State, a: Pipeline.Action, q: nat)
    requires env.Valid() && q in Pipeline.Step(env, s, a).queries
    ensures q in s.queries || (a.Accept? && a.task == q)
    ensures a != Pipeline.Timeout(q)
  {
  }

  lemma OwnerAfterStep(c: Config, s: System, e: Event, q: nat)
    requires c.env.Valid() && Owned(c, s) && q in Step(c, s, e).client.queries
    ensures if q in s.client.queries then
              q in s.owner && q in Step(c, s, e).owner && Step(c, s, e).owner[q] == s.owner[q]
            else
              e.Ask? && Enabled(c, s, e) && e.query == q && Step(c, s, e).owner[q] == e.owner
  {
    QueriesAfterStep(c.env, s.client, ClientStep(c, s, e), q);
  }

  lemma OwnerMayStillAsk(c: Config, s: System, e: Event, q: nat)
    requires c.env.Valid() && Owned(c, s) && q in Step(c, s, e).client.queries
    ensures var s' := Step(c, s, e); q in s'.owner && MayAsk(c, s', s'.owner[q])
  {
    OwnerAfterStep(c, s, e, q);
    QueriesAfterStep(c.env, s.client, ClientStep(c, s, e), q);
    var o := Step(c, s, e).owner[q];
    if o.ForTask? {
      ServedAfterStep(c, s, e, o.listener, o.task);
      if q in s.client.queries { assert Owns(s, o, q); }
    }
  }

  lemma OwnersDifferAfterStep(c: Config, s: System, e: Event, q: nat, r: nat)
    requires c.env.Valid() && Owned(c, s) && q != r
    requires q in Step(c, s, e).client.queries && r in Step(c, s, e).client.queries
    ensures var s' := Step(c, s, e); q in s'.owner && r in s'.owner && s'.owner[q] != s'.owner[r]
  {
    OwnerAfterStep(c, s, e, q);
    OwnerAfterStep(c, s, e, r);
    if q in s.client.queries && r !in s.client.queries { assert !Owns(s, e.owner, q); }
    if r in s.client.queries && q !in s.client.queries { assert !Owns(s, e.owner, r); }
  }

  lemma {:induction false} QueriesAreOwned(c: Config, events: seq<Event>)
    requires c.env.Valid()
    ensures Owned(c, After(c, events))
  {
    if events != [] {
      var n := |events| - 1;
      var s, e := After(c, events[..n]), events[n];
      QueriesAreOwned(c, events[..n]);
      var s' := Step(c, s, e);
      forall q | q in s'.client.queries ensures q in s'.owner && MayAsk(c, s', s'.owner[q]) {
        OwnerMayStillAsk(c, s, e, q);
      }
      forall q, r | q in s'.client.queries && r in s'.client.queries && q != r
        ensures q in s'.owner && r in s'.owner && s'.owner[q] != s'.owner[r]
      {
        OwnersDifferAfterStep(c, s, e, q, r);
      }
    }
  }

  // ---------- Counting ----------

  /** The queries of the first `k` listeners. */
  ghost function QueriesBelow(s: System, k: nat): set<nat> {
    set q | q in s.client.queries && q in s.owner && s.owner[q].ForTask? && s.owner[q].listener < k
  }

  ghost function QueriesOf(s: System, l: nat): set<nat> {
    set q | q in s.client.queries && q in s.owner && s.owner[q].ForTask? && s.owner[q].listener == l
  }

  ghost function QueriesForEndpoints(s: System): set<nat> {
    set q | q in s.client.queries && q in s.owner && s.owner[q].ForEndpoint?
  }

  /** Different queries in `qs` have different numbers in `ts`. */
  lemma {:induction false} OneNumberEach(number: nat -> nat, qs: set<nat>, ts: set<nat>)
    requires forall q :: q in qs ==> number(q) in ts
    requires forall q, r :: q in qs && r in qs && q != r ==> number(q) != number(r)
    ensures |qs| <= |ts|
  {
    if q :| q in qs {
      OneNumberEach(number, qs - {q}, ts - {number(q)});
    }
  }

  /** A listener has no more queries in flight than its two protocols are serving. */
  lemma QueriesWithinServing(c: Config, s: System, l: nat)
    requires Owned(c, s) && l < |s.listeners| && Disciplined(s.listeners[l])
    ensures |QueriesOf(s, l)| <= ServingTogether(s.listeners[l])
  {
    var counters := s.listeners[l];
    var tcp, udp := Serving(counters, Tcp), Serving(counters, Udp);
    var number := (q: nat) => if q in s.owner && s.owner[q].ForTask? then s.owner[q].task else 0;
    forall q | q in QueriesOf(s, l) ensures number(q) in tcp + udp {
      assert MayAsk(c, s, s.owner[q]);
      assert Served(s, l, s.owner[q].task);
      assert counters.tasks[s.owner[q].task].admitted;
    }
    assert tcp !! udp;
    assert |tcp + udp| == |tcp| + |udp|;
    OneNumberEach(number, QueriesOf(s, l), tcp + udp);
  }

  /** The address service has no more queries in flight than there are endpoints. */
  lemma QueriesWithinEndpoints(c: Config, s: System)
    requires Owned(c, s)
    ensures |QueriesForEndpoints(s)| <= c.endpoints
  {
    var number := (q: nat) => if q in s.owner && s.owner[q].ForEndpoint? then s.owner[q].index else 0;
    forall q | q in QueriesForEndpoints(s) ensures number(q) in Seqs.Numbers(0, c.endpoints) {
      assert MayAsk(c, s, s.owner[q]);
    }
    OneNumberEach(number, QueriesForEndpoints(s), Seqs.Numbers(0, c.endpoints));
  }

  ghost predicate FewArrived(s: System) {
    forall l, p :: 0 <= l < |s.listeners| ==> Counter.At(s.listeners[l], p).arrived < WORD
  }

  lemma ListenerLimit(c: Config, events: seq<Event>, l: nat)
    requires c.env.Valid() && l < c.listeners && |After(c, events).listeners| == c.listeners
    requires FewArrived(After(c, events))
    ensures Disciplined(After(c, events).listeners[l])
    ensures ServingTogether(After(c, events).listeners[l]) <= 2 * c.maxConnections
  {
    ListenersRunCounters(c, events, l);
    var acts := StepsOf(c, events, l);
    assert Counter.After(c.maxConnections, acts) == After(c, events).listeners[l];
    CountersAccountForTasks(c.maxConnections, acts, Tcp);
    CombinedLimit(c.maxConnections, acts);
  }

  lemma OneMoreListener(s: System, k: nat)
    ensures |QueriesBelow(s, k + 1)| == |QueriesBelow(s, k)| + |QueriesOf(s, k)|
  {
    var below, own := QueriesBelow(s, k), QueriesOf(s, k);
    assert QueriesBelow(s, k + 1) == below + own;
    assert below !! own;
  }

  lemma {:induction false} QueriesBelowLimit(s: System, k: nat, limit: nat)
    requires forall l :: 0 <= l < k ==> |QueriesOf(s, l)| <= limit
    ensures |QueriesBelow(s, k)| <= k * limit
  {
    if k == 0 {
      assert QueriesBelow(s, 0) == {};
    } else {
      QueriesBelowLimit(s, k - 1, limit);
      OneMoreListener(s, k - 1);
      Seqs.OneMore(k - 1, limit);
    }
  }

  lemma {:induction false} ListenerCount(c: Config, events: seq<Event>)
    requires c.env.Valid()
    ensures |After(c, events).listeners| == c.listeners
  {
    if events != [] { ListenerCount(c, events[..|events| - 1]); }
  }

  /** However many clients connect, no more queries are in flight than twice the maximum per listener, and one per
      endpoint. */
  lemma QueriesInFlight(c: Config, events: seq<Event>)
    requires c.env.Valid() && FewArrived(After(c, events))
    ensures |After(c, events).client.queries.Keys| <= c.listeners * (2 * c.maxConnections) + c.endpoints
  {
    var s := After(c, events);
    ListenerCount(c, events);
    QueriesAreOwned(c, events);
    forall l | 0 <= l < c.listeners ensures |QueriesOf(s, l)| <= 2 * c.maxConnections {
      ListenerLimit(c, events, l);
      QueriesWithinServing(c, s, l);
    }
    QueriesBelowLimit(s, c.listeners, 2 * c.maxConnections);
    QueriesWithinEndpoints(c, s);
    QueriesAddUp(c, s);
  }

  lemma QueriesAddUp(c: Config, s: System)
    requires Owned(c, s) && |s.listeners| == c.listeners
    ensures |s.client.queries.Keys| == |QueriesBelow(s, c.listeners)| + |QueriesForEndpoints(s)|
  {
    var below, rest := QueriesBelow(s, c.listeners), QueriesForEndpoints(s);
    forall q | q in s.client.queries ensures q in below + rest {
      assert MayAsk(c, s, s.owner[q]);
    }
    assert s.client.queries.Keys == below + rest;
    assert below !! rest;
  }

  lemma FewArrivedBefore(c: Config, s: System, e: Event)
    requires c.env.Valid() && FewArrived(Step(c, s, e))
    ensures FewArrived(s)
  {
    var s' := Step(c, s, e);
    forall l, p | 0 <= l < |s.listeners| ensures Counter.At(s.listeners[l], p).arrived < WORD {
      var steps := ListenerSteps(c, s, e, l);
      assert s'.listeners[l] == StepListener(c.maxConnections, s.listeners[l], steps);
      if steps != [] { StepOnlyForward(c.maxConnections, s.listeners[l], steps[0], p); }
      assert Counter.At(s'.listeners[l], p).arrived < WORD;
    }
  }

  /** The most queries that can be in flight at once, by configuration. */
  function MostQueries(c: Config): nat {
    c.listeners * (2 * c.maxConnections) + c.endpoints
  }

  /** So the cache is bounded by configured values alone: its own maximum, the number of listeners, the maximum of
      connections and the number of endpoints. */
  lemma {:induction false} CacheBoundByConfiguration(c: Config, events: seq<Event>)
    requires c.env.Valid() && FewArrived(After(c, events))
    ensures var n := if MostQueries(c) == 0 then 1 else MostQueries(c);
            && Runs.WithinLoad(c.env.maxSize, After(c, events).client.cache, n)
            && |After(c, events).client.cache.entries| <= if c.env.maxSize == 0 then 0 else c.env.maxSize + n - 1
  {
    if events == [] {
      assert Runs.Holding(Runs.INITIAL.tasks) == {};
    } else {
      var n := |events| - 1;
      var s, e := After(c, events[..n]), events[n];
      var most := if MostQueries(c) == 0 then 1 else MostQueries(c);
      FewArrivedBefore(c, s, e);
      CacheBoundByConfiguration(c, events[..n]);
      QueriesInFlight(c, events[..n]);
      ClientRunsPipeline(c, events[..n]);
      Pipeline.PutsAreAlwaysQueries(c.env, ClientSteps(c, events[..n]));
      Seqs.SubsetSize(Runs.Puts(s.client.cache.tasks), s.client.queries.Keys);
      Runs.StepKeepsLoad(c.env.maxSize, s.client.cache, Pipeline.Section(s.client, ClientStep(c, s, e)), most);
    }
  }
}
