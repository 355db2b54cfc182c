// The bound on the cache of the whole proxy is reached: every listener full on both protocols, every endpoint being
// resolved, and all their puts looking at the size before any of them inserts.
module FullLoad {
  import opened Wrappers
  import opened Dns
  import opened RequestKey
  import opened LruCache
  import opened WholeProxy
  import Counter
  import Pipeline
  import Runs = CacheRuns
  import Tight = CacheTightness
  import Seqs
  import Text

  lemma AfterSnoc(c: Config, events: seq<Event>, e: Event)
    requires c.env.Valid()
    ensures After(c, events + [e]) == Step(c, After(c, events), e)
  {
    assert (events + [e])[..|events|] == events;
  }

  // ---------- One event at a time ----------

  lemma ConnEvent(c: Config, s: System, l: nat, a: Counter.Action)
    requires c.env.Valid() && l < |s.listeners| && !a.Serve? && !a.Die?
    ensures Step(c, s, Conn(l, a)) ==
            s.(listeners := s.listeners[l := Counter.Step(c.maxConnections, s.listeners[l], a)])
  {
  }

  lemma ClientEvent(c: Config, s: System, a: Pipeline.Action)
    requires c.env.Valid() && !a.Accept? && !a.Timeout?
    ensures Step(c, s, Client(a)) == s.(client := Pipeline.Step(c.env, s.client, a))
  {
    assert Step(c, s, Client(a)).listeners == s.listeners;
  }

  lemma AskEvent(c: Config, s: System, o: Owner, q: nat, packet: Option<Message>)
    requires c.env.Valid() && Enabled(c, s, Ask(o, q, packet))
    ensures Step(c, s, Ask(o, q, packet)) ==
            s.(client := Pipeline.Step(c.env, s.client, Pipeline.Accept(q, packet)), owner := s.owner[q := o])
  {
    assert Step(c, s, Ask(o, q, packet)).listeners == s.listeners;
  }

  // ---------- Full listeners ----------

  function Busy(m: nat): map<nat, Counter.Task> {
    if m == 0 then map[]
    else Busy(m - 1)[2 * m - 2 := Counter.Task(Counter.Udp, true, Counter.Querying)]
                    [2 * m - 1 := Counter.Task(Counter.Tcp, true, Counter.Querying)]
  }

  function BusyState(m: nat): Counter.State {
    Counter.State(Counter.Side(m, m, 0, 0), Counter.Side(m, m, 0, 0), Busy(m))
  }

  lemma {:induction false} BusyTasks(m: nat)
    ensures forall t: nat :: t in Busy(m) <==> t < 2 * m
    ensures forall t: nat :: t in Busy(m) ==> Busy(m)[t].phase == Counter.Querying
  {
    if m > 0 {
      var before := Busy(m - 1);
      BusyTasks(m - 1);
      assert forall t: nat :: t in Busy(m) <==> t in before || t == 2 * m - 2 || t == 2 * m - 1;
    }
  }

  lemma PairGetsBusy(max: nat, m: nat)
    requires m < max < Counter.WORD
    ensures var two := Counter.Step(max, Counter.Step(max, BusyState(m), Counter.Arrive(2 * m, Counter.Udp)),
                                    Counter.Arrive(2 * m + 1, Counter.Tcp));
            Counter.Step(max, two, Counter.Read(2 * m + 1, true)) == BusyState(m + 1)
  {
    BusyTasks(m);
    var udp := Counter.Task(Counter.Udp, true, Counter.Querying);
    var tcp := Counter.Task(Counter.Tcp, true, Counter.Querying);
    assert Busy(m + 1) == Busy(m)[2 * m := udp][2 * m + 1 := tcp];
    var one := Counter.Step(max, BusyState(m), Counter.Arrive(2 * m, Counter.Udp));
    assert one.tasks == Busy(m)[2 * m := udp];
    var two := Counter.Step(max, one, Counter.Arrive(2 * m + 1, Counter.Tcp));
    assert two.tasks == one.tasks[2 * m + 1 := tcp.(phase := Counter.Reading)];
    assert two.tasks[2 * m + 1 := tcp] == Busy(m + 1);
  }

  /** The first `l` listeners are full, and listener `l` serves `m` tasks of each protocol. */
  function Filling(c: Config, l: nat, m: nat): System {
    System(seq(c.listeners, k => if k < l then BusyState(c.maxConnections)
                                 else if k == l then BusyState(m) else Counter.INITIAL),
           Pipeline.INITIAL, map[])
  }

  lemma PairArrives(c: Config, l: nat, m: nat)
    requires c.env.Valid() && l < c.listeners && m < c.maxConnections < Counter.WORD
    ensures var two := Step(c, Step(c, Filling(c, l, m), Conn(l, Counter.Arrive(2 * m, Counter.Udp))),
                            Conn(l, Counter.Arrive(2 * m + 1, Counter.Tcp)));
            Step(c, two, Conn(l, Counter.Read(2 * m + 1, true))) == Filling(c, l, m + 1)
  {
    var s := Filling(c, l, m);
    var one := Step(c, s, Conn(l, Counter.Arrive(2 * m, Counter.Udp)));
    var two := Step(c, one, Conn(l, Counter.Arrive(2 * m + 1, Counter.Tcp)));
    ConnEvent(c, s, l, Counter.Arrive(2 * m, Counter.Udp));
    ConnEvent(c, one, l, Counter.Arrive(2 * m + 1, Counter.Tcp));
    ConnEvent(c, two, l, Counter.Read(2 * m + 1, true));
    PairGetsBusy(c.maxConnections, m);
    assert Step(c, two, Conn(l, Counter.Read(2 * m + 1, true))).listeners == Filling(c, l, m + 1).listeners;
  }

  lemma {:induction false} ListenersFill(c: Config, l: nat, m: nat) returns (events: seq<Event>)
    requires c.env.Valid() && m <= c.maxConnections < Counter.WORD && (l < c.listeners || (l == c.listeners && m == 0))
    ensures After(c, events) == Filling(c, l, m)
    decreases l, m
  {
    if m > 0 {
      var k := m - 1;
      var before := ListenersFill(c, l, k);
      var udp, tcp := Conn(l, Counter.Arrive(2 * k, Counter.Udp)), Conn(l, Counter.Arrive(2 * k + 1, Counter.Tcp));
      AfterSnoc(c, before, udp);
      AfterSnoc(c, before + [udp], tcp);
      AfterSnoc(c, before + [udp] + [tcp], Conn(l, Counter.Read(2 * k + 1, true)));
      PairArrives(c, l, k);
      events := before + [udp] + [tcp] + [Conn(l, Counter.Read(2 * k + 1, true))];
    } else if l > 0 {
      events := ListenersFill(c, l - 1, c.maxConnections);
      assert BusyState(0) == Counter.INITIAL;
      assert Filling(c, l - 1, c.maxConnections).listeners == Filling(c, l, 0).listeners;
    } else {
      events := [];
      assert BusyState(0) == Counter.INITIAL;
      assert Start(c).listeners == Filling(c, 0, 0).listeners;
    }
  }

  // ---------- Everyone who may ask ----------

  function TaskSlots(l: nat, max: nat): seq<Owner> {
    if l == 0 then [] else TaskSlots(l - 1, max) + seq(2 * max, t requires 0 <= t => ForTask(l - 1, t))
  }

  function Slots(c: Config): seq<Owner> {
    seq(c.endpoints, i requires 0 <= i => ForEndpoint(i)) + TaskSlots(c.listeners, c.maxConnections)
  }

  lemma {:induction false} TaskSlotsFacts(l: nat, max: nat)
    ensures |TaskSlots(l, max)| == l * (2 * max)
    ensures forall o :: o in TaskSlots(l, max) ==> o.ForTask? && o.listener < l && o.task < 2 * max
    ensures Seqs.Distinct(TaskSlots(l, max))
  {
    if l > 0 {
      var before, own := TaskSlots(l - 1, max), seq(2 * max, t requires 0 <= t => ForTask(l - 1, t));
      TaskSlotsFacts(l - 1, max);
      Seqs.OneMore(l - 1, 2 * max);
      Seqs.DistinctConcat(before, own);
    }
  }

  lemma SlotsFacts(c: Config)
    ensures |Slots(c)| == MostQueries(c) && Seqs.Distinct(Slots(c))
    ensures forall o :: o in Slots(c) ==> if o.ForTask? then o.listener < c.listeners && o.task < 2 * c.maxConnections
                                          else o.index < c.endpoints
  {
    var ends := seq(c.endpoints, i requires 0 <= i => ForEndpoint(i));
    TaskSlotsFacts(c.listeners, c.maxConnections);
    Seqs.DistinctConcat(ends, TaskSlots(c.listeners, c.maxConnections));
  }

  // ---------- The client under load ----------

  function Asking(i: nat): Message {
    Message(7, MessageType.Query, NoError, [Question(seq(i, _ => 'a'), TYPE_A, 1)], [], [], [])
  }

  lemma AskingPasses(env: Pipeline.Env, i: nat)
    requires env.Valid() && env.manipulators.None?
    ensures Pipeline.Examine(env, Some(Asking(i))) == Pipeline.Passed(Asking(i), Tight.KeyNo(i))
  {
    var name: string := seq(i, _ => 'a');
    assert Text.Lower(name) == name;
    assert KeysOf(Asking(i).queries) == [QueryKey(name, TYPE_A, 1)];
    assert [QueryKey(name, TYPE_A, 1)][1..] == [];
    assert RequestOf(Asking(i)) == Ok(Tight.KeyNo(i));
  }

  /** The cache is at a moment of the overlapping puts, and the queries in flight are the putting ones. */
  ghost predicate ClientAt(s: Pipeline.State, b: nat, inserted: nat, sized: nat, to: nat) {
    && s.cache == Tight.Moment(b, inserted, sized, to)
    && (forall q :: q in s.queries <==> inserted <= q < to)
    && (forall q :: q in s.queries ==> s.queries[q].Putting?)
  }

  function AskSteps(env: Pipeline.Env, s: Pipeline.State, t: nat, i: nat): Pipeline.State
    requires env.Valid()
  {
    var accepted := Pipeline.Step(env, s, Pipeline.Accept(t, Some(Asking(i))));
    Pipeline.Step(env, Pipeline.Step(env, accepted, Pipeline.Lookup(t)), Pipeline.Upstream(t, Some(Tight.SAMPLE)))
  }

  lemma NewKeyMisses(b: nat, t: nat)
    ensures GetSection(Tight.Filled(b), Tight.KeyNo(b + t), 0) == (Tight.Filled(b), None)
  {
    forall i | 0 <= i < b ensures Tight.Filled(b)[i].key != Tight.KeyNo(b + t) { Tight.KeysDiffer(i, b + t); }
  }

  lemma AcceptOne(env: Pipeline.Env, s: Pipeline.State, b: nat, t: nat)
    requires env.Valid() && env.manipulators.None? && ClientAt(s, b, 0, 0, t)
    ensures Pipeline.Step(env, s, Pipeline.Accept(t, Some(Asking(b + t)))) ==
            s.(queries := s.queries[t := Pipeline.AtCache(Asking(b + t), Tight.KeyNo(b + t))])
  {
    AskingPasses(env, b + t);
    Tight.PutsAtFacts(0, 0, t, b);
  }

  lemma MissOne(env: Pipeline.Env, s: Pipeline.State, b: nat, t: nat)
    requires env.Valid() && s.cache == Tight.Moment(b, 0, 0, t)
    requires t in s.queries && s.queries[t] == Pipeline.AtCache(Asking(b + t), Tight.KeyNo(b + t))
    ensures Pipeline.Step(env, s, Pipeline.Lookup(t)) ==
            s.(queries := s.queries[t := Pipeline.AtUpstream(Asking(b + t), Tight.KeyNo(b + t))])
  {
    NewKeyMisses(b, t);
  }

  lemma FetchOne(env: Pipeline.Env, s: Pipeline.State, b: nat, t: nat)
    requires env.Valid() && s.cache == Tight.Moment(b, 0, 0, t)
    requires t in s.queries && s.queries[t] == Pipeline.AtUpstream(Asking(b + t), Tight.KeyNo(b + t))
    ensures var s' := Pipeline.Step(env, s, Pipeline.Upstream(t, Some(Tight.SAMPLE)));
            && s'.cache == Tight.Moment(b, 0, 0, t + 1)
            && s'.queries == s.queries[t := Pipeline.Putting(Asking(b + t), Tight.KeyNo(b + t), Tight.SAMPLE)]
  {
    Tight.StartOne(env.maxSize, b, t);
    assert Pipeline.IsResponse(Some(Tight.SAMPLE));
    assert Pipeline.Section(s, Pipeline.Upstream(t, Some(Tight.SAMPLE)))
        == Runs.PutStart(t, Tight.KeyNo(b + t), Tight.SAMPLE);
  }

  lemma AskOne(env: Pipeline.Env, s: Pipeline.State, b: nat, t: nat)
    requires env.Valid() && env.manipulators.None? && ClientAt(s, b, 0, 0, t)
    ensures ClientAt(AskSteps(env, s, t, b + t), b, 0, 0, t + 1)
  {
    AcceptOne(env, s, b, t);
    var accepted := Pipeline.Step(env, s, Pipeline.Accept(t, Some(Asking(b + t))));
    MissOne(env, accepted, b, t);
    FetchOne(env, Pipeline.Step(env, accepted, Pipeline.Lookup(t)), b, t);
  }

  lemma SizeOne(env: Pipeline.Env, s: Pipeline.State, b: nat, t: nat, n: nat)
    requires env.Valid() && b < env.maxSize && t < n && ClientAt(s, b, 0, t, n)
    ensures ClientAt(Pipeline.Step(env, s, Pipeline.Background(Runs.PutSize(t))), b, 0, t + 1, n)
  {
    Tight.SizeOne(env.maxSize, b, t, n);
  }

  lemma InsertOne(env: Pipeline.Env, s: Pipeline.State, b: nat, t: nat, n: nat)
    requires env.Valid() && t < n && ClientAt(s, b, t, n, n)
    ensures var put := Pipeline.Step(env, s, Pipeline.Background(Runs.PutInsert(t)));
            ClientAt(Pipeline.Step(env, put, Pipeline.Finish(t)), b, t + 1, n, n)
  {
    Tight.InsertOne(env.maxSize, b, t, n);
    Tight.PutsAtFacts(t + 1, n, n, b);
    var put := Pipeline.Step(env, s, Pipeline.Background(Runs.PutInsert(t)));
    assert put.queries == s.queries && put.cache == Tight.Moment(b, t + 1, n, n);
    assert Pipeline.Step(env, put, Pipeline.Finish(t)).queries == s.queries - {t};
  }

  // ---------- The whole proxy under load ----------

  /** Given listeners, and everyone who may ask then. */
  datatype Crew = Crew(busy: seq<Counter.State>, slots: seq<Owner>)

  function FullCrew(c: Config): Crew {
    Crew(Filling(c, c.listeners, 0).listeners, Slots(c))
  }

  /** The listeners are as given, and each query in flight runs for the slot of its number. */
  ghost predicate SystemAt(s: System, crew: Crew, b: nat, inserted: nat, sized: nat, to: nat) {
    && s.listeners == crew.busy
    && ClientAt(s.client, b, inserted, sized, to)
    && to <= |crew.slots|
    && (forall q: nat :: q in s.client.queries ==>
          q in s.owner && q < |crew.slots| && s.owner[q] == crew.slots[q])
  }

  lemma SlotMayAsk(c: Config, s: System, q: nat)
    requires s.listeners == FullCrew(c).busy && q < |Slots(c)|
    ensures MayAsk(c, s, Slots(c)[q])
  {
    SlotsFacts(c);
    var o := Slots(c)[q];
    assert o in Slots(c);
    BusyTasks(c.maxConnections);
    if o.ForTask? {
      assert s.listeners[o.listener] == BusyState(c.maxConnections);
      assert o.task in Busy(c.maxConnections);
    }
  }

  lemma AskEnabled(c: Config, s: System, crew: Crew, b: nat, t: nat)
    requires crew == FullCrew(c) && SystemAt(s, crew, b, 0, 0, t) && t < |crew.slots|
    ensures Enabled(c, s, Ask(crew.slots[t], t, Some(Asking(b + t))))
  {
    SlotMayAsk(c, s, t);
    SlotsFacts(c);
    forall q: nat ensures !Owns(s, crew.slots[t], q) {
      if q in s.client.queries { assert crew.slots[q] != crew.slots[t]; }
    }
  }

  lemma AskEvents(c: Config, crew: Crew, events: seq<Event>, b: nat, t: nat) returns (more: seq<Event>)
    requires crew == FullCrew(c) && c.env.Valid() && c.env.manipulators.None?
    requires SystemAt(After(c, events), crew, b, 0, 0, t) && t < |crew.slots|
    ensures SystemAt(After(c, more), crew, b, 0, 0, t + 1)
  {
    var s := After(c, events);
    var ask := Ask(crew.slots[t], t, Some(Asking(b + t)));
    var lookup, fetch := Client(Pipeline.Lookup(t)), Client(Pipeline.Upstream(t, Some(Tight.SAMPLE)));
    AskEnabled(c, s, crew, b, t);
    AskEvent(c, s, crew.slots[t], t, Some(Asking(b + t)));
    AfterSnoc(c, events, ask);
    ClientEvent(c, After(c, events + [ask]), Pipeline.Lookup(t));
    AfterSnoc(c, events + [ask], lookup);
    ClientEvent(c, After(c, events + [ask] + [lookup]), Pipeline.Upstream(t, Some(Tight.SAMPLE)));
    AfterSnoc(c, events + [ask] + [lookup], fetch);
    AskOne(c.env, s.client, b, t);
    more := events + [ask] + [lookup] + [fetch];
  }

  lemma SizeEvents(c: Config, crew: Crew, events: seq<Event>, b: nat, t: nat, n: nat) returns (more: seq<Event>)
    requires c.env.Valid() && b < c.env.maxSize && t < n && SystemAt(After(c, events), crew, b, 0, t, n)
    ensures SystemAt(After(c, more), crew, b, 0, t + 1, n)
  {
    var s, size := After(c, events), Pipeline.Background(Runs.PutSize(t));
    ClientEvent(c, s, size);
    AfterSnoc(c, events, Client(size));
    SizeOne(c.env, s.client, b, t, n);
    more := events + [Client(size)];
  }

  lemma InsertEvents(c: Config, crew: Crew, events: seq<Event>, b: nat, t: nat, n: nat) returns (more: seq<Event>)
    requires c.env.Valid() && t < n && SystemAt(After(c, events), crew, b, t, n, n)
    ensures SystemAt(After(c, more), crew, b, t + 1, n, n)
  {
    var s, insert, finish := After(c, events), Pipeline.Background(Runs.PutInsert(t)), Pipeline.Finish(t);
    ClientEvent(c, s, insert);
    AfterSnoc(c, events, Client(insert));
    ClientEvent(c, After(c, events + [Client(insert)]), finish);
    AfterSnoc(c, events + [Client(insert)], Client(finish));
    InsertOne(c.env, s.client, b, t, n);
    more := events + [Client(insert)] + [Client(finish)];
  }

  lemma {:induction false} AllAsk(c: Config, crew: Crew, events: seq<Event>, b: nat, t: nat, n: nat)
    returns (more: seq<Event>)
    requires crew == FullCrew(c) && c.env.Valid() && c.env.manipulators.None?
    requires t <= n <= |crew.slots| && SystemAt(After(c, events), crew, b, 0, 0, t)
    ensures SystemAt(After(c, more), crew, b, 0, 0, n)
    decreases n - t
  {
    more := events;
    if t < n {
      more := AskEvents(c, crew, events, b, t);
      more := AllAsk(c, crew, more, b, t + 1, n);
    }
  }

  lemma {:induction false} AllSize(c: Config, crew: Crew, events: seq<Event>, b: nat, t: nat, n: nat)
    returns (more: seq<Event>)
    requires c.env.Valid() && b < c.env.maxSize && t <= n && SystemAt(After(c, events), crew, b, 0, t, n)
    ensures SystemAt(After(c, more), crew, b, 0, n, n)
    decreases n - t
  {
    more := events;
    if t < n {
      more := SizeEvents(c, crew, events, b, t, n);
      more := AllSize(c, crew, more, b, t + 1, n);
    }
  }

  lemma {:induction false} AllInsert(c: Config, crew: Crew, events: seq<Event>, b: nat, t: nat, n: nat)
    returns (more: seq<Event>)
    requires c.env.Valid() && t <= n && SystemAt(After(c, events), crew, b, t, n, n)
    ensures SystemAt(After(c, more), crew, b, n, n, n)
    decreases n - t
  {
    more := events;
    if t < n {
      more := InsertEvents(c, crew, events, b, t, n);
      more := AllInsert(c, crew, more, b, t + 1, n);
    }
  }

  /** From `b` entries, `n` queries whose puts all look at the size before any of them inserts. */
  lemma Overlapped(c: Config, crew: Crew, events: seq<Event>, b: nat, n: nat) returns (more: seq<Event>)
    requires crew == FullCrew(c) && c.env.Valid() && c.env.manipulators.None?
    requires b < c.env.maxSize && n <= |crew.slots| && SystemAt(After(c, events), crew, b, 0, 0, 0)
    ensures SystemAt(After(c, more), crew, b + n, 0, 0, 0)
  {
    more := AllAsk(c, crew, events, b, 0, n);
    more := AllSize(c, crew, more, b, 0, n);
    more := AllInsert(c, crew, more, b, 0, n);
    assert Tight.Moment(b, n, n, n) == Tight.Moment(b + n, 0, 0, 0);
  }

  lemma {:induction false} OneAtATime(c: Config, crew: Crew, events: seq<Event>, b: nat, m: nat)
    returns (more: seq<Event>)
    requires crew == FullCrew(c) && c.env.Valid() && c.env.manipulators.None?
    requires b <= m <= c.env.maxSize && 1 <= |crew.slots| && SystemAt(After(c, events), crew, b, 0, 0, 0)
    ensures SystemAt(After(c, more), crew, m, 0, 0, 0)
    decreases m - b
  {
    more := events;
    if b < m {
      more := Overlapped(c, crew, events, b, 1);
      more := OneAtATime(c, crew, more, b + 1, m);
    }
  }

  lemma ListenersFull(c: Config) returns (events: seq<Event>)
    requires c.env.Valid() && c.maxConnections < Counter.WORD
    ensures SystemAt(After(c, events), FullCrew(c), 0, 0, 0, 0)
  {
    events := ListenersFill(c, c.listeners, 0);
    assert Tight.Filled(0) == [];
    assert Tight.PutsAt(0, 0, 0, 0) == map[];
    assert Pipeline.INITIAL.cache == Tight.Moment(0, 0, 0, 0);
  }

  lemma FullSystem(c: Config, s: System)
    requires c.maxConnections < Counter.WORD && s.listeners == FullCrew(c).busy
    ensures FewArrived(s)
  {
    forall l, p | 0 <= l < |s.listeners| ensures Counter.At(s.listeners[l], p).arrived < Counter.WORD {
      assert s.listeners[l] == BusyState(c.maxConnections);
    }
  }

  /** No smaller bound by configuration holds: for every cache maximum, number of listeners, maximum of connections and
      number of endpoints some run fills the cache that far, with every listener full. */
  lemma CacheBoundIsReached(c: Config) returns (events: seq<Event>)
    requires c.env.Valid() && c.env.manipulators.None?
    requires c.env.maxSize >= 1 && MostQueries(c) >= 1 && c.maxConnections < Counter.WORD
    ensures FewArrived(After(c, events))
    ensures |After(c, events).client.cache.entries| == c.env.maxSize + MostQueries(c) - 1
  {
    var crew := FullCrew(c);
    SlotsFacts(c);
    events := ListenersFull(c);
    events := OneAtATime(c, crew, events, 0, c.env.maxSize - 1);
    events := Overlapped(c, crew, events, c.env.maxSize - 1, MostQueries(c));
    FullSystem(c, After(c, events));
    assert |Tight.Filled(c.env.maxSize - 1 + MostQueries(c))| == c.env.maxSize + MostQueries(c) - 1;
  }
}
