// Connection admission on one listener: the shared counters, and the tasks that count themselves in and out while other
// tasks do the same.
module Counter {
  import Seqs

  /** A counter word wraps around here. */
  const WORD := 0x1_0000_0000_0000_0000

  datatype CounterType = Tcp | Udp

  /** `fetch_add(1)` on a 64-bit word. */
  function FetchAdd(cnt: nat): (r: nat)
    ensures cnt < 0xFFFF_FFFF_FFFF_FFFF ==> r == cnt + 1
    ensures cnt == 0xFFFF_FFFF_FFFF_FFFF ==> r == 0
  {
    (cnt + 1) % WORD
  }

  /** What one undisturbed load and exchange make of a counter. */
  function Released(cnt: nat): nat {
    if cnt > 0 then cnt - 1 else 0
  }

  lemma WrapSucc(x: nat)
    ensures FetchAdd(x % WORD) == (x + 1) % WORD
  {
  }

  lemma WrapSum(a: nat, b: nat)
    requires a < WORD && b < WORD
    ensures FetchAdd((a + b) % WORD) == (FetchAdd(a) + b) % WORD
  {
    WrapSucc(a + b);
  }

  class ConnCounter {
    var cntTotal: nat
    var cntUdp: nat
    var cntTcp: nat

    /** The counters are words and the total is their sum. */
    ghost predicate Valid()
      reads this
    {
      cntUdp < WORD && cntTcp < WORD && cntTotal == (cntUdp + cntTcp) % WORD
    }

    constructor ()
      ensures Valid() && cntUdp == 0 && cntTcp == 0
    {
      cntTotal, cntUdp, cntTcp := 0, 0, 0;
    }

    function GetCurrent(ctype: CounterType): nat
      reads this
    {
      match ctype
      case Tcp => cntTcp
      case Udp => cntUdp
    }

    /** Undisturbed: counts one more of this protocol, leaves the other, and returns the count before. */
    method Increment(ctype: CounterType) returns (c: nat)
      requires Valid()
      modifies this
      ensures Valid()
      ensures c == old(GetCurrent(ctype)) && GetCurrent(ctype) == FetchAdd(c)
      ensures forall other :: other != ctype ==> GetCurrent(other) == old(GetCurrent(other))
    {
      WrapSum(cntTcp, cntUdp);
      WrapSum(cntUdp, cntTcp);
      cntTotal := FetchAdd(cntTotal);
      match ctype {
        case Tcp =>
          c := cntTcp;
          cntTcp := FetchAdd(cntTcp);
        case Udp =>
          c := cntUdp;
          cntUdp := FetchAdd(cntUdp);
      }
    }

    /** Undisturbed: counts one less of this protocol, unless it is at zero. */
    method Decrement(ctype: CounterType)
      requires Valid()
      modifies this
      ensures Valid()
      ensures GetCurrent(ctype) == Released(old(GetCurrent(ctype)))
      ensures GetCurrent(ctype) == if old(GetCurrent(ctype)) == 0 then 0 else old(GetCurrent(ctype)) - 1
      ensures forall other :: other != ctype ==> GetCurrent(other) == old(GetCurrent(other))
    {
      match ctype {
        case Tcp =>
          var cnt := cntTcp;
          if cnt > 0 && cntTcp == cnt {
            cntTcp := cnt - 1;
          }
        case Udp =>
          var cnt := cntUdp;
          if cnt > 0 && cntUdp == cnt {
            cntUdp := cnt - 1;
          }
      }
      cntTotal := (cntUdp + cntTcp) % WORD;
    }
  }

  // ---------- Any number of tasks, one atomic access at a time ----------

  datatype Phase =
    | Reading          // an admitted TCP task waiting for its message
    | Querying         // an admitted task waiting for its answer
    | MustRelease      // about to load the counter
    | Loaded(v: nat)   // about to exchange `v` for `v - 1`

  datatype Task = Task(proto: CounterType, admitted: bool, phase: Phase)

  /** A counter, and what became of the tasks it counted: `leaked` ended without trying to count out, `lost` tried and
      failed. */
  datatype Side = Side(cnt: nat, arrived: nat, leaked: nat, lost: nat)

  datatype State = State(udp: Side, tcp: Side, tasks: map<nat, Task>)

  const INITIAL := State(Side(0, 0, 0, 0), Side(0, 0, 0, 0), map[])

  datatype Action =
    | Arrive(task: nat, proto: CounterType)
    | Read(task: nat, ok: bool)
    | Serve(task: nat, ok: bool)
    | Die(task: nat)
    | Load(task: nat)
    | Exchange(task: nat)

  function At(s: State, p: CounterType): Side {
    match p
    case Tcp => s.tcp
    case Udp => s.udp
  }

  function With(s: State, p: CounterType, side: Side): State {
    match p
    case Tcp => s.(tcp := side)
    case Udp => s.(udp := side)
  }

  function Goto(s: State, t: nat, phase: Phase): State
    requires t in s.tasks
  {
    s.(tasks := s.tasks[t := s.tasks[t].(phase := phase)])
  }

  /** Task `t` ends and leaves its side like this. */
  function End(s: State, t: nat, side: Side): State
    requires t in s.tasks
  {
    With(s.(tasks := s.tasks - {t}), s.tasks[t].proto, side)
  }

  function Leak(s: State, t: nat): State
    requires t in s.tasks
  {
    var side := At(s, s.tasks[t].proto);
    End(s, t, side.(leaked := side.leaked + 1))
  }

  function Lose(s: State, t: nat): State
    requires t in s.tasks
  {
    var side := At(s, s.tasks[t].proto);
    End(s, t, side.(lost := side.lost + 1))
  }

  function Release(s: State, t: nat): State
    requires t in s.tasks && At(s, s.tasks[t].proto).cnt > 0
  {
    var side := At(s, s.tasks[t].proto);
    End(s, t, side.(cnt := side.cnt - 1))
  }

  /** A new task counts itself in; the count it saw decides whether it is served. */
  function Admit(max: nat, s: State, t: nat, p: CounterType): State {
    var side := At(s, p);
    var admitted := side.cnt < max;
    var phase := if !admitted then MustRelease else if p == Tcp then Reading else Querying;
    With(s.(tasks := s.tasks[t := Task(p, admitted, phase)]), p,
         side.(cnt := FetchAdd(side.cnt), arrived := side.arrived + 1))
  }

  predicate InPhase(s: State, t: nat, phase: Phase) {
    t in s.tasks && s.tasks[t].phase == phase
  }

  /** One atomic access or one outcome. An action that is not enabled changes nothing. */
  function Step(max: nat, s: State, a: Action): State {
    match a
    case Arrive(t, p) => if t in s.tasks then s else Admit(max, s, t, p)
    case Read(t, ok) =>
      if !InPhase(s, t, Reading) then s else if ok then Goto(s, t, Querying) else Leak(s, t)
    case Serve(t, ok) =>
      if !InPhase(s, t, Querying) then s
      else if ok || s.tasks[t].proto == Tcp then Goto(s, t, MustRelease)
      else Leak(s, t)
    case Die(t) => if !InPhase(s, t, Querying) then s else Leak(s, t)
    case Load(t) =>
      if !InPhase(s, t, MustRelease) then s
      else
        var v := At(s, s.tasks[t].proto).cnt;
        if v > 0 then Goto(s, t, Loaded(v)) else Lose(s, t)
    case Exchange(t) =>
      if t !in s.tasks || !s.tasks[t].phase.Loaded? then s
      else
        var side, v := At(s, s.tasks[t].proto), s.tasks[t].phase.v;
        if side.cnt == v && v > 0 then Release(s, t) else Lose(s, t)
  }

  function After(max: nat, acts: seq<Action>): State {
    if acts == [] then INITIAL
    else Step(max, After(max, acts[..|acts| - 1]), acts[|acts| - 1])
  }

  lemma AfterSnoc(max: nat, acts: seq<Action>, a: Action)
    ensures After(max, acts + [a]) == Step(max, After(max, acts), a)
  {
    assert (acts + [a])[..|acts|] == acts;
  }

  // ---------- Accounting ----------

  function Live(s: State, p: CounterType): set<nat> {
    set t | t in s.tasks && s.tasks[t].proto == p
  }

  /** The admitted tasks that have not counted themselves out yet. */
  function Serving(s: State, p: CounterType): set<nat> {
    set t | t in s.tasks && s.tasks[t].proto == p && s.tasks[t].admitted
  }

  /** All the tasks the counter stands for. */
  function Owed(s: State, p: CounterType): nat {
    |Live(s, p)| + At(s, p).leaked + At(s, p).lost
  }

  ghost predicate Accounted(max: nat, s: State, p: CounterType) {
    var side := At(s, p);
    && side.cnt == Owed(s, p) % WORD
    && Owed(s, p) <= side.arrived
    && (side.arrived < WORD ==> |Serving(s, p)| + side.leaked <= max)
  }

  /** Only admitted tasks read or query, only TCP tasks read, and a loaded value is not zero. */
  ghost predicate Disciplined(s: State) {
    forall t :: t in s.tasks ==>
      var task := s.tasks[t];
      && (task.phase == Reading || task.phase == Querying ==> task.admitted)
      && (task.phase == Reading ==> task.proto == Tcp)
      && (task.phase.Loaded? ==> task.phase.v > 0)
  }

  lemma GotoCounts(s: State, t: nat, phase: Phase, p: CounterType)
    requires t in s.tasks
    ensures Live(Goto(s, t, phase), p) == Live(s, p) && Serving(Goto(s, t, phase), p) == Serving(s, p)
  {
  }

  lemma EndCounts(s: State, t: nat, side: Side, p: CounterType)
    requires t in s.tasks
    ensures |Live(End(s, t, side), p)| == |Live(s, p)| - if s.tasks[t].proto == p then 1 else 0
    ensures |Serving(End(s, t, side), p)| == |Serving(s, p)| - if s.tasks[t].proto == p && s.tasks[t].admitted then 1 else 0
  {
    assert Live(End(s, t, side), p) == Live(s, p) - {t};
    assert Serving(End(s, t, side), p) == Serving(s, p) - {t};
  }

  lemma AdmitLive(max: nat, s: State, t: nat, q: CounterType, p: CounterType)
    requires t !in s.tasks
    ensures Live(Admit(max, s, t, q), p) == if p == q then Live(s, p) + {t} else Live(s, p)
  {
  }

  lemma AdmitServing(max: nat, s: State, t: nat, q: CounterType, p: CounterType)
    requires t !in s.tasks
    ensures Serving(Admit(max, s, t, q), p) ==
            if p == q && At(s, q).cnt < max then Serving(s, p) + {t} else Serving(s, p)
  {
  }

  lemma AdmitAccounted(max: nat, s: State, t: nat, p: CounterType)
    requires Accounted(max, s, p) && t !in s.tasks
    ensures Accounted(max, Admit(max, s, t, p), p)
  {
    var s' := Admit(max, s, t, p);
    AdmitLive(max, s, t, p, p);
    AdmitServing(max, s, t, p, p);
    assert t !in Live(s, p) && t !in Serving(s, p);
    assert Owed(s', p) == Owed(s, p) + 1;
    WrapSucc(Owed(s, p));
    Seqs.SubsetSize(Serving(s, p), Live(s, p));
    if At(s, p).arrived < WORD - 1 { assert Owed(s, p) % WORD == Owed(s, p); }
  }

  lemma AdmitOther(max: nat, s: State, t: nat, q: CounterType, p: CounterType)
    requires Accounted(max, s, p) && t !in s.tasks && p != q
    ensures Accounted(max, Admit(max, s, t, q), p)
  {
    AdmitLive(max, s, t, q, p);
    AdmitServing(max, s, t, q, p);
  }

  lemma GotoAccounted(max: nat, s: State, t: nat, phase: Phase, p: CounterType)
    requires Accounted(max, s, p) && t in s.tasks
    ensures Accounted(max, Goto(s, t, phase), p)
  {
    GotoCounts(s, t, phase, p);
  }

  lemma LeakAccounted(max: nat, s: State, t: nat, p: CounterType)
    requires Accounted(max, s, p) && t in s.tasks && s.tasks[t].admitted
    ensures Accounted(max, Leak(s, t), p)
  {
    var side := At(s, s.tasks[t].proto);
    EndCounts(s, t, side.(leaked := side.leaked + 1), p);
  }

  lemma LoseAccounted(max: nat, s: State, t: nat, p: CounterType)
    requires Accounted(max, s, p) && t in s.tasks
    ensures Accounted(max, Lose(s, t), p)
  {
    var side := At(s, s.tasks[t].proto);
    EndCounts(s, t, side.(lost := side.lost + 1), p);
  }

  lemma ReleaseAccounted(max: nat, s: State, t: nat, p: CounterType)
    requires Accounted(max, s, p) && t in s.tasks
    requires At(s, s.tasks[t].proto).cnt > 0
    ensures Accounted(max, Release(s, t), p)
  {
    var side := At(s, s.tasks[t].proto);
    EndCounts(s, t, side.(cnt := side.cnt - 1), p);
  }

  lemma StepAccounted(max: nat, s: State, a: Action, p: CounterType)
    requires Disciplined(s) && Accounted(max, s, p)
    ensures Accounted(max, Step(max, s, a), p)
  {
    var t := a.task;
    if a.Arrive? {
      if t !in s.tasks {
        if p == a.proto { AdmitAccounted(max, s, t, p); } else { AdmitOther(max, s, t, a.proto, p); }
      }
    } else if t in s.tasks && Step(max, s, a) != s {
      TaskStep(max, s, a);
      if Step(max, s, a) == Leak(s, t) {
        LeakAccounted(max, s, t, p);
      } else if Step(max, s, a) == Lose(s, t) {
        LoseAccounted(max, s, t, p);
      } else if At(s, s.tasks[t].proto).cnt > 0 && Step(max, s, a) == Release(s, t) {
        ReleaseAccounted(max, s, t, p);
      } else {
        GotoAccounted(max, s, t, Step(max, s, a).tasks[t].phase, p);
      }
    }
  }

  /** A task goes on, leaks while being served, counts itself out, or loses its count-out. */
  lemma TaskStep(max: nat, s: State, a: Action)
    requires Disciplined(s) && !a.Arrive? && a.task in s.tasks && Step(max, s, a) != s
    ensures var s', t := Step(max, s, a), a.task;
            || (s.tasks[t].admitted && s' == Leak(s, t))
            || s' == Lose(s, t)
            || (At(s, s.tasks[t].proto).cnt > 0 && s' == Release(s, t))
            || (t in s'.tasks && s' == Goto(s, t, s'.tasks[t].phase))
  {
  }

  lemma StepDisciplined(max: nat, s: State, a: Action)
    requires Disciplined(s)
    ensures Disciplined(Step(max, s, a))
  {
  }

  /** Over every interleaving each counter stands exactly, up to the word size, for the live tasks of its protocol, the
      tasks that ended without counting out, and the count-outs lost to a failed exchange. */
  lemma {:induction false} CountersAccountForTasks(max: nat, acts: seq<Action>, p: CounterType)
    ensures Disciplined(After(max, acts)) && Accounted(max, After(max, acts), p)
  {
    if acts != [] {
      var n := |acts| - 1;
      CountersAccountForTasks(max, acts[..n], p);
      StepDisciplined(max, After(max, acts[..n]), acts[n]);
      StepAccounted(max, After(max, acts[..n]), acts[n], p);
    } else {
      assert Live(INITIAL, p) == {} && Serving(INITIAL, p) == {};
    }
  }

  // ---------- What the accounting gives ----------

  /** While fewer tasks than a word holds have arrived: the count is the number of tasks owed, a live task always finds it
      positive, and the admitted tasks not yet counted out are at most the maximum, less what has leaked. */
  lemma AdmissionLimit(max: nat, acts: seq<Action>, p: CounterType)
    requires At(After(max, acts), p).arrived < WORD
    ensures var s := After(max, acts);
            && At(s, p).cnt == Owed(s, p)
            && (Live(s, p) != {} ==> At(s, p).cnt > 0)
            && |Serving(s, p)| + At(s, p).leaked <= max
  {
    CountersAccountForTasks(max, acts, p);
  }

  /** The next task is served iff fewer than the maximum are owed. */
  lemma AdmittedIffRoom(max: nat, acts: seq<Action>, t: nat, p: CounterType)
    requires At(After(max, acts), p).arrived < WORD && t !in After(max, acts).tasks
    ensures var s := After(max, acts);
            t in Serving(After(max, acts + [Arrive(t, p)]), p) <==> Owed(s, p) < max
  {
    AdmissionLimit(max, acts, p);
    AfterSnoc(max, acts, Arrive(t, p));
    AdmitServing(max, After(max, acts), t, p, p);
  }

  /** With no task left, the count is what was leaked and lost: it is back at zero iff that is nothing. */
  lemma CountAtRest(max: nat, acts: seq<Action>, p: CounterType)
    requires At(After(max, acts), p).arrived < WORD && Live(After(max, acts), p) == {}
    ensures At(After(max, acts), p).cnt == At(After(max, acts), p).leaked + At(After(max, acts), p).lost
  {
    AdmissionLimit(max, acts, p);
  }

  /** Tasks gone without counting out: their places stay taken. */
  function Gone(s: State, p: CounterType): nat {
    At(s, p).leaked + At(s, p).lost
  }

  lemma StepOnlyForward(max: nat, s: State, a: Action, p: CounterType)
    ensures Gone(Step(max, s, a), p) >= Gone(s, p)
    ensures At(Step(max, s, a), p).arrived >= At(s, p).arrived
  {
  }

  lemma {:induction false} GoneIsForever(max: nat, acts: seq<Action>, more: seq<Action>, p: CounterType)
    ensures Gone(After(max, acts + more), p) >= Gone(After(max, acts), p)
  {
    if more == [] {
      assert acts + more == acts;
    } else {
      var n := |more| - 1;
      GoneIsForever(max, acts, more[..n], p);
      assert (acts + more[..n]) + [more[n]] == acts + more;
      AfterSnoc(max, acts + more[..n], more[n]);
      StepOnlyForward(max, After(max, acts + more[..n]), more[n], p);
    }
  }

  /** Once as many tasks as the maximum have gone without counting out, no later task is served. */
  lemma ClosedForGood(max: nat, acts: seq<Action>, more: seq<Action>, t: nat, p: CounterType)
    requires Gone(After(max, acts), p) >= max
    requires At(After(max, acts + more), p).arrived < WORD && t !in After(max, acts + more).tasks
    ensures t !in Serving(After(max, acts + more + [Arrive(t, p)]), p)
  {
    GoneIsForever(max, acts, more, p);
    AdmittedIffRoom(max, acts + more, t, p);
  }

  // ---------- Count-outs ----------

  /** With nothing in between, load and exchange count the task out. */
  lemma UndisturbedRelease(max: nat, s: State, t: nat)
    requires InPhase(s, t, MustRelease) && At(s, s.tasks[t].proto).cnt > 0
    ensures Step(max, Step(max, s, Load(t)), Exchange(t)) == Release(s, t)
  {
    assert Step(max, s, Load(t)).tasks - {t} == s.tasks - {t};
  }

  lemma {:induction false} ArrivedGrows(max: nat, acts: seq<Action>, i: nat, p: CounterType)
    requires i <= |acts|
    ensures At(After(max, acts[..i]), p).arrived <= At(After(max, acts), p).arrived
  {
    var n := |acts| - 1;
    if i <= n {
      ArrivedGrows(max, acts[..n], i, p);
      assert acts[..n][..i] == acts[..i];
      StepOnlyForward(max, After(max, acts[..n]), acts[n], p);
    } else {
      assert acts[..i] == acts;
    }
  }

  /** The number of the action in which task `t` last loaded the counter. */
  function LoadedAt(max: nat, acts: seq<Action>, t: nat): nat {
    if acts == [] then 0
    else
      var n := |acts| - 1;
      if acts[n] == Load(t) && InPhase(After(max, acts[..n]), t, MustRelease) then n else LoadedAt(max, acts[..n], t)
  }

  lemma LoadedStep(max: nat, s: State, a: Action, t: nat)
    requires var s' := Step(max, s, a); t in s'.tasks && s'.tasks[t].phase.Loaded?
    ensures t in s.tasks && s.tasks[t].proto == Step(max, s, a).tasks[t].proto
    ensures if a == Load(t) && s.tasks[t].phase == MustRelease
            then Step(max, s, a).tasks[t].phase == Loaded(At(s, s.tasks[t].proto).cnt)
            else s.tasks[t] == Step(max, s, a).tasks[t]
  {
  }

  /** A loaded value is the count at the moment of the load. */
  lemma {:induction false} LoadedValue(max: nat, acts: seq<Action>, t: nat)
    requires t in After(max, acts).tasks && After(max, acts).tasks[t].phase.Loaded?
    ensures var i, task := LoadedAt(max, acts, t), After(max, acts).tasks[t];
            && i < |acts| && acts[i] == Load(t)
            && var before := After(max, acts[..i]);
            && InPhase(before, t, MustRelease) && before.tasks[t].proto == task.proto
            && task.phase.v == At(before, task.proto).cnt
  {
    var n := |acts| - 1;
    LoadedStep(max, After(max, acts[..n]), acts[n], t);
    if !(acts[n] == Load(t) && InPhase(After(max, acts[..n]), t, MustRelease)) {
      LoadedValue(max, acts[..n], t);
      assert acts[..n][..LoadedAt(max, acts[..n], t)] == acts[..LoadedAt(max, acts[..n], t)];
    }
  }

  /** The tasks owed are as many at the load of task `t` as they are now. */
  predicate CountUnmoved(max: nat, acts: seq<Action>, t: nat, p: CounterType)
  {
    var i := LoadedAt(max, acts, t);
    i <= |acts| && Owed(After(max, acts[..i]), p) == Owed(After(max, acts), p)
  }

  /** An exchange counts its task out exactly if the tasks owed are as many as they were at its load, whatever came and
      went in between; otherwise the count-out is lost. */
  lemma ExchangeLosesIffCountMoved(max: nat, acts: seq<Action>, t: nat)
    requires t in After(max, acts).tasks && After(max, acts).tasks[t].phase.Loaded?
    requires At(After(max, acts), After(max, acts).tasks[t].proto).arrived < WORD
    ensures var s := After(max, acts);
            var p := s.tasks[t].proto;
            && At(s, p).cnt > 0
            && Step(max, s, Exchange(t)) == if CountUnmoved(max, acts, t, p) then Release(s, t) else Lose(s, t)
  {
    var p := After(max, acts).tasks[t].proto;
    var i := LoadedAt(max, acts, t);
    LoadedValue(max, acts, t);
    CountersAccountForTasks(max, acts, p);
    ArrivedGrows(max, acts, i, p);
    AdmissionLimit(max, acts, p);
    AdmissionLimit(max, acts[..i], p);
    assert t in Live(After(max, acts), p);
  }

  // ---------- What keeps places ----------

  datatype Event = Failing | CountMoved

  /** What makes a task of protocol `p` leave without counting out: a TCP message that cannot be read, a UDP answer that
      fails, a panic while the query is answered. */
  predicate Fails(s: State, a: Action, p: CounterType) {
    match a
    case Read(t, ok) => !ok && InPhase(s, t, Reading) && s.tasks[t].proto == p
    case Serve(t, ok) => !ok && InPhase(s, t, Querying) && s.tasks[t].proto == p == Udp
    case Die(t) => InPhase(s, t, Querying) && s.tasks[t].proto == p
    case _ => false
  }

  /** An exchange for protocol `p` that finds the count moved since its load. */
  predicate FindsCountMoved(max: nat, before: seq<Action>, a: Action, p: CounterType) {
    var s := After(max, before);
    && a.Exchange? && a.task in s.tasks && s.tasks[a.task].phase.Loaded? && s.tasks[a.task].proto == p
    && !CountUnmoved(max, before, a.task, p)
  }

  predicate Happens(e: Event, max: nat, before: seq<Action>, a: Action, p: CounterType) {
    match e
    case Failing => Fails(After(max, before), a, p)
    case CountMoved => FindsCountMoved(max, before, a, p)
  }

  function Tally(e: Event, max: nat, acts: seq<Action>, p: CounterType): nat {
    if acts == [] then 0
    else
      var n := |acts| - 1;
      Tally(e, max, acts[..n], p) + if Happens(e, max, acts[..n], acts[n], p) then 1 else 0
  }

  predicate HappensAt(e: Event, max: nat, acts: seq<Action>, i: nat, p: CounterType) {
    i < |acts| && Happens(e, max, acts[..i], acts[i], p)
  }

  ghost predicate Never(e: Event, max: nat, acts: seq<Action>, p: CounterType) {
    forall i :: !HappensAt(e, max, acts, i, p)
  }

  lemma HappensBefore(e: Event, max: nat, acts: seq<Action>, n: nat, i: nat, p: CounterType)
    requires i < n <= |acts|
    ensures HappensAt(e, max, acts[..n], i, p) <==> HappensAt(e, max, acts, i, p)
  {
    assert acts[..n][..i] == acts[..i];
  }

  lemma NeverStep(e: Event, max: nat, acts: seq<Action>, n: nat, p: CounterType)
    requires n + 1 == |acts|
    ensures Never(e, max, acts, p) <==> Never(e, max, acts[..n], p) && !HappensAt(e, max, acts, n, p)
  {
    forall i: nat | i < n
      ensures HappensAt(e, max, acts[..n], i, p) <==> HappensAt(e, max, acts, i, p)
    {
      HappensBefore(e, max, acts, n, i, p);
    }
    assert forall i: nat :: i > n ==> !HappensAt(e, max, acts, i, p);
  }

  lemma {:induction false} TallyIsZeroIffNever(e: Event, max: nat, acts: seq<Action>, p: CounterType)
    ensures Tally(e, max, acts, p) == 0 <==> Never(e, max, acts, p)
  {
    if acts != [] {
      var n := |acts| - 1;
      TallyIsZeroIffNever(e, max, acts[..n], p);
      NeverStep(e, max, acts, n, p);
    }
  }

  lemma LeakedStep(max: nat, s: State, a: Action, p: CounterType)
    ensures At(Step(max, s, a), p).leaked == At(s, p).leaked + if Fails(s, a, p) then 1 else 0
  {
  }

  /** The places leaked are exactly the failures; so none is leaked iff none occurs. */
  lemma {:induction false} NoFailuresNoLeaks(max: nat, acts: seq<Action>, p: CounterType)
    ensures At(After(max, acts), p).leaked == Tally(Failing, max, acts, p)
    ensures At(After(max, acts), p).leaked == 0 <==> Never(Failing, max, acts, p)
  {
    TallyIsZeroIffNever(Failing, max, acts, p);
    if acts != [] {
      var n := |acts| - 1;
      NoFailuresNoLeaks(max, acts[..n], p);
      LeakedStep(max, After(max, acts[..n]), acts[n], p);
    }
  }

  lemma LostStep(max: nat, s: State, a: Action, p: CounterType)
    requires a.Load? && a.task in s.tasks ==> At(s, s.tasks[a.task].proto).cnt > 0 || s.tasks[a.task].proto != p
    ensures At(Step(max, s, a), p).lost > At(s, p).lost ==>
              a.Exchange? && a.task in s.tasks && s.tasks[a.task].phase.Loaded? && s.tasks[a.task].proto == p
    ensures At(Step(max, s, a), p).lost == At(s, p).lost || At(Step(max, s, a), p).lost == At(s, p).lost + 1
  {
  }

  lemma LostByExchange(max: nat, before: seq<Action>, a: Action, p: CounterType)
    requires At(After(max, before), p).arrived < WORD
    ensures var s := After(max, before);
            At(Step(max, s, a), p).lost == At(s, p).lost + if FindsCountMoved(max, before, a, p) then 1 else 0
  {
    var s := After(max, before);
    if a.task in s.tasks && s.tasks[a.task].proto == p {
      AdmissionLimit(max, before, p);
      assert a.task in Live(s, p);
      if a.Exchange? && s.tasks[a.task].phase.Loaded? {
        ExchangeLosesIffCountMoved(max, before, a.task);
      }
    }
    LostStep(max, s, a, p);
  }

  /** The count-outs lost are exactly the exchanges that find the count moved; so none is lost iff there is none. */
  lemma {:induction false} UncontendedLosesNothing(max: nat, acts: seq<Action>, p: CounterType)
    requires At(After(max, acts), p).arrived < WORD
    ensures At(After(max, acts), p).lost == Tally(CountMoved, max, acts, p)
    ensures At(After(max, acts), p).lost == 0 <==> Never(CountMoved, max, acts, p)
  {
    TallyIsZeroIffNever(CountMoved, max, acts, p);
    if acts != [] {
      var n := |acts| - 1;
      StepOnlyForward(max, After(max, acts[..n]), acts[n], p);
      UncontendedLosesNothing(max, acts[..n], p);
      LostByExchange(max, acts[..n], acts[n], p);
    }
  }

  /** With its protocol at rest the counter is back at zero iff every message could be read, no UDP answer failed, no task
      died, and no exchange found the count moved; an answer that fails over TCP does no harm. */
  lemma GoodRunsRestAtZero(max: nat, acts: seq<Action>, p: CounterType)
    requires At(After(max, acts), p).arrived < WORD && Live(After(max, acts), p) == {}
    ensures At(After(max, acts), p).cnt == 0 <==> Never(Failing, max, acts, p) && Never(CountMoved, max, acts, p)
  {
    UncontendedLosesNothing(max, acts, p);
    NoFailuresNoLeaks(max, acts, p);
    CountAtRest(max, acts, p);
  }

  // ---------- A schedule without contention ----------

  /** Every load is followed at once by its exchange. */
  predicate BackToBack(acts: seq<Action>) {
    && (acts != [] ==> !acts[0].Exchange?)
    && forall i :: 0 <= i < |acts| - 1 ==> (acts[i].Load? <==> acts[i + 1].Exchange?)
                                           && (acts[i].Load? ==> acts[i].task == acts[i + 1].task)
  }

  datatype LastLoad = Nobody | By(task: nat)

  function LastLoadOf(acts: seq<Action>): LastLoad {
    if acts != [] && acts[|acts| - 1].Load? then By(acts[|acts| - 1].task) else Nobody
  }

  /** No task holds a loaded value but the one that has just loaded it, and nothing is lost. */
  ghost predicate Settled(s: State, last: LastLoad, p: CounterType) {
    && At(s, p).lost == 0
    && (forall t :: t in s.tasks && s.tasks[t].phase.Loaded? ==>
          last == By(t) && s.tasks[t].phase.v == At(s, s.tasks[t].proto).cnt && s.tasks[t].phase.v > 0)
  }

  lemma SettledStep(max: nat, s: State, a: Action, last: LastLoad, p: CounterType)
    requires Settled(s, last, p)
    requires a.Exchange? ==> last == By(a.task)
    requires last.By? ==> a == Exchange(last.task)
    requires a.task in s.tasks ==> At(s, s.tasks[a.task].proto).cnt > 0
    ensures Settled(Step(max, s, a), if a.Load? then By(a.task) else Nobody, p)
  {
  }

  lemma {:induction false} BackToBackSettles(max: nat, acts: seq<Action>, p: CounterType)
    requires BackToBack(acts)
    requires forall q :: At(After(max, acts), q).arrived < WORD
    ensures Settled(After(max, acts), LastLoadOf(acts), p)
  {
    if acts != [] {
      var n := |acts| - 1;
      var s, a := After(max, acts[..n]), acts[n];
      forall q ensures At(s, q).arrived < WORD {
        StepOnlyForward(max, s, a, q);
        assert At(After(max, acts), q).arrived < WORD;
      }
      BackToBackSettles(max, acts[..n], p);
      if a.task in s.tasks {
        AdmissionLimit(max, acts[..n], s.tasks[a.task].proto);
        assert a.task in Live(s, s.tasks[a.task].proto);
      }
      if n > 0 { assert acts[n - 1].Load? <==> a.Exchange?; }
      SettledStep(max, s, a, LastLoadOf(acts[..n]), p);
    }
  }

  /** Loads that are each followed at once by their exchange never find the count moved. */
  lemma BackToBackIsUncontended(max: nat, acts: seq<Action>, p: CounterType)
    requires BackToBack(acts)
    requires forall q :: At(After(max, acts), q).arrived < WORD
    ensures Never(CountMoved, max, acts, p)
  {
    BackToBackSettles(max, acts, p);
    UncontendedLosesNothing(max, acts, p);
  }

  // ---------- Runs that show the limits of the scheme ----------

  /** Two UDP tasks, both done with their query. */
  function TwoDone(max: nat): State {
    State(Side(2, 2, 0, 0), INITIAL.tcp,
          map[0 := Task(Udp, 0 < max, MustRelease), 1 := Task(Udp, 1 < max, MustRelease)])
  }

  lemma AfterTwo(max: nat, acts: seq<Action>, a: Action, b: Action)
    ensures After(max, acts + [a] + [b]) == Step(max, Step(max, After(max, acts), a), b)
  {
    AfterSnoc(max, acts, a);
    AfterSnoc(max, acts + [a], b);
  }

  lemma TwoArrive(max: nat)
    ensures var phase := (admitted: bool) => if admitted then Querying else MustRelease;
            Step(max, Step(max, INITIAL, Arrive(0, Udp)), Arrive(1, Udp)) ==
            State(Side(2, 2, 0, 0), INITIAL.tcp,
                  map[0 := Task(Udp, 0 < max, phase(0 < max)), 1 := Task(Udp, 1 < max, phase(1 < max))])
  {
  }

  lemma TwoServed(max: nat, s: State)
    requires s == Step(max, Step(max, INITIAL, Arrive(0, Udp)), Arrive(1, Udp))
    ensures Step(max, Step(max, s, Serve(0, true)), Serve(1, true)) == TwoDone(max)
  {
    TwoArrive(max);
    var one := Step(max, s, Serve(0, true));
    assert one.tasks[0] == Task(Udp, 0 < max, MustRelease);
    assert Step(max, one, Serve(1, true)).tasks == TwoDone(max).tasks;
  }

  lemma TwoGetDone(max: nat) returns (acts: seq<Action>)
    ensures After(max, acts) == TwoDone(max)
  {
    var arrive := [] + [Arrive(0, Udp)] + [Arrive(1, Udp)];
    AfterTwo(max, [], Arrive(0, Udp), Arrive(1, Udp));
    AfterTwo(max, arrive, Serve(0, true), Serve(1, true));
    TwoServed(max, After(max, arrive));
    acts := arrive + [Serve(0, true)] + [Serve(1, true)];
  }

  lemma LoadBothThenExchange(max: nat)
    ensures var loaded := Step(max, Step(max, TwoDone(max), Load(0)), Load(1));
            Step(max, Step(max, loaded, Exchange(0)), Exchange(1)) == State(Side(1, 2, 0, 1), INITIAL.tcp, map[])
  {
    var loaded := Step(max, Step(max, TwoDone(max), Load(0)), Load(1));
    assert loaded.tasks[0].phase == Loaded(2) && loaded.tasks[1].phase == Loaded(2);
    assert Step(max, loaded, Exchange(0)) == Release(loaded, 0);
    assert Step(max, Release(loaded, 0), Exchange(1)) == Lose(Release(loaded, 0), 1);
    assert loaded.tasks - {0} - {1} == map[];
  }

  /** Two tasks that load before either exchanges: one count-out is lost, and at rest the counter stays above zero. */
  lemma ContentionLoses(max: nat) returns (acts: seq<Action>)
    ensures After(max, acts).tasks == map[] && After(max, acts).udp == Side(1, 2, 0, 1)
  {
    var done := TwoGetDone(max);
    acts := done + [Load(0)] + [Load(1)] + [Exchange(0)] + [Exchange(1)];
    AfterSnoc(max, done, Load(0));
    AfterSnoc(max, done + [Load(0)], Load(1));
    AfterSnoc(max, done + [Load(0)] + [Load(1)], Exchange(0));
    AfterSnoc(max, done + [Load(0)] + [Load(1)] + [Exchange(0)], Exchange(1));
    LoadBothThenExchange(max);
  }

  /** What makes a task leave without counting out: a UDP answer that fails, a TCP message that cannot be read. */
  function Failure(p: CounterType, t: nat): Action {
    match p
    case Tcp => Read(t, false)
    case Udp => Serve(t, false)
  }

  /** `m` queries of one protocol one after the other that fail so. */
  lemma {:induction false} FailedQueries(max: nat, m: nat, p: CounterType) returns (acts: seq<Action>)
    requires m <= max < WORD
    ensures After(max, acts) == With(INITIAL, p, Side(m, m, m, 0))
  {
    if m == 0 {
      acts := [];
    } else {
      var before := FailedQueries(max, m - 1, p);
      AfterSnoc(max, before, Arrive(0, p));
      AfterSnoc(max, before + [Arrive(0, p)], Failure(p, 0));
      acts := before + [Arrive(0, p)] + [Failure(p, 0)];
    }
  }

  /** As many failed queries of one protocol as the maximum, in sequence, close the listener to it: no later query of the
      protocol is served. */
  lemma FailuresCloseTheListener(max: nat, p: CounterType, more: seq<Action>, t: nat) returns (acts: seq<Action>)
    requires max < WORD
    ensures Live(After(max, acts), p) == {}
    ensures var s := After(max, acts + more);
            At(s, p).arrived < WORD && t !in s.tasks ==> t !in Serving(After(max, acts + more + [Arrive(t, p)]), p)
  {
    acts := FailedQueries(max, max, p);
    if At(After(max, acts + more), p).arrived < WORD && t !in After(max, acts + more).tasks {
      ClosedForGood(max, acts, more, t, p);
    }
  }

  /** `m` tasks of each protocol arrive and stay. */
  function Crowd(m: nat): map<nat, Task> {
    if m == 0 then map[]
    else Crowd(m - 1)[2 * m - 2 := Task(Udp, true, Querying)][2 * m - 1 := Task(Tcp, true, Reading)]
  }

  lemma {:induction false} CrowdIds(m: nat)
    ensures forall t :: t in Crowd(m) ==> t < 2 * m
  {
    if m > 0 { CrowdIds(m - 1); }
  }

  lemma PairArrives(max: nat, m: nat)
    requires m < max < WORD
    ensures var s := State(Side(m, m, 0, 0), Side(m, m, 0, 0), Crowd(m));
            Step(max, Step(max, s, Arrive(2 * m, Udp)), Arrive(2 * m + 1, Tcp)) ==
            State(Side(m + 1, m + 1, 0, 0), Side(m + 1, m + 1, 0, 0), Crowd(m + 1))
  {
    CrowdIds(m);
  }

  lemma {:induction false} CrowdArrives(max: nat, m: nat) returns (acts: seq<Action>)
    requires m <= max < WORD
    ensures After(max, acts) == State(Side(m, m, 0, 0), Side(m, m, 0, 0), Crowd(m))
  {
    if m == 0 {
      acts := [];
    } else {
      var k := m - 1;
      var before := CrowdArrives(max, k);
      AfterTwo(max, before, Arrive(2 * k, Udp), Arrive(2 * k + 1, Tcp));
      PairArrives(max, k);
      acts := before + [Arrive(2 * k, Udp)] + [Arrive(2 * k + 1, Tcp)];
    }
  }

  lemma {:induction false} CrowdIsServed(m: nat)
    ensures forall t :: t in Crowd(m) ==> Crowd(m)[t].admitted
  {
    if m > 0 { CrowdIsServed(m - 1); }
  }

  /** The maximum holds for each protocol by itself: both together can serve twice as many. */
  lemma BothProtocolsReachTheMaximum(max: nat) returns (acts: seq<Action>)
    requires max < WORD
    ensures forall p :: At(After(max, acts), p).arrived == max && |Serving(After(max, acts), p)| == max
  {
    acts := CrowdArrives(max, max);
    var s := After(max, acts);
    forall p ensures At(s, p).arrived == max && |Serving(s, p)| == max {
      CountersAccountForTasks(max, acts, p);
      CrowdIsServed(max);
      assert Serving(s, p) == Live(s, p);
    }
  }

  function ServingTogether(s: State): nat {
    |Serving(s, Tcp)| + |Serving(s, Udp)|
  }

  /** Both protocols together serve at most twice the maximum, less what both have leaked. */
  lemma CombinedLimit(max: nat, acts: seq<Action>)
    requires forall p :: At(After(max, acts), p).arrived < WORD
    ensures var s := After(max, acts);
            ServingTogether(s) + s.tcp.leaked + s.udp.leaked <= 2 * max
  {
    var s := After(max, acts);
    assert At(s, Tcp).arrived < WORD && At(s, Udp).arrived < WORD;
    AdmissionLimit(max, acts, Tcp);
    AdmissionLimit(max, acts, Udp);
  }

  /** The documented limit: both protocols together serve no more than the maximum. */
  ghost predicate StaysWithinMaximum(max: nat, acts: seq<Action>) {
    (forall p :: At(After(max, acts), p).arrived < WORD) ==> ServingTogether(After(max, acts)) <= max
  }

  /** It holds over all runs for the maximum 0 only. */
  lemma TogetherWithinMaximumIffZero(max: nat)
    requires max < WORD
    ensures (forall acts :: StaysWithinMaximum(max, acts)) <==> max == 0
  {
    if max == 0 {
      forall acts ensures StaysWithinMaximum(max, acts) {
        if forall p :: At(After(max, acts), p).arrived < WORD { CombinedLimit(max, acts); }
      }
    } else {
      var acts := BothProtocolsReachTheMaximum(max);
      var s := After(max, acts);
      assert |Serving(s, Tcp)| == max && |Serving(s, Udp)| == max;
      assert !StaysWithinMaximum(max, acts);
    }
  }
}
