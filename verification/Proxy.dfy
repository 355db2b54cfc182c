// The two query handlers of a listener: what one of them, undisturbed, does to the counters and to its caller.
module Proxy {
  import opened Wrappers
  import opened Counter

  datatype ProxyError =
    | TooManyConnections
    | FailedToMakeDohQuery
    | UdpChannelSendError
    | IoError
    | NullTcpStream
    | InvalidDnsResponseSize
    | Panicked   // not an error of the program: the task dies

  /** What comes of making the query: a response in time, an error or a time-out, a panic. */
  datatype Answering = Answered(length: nat) | NoAnswer | Panics

  const MAX_RESPONSE := 0xFFFF

  type Outcome = Result<(), ProxyError>

  /** The count after a task that counts itself in and, if `released`, out. */
  function CountAfter(cnt: nat, released: bool): nat {
    if released then Released(FetchAdd(cnt)) else FetchAdd(cnt)
  }

  /** The outcome of a UDP query, and whether it counts itself out: if refused or answered, and in no other case. */
  function UdpOutcome(max: nat, cnt: nat, answer: Answering, sent: bool): (r: (Outcome, bool))
    ensures r.0 == Err(TooManyConnections) <==> cnt >= max
    ensures r.0 == Err(Panicked) <==> cnt < max && answer == Panics
    ensures r.0 == Err(FailedToMakeDohQuery) <==> cnt < max && answer == NoAnswer
    ensures r.0 == Err(UdpChannelSendError) <==> cnt < max && answer.Answered? && !sent
    ensures r.0.Ok? <==> cnt < max && answer.Answered? && sent
    ensures r.1 <==> r.0.Ok? || r.0 == Err(TooManyConnections)
  {
    if cnt >= max then (Err(TooManyConnections), true)
    else if answer.Panics? then (Err(Panicked), false)
    else if answer.NoAnswer? then (Err(FailedToMakeDohQuery), false)
    else if !sent then (Err(UdpChannelSendError), false)
    else (Ok(()), true)
  }

  /** The message of a TCP query is there. */
  predicate MessageRead(length: Option<nat>, bodyRead: bool) {
    length.Some? && length.value > 0 && bodyRead
  }

  /** The outcome of a TCP query: `length` is the announced length if it can be read. It counts itself out if refused, or
      once its message was read and its query ended otherwise than by a panic. */
  function TcpOutcome(max: nat, cnt: nat, length: Option<nat>, bodyRead: bool, answer: Answering, written: bool)
    : (r: (Outcome, bool))
    ensures r.0 == Err(TooManyConnections) <==> cnt >= max
    ensures r.0 == Err(NullTcpStream) <==> cnt < max && length == Some(0)
    ensures r.0 == Err(Panicked) <==> cnt < max && MessageRead(length, bodyRead) && answer == Panics
    ensures r.0 == Err(FailedToMakeDohQuery) <==> cnt < max && MessageRead(length, bodyRead) && answer == NoAnswer
    ensures r.0 == Err(InvalidDnsResponseSize) <==>
            cnt < max && MessageRead(length, bodyRead) && answer.Answered? && answer.length > 65535
    ensures r.0.Ok? <==>
            cnt < max && MessageRead(length, bodyRead) && answer.Answered? && answer.length <= 65535 && written
    ensures r.0 == Err(IoError) <==>
            && cnt < max && length != Some(0)
            && (MessageRead(length, bodyRead) ==> answer.Answered? && answer.length <= 65535 && !written)
    ensures r.1 <==> cnt >= max || (MessageRead(length, bodyRead) && answer != Panics)
  {
    if cnt >= max then (Err(TooManyConnections), true)
    else if length.None? then (Err(IoError), false)
    else if length.value == 0 then (Err(NullTcpStream), false)
    else if !bodyRead then (Err(IoError), false)
    else if answer.Panics? then (Err(Panicked), false)
    else if answer.NoAnswer? then (Err(FailedToMakeDohQuery), true)
    else if answer.length > MAX_RESPONSE then (Err(InvalidDnsResponseSize), true)
    else if !written then (Err(IoError), true)
    else (Ok(()), true)
  }

  class Listener {
    const counter: ConnCounter
    const maxConnections: nat

    constructor (maxConnections: nat)
      ensures fresh(counter) && counter.Valid() && this.maxConnections == maxConnections
      ensures counter.cntUdp == 0 && counter.cntTcp == 0
    {
      this.maxConnections := maxConnections;
      this.counter := new ConnCounter();
    }

    /** An undisturbed UDP query keeps its place if it was admitted and its answer fails, cannot be sent, or panics. */
    method ServeUdpQuery(answer: Answering, sent: bool) returns (r: Outcome)
      requires counter.Valid()
      modifies counter
      ensures counter.Valid() && counter.cntTcp == old(counter.cntTcp)
      ensures var (outcome, released) := UdpOutcome(maxConnections, old(counter.cntUdp), answer, sent);
              r == outcome && counter.cntUdp == CountAfter(old(counter.cntUdp), released)
    {
      ghost var tcp := counter.GetCurrent(Tcp);
      var c := counter.Increment(Udp);
      assert counter.GetCurrent(Tcp) == tcp;
      if c >= maxConnections {
        counter.Decrement(Udp);
        assert counter.GetCurrent(Tcp) == tcp;
        return Err(TooManyConnections);
      }
      if answer.Panics? {
        return Err(Panicked);
      }
      if answer.Answered? {
        if !sent {
          return Err(UdpChannelSendError);
        }
      } else {
        return Err(FailedToMakeDohQuery);
      }
      counter.Decrement(Udp);
      assert counter.GetCurrent(Tcp) == tcp;
      r := Ok(());
    }

    /** An undisturbed TCP query keeps its place if it was admitted and its message cannot be read or is empty, or its
        answer panics. */
    method ServeTcpQuery(length: Option<nat>, bodyRead: bool, answer: Answering, written: bool) returns (r: Outcome)
      requires counter.Valid()
      modifies counter
      ensures counter.Valid() && counter.cntUdp == old(counter.cntUdp)
      ensures var (outcome, released) := TcpOutcome(maxConnections, old(counter.cntTcp), length, bodyRead, answer, written);
              r == outcome && counter.cntTcp == CountAfter(old(counter.cntTcp), released)
    {
      ghost var udp := counter.GetCurrent(Udp);
      var c := counter.Increment(Tcp);
      assert counter.GetCurrent(Udp) == udp;
      if c >= maxConnections {
        counter.Decrement(Tcp);
        assert counter.GetCurrent(Udp) == udp;
        return Err(TooManyConnections);
      }
      if length.None? {
        return Err(IoError);
      }
      if length.value == 0 {
        return Err(NullTcpStream);
      }
      if !bodyRead {
        return Err(IoError);
      }
      if answer.Panics? {
        return Err(Panicked);
      }
      counter.Decrement(Tcp);
      assert counter.GetCurrent(Udp) == udp;
      if answer.NoAnswer? {
        return Err(FailedToMakeDohQuery);
      }
      if answer.length > MAX_RESPONSE {
        return Err(InvalidDnsResponseSize);
      }
      if !written {
        return Err(IoError);
      }
      r := Ok(());
    }
  }

  // ---------- An undisturbed handler is a run of the shared counters ----------

  function StepAll(max: nat, s: State, acts: seq<Action>): State
    decreases |acts|
  {
    if acts == [] then s else StepAll(max, Step(max, s, acts[0]), acts[1..])
  }

  /** How making the query ends for the task. */
  function Ending(t: nat, answer: Answering, ok: bool): Action {
    if answer.Panics? then Die(t) else Serve(t, ok)
  }

  /** The steps of one task with nothing in between; steps that do not apply change nothing. */
  function TaskSteps(max: nat, s: State, t: nat, p: CounterType, read: bool, ending: Action): State {
    StepAll(max, s, [Arrive(t, p), Read(t, read), ending, Load(t), Exchange(t)])
  }

  lemma StepFirst(max: nat, s: State, a: Action, rest: seq<Action>)
    ensures StepAll(max, s, [a] + rest) == StepAll(max, Step(max, s, a), rest)
  {
    assert ([a] + rest)[1..] == rest;
  }

  lemma TaskStepsInOrder(max: nat, s: State, t: nat, p: CounterType, read: bool, ending: Action)
    ensures TaskSteps(max, s, t, p, read, ending) ==
            var ended := Step(max, Step(max, Step(max, s, Arrive(t, p)), Read(t, read)), ending);
            Step(max, Step(max, ended, Load(t)), Exchange(t))
  {
    var arrive, read_, load, exchange := Arrive(t, p), Read(t, read), Load(t), Exchange(t);
    var s1 := Step(max, s, arrive);
    var s2 := Step(max, s1, read_);
    var s3 := Step(max, s2, ending);
    var s4 := Step(max, s3, load);
    StepFirst(max, s, arrive, [read_, ending, load, exchange]);
    StepFirst(max, s1, read_, [ending, load, exchange]);
    StepFirst(max, s2, ending, [load, exchange]);
    StepFirst(max, s3, load, [exchange]);
    StepFirst(max, s4, exchange, []);
    assert [arrive, read_, ending, load, exchange] == [arrive] + [read_, ending, load, exchange];
    assert [read_, ending, load, exchange] == [read_] + [ending, load, exchange];
    assert [ending, load, exchange] == [ending] + [load, exchange];
    assert [load, exchange] == [load] + [exchange];
    assert [exchange] == [exchange] + [];
  }

  /** Below the word size the task leaves nothing behind but a place it did not give back. */
  function LeftBehind(side: Side, released: bool): Side {
    if released then side.(arrived := side.arrived + 1)
    else side.(cnt := side.cnt + 1, arrived := side.arrived + 1, leaked := side.leaked + 1)
  }

  /** The state with one more task that has counted itself in. */
  function Inside(s: State, t: nat, task: Task): State {
    var side := At(s, task.proto);
    With(s.(tasks := s.tasks[t := task]), task.proto, side.(cnt := FetchAdd(side.cnt), arrived := side.arrived + 1))
  }

  lemma GotoInside(s: State, t: nat, task: Task, phase: Phase)
    ensures Goto(Inside(s, t, task), t, phase) == Inside(s, t, task.(phase := phase))
  {
    assert s.tasks[t := task][t := task.(phase := phase)] == s.tasks[t := task.(phase := phase)];
  }

  lemma LeakInside(s: State, t: nat, task: Task)
    requires t !in s.tasks && At(s, task.proto).cnt < WORD - 1
    ensures Leak(Inside(s, t, task), t) == With(s, task.proto, LeftBehind(At(s, task.proto), false))
  {
    assert s.tasks[t := task] - {t} == s.tasks;
  }

  lemma ReleaseInside(max: nat, s: State, t: nat, task: Task)
    requires t !in s.tasks && task.phase == MustRelease && At(s, task.proto).cnt < WORD - 1
    ensures Step(max, Step(max, Inside(s, t, task), Load(t)), Exchange(t)) ==
            With(s, task.proto, LeftBehind(At(s, task.proto), true))
  {
    UndisturbedRelease(max, Inside(s, t, task), t);
    assert s.tasks[t := task] - {t} == s.tasks;
  }

  lemma NothingLeft(max: nat, s: State, t: nat, answer: Answering, ok: bool)
    requires t !in s.tasks
    ensures Step(max, s, Ending(t, answer, ok)) == s && Step(max, s, Load(t)) == s && Step(max, s, Exchange(t)) == s
  {
  }

  lemma ArriveInside(max: nat, s: State, t: nat, p: CounterType)
    requires t !in s.tasks
    ensures var admitted := At(s, p).cnt < max;
            var phase := if !admitted then MustRelease else if p == Tcp then Reading else Querying;
            Step(max, s, Arrive(t, p)) == Inside(s, t, Task(p, admitted, phase))
  {
  }

  /** An undisturbed UDP handler is five steps of its task, with the same count at the end. */
  lemma UdpTaskSteps(max: nat, s: State, t: nat, answer: Answering, sent: bool)
    requires t !in s.tasks && s.udp.cnt < WORD - 1
    ensures var (_, released) := UdpOutcome(max, s.udp.cnt, answer, sent);
            && TaskSteps(max, s, t, Udp, true, Ending(t, answer, answer.Answered? && sent)) ==
               With(s, Udp, LeftBehind(s.udp, released))
            && LeftBehind(s.udp, released).cnt == CountAfter(s.udp.cnt, released)
  {
    if s.udp.cnt >= max || (answer.Answered? && sent) {
      UdpReleases(max, s, t, answer, answer.Answered? && sent);
    } else {
      UdpLeaks(max, s, t, answer);
    }
  }

  lemma UdpReleases(max: nat, s: State, t: nat, answer: Answering, ok: bool)
    requires t !in s.tasks && s.udp.cnt < WORD - 1 && (s.udp.cnt >= max || (ok && !answer.Panics?))
    ensures TaskSteps(max, s, t, Udp, true, Ending(t, answer, ok)) == With(s, Udp, LeftBehind(s.udp, true))
  {
    var admitted := s.udp.cnt < max;
    TaskStepsInOrder(max, s, t, Udp, true, Ending(t, answer, ok));
    ArriveInside(max, s, t, Udp);
    GotoInside(s, t, Task(Udp, admitted, Querying), MustRelease);
    ReleaseInside(max, s, t, Task(Udp, admitted, MustRelease));
  }

  lemma UdpLeaks(max: nat, s: State, t: nat, answer: Answering)
    requires t !in s.tasks && s.udp.cnt < WORD - 1 && s.udp.cnt < max
    ensures TaskSteps(max, s, t, Udp, true, Ending(t, answer, false)) == With(s, Udp, LeftBehind(s.udp, false))
  {
    TaskStepsInOrder(max, s, t, Udp, true, Ending(t, answer, false));
    ArriveInside(max, s, t, Udp);
    LeakInside(s, t, Task(Udp, true, Querying));
    NothingLeft(max, With(s, Udp, LeftBehind(s.udp, false)), t, answer, false);
  }

  lemma TcpReleases(max: nat, s: State, t: nat, read: bool, answer: Answering)
    requires t !in s.tasks && s.tcp.cnt < WORD - 1 && (s.tcp.cnt >= max || (read && !answer.Panics?))
    ensures TaskSteps(max, s, t, Tcp, read, Ending(t, answer, answer.Answered?)) == With(s, Tcp, LeftBehind(s.tcp, true))
  {
    var admitted := s.tcp.cnt < max;
    TaskStepsInOrder(max, s, t, Tcp, read, Ending(t, answer, answer.Answered?));
    ArriveInside(max, s, t, Tcp);
    GotoInside(s, t, Task(Tcp, admitted, Reading), Querying);
    GotoInside(s, t, Task(Tcp, admitted, Querying), MustRelease);
    ReleaseInside(max, s, t, Task(Tcp, admitted, MustRelease));
  }

  lemma TcpLeaks(max: nat, s: State, t: nat, read: bool, answer: Answering)
    requires t !in s.tasks && s.tcp.cnt < WORD - 1 && s.tcp.cnt < max && !(read && !answer.Panics?)
    ensures TaskSteps(max, s, t, Tcp, read, Ending(t, answer, answer.Answered?)) == With(s, Tcp, LeftBehind(s.tcp, false))
  {
    TaskStepsInOrder(max, s, t, Tcp, read, Ending(t, answer, answer.Answered?));
    ArriveInside(max, s, t, Tcp);
    GotoInside(s, t, Task(Tcp, true, Reading), Querying);
    LeakInside(s, t, Task(Tcp, true, if read then Querying else Reading));
    NothingLeft(max, With(s, Tcp, LeftBehind(s.tcp, false)), t, answer, answer.Answered?);
  }

  /** So is an undisturbed TCP handler, whatever comes of its answer. */
  lemma TcpTaskSteps(max: nat, s: State, t: nat, length: Option<nat>, bodyRead: bool, answer: Answering, written: bool)
    requires t !in s.tasks && s.tcp.cnt < WORD - 1
    ensures var (_, released) := TcpOutcome(max, s.tcp.cnt, length, bodyRead, answer, written);
            var read := MessageRead(length, bodyRead);
            && TaskSteps(max, s, t, Tcp, read, Ending(t, answer, answer.Answered?)) ==
               With(s, Tcp, LeftBehind(s.tcp, released))
            && LeftBehind(s.tcp, released).cnt == CountAfter(s.tcp.cnt, released)
  {
    var read := MessageRead(length, bodyRead);
    if s.tcp.cnt >= max || (read && !answer.Panics?) {
      TcpReleases(max, s, t, read, answer);
    } else {
      TcpLeaks(max, s, t, read, answer);
    }
  }
}
