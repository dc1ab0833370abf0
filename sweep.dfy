/** The bookkeeping of Experiment.run (gem5/run_script.py:136-246): the
    dispatch counter, the `done` flag, the free permits of the worker
    semaphore, the registry from rate to worker index, the list of worker
    processes and the measurement queue. The loop and the workers run
    concurrently in the script. Here each stretch of code that no other
    party can interleave with becomes one atomic event: a turn of the
    dispatch loop, a worker's put of its measurement (with the `done.set()`
    that follows it outside the lock), a worker's locked deregistration,
    and the cleanup. A schedule of events stands for one interleaving. */
module Sweep {
  import opened Text
  import opened RunScript

  /** The semaphore's initial count (line 154): at most this many workers
      are in flight. */
  const SpeculationLimit: nat := 5

  /** Each dispatch raises the rate by 0.02 (line 210). */
  const RateStep: Hundredths := 2

  /** One entry of `workers_list`: the process started for a rate, and
      whether the straggler cleanup has terminated it. */
  datatype WorkerProcess = WorkerProcess(injectionRate: Hundredths, terminated: bool)

  /** Where the dispatching code stands: inside the `while not done` loop,
      past it (lines 225-246 still to run), or returned. */
  datatype Phase = Dispatching | Stopping | Returned

  /** `reported` is not a variable of the script: it holds the rates whose
      worker has put its measurement (line 186) and has not yet removed
      itself from the registry (line 195), that is, where those workers
      stand in their code. */
  datatype State = State(
    maxPacketLatency: int,
    lastInjectionRate: Hundredths,
    done: bool,
    permits: nat,
    workersDict: map<Hundredths, nat>,
    workersList: seq<WorkerProcess>,
    reported: set<Hundredths>,
    queue: seq<Measurement>,
    phase: Phase)

  /** The state set up by lines 148-168. */
  function Init(maxPacketLatency: int): State {
    State(maxPacketLatency, 0, false, SpeculationLimit, map[], [], {}, [], Dispatching)
  }

  // ---------------------------------------------------------------------
  // Events

  datatype DispatchOutcome = Blocked | Stopped | Started(injectionRate: Hundredths, workerIndex: nat)

  datatype DispatchResult = DispatchResult(outcome: DispatchOutcome, next: State)

  /** One turn of the dispatch loop (lines 200-221). The loop test and the
      re-test after the permit is granted read the same `done` within one
      atomic step; with no free permit the acquire blocks and nothing
      changes. */
  function DispatchStep(s: State): DispatchResult
    requires s.phase == Dispatching
  {
    if s.done then DispatchResult(Stopped, s.(phase := Stopping))
    else if s.permits == 0 then DispatchResult(Blocked, s)
    else
      var rate := s.lastInjectionRate + RateStep;
      var index := |s.workersList|;
      DispatchResult(Started(rate, index),
        s.(lastInjectionRate := rate,
           permits := s.permits - 1,
           workersDict := s.workersDict[rate := index],
           workersList := s.workersList + [WorkerProcess(rate, false)]))
  }

  /** The worker for `rate` finishing its simulation (lines 186-191): it
      puts its measurement on the queue and sets `done` when the latency
      exceeds the limit, all without the lock. It is still registered. */
  function PutStep(s: State, rate: Hundredths, latency: nat): State
    requires rate in s.workersDict && rate !in s.reported && s.phase != Returned
  {
    s.(queue := s.queue + [Measurement(rate, latency)],
       done := s.done || latency > s.maxPacketLatency,
       reported := s.reported + {rate})
  }

  /** The same worker under the lock (lines 194-197): it removes its rate
      from the registry and returns its permit. */
  function DeregisterStep(s: State, rate: Hundredths): State
    requires rate in s.reported && s.phase != Returned
  {
    s.(workersDict := s.workersDict - {rate},
       permits := s.permits + 1,
       reported := s.reported - {rate})
  }

  /** What lines 229-246 produce: the indices terminated, the straggler
      count logged, and the measurements returned. */
  datatype Report = Report(terminated: set<nat>, stragglers: nat, measurements: seq<Measurement>)

  datatype FinishResult = FinishResult(report: Report, next: State)

  function Terminate(ws: seq<WorkerProcess>, indices: set<nat>): (r: seq<WorkerProcess>)
    ensures |r| == |ws|
    ensures forall i :: 0 <= i < |ws| ==>
      r[i].injectionRate == ws[i].injectionRate && r[i].terminated == (ws[i].terminated || i in indices)
  {
    seq(|ws|, i requires 0 <= i < |ws| => if i in indices then ws[i].(terminated := true) else ws[i])
  }

  /** The cleanup after the loop: terminate every worker still registered,
      count them, and drain the queue. The registry itself is left as it
      is. */
  function FinishStep(s: State): FinishResult
    requires s.phase == Stopping
  {
    var indices := s.workersDict.Values;
    FinishResult(Report(indices, |s.workersDict|, s.queue),
      s.(workersList := Terminate(s.workersList, indices), queue := [], phase := Returned))
  }

  // ---------------------------------------------------------------------
  // Schedules

  /** A step of some interleaving: the dispatch loop takes a turn, the
      worker for a rate puts a measurement with a latency, or it
      deregisters. */
  datatype Event =
    | DispatchAttempt
    | WorkerPuts(injectionRate: Hundredths, packetLatency: nat)
    | WorkerDeregisters(injectionRate: Hundredths)

  /** An event that cannot happen in the current state (the loop has been
      left, no worker for that rate is at that point of its code) changes
      nothing. */
  function Apply(s: State, e: Event): State {
    match e
    case DispatchAttempt =>
      if s.phase == Dispatching then DispatchStep(s).next else s
    case WorkerPuts(rate, latency) =>
      if rate in s.workersDict && rate !in s.reported && s.phase != Returned
      then PutStep(s, rate, latency) else s
    case WorkerDeregisters(rate) =>
      if rate in s.reported && s.phase != Returned then DeregisterStep(s, rate) else s
  }

  function Replay(s: State, events: seq<Event>): State {
    if events == [] then s else Apply(Replay(s, events[..|events| - 1]), events[|events| - 1])
  }

  /** The list Experiment.run returns when the schedule has taken the loop to
      its end, and None when the sweep is still dispatching. */
  function RunOutcome(maxPacketLatency: int, events: seq<Event>): Option<Report> {
    var s := Replay(Init(maxPacketLatency), events);
    if s.phase == Stopping then Some(FinishStep(s).report) else None
  }

  // ---------------------------------------------------------------------
  // The invariant

  /** Every queued measurement belongs to a dispatched worker that has
      deregistered or is about to; every such worker has exactly one. */
  ghost predicate QueueAccounts(s: State) {
    && (forall k :: 0 <= k < |s.queue| ==>
          0 < s.queue[k].injectionRate <= s.lastInjectionRate
          && s.queue[k].injectionRate % RateStep == 0
          && (s.queue[k].injectionRate in s.workersDict ==> s.queue[k].injectionRate in s.reported))
    && (forall i :: 0 <= i < |s.workersList| && s.workersList[i].injectionRate !in s.workersDict ==>
          exists k :: 0 <= k < |s.queue| && s.queue[k].injectionRate == s.workersList[i].injectionRate)
    && (forall r :: r in s.reported ==> exists k :: 0 <= k < |s.queue| && s.queue[k].injectionRate == r)
    && (forall k, l :: 0 <= k < l < |s.queue| ==> s.queue[k].injectionRate != s.queue[l].injectionRate)
  }

  /** Dispatch i (counting from 0) has rate 0.02 * (i + 1). */
  ghost predicate RatesInOrder(s: State) {
    && s.lastInjectionRate == RateStep * |s.workersList|
    && (forall i :: 0 <= i < |s.workersList| ==> s.workersList[i].injectionRate == RateStep * (i + 1))
  }

  /** Free permits and registered workers add up to the semaphore's count,
      each registered rate maps to the index of its worker, and only a
      registered worker can be between its put and its deregistration. */
  ghost predicate RegistryBalanced(s: State) {
    && s.permits + |s.workersDict| == SpeculationLimit
    && (forall r :: r in s.workersDict ==>
          s.workersDict[r] < |s.workersList| && s.workersList[s.workersDict[r]].injectionRate == r)
    && s.reported <= s.workersDict.Keys
  }

  /** The loop is left only once `done` is set; `done` is set by a put,
      and nothing registers after it, so the registry is not full unless
      some registered worker has already put its measurement. */
  ghost predicate StopDiscipline(s: State) {
    && (s.phase != Dispatching ==> s.done)
    && (s.done ==> |s.workersDict| < SpeculationLimit || s.reported != {})
  }

  /** Nobody terminates a worker before the cleanup, which terminates every
      worker still registered and empties the queue. */
  ghost predicate Terminations(s: State) {
    && (s.phase != Returned ==> forall i :: 0 <= i < |s.workersList| ==> !s.workersList[i].terminated)
    && (s.phase == Returned ==>
          && s.queue == []
          && forall r :: r in s.workersDict && s.workersDict[r] < |s.workersList| ==>
               s.workersList[s.workersDict[r]].terminated)
  }

  /** Until the cleanup, `done` is set exactly when some queued latency
      exceeds the limit. */
  ghost predicate DoneAccounts(s: State) {
    s.phase != Returned ==>
      (s.done <==> exists k :: 0 <= k < |s.queue| && s.queue[k].packetLatency > s.maxPacketLatency)
  }

  ghost predicate Invariant(s: State) {
    && RatesInOrder(s)
    && RegistryBalanced(s)
    && StopDiscipline(s)
    && Terminations(s)
    && (s.phase != Returned ==> QueueAccounts(s))
    && DoneAccounts(s)
  }

  lemma InitInvariant(maxPacketLatency: int)
    ensures Invariant(Init(maxPacketLatency))
  {
  }

  /** A registered rate's worker index is its position in the list: the
      number of workers dispatched before it. */
  lemma RegisteredIndex(s: State, r: Hundredths)
    requires Invariant(s) && r in s.workersDict
    ensures s.workersDict[r] == r / RateStep - 1
    ensures forall i :: 0 <= i < |s.workersList| ==>
      (s.workersList[i].injectionRate < r <==> i < s.workersDict[r])
  {
  }

  /** Rates in the list strictly increase, so none occurs twice. */
  lemma RatesIncrease(s: State)
    requires Invariant(s)
    ensures forall i, j :: 0 <= i < j < |s.workersList| ==>
      s.workersList[i].injectionRate < s.workersList[j].injectionRate
  {
  }

  lemma BoundedSpeculation(s: State)
    requires Invariant(s)
    ensures |s.workersDict| <= SpeculationLimit
  {
  }

  // ---------------------------------------------------------------------
  // What each event does

  /** A dispatch with a free permit and `done` unset takes the permit and
      registers the next rate, which is one step above every rate before it
      and not yet registered; otherwise nothing is registered. */
  lemma DispatchEffect(s: State)
    requires Invariant(s) && s.phase == Dispatching
    ensures var r := DispatchStep(s);
      && (r.outcome.Started? <==> !s.done && s.permits > 0)
      && (r.outcome.Stopped? <==> s.done)
      && (r.outcome.Started? ==>
            && r.outcome.injectionRate == s.lastInjectionRate + RateStep
            && r.outcome.injectionRate !in s.workersDict
            && (forall i :: 0 <= i < |s.workersList| ==> s.workersList[i].injectionRate < r.outcome.injectionRate)
            && r.outcome.workerIndex == |s.workersList|
            && r.next.permits == s.permits - 1
            && r.next.workersDict == s.workersDict[r.outcome.injectionRate := r.outcome.workerIndex]
            && |r.next.workersDict| == |s.workersDict| + 1)
      && (!r.outcome.Started? ==>
            r.next.workersDict == s.workersDict && r.next.workersList == s.workersList
            && r.next.permits == s.permits)
      && r.next.queue == s.queue && r.next.reported == s.reported
  {
  }

  /** A put enqueues the measurement whatever its latency, as the only one
      of its rate, sets `done` exactly when the latency exceeds the limit
      (or keeps it set), and leaves the registry and the permits alone. */
  lemma PutEffect(s: State, rate: Hundredths, latency: nat)
    requires Invariant(s) && rate in s.workersDict && rate !in s.reported && s.phase != Returned
    ensures var t := PutStep(s, rate, latency);
      && t.queue == s.queue + [Measurement(rate, latency)]
      && (forall k :: 0 <= k < |s.queue| ==> s.queue[k].injectionRate != rate)
      && (t.done <==> s.done || latency > s.maxPacketLatency)
      && t.workersDict == s.workersDict && t.permits == s.permits
      && t.workersList == s.workersList && t.lastInjectionRate == s.lastInjectionRate
  {
  }

  /** A deregistration comes after the worker's measurement is queued; it
      removes its own rate and nothing else from the registry and returns
      one permit. */
  lemma DeregisterEffect(s: State, rate: Hundredths)
    requires Invariant(s) && rate in s.reported && s.phase != Returned
    ensures var t := DeregisterStep(s, rate);
      && (exists k :: 0 <= k < |s.queue| && s.queue[k].injectionRate == rate)
      && rate in s.workersDict && rate !in t.workersDict
      && (forall r :: r != rate ==> (r in t.workersDict <==> r in s.workersDict))
      && (forall r :: r in t.workersDict ==> t.workersDict[r] == s.workersDict[r])
      && |t.workersDict| == |s.workersDict| - 1
      && t.permits == s.permits + 1
      && t.queue == s.queue && t.done == s.done
      && t.workersList == s.workersList && t.lastInjectionRate == s.lastInjectionRate
  {
  }

  lemma DispatchKeepsQueueAccounts(s: State)
    requires RatesInOrder(s) && QueueAccounts(s) && s.phase == Dispatching
    ensures QueueAccounts(DispatchStep(s).next)
  {
    var t := DispatchStep(s).next;
    if !s.done && s.permits > 0 {
      var rate := s.lastInjectionRate + RateStep;
      forall k | 0 <= k < |t.queue|
        ensures 0 < t.queue[k].injectionRate <= t.lastInjectionRate
        ensures t.queue[k].injectionRate in t.workersDict ==> t.queue[k].injectionRate in t.reported
      {
        assert t.queue[k] == s.queue[k];
      }
      forall i | 0 <= i < |t.workersList| && t.workersList[i].injectionRate !in t.workersDict
        ensures exists k :: 0 <= k < |t.queue| && t.queue[k].injectionRate == t.workersList[i].injectionRate
      {
        assert i < |s.workersList|;
        assert s.workersList[i] == t.workersList[i];
      }
    }
  }

  lemma DispatchKeepsRegistry(s: State)
    requires RatesInOrder(s) && RegistryBalanced(s) && s.phase == Dispatching
    ensures RatesInOrder(DispatchStep(s).next) && RegistryBalanced(DispatchStep(s).next)
  {
    var t := DispatchStep(s).next;
    if !s.done && s.permits > 0 {
      var rate := s.lastInjectionRate + RateStep;
      assert rate !in s.workersDict;
      forall r | r in t.workersDict
        ensures t.workersDict[r] < |t.workersList| && t.workersList[t.workersDict[r]].injectionRate == r
      {
        if r != rate { assert t.workersList[t.workersDict[r]] == s.workersList[s.workersDict[r]]; }
      }
    }
  }

  lemma DispatchPreservesInvariant(s: State)
    requires Invariant(s) && s.phase == Dispatching
    ensures Invariant(DispatchStep(s).next)
  {
    DispatchKeepsQueueAccounts(s);
    DispatchKeepsRegistry(s);
  }

  /** The measurement a put appends is of a dispatched, registered rate
      that now counts as reported, and is the only one of its rate. */
  lemma PutKeepsQueuedRates(s: State, rate: Hundredths, latency: nat)
    requires RatesInOrder(s) && RegistryBalanced(s) && QueueAccounts(s)
    requires rate in s.workersDict && rate !in s.reported && s.phase != Returned
    ensures var t := PutStep(s, rate, latency);
      && (forall k :: 0 <= k < |t.queue| ==>
            0 < t.queue[k].injectionRate <= t.lastInjectionRate
            && t.queue[k].injectionRate % RateStep == 0
            && (t.queue[k].injectionRate in t.workersDict ==> t.queue[k].injectionRate in t.reported))
      && (forall k, l :: 0 <= k < l < |t.queue| ==> t.queue[k].injectionRate != t.queue[l].injectionRate)
  {
    var t := PutStep(s, rate, latency);
    var n := |s.queue|;
    assert t.queue[n].injectionRate == rate;
    assert rate == RateStep * (s.workersDict[rate] + 1);
    forall k | 0 <= k < |t.queue|
      ensures 0 < t.queue[k].injectionRate <= t.lastInjectionRate
      ensures t.queue[k].injectionRate % RateStep == 0
      ensures t.queue[k].injectionRate in t.workersDict ==> t.queue[k].injectionRate in t.reported
    {
      if k < n { assert t.queue[k] == s.queue[k]; }
    }
    forall k, l | 0 <= k < l < |t.queue|
      ensures t.queue[k].injectionRate != t.queue[l].injectionRate
    {
      assert t.queue[k] == s.queue[k];
      if l < n { assert t.queue[l] == s.queue[l]; }
    }
  }

  lemma PutKeepsQueueCover(s: State, rate: Hundredths, latency: nat)
    requires QueueAccounts(s) && rate in s.workersDict && rate !in s.reported && s.phase != Returned
    ensures var t := PutStep(s, rate, latency);
      && (forall i :: 0 <= i < |t.workersList| && t.workersList[i].injectionRate !in t.workersDict ==>
            exists k :: 0 <= k < |t.queue| && t.queue[k].injectionRate == t.workersList[i].injectionRate)
      && (forall r :: r in t.reported ==> exists k :: 0 <= k < |t.queue| && t.queue[k].injectionRate == r)
  {
    var t := PutStep(s, rate, latency);
    var n := |s.queue|;
    forall i | 0 <= i < |t.workersList| && t.workersList[i].injectionRate !in t.workersDict
      ensures exists k :: 0 <= k < |t.queue| && t.queue[k].injectionRate == t.workersList[i].injectionRate
    {
      var k :| 0 <= k < |s.queue| && s.queue[k].injectionRate == s.workersList[i].injectionRate;
      assert t.queue[k] == s.queue[k];
    }
    forall r | r in t.reported ensures exists k :: 0 <= k < |t.queue| && t.queue[k].injectionRate == r {
      if r == rate {
        assert t.queue[n].injectionRate == r;
      } else {
        var k :| 0 <= k < |s.queue| && s.queue[k].injectionRate == r;
        assert t.queue[k] == s.queue[k];
      }
    }
  }

  lemma PutKeepsDoneAccounts(s: State, rate: Hundredths, latency: nat)
    requires DoneAccounts(s) && rate in s.workersDict && rate !in s.reported && s.phase != Returned
    ensures DoneAccounts(PutStep(s, rate, latency))
  {
    var t := PutStep(s, rate, latency);
    var n := |s.queue|;
    if latency > s.maxPacketLatency {
      assert t.queue[n].packetLatency > t.maxPacketLatency;
    }
    if s.done {
      var k :| 0 <= k < |s.queue| && s.queue[k].packetLatency > s.maxPacketLatency;
      assert t.queue[k] == s.queue[k];
    }
    if !t.done {
      forall k | 0 <= k < |t.queue| ensures t.queue[k].packetLatency <= t.maxPacketLatency {
        if k < n { assert t.queue[k] == s.queue[k]; }
      }
    }
  }

  lemma PutPreservesInvariant(s: State, rate: Hundredths, latency: nat)
    requires Invariant(s) && rate in s.workersDict && rate !in s.reported && s.phase != Returned
    ensures Invariant(PutStep(s, rate, latency))
  {
    PutKeepsQueuedRates(s, rate, latency);
    PutKeepsQueueCover(s, rate, latency);
    PutKeepsDoneAccounts(s, rate, latency);
  }

  /** After a deregistration the worker's measurement still accounts for
      it: it is queued and its rate is no longer registered. */
  lemma DeregisterKeepsQueueAccounts(s: State, rate: Hundredths)
    requires RegistryBalanced(s) && QueueAccounts(s) && rate in s.reported && s.phase != Returned
    ensures QueueAccounts(DeregisterStep(s, rate))
  {
    var t := DeregisterStep(s, rate);
    forall i | 0 <= i < |t.workersList| && t.workersList[i].injectionRate !in t.workersDict
      ensures exists k :: 0 <= k < |t.queue| && t.queue[k].injectionRate == t.workersList[i].injectionRate
    {
      if t.workersList[i].injectionRate == rate {
        var k :| 0 <= k < |s.queue| && s.queue[k].injectionRate == rate;
        assert t.queue[k].injectionRate == t.workersList[i].injectionRate;
      }
    }
  }

  lemma DeregisterKeepsRegistry(s: State, rate: Hundredths)
    requires RegistryBalanced(s) && StopDiscipline(s) && rate in s.reported && s.phase != Returned
    ensures RegistryBalanced(DeregisterStep(s, rate)) && StopDiscipline(DeregisterStep(s, rate))
  {
    assert rate in s.workersDict;
  }

  lemma DeregisterPreservesInvariant(s: State, rate: Hundredths)
    requires Invariant(s) && rate in s.reported && s.phase != Returned
    ensures Invariant(DeregisterStep(s, rate))
  {
    DeregisterKeepsQueueAccounts(s, rate);
    DeregisterKeepsRegistry(s, rate);
  }

  lemma ApplyPreservesInvariant(s: State, e: Event)
    requires Invariant(s)
    ensures Invariant(Apply(s, e))
  {
    match e
    case DispatchAttempt =>
      if s.phase == Dispatching { DispatchPreservesInvariant(s); }
    case WorkerPuts(rate, latency) =>
      if rate in s.workersDict && rate !in s.reported && s.phase != Returned {
        PutPreservesInvariant(s, rate, latency);
      }
    case WorkerDeregisters(rate) =>
      if rate in s.reported && s.phase != Returned { DeregisterPreservesInvariant(s, rate); }
  }

  lemma {:induction false} ReplayPreservesInvariant(s: State, events: seq<Event>)
    requires Invariant(s)
    ensures Invariant(Replay(s, events))
    decreases |events|
  {
    if events != [] {
      ReplayPreservesInvariant(s, events[..|events| - 1]);
      ApplyPreservesInvariant(Replay(s, events[..|events| - 1]), events[|events| - 1]);
    }
  }

  lemma ReplayInvariant(maxPacketLatency: int, events: seq<Event>)
    ensures Invariant(Replay(Init(maxPacketLatency), events))
  {
    ReplayPreservesInvariant(Init(maxPacketLatency), events);
  }

  // ---------------------------------------------------------------------
  // Properties of whole schedules

  /** Once `done` is set it stays set, and no rate is dispatched any more:
      the list of workers and the counter stay as they are. */
  lemma {:induction false} NoDispatchOnceDone(s: State, events: seq<Event>)
    requires s.done
    ensures Replay(s, events).done
    ensures Replay(s, events).workersList == s.workersList
    ensures Replay(s, events).lastInjectionRate == s.lastInjectionRate
    ensures Replay(s, events).workersDict.Keys <= s.workersDict.Keys
    decreases |events|
  {
    if events != [] {
      NoDispatchOnceDone(s, events[..|events| - 1]);
    }
  }

  /** `done` becomes set only through a put whose latency exceeds the
      limit. */
  lemma {:induction false} DoneOnlyByLatency(s: State, events: seq<Event>)
    requires !s.done
    requires Replay(s, events).done
    ensures exists k :: 0 <= k < |events| && events[k].WorkerPuts?
                        && events[k].packetLatency > s.maxPacketLatency
    decreases |events|
  {
    var front := events[..|events| - 1];
    var last := events[|events| - 1];
    assert events != [];
    assert Replay(s, front).maxPacketLatency == s.maxPacketLatency by { LimitUnchanged(s, front); }
    if Replay(s, front).done {
      DoneOnlyByLatency(s, front);
      var k :| 0 <= k < |front| && front[k].WorkerPuts? && front[k].packetLatency > s.maxPacketLatency;
      assert events[k] == front[k];
    } else {
      assert last.WorkerPuts? && last.packetLatency > s.maxPacketLatency;
      assert events[|events| - 1] == last;
    }
  }

  lemma {:induction false} LimitUnchanged(s: State, events: seq<Event>)
    ensures Replay(s, events).maxPacketLatency == s.maxPacketLatency
    decreases |events|
  {
    if events != [] {
      LimitUnchanged(s, events[..|events| - 1]);
    }
  }

  /** The rates dispatched by a schedule are 0.02, 0.04, ... in order. */
  lemma DispatchedRates(maxPacketLatency: int, events: seq<Event>)
    ensures var s := Replay(Init(maxPacketLatency), events);
      forall i :: 0 <= i < |s.workersList| ==> s.workersList[i].injectionRate == RateStep * (i + 1)
  {
    ReplayInvariant(maxPacketLatency, events);
  }

  // ---------------------------------------------------------------------
  // The cleanup

  /** Values of a map whose values tell its keys apart are as many as its keys. */
  lemma {:induction false} InjectiveValues(m: map<Hundredths, nat>)
    requires forall a, b :: a in m && b in m && a != b ==> m[a] != m[b]
    ensures |m.Values| == |m|
    decreases |m|
  {
    if |m| > 0 {
      var a :| a in m;
      var m' := m - {a};
      InjectiveValues(m');
      forall v | v in m.Values ensures v in m'.Values + {m[a]} {
        var b :| b in m && m[b] == v;
        if b != a { assert m'[b] == v; }
      }
      assert m.Values == m'.Values + {m[a]};
    }
  }

  /** The indices the cleanup terminates are those of the workers still
      registered. */
  lemma FinishTerminatesRegistered(s: State)
    requires RatesInOrder(s) && RegistryBalanced(s) && s.phase == Stopping
    ensures forall i :: i in FinishStep(s).report.terminated <==>
      0 <= i < |s.workersList| && s.workersList[i].injectionRate in s.workersDict
  {
    forall i ensures i in s.workersDict.Values <==>
            0 <= i < |s.workersList| && s.workersList[i].injectionRate in s.workersDict
    {
      if 0 <= i < |s.workersList| && s.workersList[i].injectionRate in s.workersDict {
        assert s.workersDict[s.workersList[i].injectionRate] == i;
      }
    }
  }

  /** The straggler count is the number of terminated workers, at most
      five; it is five only when one of them had already put its
      measurement, which is then among those returned. */
  lemma FinishCountsStragglers(s: State)
    requires RatesInOrder(s) && RegistryBalanced(s) && StopDiscipline(s) && QueueAccounts(s)
    requires s.phase == Stopping
    ensures FinishStep(s).report.stragglers == |FinishStep(s).report.terminated| == |s.workersDict|
    ensures FinishStep(s).report.stragglers <= SpeculationLimit
    ensures FinishStep(s).report.stragglers == SpeculationLimit ==>
      exists k :: 0 <= k < |s.queue| && s.queue[k].injectionRate in s.workersDict
  {
    forall a, b | a in s.workersDict && b in s.workersDict && a != b
      ensures s.workersDict[a] != s.workersDict[b]
    {
    }
    InjectiveValues(s.workersDict);
    if |s.workersDict| == SpeculationLimit {
      var r :| r in s.reported;
      var k :| 0 <= k < |s.queue| && s.queue[k].injectionRate == r;
      assert s.queue[k].injectionRate in s.workersDict;
    }
  }

  /** After the cleanup a worker is terminated exactly when it is still
      registered. */
  lemma FinishLeavesRegisteredTerminated(s: State)
    requires RatesInOrder(s) && RegistryBalanced(s) && Terminations(s) && s.phase == Stopping
    ensures var t := FinishStep(s).next;
      forall i :: 0 <= i < |t.workersList| ==>
        (t.workersList[i].terminated <==> t.workersList[i].injectionRate in t.workersDict)
  {
    var t := FinishStep(s).next;
    forall i | 0 <= i < |t.workersList|
      ensures t.workersList[i].terminated <==> t.workersList[i].injectionRate in t.workersDict
    {
      if s.workersList[i].injectionRate in s.workersDict {
        assert s.workersDict[s.workersList[i].injectionRate] == i;
      }
    }
  }

  /** The terminated workers are exactly those still registered and the
      count logged is how many they are. The measurements returned are the
      queue's in order: one for every worker that deregistered, and one for
      each terminated worker that had put its measurement before the
      cleanup took the lock; no rate comes twice. Afterwards no registered
      worker is left running. */
  lemma FinishEffect(s: State)
    requires Invariant(s) && s.phase == Stopping
    ensures var f := FinishStep(s);
      && (forall i :: i in f.report.terminated <==>
            0 <= i < |s.workersList| && s.workersList[i].injectionRate in s.workersDict)
      && f.report.stragglers == |f.report.terminated| == |s.workersDict|
      && f.report.stragglers <= SpeculationLimit
      && f.report.measurements == s.queue
      && (forall k :: 0 <= k < |s.queue| ==>
            s.queue[k].injectionRate !in s.workersDict || s.queue[k].injectionRate in s.reported)
      && (forall i :: 0 <= i < |s.workersList| && s.workersList[i].injectionRate !in s.workersDict ==>
            exists k :: 0 <= k < |s.queue| && s.queue[k].injectionRate == s.workersList[i].injectionRate)
      && (forall r :: r in s.reported ==> exists k :: 0 <= k < |s.queue| && s.queue[k].injectionRate == r)
      && (forall k, l :: 0 <= k < l < |s.queue| ==> s.queue[k].injectionRate != s.queue[l].injectionRate)
      && (forall i :: 0 <= i < |f.next.workersList| ==>
            (f.next.workersList[i].terminated <==> f.next.workersList[i].injectionRate in f.next.workersDict))
  {
    FinishTerminatesRegistered(s);
    FinishCountsStragglers(s);
    FinishLeavesRegisteredTerminated(s);
  }

  lemma FinishPreservesInvariant(s: State)
    requires Invariant(s) && s.phase == Stopping
    ensures Invariant(FinishStep(s).next)
  {
  }

  /** Once the loop is left, some queued latency exceeds the limit and
      every queued rate is a dispatched one. */
  lemma StoppedQueue(s: State)
    requires Invariant(s) && s.phase == Stopping
    ensures exists k :: 0 <= k < |s.queue| && s.queue[k].packetLatency > s.maxPacketLatency
    ensures forall k :: 0 <= k < |s.queue| ==>
      exists i :: 0 <= i < |s.workersList| && s.workersList[i].injectionRate == s.queue[k].injectionRate
  {
    forall k | 0 <= k < |s.queue|
      ensures exists i :: 0 <= i < |s.workersList| && s.workersList[i].injectionRate == s.queue[k].injectionRate
    {
      var i := s.queue[k].injectionRate / RateStep - 1;
      assert s.workersList[i].injectionRate == s.queue[k].injectionRate;
    }
  }

  /** A finished run leaves at most five stragglers, five only when some
      straggler's measurement is among those returned; it returns the
      queue, which holds a latency over the limit and only dispatched
      rates. */
  lemma RunOutcomeShape(maxPacketLatency: int, events: seq<Event>)
    requires RunOutcome(maxPacketLatency, events).Some?
    ensures var rep := RunOutcome(maxPacketLatency, events).value;
      var s := Replay(Init(maxPacketLatency), events);
      && rep.stragglers <= SpeculationLimit
      && (rep.stragglers == SpeculationLimit ==>
            exists k :: 0 <= k < |rep.measurements| && rep.measurements[k].injectionRate in s.workersDict)
      && rep.measurements == s.queue
      && (exists k :: 0 <= k < |rep.measurements| && rep.measurements[k].packetLatency > maxPacketLatency)
      && (forall k :: 0 <= k < |rep.measurements| ==>
            exists i :: 0 <= i < |s.workersList| && s.workersList[i].injectionRate == rep.measurements[k].injectionRate)
  {
    var s := Replay(Init(maxPacketLatency), events);
    assert s.phase == Stopping && RunOutcome(maxPacketLatency, events).value == FinishStep(s).report;
    ReplayInvariant(maxPacketLatency, events);
    LimitUnchanged(Init(maxPacketLatency), events);
    FinishCountsStragglers(s);
    StoppedQueue(s);
  }

  lemma ReplaySnoc(s: State, events: seq<Event>, e: Event)
    ensures Replay(s, events + [e]) == Apply(Replay(s, events), e)
  {
    assert (events + [e])[..|events|] == events;
  }

  /** The state after five dispatches under the limit 2.00: every permit
      is taken and the rates 0.02 to 0.10 are registered. */
  function Saturated(): State {
    Init(200).(lastInjectionRate := 10, permits := 0,
               workersDict := map[2 := 0, 4 := 1, 6 := 2, 8 := 3, 10 := 4],
               workersList := [WorkerProcess(2, false), WorkerProcess(4, false), WorkerProcess(6, false),
                               WorkerProcess(8, false), WorkerProcess(10, false)])
  }

  lemma FiveDispatches()
    ensures Replay(Init(200), [DispatchAttempt, DispatchAttempt, DispatchAttempt, DispatchAttempt,
                               DispatchAttempt]) == Saturated()
  {
    var d := DispatchAttempt;
    var s0 := Init(200);
    var s1 := Apply(s0, d);
    var s2 := Apply(s1, d);
    var s3 := Apply(s2, d);
    var s4 := Apply(s3, d);
    ReplaySnoc(s0, [], d);
    assert Replay(s0, [d]) == s1 by { assert [] + [d] == [d]; }
    ReplaySnoc(s0, [d], d);
    assert Replay(s0, [d, d]) == s2 by { assert [d] + [d] == [d, d]; }
    ReplaySnoc(s0, [d, d], d);
    assert Replay(s0, [d, d, d]) == s3 by { assert [d, d] + [d] == [d, d, d]; }
    ReplaySnoc(s0, [d, d, d], d);
    assert Replay(s0, [d, d, d, d]) == s4 by { assert [d, d, d] + [d] == [d, d, d, d]; }
    ReplaySnoc(s0, [d, d, d, d], d);
    assert [d, d, d, d] + [d] == [d, d, d, d, d];
    assert s4.workersDict == map[2 := 0, 4 := 1, 6 := 2, 8 := 3];
  }

  lemma SaturatedRegistry()
    ensures Saturated().workersDict.Values == {0, 1, 2, 3, 4}
    ensures |Saturated().workersDict| == SpeculationLimit
  {
    var m := Saturated().workersDict;
    assert m[2] == 0 && m[4] == 1 && m[6] == 2 && m[8] == 3 && m[10] == 4;
    assert m.Keys == {2, 4, 6, 8, 10};
  }

  /** Five stragglers can be reported: the loop fills all five permits, the
      first worker puts a latency over the limit and sets `done`, and the
      loop is left before that worker deregisters. Its measurement is
      returned, and it is terminated nonetheless. */
  lemma FiveStragglers()
    ensures var events := [DispatchAttempt, DispatchAttempt, DispatchAttempt, DispatchAttempt,
                           DispatchAttempt, WorkerPuts(2, 201), DispatchAttempt];
      var r := RunOutcome(200, events);
      && r.Some?
      && r.value.stragglers == SpeculationLimit
      && r.value.terminated == {0, 1, 2, 3, 4}
      && r.value.measurements == [Measurement(2, 201)]
  {
    var d := DispatchAttempt;
    var p := WorkerPuts(2, 201);
    var s0 := Init(200);
    var s5 := Saturated();
    var s6 := s5.(queue := [Measurement(2, 201)], done := true, reported := {2});
    FiveDispatches();
    ReplaySnoc(s0, [d, d, d, d, d], p);
    assert Replay(s0, [d, d, d, d, d, p]) == s6 by { assert [d, d, d, d, d] + [p] == [d, d, d, d, d, p]; }
    ReplaySnoc(s0, [d, d, d, d, d, p], d);
    assert Replay(s0, [d, d, d, d, d, p, d]) == s6.(phase := Stopping) by {
      assert [d, d, d, d, d, p] + [d] == [d, d, d, d, d, p, d];
    }
    SaturatedRegistry();
  }

  // ---------------------------------------------------------------------
  // The dispatching code as it runs: the locals of Experiment.run

  /** The measurement queue holds Measurement objects and, once the cleanup
      starts, the None sentinel; these are the measurements in it. */
  function Present(q: seq<Option<Measurement>>): seq<Measurement> {
    if q == [] then [] else (if q[0].Some? then [q[0].value] else []) + Present(q[1..])
  }

  lemma {:induction false} PresentSnoc(q: seq<Option<Measurement>>, x: Option<Measurement>)
    ensures Present(q + [x]) == Present(q) + (if x.Some? then [x.value] else [])
    decreases |q|
  {
    if q != [] {
      assert (q + [x])[1..] == q[1..] + [x];
      PresentSnoc(q[1..], x);
    }
  }

  /** The locals of Experiment.run that the loop, the workers and the
      cleanup share, and `reported`, which records where the workers
      stand rather than a variable of the script. */
  class Run {
    const maxPacketLatency: int
    var lastInjectionRate: Hundredths
    var done: bool
    var permits: nat
    var workersDict: map<Hundredths, nat>
    var workersList: seq<WorkerProcess>
    var reported: set<Hundredths>
    var queue: seq<Option<Measurement>>
    var phase: Phase

    function Abs(): State
      reads this
    {
      State(maxPacketLatency, lastInjectionRate, done, permits, workersDict, workersList, reported,
            Present(queue), phase)
    }

    /** The queue holds no sentinel between calls and every registered
        index names a started worker. Everything else the sweep keeps is
        stated of Abs() by Invariant, which every schedule preserves
        (ReplayInvariant). */
    ghost predicate Valid()
      reads this
    {
      && (forall k :: 0 <= k < |queue| ==> queue[k].Some?)
      && (forall r :: r in workersDict ==> workersDict[r] < |workersList|)
    }

    /** Lines 148-168. */
    constructor (maxPacketLatency: int)
      ensures Valid() && Abs() == Init(maxPacketLatency)
    {
      this.maxPacketLatency := maxPacketLatency;
      lastInjectionRate := 0;
      done := false;
      permits := SpeculationLimit;
      workersDict := map[];
      workersList := [];
      reported := {};
      queue := [];
      phase := Dispatching;
    }

    /** One turn of the loop at lines 200-221. */
    method Dispatch() returns (outcome: DispatchOutcome)
      requires Valid() && phase == Dispatching
      modifies this
      ensures Valid()
      ensures DispatchResult(outcome, Abs()) == DispatchStep(old(Abs()))
      ensures queue == old(queue)
    {
      ghost var r := DispatchStep(Abs());
      if done {
        // the loop test, and the re-test after the acquire
        phase := Stopping;
        outcome := Stopped;
      } else if permits == 0 {
        // the acquire waits for a worker to release its permit
        outcome := Blocked;
      } else {
        var injectionRate := lastInjectionRate + RateStep;
        var workerIndex := |workersList|;
        permits, lastInjectionRate := permits - 1, injectionRate;
        workersDict, workersList :=
          workersDict[injectionRate := workerIndex], workersList + [WorkerProcess(injectionRate, false)];
        outcome := Started(injectionRate, workerIndex);
      }
      assert DispatchResult(outcome, Abs()) == r;
    }

    /** The worker for `rate` putting its measurement (lines 186-191). */
    method Put(rate: Hundredths, latency: nat)
      requires Valid() && rate in workersDict && rate !in reported && phase != Returned
      modifies this
      ensures Valid()
      ensures Abs() == PutStep(old(Abs()), rate, latency)
      ensures queue == old(queue) + [Some(Measurement(rate, latency))]
    {
      ghost var t := PutStep(Abs(), rate, latency);
      PresentSnoc(queue, Some(Measurement(rate, latency)));
      // put the measurement, then set `done` past the limit
      queue, done := queue + [Some(Measurement(rate, latency))], done || latency > maxPacketLatency;
      reported := reported + {rate};
      assert Abs() == t;
    }

    /** The worker for `rate` deregistering under the lock and releasing its
      permit (lines 194-197). */
    method Deregister(rate: Hundredths)
      requires Valid() && rate in reported && phase != Returned
      modifies this
      ensures Valid()
      ensures Abs() == DeregisterStep(old(Abs()), rate)
      ensures queue == old(queue)
    {
      workersDict, permits := workersDict - {rate}, permits + 1;
      reported := reported - {rate};
    }

    /** Lines 229-246: terminate the stragglers, then drain the queue. */
    method Finish() returns (report: Report)
      requires Valid() && phase == Stopping
      modifies this
      ensures Valid()
      ensures FinishResult(report, Abs()) == FinishStep(old(Abs()))
      ensures queue == []
    {
      ghost var s := Abs();
      var stragglers := |workersDict|;
      var terminated := TerminateStragglers();
      var measurements := DrainQueue();
      phase := Returned;
      report := Report(terminated, stragglers, measurements);
      assert Abs() == FinishStep(s).next;
    }

    /** Lines 231-235: terminate the worker of every index still in the
      registry. */
    method TerminateStragglers() returns (terminated: set<nat>)
      requires forall r :: r in workersDict ==> workersDict[r] < |workersList|
      modifies this`workersList
      ensures terminated == workersDict.Values
      ensures workersList == Terminate(old(workersList), terminated)
    {
      terminated := {};
      var pending := workersDict.Values;
      while pending != {}
        invariant pending <= workersDict.Values
        invariant |workersList| == |old(workersList)|
        invariant forall x :: x in pending ==> x < |workersList|
        invariant terminated == workersDict.Values - pending
        invariant workersList == Terminate(old(workersList), terminated)
        decreases pending
      {
        var index :| index in pending;
        workersList := workersList[index := workersList[index].(terminated := true)];
        terminated := terminated + {index};
        pending := pending - {index};
      }
    }

    /** Lines 242-243: put the None sentinel, then take items until it comes
      back out. */
    method DrainQueue() returns (measurements: seq<Measurement>)
      requires forall k :: 0 <= k < |queue| ==> queue[k].Some?
      modifies this`queue
      ensures measurements == Present(old(queue))
      ensures queue == []
    {
      PresentSnoc(queue, None);
      queue := queue + [None];
      measurements := [];
      while true
        invariant |queue| > 0 && queue[|queue| - 1] == None
        invariant forall k :: 0 <= k < |queue| - 1 ==> queue[k].Some?
        invariant measurements + Present(queue) == Present(old(queue))
        decreases |queue|
      {
        var item := queue[0];
        queue := queue[1..];
        if item.None? {
          break;
        }
        measurements := measurements + [item.value];
      }
    }
  }

  /** Experiment.run under one interleaving: the loop's turns and the
      workers' puts and deregistrations in schedule order, then the cleanup
      once the loop has been left. */
  method RunSchedule(maxPacketLatency: int, schedule: seq<Event>) returns (r: Option<Report>)
    ensures r == RunOutcome(maxPacketLatency, schedule)
  {
    var run := new Run(maxPacketLatency);
    for i := 0 to |schedule|
      invariant run.Valid()
      invariant run.Abs() == Replay(Init(maxPacketLatency), schedule[..i])
    {
      assert schedule[..i + 1][..i] == schedule[..i];
      match schedule[i]
      case DispatchAttempt =>
        if run.phase == Dispatching {
          var _ := run.Dispatch();
        }
      case WorkerPuts(rate, latency) =>
        if rate in run.workersDict && rate !in run.reported && run.phase != Returned {
          run.Put(rate, latency);
        }
      case WorkerDeregisters(rate) =>
        if rate in run.reported && run.phase != Returned {
          run.Deregister(rate);
        }
    }
    assert schedule[..|schedule|] == schedule;
    if run.phase == Stopping {
      var report := run.Finish();
      r := Some(report);
    } else {
      r := None;
    }
  }
}
