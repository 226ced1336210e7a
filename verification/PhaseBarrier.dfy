/** The barrier of the multi-threaded clock server that synchronises at every tick, as a step relation over any number
    of workers with sequentially consistent steps.

    The server hands out the tasks of a tick, sets the barrier counter to the number of workers, and flips the barrier
    phase. A worker that finds the phase different from its own drains its queue, flips its own phase, and decrements
    the counter. The server goes on when the counter is down to zero. */
module PhaseBarrier {
  import opened Schedule
  import opened BasicThreaded

  /** `start` is the initialised event list; thread numbers are below `threads`. */
  datatype Config = Config(start: seq<Reg>, threads: nat) {
    ghost predicate Valid() {
      |start| > 0 && Live(start) && Below(start, threads)
    }
  }

  datatype WorkerPc = Parked | Draining | Flipped

  /** `hand` is the task that the worker has taken and not run yet; `trace` records the callbacks it has run. */
  datatype Worker = Worker(pc: WorkerPc, phase: bool, hand: seq<Call>, tasks: seq<Call>, trace: seq<Call>)

  /** `Assigning(n)` has handed out the first `n` tasks of the tick. */
  datatype ServerPc = Idle | Assigning(next: nat) | Counted | Waiting | Readding

  datatype State = State(list: seq<Reg>, clocked: seq<Reg>, cycles: Cycles, count: int, phase: bool,
                         server: ServerPc, workers: seq<Worker>, ticks: nat)

  datatype Action =
    | PopDue
    | Assign
    | SetCount
    | Flip
    | Leave
    | Readd
    | Wake(w: nat)
    | Take(w: nat)
    | Invoke(w: nat)
    | Notify(w: nat)
    | Decrement(w: nat)

  predicate ByServer(a: Action) {
    a.PopDue? || a.Assign? || a.SetCount? || a.Flip? || a.Leave? || a.Readd?
  }

  function Calls(clocked: seq<Reg>): seq<Call> {
    ModuleCalls(clocked) + MatcherCalls(clocked)
  }

  ghost predicate Init(c: Config, s: State) {
    && s.list == c.start && s.server == Idle && s.ticks == 0 && s.count == 0
    && |s.workers| == c.threads
    && forall w | 0 <= w < c.threads :: s.workers[w] == Worker(Parked, s.phase, [], [], [])
  }

  predicate WorkerEnabled(s: State, a: Action, wk: Worker)
    requires !ByServer(a)
  {
    match a
    case Wake(_) => wk.pc == Parked && wk.phase != s.phase
    case Take(_) => wk.pc == Draining && wk.hand == [] && wk.tasks != []
    case Invoke(_) => wk.pc == Draining && wk.hand != []
    case Notify(_) => wk.pc == Draining && wk.hand == [] && wk.tasks == []
    case Decrement(_) => wk.pc == Flipped
  }

  function WorkerStep(s: State, a: Action, wk: Worker): Worker
    requires !ByServer(a) && WorkerEnabled(s, a, wk)
  {
    match a
    case Wake(_) => wk.(pc := Draining)
    case Take(_) => wk.(hand := [wk.tasks[0]], tasks := wk.tasks[1..])
    case Invoke(_) => wk.(hand := [], trace := wk.trace + Told(wk.hand, s.cycles))
    case Notify(_) => wk.(pc := Flipped, phase := !wk.phase)
    case Decrement(_) => wk.(pc := Parked)
  }

  /** The task goes to the queue of its thread, and its cycle is stored with the callback. */
  function AssignCall(s: State, x: Call): State
    requires x.cb.thread < |s.workers|
  {
    var wk := s.workers[x.cb.thread];
    s.(workers := s.workers[x.cb.thread := wk.(tasks := wk.tasks + [x])], cycles := s.cycles[x.cb := x.cycle])
  }

  ghost predicate Step(s: State, a: Action, t: State) {
    match a
    case PopDue =>
      s.server == Idle && s.list != [] && t == s.(clocked := Due(s.list), list := NotDue(s.list), server := Assigning(0))
    case Assign =>
      && s.server.Assigning? && s.server.next < |Calls(s.clocked)|
      && var x := Calls(s.clocked)[s.server.next];
      && x.cb.thread < |s.workers| && t == AssignCall(s, x).(server := Assigning(s.server.next + 1))
    case SetCount =>
      && s.server == Assigning(|Calls(s.clocked)|) && t == s.(count := |s.workers|, server := Counted)
    case Flip => s.server == Counted && t == s.(phase := !s.phase, server := Waiting)
    case Leave => s.server == Waiting && s.count <= 0 && t == s.(server := Readding)
    case Readd =>
      && s.server == Readding
      && t == s.(list := Requeue(s.list, s.clocked), clocked := [], server := Idle, ticks := s.ticks + 1)
    case _ =>
      && a.w < |s.workers| && WorkerEnabled(s, a, s.workers[a.w])
      && t == s.(workers := s.workers[a.w := WorkerStep(s, a, s.workers[a.w])],
                 count := if a.Decrement? then s.count - 1 else s.count)
  }

  ghost predicate Next(s: State, t: State) {
    exists a :: Step(s, a, t)
  }

  /** A finite run: any interleaving of server and worker steps from an initial state. */
  ghost predicate Run(c: Config, run: seq<State>) {
    && |run| > 0 && Init(c, run[0])
    && forall i | 0 <= i < |run| - 1 :: Next(run[i], run[i + 1])
  }

  function Last(run: seq<State>): State
    requires |run| > 0
  {
    run[|run| - 1]
  }

  // ---------------------------------------------------------------------------------------------------------
  // The invariant

  /** The workers that the counter still has to hear from: not flipped yet, or flipped and not decremented. */
  predicate Busy(wk: Worker, phase: bool) {
    wk.phase != phase || wk.pc == Flipped
  }

  /** How many steps a worker has still to make in this tick. */
  function Work(wk: Worker, phase: bool): nat {
    if wk.pc == Flipped then 1
    else if wk.phase == phase then 0
    else (if wk.pc == Parked then 3 else 2) + 2 * |wk.tasks| + |wk.hand|
  }

  function BusyCount(workers: seq<Worker>, phase: bool): nat {
    if workers == [] then 0 else (if Busy(workers[0], phase) then 1 else 0) + BusyCount(workers[1..], phase)
  }

  function TotalWork(workers: seq<Worker>, phase: bool): nat {
    if workers == [] then 0 else Work(workers[0], phase) + TotalWork(workers[1..], phase)
  }

  ghost predicate Resting(wk: Worker, phase: bool) {
    wk.pc == Parked && wk.phase == phase && wk.hand == []
  }

  /** A worker while the server waits: at work on the tasks of the tick, or done with all of them. */
  ghost predicate AtWork(c: Config, s: State, wk: Worker, w: nat)
    requires |c.start| > 0
  {
    if wk.phase != s.phase then
      && (wk.pc == Draining || (wk.pc == Parked && wk.hand == []))
      && SeenTrace(c.start, s.ticks, w) <= wk.trace
      && wk.trace + Told(wk.hand + wk.tasks, s.cycles) == SeenTrace(c.start, s.ticks + 1, w)
    else
      && wk.pc != Draining && wk.hand == [] && wk.tasks == []
      && wk.trace == SeenTrace(c.start, s.ticks + 1, w)
  }

  ghost predicate WorkerInv(c: Config, s: State, wk: Worker, w: nat)
    requires |c.start| > 0
  {
    match s.server
    case Idle => Resting(wk, s.phase) && wk.tasks == [] && wk.trace == SeenTrace(c.start, s.ticks, w)
    case Assigning(n) =>
      && Resting(wk, s.phase) && wk.trace == SeenTrace(c.start, s.ticks, w)
      && n <= |Calls(s.clocked)| && wk.tasks == Restrict(Calls(s.clocked)[..n], w)
    case Counted =>
      && Resting(wk, s.phase) && wk.trace == SeenTrace(c.start, s.ticks, w)
      && wk.tasks == Restrict(Calls(s.clocked), w)
    case Waiting => AtWork(c, s, wk, w)
    case Readding => Resting(wk, s.phase) && wk.tasks == [] && wk.trace == SeenTrace(c.start, s.ticks + 1, w)
  }

  ghost predicate ServerInv(c: Config, s: State)
    requires |c.start| > 0
  {
    var q := After(c.start, s.ticks);
    match s.server
    case Idle => s.list == q && s.count == 0
    case Assigning(n) =>
      && s.clocked == Due(q) && s.list == NotDue(q) && s.count == 0
      && n <= |Calls(s.clocked)| && Told(Calls(s.clocked)[..n], s.cycles) == Seen(Calls(s.clocked)[..n])
    case Counted =>
      && s.clocked == Due(q) && s.list == NotDue(q) && s.count == c.threads
      && Told(Calls(s.clocked), s.cycles) == Seen(Calls(s.clocked))
    case Waiting => s.clocked == Due(q) && s.list == NotDue(q) && s.count == BusyCount(s.workers, s.phase)
    case Readding => s.clocked == Due(q) && s.list == NotDue(q) && s.count == 0
  }

  ghost predicate Inv(c: Config, s: State)
    requires |c.start| > 0
  {
    && |s.workers| == c.threads
    && ServerInv(c, s)
    && forall w | 0 <= w < c.threads :: WorkerInv(c, s, s.workers[w], w)
  }

  // ---------------------------------------------------------------------------------------------------------
  // Counting

  lemma {:induction false} BusyUpdate(workers: seq<Worker>, w: nat, x: Worker, phase: bool)
    requires w < |workers|
    ensures BusyCount(workers[w := x], phase) ==
            BusyCount(workers, phase) - (if Busy(workers[w], phase) then 1 else 0) + (if Busy(x, phase) then 1 else 0)
  {
    if w > 0 {
      BusyUpdate(workers[1..], w - 1, x, phase);
      assert workers[w := x][1..] == workers[1..][w - 1 := x];
    } else {
      assert workers[w := x][1..] == workers[1..];
    }
  }

  lemma {:induction false} BusyNone(workers: seq<Worker>, w: nat, phase: bool)
    requires w < |workers| && BusyCount(workers, phase) == 0
    ensures !Busy(workers[w], phase)
  {
    if w > 0 {
      BusyNone(workers[1..], w - 1, phase);
    }
  }

  lemma {:induction false} BusyAll(workers: seq<Worker>, phase: bool)
    requires forall w | 0 <= w < |workers| :: workers[w].phase == phase
    ensures BusyCount(workers, !phase) == |workers|
  {
    if workers != [] {
      BusyAll(workers[1..], phase);
    }
  }

  lemma {:induction false} BusySome(workers: seq<Worker>, phase: bool) returns (w: nat)
    requires BusyCount(workers, phase) > 0
    ensures w < |workers| && Busy(workers[w], phase)
  {
    if Busy(workers[0], phase) {
      w := 0;
    } else {
      w := BusySome(workers[1..], phase);
      w := w + 1;
    }
  }

  lemma {:induction false} WorkUpdate(workers: seq<Worker>, w: nat, x: Worker, phase: bool)
    requires w < |workers|
    ensures TotalWork(workers[w := x], phase) == TotalWork(workers, phase) - Work(workers[w], phase) + Work(x, phase)
  {
    hide Work;
    if w > 0 {
      WorkUpdate(workers[1..], w - 1, x, phase);
      assert workers[w := x][1..] == workers[1..][w - 1 := x];
    } else {
      assert workers[w := x][1..] == workers[1..];
    }
  }

  // ---------------------------------------------------------------------------------------------------------
  // Every step keeps the invariant

  lemma {:induction false} ToldAppend(a: seq<Call>, b: seq<Call>, m: Cycles)
    ensures Told(a + b, m) == Told(a, m) + Told(b, m)
  {
    hide Told;
  }

  /** Workers can move only while the server waits. */
  lemma MovesInWait(c: Config, s: State, a: Action)
    requires c.Valid() && Inv(c, s) && !ByServer(a) && a.w < c.threads && WorkerEnabled(s, a, s.workers[a.w])
    ensures s.server == Waiting && AtWork(c, s, s.workers[a.w], a.w)
  {
    hide Live, After, SeenTrace, ServerInv, Told, Below, Restrict, AtWork;
    assert WorkerInv(c, s, s.workers[a.w], a.w);
  }

  /** A worker's own step, seen from the worker. */
  lemma WorkerKeeps(c: Config, s: State, a: Action, wk: Worker)
    requires |c.start| > 0 && !ByServer(a) && AtWork(c, s, wk, a.w) && WorkerEnabled(s, a, wk)
    ensures AtWork(c, s, WorkerStep(s, a, wk), a.w)
    ensures Work(WorkerStep(s, a, wk), s.phase) < Work(wk, s.phase)
  {
    hide After, SeenTrace, Told;
    match a {
      case Wake(_) =>
      case Take(_) =>
        assert [wk.tasks[0]] + wk.tasks[1..] == [] + wk.tasks;
      case Invoke(_) =>
        InvokeTold(wk, s.cycles);
      case Notify(_) =>
        NothingTold(s.cycles);
      case Decrement(_) =>
    }
  }

  lemma InvokeTold(wk: Worker, m: Cycles)
    ensures wk.trace + Told(wk.hand + wk.tasks, m) == wk.trace + Told(wk.hand, m) + Told([] + wk.tasks, m)
  {
    ToldAppend(wk.hand, wk.tasks, m);
    assert [] + wk.tasks == wk.tasks;
  }

  lemma NothingTold(m: Cycles)
    ensures Told([] + [], m) == []
  {
  }

  lemma WorkerStepKeeps(c: Config, s: State, a: Action, t: State)
    requires c.Valid() && Inv(c, s) && !ByServer(a) && Step(s, a, t)
    ensures Inv(c, t)
  {
    hide Live, After, SeenTrace, Told, Below, AtWork, BusyCount, Due, NotDue;
    MovesInWait(c, s, a);
    WorkerKeeps(c, s, a, s.workers[a.w]);
    var wk, x := s.workers[a.w], WorkerStep(s, a, s.workers[a.w]);
    BusyUpdate(s.workers, a.w, x, s.phase);
    assert WorkerInv(c, s, wk, a.w);
    BusyChange(c, s, a);
    forall w | 0 <= w < c.threads ensures AtWork(c, t, t.workers[w], w) {
      assert WorkerInv(c, s, s.workers[w], w);
      SameWork(c, s, t, t.workers[w], w);
    }
  }

  lemma SameWork(c: Config, s: State, t: State, wk: Worker, w: nat)
    requires |c.start| > 0 && s.phase == t.phase && s.ticks == t.ticks && s.cycles == t.cycles && AtWork(c, s, wk, w)
    ensures AtWork(c, t, wk, w)
  {
  }

  /** Only the decrement makes a worker known to the counter. */
  lemma BusyChange(c: Config, s: State, a: Action)
    requires |c.start| > 0 && !ByServer(a) && a.w < |s.workers| && WorkerEnabled(s, a, s.workers[a.w])
    requires AtWork(c, s, s.workers[a.w], a.w)
    ensures Busy(s.workers[a.w], s.phase)
    ensures Busy(WorkerStep(s, a, s.workers[a.w]), s.phase) == !a.Decrement?
  {
  }

  lemma AssignKeeps(c: Config, s: State, t: State)
    requires c.Valid() && Inv(c, s) && Step(s, Assign, t)
    ensures Inv(c, t)
  {
    hide Live, After, SeenTrace, Told, Seen, Below, Due, NotDue, ModuleCalls, MatcherCalls, Restrict;
    var calls, n := Calls(s.clocked), s.server.next;
    hide Calls;
    assert calls[..n + 1] == calls[..n] + [calls[n]];
    StoreKeeps(calls[..n], calls[n], s.cycles);
    forall w | 0 <= w < c.threads ensures WorkerInv(c, t, t.workers[w], w) {
      assert WorkerInv(c, s, s.workers[w], w);
      RestrictAppend(calls[..n], [calls[n]], w);
      RestrictOne(calls[n], w);
    }
  }

  lemma StoreKeeps(calls: seq<Call>, x: Call, m: Cycles)
    requires Told(calls, m) == Seen(calls)
    ensures Told(calls + [x], m[x.cb := x.cycle]) == Seen(calls + [x])
  {
    var m0, s := Assigned(map[], calls), calls + [x];
    assert s[..|calls|] == calls;
    assert Assigned(map[], s) == m0[x.cb := x.cycle];
    hide Told, Assigned;
    forall i | 0 <= i < |s| ensures CycleOf(m[x.cb := x.cycle], s[i].cb) == CycleOf(m0[x.cb := x.cycle], s[i].cb) {
      if i < |calls| {
        assert Told(calls, m)[i] == Told(calls, m0)[i];
      }
    }
  }

  /** The flip turns every worker busy at once, with its whole part of the tick in its queue. */
  lemma FlipKeeps(c: Config, s: State, t: State)
    requires c.Valid() && Inv(c, s) && Step(s, Flip, t)
    ensures Inv(c, t)
  {
    hide Live, After, SeenTrace, Told, Seen, Below, Due, NotDue, Calls, Restrict, BusyCount;
    forall w | 0 <= w < c.threads ensures s.workers[w].phase == s.phase {
      assert WorkerInv(c, s, s.workers[w], w);
    }
    BusyAll(s.workers, s.phase);
    var calls := Calls(s.clocked);
    forall w | 0 <= w < c.threads ensures AtWork(c, t, t.workers[w], w) {
      var wk := s.workers[w];
      assert WorkerInv(c, s, wk, w);
      RestrictTold(calls, s.cycles, w);
      TickSeen(c, s, w);
      assert [] + wk.tasks == wk.tasks;
      assert SeenTrace(c.start, s.ticks, w) <= wk.trace;
    }
  }

  lemma TickSeen(c: Config, s: State, w: nat)
    requires |c.start| > 0 && s.clocked == Due(After(c.start, s.ticks))
    ensures SeenTrace(c.start, s.ticks + 1, w) == SeenTrace(c.start, s.ticks, w) + Restrict(Seen(Calls(s.clocked)), w)
  {
  }

  /** When the counter is zero, no worker has anything left to do. */
  lemma LeaveKeeps(c: Config, s: State, t: State)
    requires c.Valid() && Inv(c, s) && Step(s, Leave, t)
    ensures Inv(c, t)
  {
    hide Live, After, SeenTrace, Told, Below, Due, NotDue, BusyCount;
    forall w | 0 <= w < c.threads ensures WorkerInv(c, t, t.workers[w], w) {
      assert WorkerInv(c, s, s.workers[w], w);
      BusyNone(s.workers, w, s.phase);
    }
  }

  lemma ReaddKeeps(c: Config, s: State, t: State)
    requires c.Valid() && Inv(c, s) && Step(s, Readd, t)
    ensures Inv(c, t)
  {
    hide Live, After, SeenTrace, Told, Below, Due, NotDue, Requeue;
    RunStep(c.start, s.ticks);
    forall w | 0 <= w < c.threads ensures WorkerInv(c, t, t.workers[w], w) {
      assert WorkerInv(c, s, s.workers[w], w);
    }
  }

  lemma OtherStepsKeep(c: Config, s: State, a: Action, t: State)
    requires c.Valid() && Inv(c, s) && (a.PopDue? || a.SetCount?) && Step(s, a, t)
    ensures Inv(c, t)
  {
    hide Live, After, SeenTrace, Below, Due, NotDue, ModuleCalls, MatcherCalls, Requeue;
    var calls := Calls(t.clocked);
    assert calls[..|calls|] == calls && Told([], s.cycles) == Seen([]);
    hide Told, Seen;
    forall w | 0 <= w < c.threads ensures WorkerInv(c, t, t.workers[w], w) {
      assert WorkerInv(c, s, s.workers[w], w);
    }
  }

  lemma StepKeeps(c: Config, s: State, a: Action, t: State)
    requires c.Valid() && Inv(c, s) && Step(s, a, t)
    ensures Inv(c, t)
  {
    hide Inv, Step;
    match a {
      case PopDue => OtherStepsKeep(c, s, a, t);
      case Assign => AssignKeeps(c, s, t);
      case SetCount => OtherStepsKeep(c, s, a, t);
      case Flip => FlipKeeps(c, s, t);
      case Leave => LeaveKeeps(c, s, t);
      case Readd => ReaddKeeps(c, s, t);
      case _ => WorkerStepKeeps(c, s, a, t);
    }
  }

  lemma InitInv(c: Config, s: State)
    requires c.Valid() && Init(c, s)
    ensures Inv(c, s)
  {
    hide Live, Below;
  }

  lemma {:induction false} RunInv(c: Config, run: seq<State>)
    requires c.Valid() && Run(c, run)
    ensures Inv(c, Last(run))
  {
    hide Inv, Init, Step;
    var n := |run| - 1;
    if n == 0 {
      InitInv(c, run[0]);
    } else {
      var before := run[..n];
      assert forall i | 0 <= i < n :: before[i] == run[i];
      RunInv(c, before);
      assert Next(run[n - 1], run[n - 1 + 1]);
      var a :| Step(run[n - 1], a, run[n]);
      StepKeeps(c, run[n - 1], a, run[n]);
    }
  }

  // ---------------------------------------------------------------------------------------------------------
  // What the protocol guarantees

  /** In every interleaving, between ticks the event list is that of the sequential clock, and every worker has run its
      part of the ticks so far. During a tick no worker has started the next one. */
  lemma RunsTickByTick(c: Config, run: seq<State>, w: nat)
    requires c.Valid() && Run(c, run) && w < c.threads
    ensures var s := Last(run);
            && |s.workers| == c.threads
            && SeenTrace(c.start, s.ticks, w) <= s.workers[w].trace <= SeenTrace(c.start, s.ticks + 1, w)
            && (s.server == Idle ==>
                  s.list == After(c.start, s.ticks) && s.workers[w].trace == SeenTrace(c.start, s.ticks, w))
  {
    var s := Last(run);
    RunInv(c, run);
    hide Live, After, Told, Below, Run;
    assert WorkerInv(c, s, s.workers[w], w);
  }

  /** Between ticks every worker has exactly its part of the sequential trace, for every worker of every run, if and only
      if no tick finds a callback in two due registries that are at different cycles. */
  lemma RefinesSequentialIff(c: Config, run: seq<State>)
    requires c.Valid() && Run(c, run) && Last(run).server == Idle
    ensures var s := Last(run);
            && |s.workers| == c.threads
            && ((forall w | 0 <= w < c.threads :: s.workers[w].trace == ThreadTrace(c.start, s.ticks, w))
                <==> AlwaysConsistent(c.start, s.ticks))
  {
    var s := Last(run);
    RunsTickByTickAll(c, run);
    SameTracesIff(c.start, s.ticks);
    hide *;
    forall w | w >= c.threads ensures SeenTrace(c.start, s.ticks, w) == ThreadTrace(c.start, s.ticks, w) {
      BeyondThreads(c, s.ticks, w);
    }
  }

  lemma RunsTickByTickAll(c: Config, run: seq<State>)
    requires c.Valid() && Run(c, run) && Last(run).server == Idle
    ensures var s := Last(run);
            && |s.workers| == c.threads
            && forall w | 0 <= w < c.threads :: s.workers[w].trace == SeenTrace(c.start, s.ticks, w)
  {
    RunInv(c, run);
    var s := Last(run);
    hide Run, Live, Below;
    forall w | 0 <= w < c.threads ensures s.workers[w].trace == SeenTrace(c.start, s.ticks, w) {
      assert WorkerInv(c, s, s.workers[w], w);
    }
  }

  /** No worker can take a step while the server works on the lists: queues and stored cycles are written only when
      nobody reads them. */
  lemma ServerWorksAlone(c: Config, run: seq<State>, a: Action)
    requires c.Valid() && Run(c, run) && !ByServer(a) && a.w < c.threads && Last(run).server != Waiting
    ensures a.w < |Last(run).workers| && !WorkerEnabled(Last(run), a, Last(run).workers[a.w])
  {
    var s := Last(run);
    RunInv(c, run);
    hide Live, Below, Run, AtWork;
    assert WorkerInv(c, s, s.workers[a.w], a.w);
  }

  /** The server passes the wait only when every queue is empty and no task is in a worker's hand. */
  lemma PassesOnlyWhenDone(c: Config, run: seq<State>, w: nat)
    requires c.Valid() && Run(c, run) && w < c.threads
    requires Last(run).server == Waiting && Last(run).count <= 0
    ensures var s := Last(run);
            && |s.workers| == c.threads
            && Resting(s.workers[w], s.phase) && s.workers[w].tasks == []
            && s.workers[w].trace == SeenTrace(c.start, s.ticks + 1, w)
  {
    var s := Last(run);
    RunInv(c, run);
    hide Live, Below, Run, After, SeenTrace, Told;
    assert WorkerInv(c, s, s.workers[w], w);
    BusyNone(s.workers, w, s.phase);
  }

  /** The counter is the number of workers that have not flipped yet, plus those that have flipped and not decremented. */
  lemma CounterCounts(c: Config, run: seq<State>)
    requires c.Valid() && Run(c, run)
    ensures Last(run).server == Waiting ==> Last(run).count == BusyCount(Last(run).workers, Last(run).phase)
  {
    RunInv(c, run);
  }

  /** A run never gets stuck: the server or some worker can always make a step. */
  lemma NeverStuck(c: Config, run: seq<State>) returns (a: Action, t: State)
    requires c.Valid() && Run(c, run)
    ensures Step(Last(run), a, t)
  {
    RunInv(c, run);
    hide Inv, Step, Init, Live;
    a, t := CanMove(c, Last(run));
  }

  lemma CanMove(c: Config, s: State) returns (a: Action, t: State)
    requires c.Valid() && Inv(c, s)
    ensures Step(s, a, t)
  {
    hide Live, SeenTrace, Told, Seen, BusyCount, Below, Due, NotDue, ModuleCalls, MatcherCalls, Requeue, WorkerInv, Restrict;
    match s.server {
      case Idle =>
        a, t := PopDue, s.(clocked := Due(s.list), list := NotDue(s.list), server := Assigning(0));
      case Assigning(n) =>
        var calls := Calls(s.clocked);
        if n == |calls| {
          a, t := SetCount, s.(count := |s.workers|, server := Counted);
        } else {
          CallsBelow(c, s.ticks, n);
          a, t := Assign, AssignCall(s, calls[n]).(server := Assigning(n + 1));
        }
      case Counted =>
        a, t := Flip, s.(phase := !s.phase, server := Waiting);
      case Waiting =>
        if s.count == 0 {
          a, t := Leave, s.(server := Readding);
        } else {
          a, t := BusyMoves(c, s);
        }
      case Readding =>
        a, t := Readd, s.(list := Requeue(s.list, s.clocked), clocked := [], server := Idle, ticks := s.ticks + 1);
    }
  }

  lemma BusyMoves(c: Config, s: State) returns (a: Action, t: State)
    requires c.Valid() && Inv(c, s) && s.server == Waiting && s.count != 0
    ensures Step(s, a, t)
  {
    hide Live, SeenTrace, Told, Seen, BusyCount, Below, Due, NotDue, Restrict;
    var w := BusySome(s.workers, s.phase);
    assert WorkerInv(c, s, s.workers[w], w);
    a := NextAction(s.workers[w], w);
    t := s.(workers := s.workers[w := WorkerStep(s, a, s.workers[w])],
            count := if a.Decrement? then s.count - 1 else s.count);
  }

  /** What a busy worker does next. */
  function NextAction(wk: Worker, w: nat): Action {
    match wk.pc
    case Parked => Wake(w)
    case Draining => if wk.hand != [] then Invoke(w) else if wk.tasks != [] then Take(w) else Notify(w)
    case Flipped => Decrement(w)
  }

  /** Whatever the scheduler does, a wait ends: every worker step leaves less work in the tick, and the server waits
      only as long as there is some. */
  lemma WaitEnds(c: Config, run: seq<State>, a: Action, t: State)
    requires c.Valid() && Run(c, run) && !ByServer(a) && Step(Last(run), a, t)
    ensures TotalWork(t.workers, t.phase) < TotalWork(Last(run).workers, Last(run).phase)
  {
    var s := Last(run);
    RunInv(c, run);
    MovesInWait(c, s, a);
    hide Run, Live, Below, TotalWork, Work, AtWork, Inv;
    WorkerKeeps(c, s, a, s.workers[a.w]);
    WorkUpdate(s.workers, a.w, t.workers[a.w], s.phase);
  }

  // ---------------------------------------------------------------------------------------------------------
  // Threads

  /** A tick does not change which threads the callbacks belong to. */
  lemma {:induction false} BelowAfter(c: Config, k: nat)
    requires c.Valid()
    ensures Below(After(c.start, k), c.threads)
  {
    hide Live, Tick, Below;
    RunStep(c.start, if k == 0 then 0 else k - 1);
    if k > 0 {
      BelowAfter(c, k - 1);
      AfterLive(c.start, k - 1);
      BelowTick(After(c.start, k - 1), c.threads);
    }
  }

  lemma BelowTick(q: seq<Reg>, n: nat)
    requires Live(q) && Below(q, n)
    ensures Below(Tick(q), n)
  {
    TickMembers(q);
    var s := Tick(q);
    hide Live, Tick;
    forall i | 0 <= i < |s|
      ensures forall j | 0 <= j < |s[i].modules| :: s[i].modules[j].thread < n
      ensures forall j | 0 <= j < |s[i].matchers| :: s[i].matchers[j].thread < n
    {
      assert s[i] in s;
      var r: Reg :| r in q && s[i].modules == r.modules && s[i].matchers == r.matchers;
    }
  }

  lemma {:induction false} CallsOfBelow(r: Reg, cbs: seq<Callback>, n: nat)
    requires forall j | 0 <= j < |cbs| :: cbs[j].thread < n
    ensures forall i | 0 <= i < |CallsOf(r, cbs)| :: CallsOf(r, cbs)[i].cb.thread < n
  {
    if cbs != [] {
      CallsOfBelow(r, cbs[1..], n);
    }
  }

  lemma {:induction false} PhaseBelow(due: seq<Reg>, n: nat)
    requires Below(due, n)
    ensures forall i | 0 <= i < |ModuleCalls(due)| :: ModuleCalls(due)[i].cb.thread < n
    ensures forall i | 0 <= i < |MatcherCalls(due)| :: MatcherCalls(due)[i].cb.thread < n
  {
    if due != [] {
      BelowAt(due, 0, n);
      CallsOfBelow(due[0], due[0].modules, n);
      CallsOfBelow(due[0], due[0].matchers, n);
      PhaseBelow(due[1..], n);
    }
  }

  lemma CallsBelow(c: Config, k: nat, n: nat)
    requires c.Valid() && n < |Calls(Due(After(c.start, k)))|
    ensures Calls(Due(After(c.start, k)))[n].cb.thread < c.threads
  {
    hide After, Live;
    BelowAfter(c, k);
    PhaseBelow(Due(After(c.start, k)), c.threads);
  }

  lemma {:induction false} NoneBeyond(calls: seq<Call>, thread: nat)
    requires forall i | 0 <= i < |calls| :: calls[i].cb.thread < thread
    ensures Restrict(calls, thread) == []
  {
    if calls != [] {
      NoneBeyond(calls[1..], thread);
    }
  }

  lemma {:induction false} BeyondThreads(c: Config, k: nat, w: nat)
    requires c.Valid() && w >= c.threads
    ensures SeenTrace(c.start, k, w) == ThreadTrace(c.start, k, w)
  {
    hide After, Live, TickCalls, Seen;
    if k == 0 {
      NoTrace(c.start, w);
    } else {
      BeyondThreads(c, k - 1, w);
      ThreadTraceStep(c.start, k - 1, w);
      var calls := TickCalls(After(c.start, k - 1));
      forall i | 0 <= i < |calls| ensures calls[i].cb.thread < w {
        CallsAreTick(c, k - 1);
        CallsBelow(c, k - 1, i);
      }
      SeenCallbacks(calls);
      NoneBeyond(calls, w);
      NoneBeyond(Seen(calls), w);
    }
  }

  lemma CallsAreTick(c: Config, k: nat)
    requires c.Valid()
    ensures TickCalls(After(c.start, k)) == Calls(Due(After(c.start, k)))
  {
  }
}
