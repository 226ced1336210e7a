/** The multi-threaded clock server with a fuzzy barrier, as a step relation over any number of workers.

    The server announces a ready time, waits until every worker's done time has reached it, and then requeues
    the registries of that time. A worker that is done with the ready time may run ahead to later events, up to
    the lookahead. Steps are sequentially consistent. The search of the event list and the requeueing happen
    under one lock, so each of them is a single step; the ready time is read outside that lock, so a search may
    see a ready time that is older than the current one. */
module FuzzyBarrier {
  import opened Schedule
  import opened Occurrences

  /** `start` is the initialised event list; thread numbers are below `threads`. */
  datatype Config = Config(start: seq<Reg>, lookahead: nat, threads: nat) {
    /** What initialisation establishes, with the check that every period is longer than the lookahead. */
    ghost predicate Valid() {
      |start| > 0 && Live(start) && StepsAbove(start, lookahead) && threads > 0
    }
  }

  /** A callback that a worker has found and has still to invoke. It refers to the registry, not to a copy. */
  datatype Pending = Pending(reg: nat, cb: Callback)

  datatype WorkerPc = Waiting | Passed | Searching | Running

  /** `done`, `failed`, `ready`, `clocked` and `worked` are the worker's variables. `trace` records the callbacks
      it has invoked, and `ticks` the number of time points at which it has found events and finished them. */
  datatype Worker = Worker(pc: WorkerPc, done: int, failed: int, ready: int, clocked: seq<nat>, todo: seq<Pending>,
                           worked: bool, trace: seq<Call>, ticks: nat)

  /** `Scanning(next, low)` has read the done times of the first `next` workers, with minimum `low`. */
  datatype ServerPc = Idle | Scanning(next: nat, low: int) | Popping

  /** `ready` is the announced ready time; `pops` counts the time points that the server has requeued. */
  datatype State = State(ready: int, queue: seq<Reg>, workers: seq<Worker>, server: ServerPc, pops: nat)

  datatype Action =
    | Pass(w: nat)
    | Snapshot(w: nat)
    | Search(w: nat, seen: int)
    | Invoke(w: nat)
    | Publish(w: nat)
    | Announce
    | ReadDone
    | Pop

  // ---------------------------------------------------------------------------------------------------------
  // What the steps compute

  /** The time a worker that is done with the ready time goes to: its earliest event not past `horizon`, or
      just one base unit further. */
  function ScanAhead(q: seq<Reg>, done: int, horizon: int): int {
    if q == [] || q[0].base > horizon then done + 1
    else if q[0].base >= done + 1 then q[0].base
    else ScanAhead(q[1..], done, horizon)
  }

  /** The registries at time `t`; the list is sorted, so the scan stops at the first later one. */
  function AtTime(q: seq<Reg>, t: int): seq<Reg> {
    if q == [] || q[0].base > t then []
    else if q[0].base == t then [q[0]] + AtTime(q[1..], t)
    else AtTime(q[1..], t)
  }

  /** A worker's search of the event list, under the lock. Looking ahead, it reads the announced ready time again for
      every event it passes; `readings` gives those readings, which can only grow. The search gives what one reading
      `seen` gives, a reading no older than the worker's snapshot. */
  method LockedSearch(q: seq<Reg>, done: int, snapshot: int, lookahead: nat, readings: nat -> int)
    returns (localReadyTime: int, lClockedEvents: seq<Reg>, ghost seen: int)
    requires snapshot <= done ==> done < snapshot + lookahead
    requires forall i: nat, j: nat | i <= j :: snapshot <= readings(i) <= readings(j)
    ensures snapshot <= seen <= readings(|q|)
    ensures localReadyTime == if snapshot <= done then ScanAhead(q, done, seen + lookahead) else snapshot
    ensures lClockedEvents == AtTime(q, localReadyTime)
  {
    localReadyTime, seen := snapshot, snapshot;
    if localReadyTime <= done {
      localReadyTime := done + 1;
      var it_event := 0;
      assert q[0..] == q;
      while it_event < |q|
        invariant it_event <= |q| && localReadyTime == done + 1 && seen == snapshot
        invariant forall h | h > done :: ScanAhead(q, done, h) == ScanAhead(q[it_event..], done, h)
      {
        var eventTime := q[it_event].base;
        if eventTime > readings(it_event) + lookahead {
          seen := readings(it_event);
          break;
        } else if eventTime >= localReadyTime {
          localReadyTime, seen := eventTime, readings(it_event);
          break;
        }
        assert q[it_event..][1..] == q[it_event + 1..];
        it_event := it_event + 1;
      }
    }
    lClockedEvents := AllAtTime(q, localReadyTime);
  }

  method AllAtTime(q: seq<Reg>, t: int) returns (events: seq<Reg>)
    ensures events == AtTime(q, t)
  {
    events := [];
    var it_event := 0;
    assert q[0..] == q;
    while it_event < |q|
      invariant it_event <= |q| && AtTime(q, t) == events + AtTime(q[it_event..], t)
    {
      assert q[it_event..][1..] == q[it_event + 1..];
      if q[it_event].base == t {
        assert events + ([q[it_event]] + AtTime(q[it_event + 1..], t)) == events + [q[it_event]] + AtTime(q[it_event + 1..], t);
        events := events + [q[it_event]];
      } else if q[it_event].base > t {
        assert events + [] == events;
        return;
      }
      it_event := it_event + 1;
    }
  }

  function IdList(q: seq<Reg>): seq<nat> {
    if q == [] then [] else [q[0].id] + IdList(q[1..])
  }

  function Mine(reg: nat, cbs: seq<Callback>, thread: nat): seq<Pending> {
    if cbs == [] then []
    else if cbs[0].thread == thread then [Pending(reg, cbs[0])] + Mine(reg, cbs[1..], thread)
    else Mine(reg, cbs[1..], thread)
  }

  function MyModules(events: seq<Reg>, thread: nat): seq<Pending> {
    if events == [] then [] else Mine(events[0].id, events[0].modules, thread) + MyModules(events[1..], thread)
  }

  function MyMatchers(events: seq<Reg>, thread: nat): seq<Pending> {
    if events == [] then [] else Mine(events[0].id, events[0].matchers, thread) + MyMatchers(events[1..], thread)
  }

  /** The cycle count of a registry, read through the shared list. */
  function CycleOf(q: seq<Reg>, reg: nat): nat {
    if q == [] then 0 else if q[0].id == reg then q[0].cycle else CycleOf(q[1..], reg)
  }

  function Resolve(todo: seq<Pending>, q: seq<Reg>): seq<Call> {
    if todo == [] then []
    else [Call(todo[0].reg, todo[0].cb, CycleOf(q, todo[0].reg))] + Resolve(todo[1..], q)
  }

  /** The server's locked loop: as long as the head is at the current time, take it off and put it back. */
  function PopAll(q: seq<Reg>, t: nat): (r: seq<Reg>)
    requires StepsAbove(q, 0)
    ensures |r| == |q|
    decreases DueCount(q, t)
  {
    if q == [] || q[0].base != t then q else
      PopAllDecreases(q, t);
      PopAll(Insert(q[1..], q[0].Advanced()), t)
  }

  lemma PopAllDecreases(q: seq<Reg>, t: nat)
    requires StepsAbove(q, 0) && q != [] && q[0].base == t
    ensures var s := Insert(q[1..], q[0].Advanced());
            |s| == |q| && StepsAbove(s, 0) && DueCount(s, t) < DueCount(q, t)
  {
    var r := q[0].Advanced();
    InsertMembers(q[1..], r);
    assert q[0] in q;
    InsertKeepsDue(q[1..], r, t);
  }

  lemma {:induction false} InsertKeepsDue(q: seq<Reg>, r: Reg, t: nat)
    requires r.base > t
    ensures DueCount(Insert(q, r), t) == DueCount(q, t)
  {
    if q != [] && q[0].base == t {
      InsertKeepsDue(q[1..], r, t);
      assert Insert(q, r)[1..] == Insert(q[1..], r);
    }
  }

  // ---------------------------------------------------------------------------------------------------------
  // The transition system

  function NewWorker(): Worker {
    Worker(Waiting, -1, -1, -1, [], [], false, [], 0)
  }

  ghost predicate Init(c: Config, s: State) {
    && s.ready == -1 && s.queue == c.start && s.server == Idle && s.pops == 0
    && |s.workers| == c.threads
    && forall w | 0 <= w < c.threads :: s.workers[w] == NewWorker()
  }

  function NewWorkers(n: nat): (workers: seq<Worker>)
    ensures |workers| == n && forall w | 0 <= w < n :: workers[w] == NewWorker()
  {
    if n == 0 then [] else NewWorkers(n - 1) + [NewWorker()]
  }

  ghost function Initial(c: Config): (s: State)
    ensures Init(c, s)
  {
    State(-1, c.start, NewWorkers(c.threads), Idle, 0)
  }

  predicate WorkerEnabled(c: Config, s: State, a: Action, wk: Worker)
    requires !a.Announce? && !a.ReadDone? && !a.Pop?
  {
    match a
    case Pass(_) => wk.pc == Waiting && wk.done < s.ready + c.lookahead && s.ready != wk.failed
    case Snapshot(_) => wk.pc == Passed
    case Search(_, seen) => wk.pc == Searching && wk.failed <= seen <= s.ready
    case Invoke(_) => wk.pc == Running && wk.todo != []
    case Publish(_) => wk.pc == Running && wk.todo == []
  }

  function WorkerStep(c: Config, s: State, a: Action, wk: Worker): Worker
    requires !a.Announce? && !a.ReadDone? && !a.Pop?
    requires WorkerEnabled(c, s, a, wk)
  {
    match a
    case Pass(_) => wk.(pc := Passed)
    case Snapshot(_) => wk.(pc := Searching, ready := s.ready, failed := s.ready)
    case Search(w, seen) =>
      var ready := if wk.ready <= wk.done then ScanAhead(s.queue, wk.done, seen + c.lookahead) else wk.ready;
      var events := AtTime(s.queue, ready);
      wk.(pc := Running, ready := ready, clocked := IdList(events),
          todo := MyModules(events, w) + MyMatchers(events, w), worked := false)
    case Invoke(_) =>
      var p := wk.todo[0];
      wk.(todo := wk.todo[1..], worked := true, trace := wk.trace + [Call(p.reg, p.cb, CycleOf(s.queue, p.reg))])
    case Publish(_) =>
      wk.(pc := Waiting, failed := if wk.worked then -1 else wk.failed, done := wk.ready,
          ticks := if wk.clocked == [] then wk.ticks else wk.ticks + 1)
  }

  ghost predicate Step(c: Config, s: State, a: Action, t: State) {
    match a
    case Announce =>
      s.server == Idle && s.queue != [] && t == s.(ready := s.queue[0].base, server := Scanning(0, 0))
    case ReadDone =>
      && s.server.Scanning? && s.server.next < |s.workers|
      && var i, d := s.server.next, s.workers[s.server.next].done;
      && var low := if i == 0 || d < s.server.low then d else s.server.low;
      && t == s.(server := if i + 1 < |s.workers| then Scanning(i + 1, low)
                           else if low < s.ready then Scanning(0, low) else Popping)
    case Pop =>
      && s.server == Popping && s.ready >= 0 && StepsAbove(s.queue, 0)
      && t == s.(queue := PopAll(s.queue, s.ready), server := Idle, pops := s.pops + 1)
    case _ =>
      && a.w < |s.workers|
      && WorkerEnabled(c, s, a, s.workers[a.w])
      && t == s.(workers := s.workers[a.w := WorkerStep(c, s, a, s.workers[a.w])])
  }

  ghost predicate Next(c: Config, s: State, t: State) {
    exists a :: Step(c, s, a, t)
  }

  /** A finite run: any interleaving of server and worker steps from the initial state. */
  ghost predicate Run(c: Config, run: seq<State>) {
    && |run| > 0 && Init(c, run[0])
    && forall i | 0 <= i < |run| - 1 :: Next(c, run[i], run[i + 1])
  }

  function Last(run: seq<State>): State
    requires |run| > 0
  {
    run[|run| - 1]
  }

  // ---------------------------------------------------------------------------------------------------------
  // The invariant

  /** What a worker found at its current time: nothing, or exactly the events of its next sequential tick. */
  ghost predicate Holding(c: Config, queue: seq<Reg>, wk: Worker, w: nat)
    requires |c.start| > 0
  {
    if wk.clocked == [] then
      wk.todo == [] && wk.ready < Time(c.start, wk.ticks) && wk.trace == ThreadTrace(c.start, wk.ticks, w)
    else
      && wk.ready == Time(c.start, wk.ticks)
      && (forall p | p in wk.todo :: p.reg in Ids(Due(After(c.start, wk.ticks))))
      && ThreadTrace(c.start, wk.ticks, w) <= wk.trace
      && wk.trace + Resolve(wk.todo, queue) == ThreadTrace(c.start, wk.ticks + 1, w)
  }

  ghost predicate PcInv(c: Config, ready: int, queue: seq<Reg>, wk: Worker, w: nat)
    requires |c.start| > 0
  {
    match wk.pc
    case Waiting => wk.failed <= wk.done && wk.trace == ThreadTrace(c.start, wk.ticks, w)
    case Passed => ready >= 0 && wk.done < ready + c.lookahead && wk.trace == ThreadTrace(c.start, wk.ticks, w)
    case Searching =>
      && 0 <= wk.ready == wk.failed && wk.done < wk.ready + c.lookahead
      && (wk.ready > wk.done ==> wk.ready == ready)
      && wk.trace == ThreadTrace(c.start, wk.ticks, w)
    case Running => wk.done < wk.ready <= ready + c.lookahead && wk.failed <= wk.ready && Holding(c, queue, wk, w)
  }

  ghost predicate WorkerInv(c: Config, ready: int, queue: seq<Reg>, wk: Worker, w: nat)
    requires |c.start| > 0
  {
    && -1 <= wk.done <= ready + c.lookahead
    && -1 <= wk.failed <= ready
    && wk.done < Time(c.start, wk.ticks)
    && (wk.ticks > 0 ==> Time(c.start, wk.ticks - 1) <= wk.done)
    && PcInv(c, ready, queue, wk, w)
  }

  /** The first `n` workers have reached the ready time. */
  ghost predicate DoneBelow(s: State, n: nat)
    requires n <= |s.workers|
  {
    forall w | 0 <= w < n :: s.workers[w].done >= s.ready
  }

  ghost predicate AllDone(s: State) {
    DoneBelow(s, |s.workers|)
  }

  ghost predicate ServerInv(c: Config, s: State)
    requires |c.start| > 0
  {
    match s.server
    case Idle => s.ready == (if s.pops == 0 then -1 else Time(c.start, s.pops - 1)) && AllDone(s)
    case Scanning(i, low) =>
      && s.ready == Time(c.start, s.pops) && i < c.threads == |s.workers|
      && (i > 0 && low >= s.ready ==> DoneBelow(s, i))
    case Popping => s.ready == Time(c.start, s.pops) && AllDone(s)
  }

  ghost predicate Inv(c: Config, s: State)
    requires |c.start| > 0
  {
    && |s.workers| == c.threads
    && s.queue == After(c.start, s.pops)
    && ServerInv(c, s)
    && (forall w | 0 <= w < c.threads :: s.pops <= s.workers[w].ticks)
    && (forall w | 0 <= w < c.threads :: WorkerInv(c, s.ready, s.queue, s.workers[w], w))
  }

  // ---------------------------------------------------------------------------------------------------------
  // What the list shows to a worker

  /** As long as tick `n` lies within the lookahead of the current head, its events are in the list already. */
  lemma EventsVisible(c: Config, k: nat, n: nat)
    requires c.Valid() && k <= n && Time(c.start, n) <= Time(c.start, k) + c.lookahead
    ensures var t := Time(c.start, n);
            Between(After(c.start, k), t - 1, t) == Due(After(c.start, n))
  {
    hide After, Live, StepsAbove, Between, Due, Sorted, DistinctIds;
    var t: int := Time(c.start, n);
    if n > 0 {
      TimeIncreases(c.start, n - 1, n);
    }
    AfterLive(c.start, n);
    WindowAgrees(c.start, c.lookahead, k, n, t - 1, t);
    BetweenDue(After(c.start, n));
  }

  lemma {:induction false} AtTimeBetween(q: seq<Reg>, t: int)
    requires Sorted(q)
    ensures AtTime(q, t) == Between(q, t - 1, t)
  {
    if q == [] {
    } else if q[0].base > t {
      BetweenNone(q, t - 1, t);
    } else {
      AtTimeBetween(q[1..], t);
    }
  }

  lemma {:induction false} ScanAheadBetween(q: seq<Reg>, done: int, horizon: int)
    requires Sorted(q) && done < horizon
    ensures var b := Between(q, done, horizon);
            ScanAhead(q, done, horizon) == if b == [] then done + 1 else b[0].base
  {
    if q == [] {
    } else if q[0].base > horizon {
      BetweenNone(q, done, horizon);
    } else if q[0].base < done + 1 {
      ScanAheadBetween(q[1..], done, horizon);
    }
  }

  lemma {:induction false} CycleOfMember(q: seq<Reg>, r: Reg)
    requires DistinctIds(q) && r in q
    ensures CycleOf(q, r.id) == r.cycle
  {
    if q[0] != r {
      assert r in q[1..];
      var i :| 0 <= i < |q[1..]| && q[1..][i] == r;
      assert q[i + 1] == r && q[0].id != q[i + 1].id;
      CycleOfMember(q[1..], r);
    }
  }

  lemma {:induction false} MineResolves(r: Reg, cbs: seq<Callback>, thread: nat, q: seq<Reg>)
    requires CycleOf(q, r.id) == r.cycle
    ensures Resolve(Mine(r.id, cbs, thread), q) == Restrict(CallsOf(r, cbs), thread)
    ensures forall p | p in Mine(r.id, cbs, thread) :: p.reg == r.id
  {
    if cbs != [] {
      MineResolves(r, cbs[1..], thread, q);
    }
  }

  lemma {:induction false} ResolveAppend(a: seq<Pending>, b: seq<Pending>, q: seq<Reg>)
    ensures Resolve(a + b, q) == Resolve(a, q) + Resolve(b, q)
  {
    hide CycleOf;
    if a == [] {
      assert a + b == b;
    } else {
      ResolveAppend(a[1..], b, q);
      assert (a + b)[1..] == a[1..] + b;
    }
  }

  lemma {:induction false} MyModulesResolve(events: seq<Reg>, thread: nat, q: seq<Reg>)
    requires forall r | r in events :: CycleOf(q, r.id) == r.cycle
    ensures Resolve(MyModules(events, thread), q) == Restrict(ModuleCalls(events), thread)
    ensures forall p | p in MyModules(events, thread) :: p.reg in Ids(events)
  {
    if events != [] {
      var r := events[0];
      MyModulesResolve(events[1..], thread, q);
      MineResolves(r, r.modules, thread, q);
      ResolveAppend(Mine(r.id, r.modules, thread), MyModules(events[1..], thread), q);
      RestrictAppend(CallsOf(r, r.modules), ModuleCalls(events[1..]), thread);
    }
  }

  lemma {:induction false} MyMatchersResolve(events: seq<Reg>, thread: nat, q: seq<Reg>)
    requires forall r | r in events :: CycleOf(q, r.id) == r.cycle
    ensures Resolve(MyMatchers(events, thread), q) == Restrict(MatcherCalls(events), thread)
    ensures forall p | p in MyMatchers(events, thread) :: p.reg in Ids(events)
  {
    if events != [] {
      var r := events[0];
      MyMatchersResolve(events[1..], thread, q);
      MineResolves(r, r.matchers, thread, q);
      ResolveAppend(Mine(r.id, r.matchers, thread), MyMatchers(events[1..], thread), q);
      RestrictAppend(CallsOf(r, r.matchers), MatcherCalls(events[1..]), thread);
    }
  }

  /** The worker's own loops over the events find its part of the sequential tick, in the same order. */
  lemma TodoResolves(events: seq<Reg>, thread: nat, q: seq<Reg>)
    requires DistinctIds(q) && forall r | r in events :: r in q
    ensures var todo := MyModules(events, thread) + MyMatchers(events, thread);
            && Resolve(todo, q) == Restrict(ModuleCalls(events) + MatcherCalls(events), thread)
            && forall p | p in todo :: p.reg in Ids(events)
  {
    forall r | r in events ensures CycleOf(q, r.id) == r.cycle {
      CycleOfMember(q, r);
    }
    MyModulesResolve(events, thread, q);
    MyMatchersResolve(events, thread, q);
    ResolveAppend(MyModules(events, thread), MyMatchers(events, thread), q);
    RestrictAppend(ModuleCalls(events), MatcherCalls(events), thread);
  }

  lemma {:induction false} ResolveStable(todo: seq<Pending>, events: seq<Reg>, q: seq<Reg>, q': seq<Reg>)
    requires DistinctIds(q) && DistinctIds(q')
    requires forall r | r in events :: r in q && r in q'
    requires forall p | p in todo :: p.reg in Ids(events)
    ensures Resolve(todo, q) == Resolve(todo, q')
  {
    if todo != [] {
      var r :| r in events && r.id == todo[0].reg;
      CycleOfMember(q, r);
      CycleOfMember(q', r);
      ResolveStable(todo[1..], events, q, q');
    }
  }

  lemma {:induction false} IdListIds(q: seq<Reg>)
    ensures (q == []) == (IdList(q) == [])
    ensures forall id :: id in IdList(q) <==> id in Ids(q)
  {
    if q != [] {
      IdListIds(q[1..]);
      assert q == [q[0]] + q[1..];
    }
  }

  /** Taking registries off and putting them back one at a time gives the same list as one sequential tick. */
  lemma {:induction false} PopAllRequeues(due: seq<Reg>, rest: seq<Reg>, t: nat)
    requires StepsAbove(due + rest, 0)
    requires forall r | r in due :: r.base == t
    requires rest != [] ==> rest[0].base > t
    ensures PopAll(due + rest, t) == Requeue(rest, due)
    decreases |due|
  {
    var q := due + rest;
    if due == [] {
      assert q == rest;
    } else {
      var r := due[0].Advanced();
      assert due[0] in q && q[1..] == due[1..] + rest;
      InsertBehind(due[1..], rest, r, t);
      InsertMembers(rest, r);
      forall x | x in due[1..] + Insert(rest, r) ensures x.step > 0 {
        if x != r {
          assert x in q;
        }
      }
      PopAllRequeues(due[1..], Insert(rest, r), t);
    }
  }

  lemma {:induction false} InsertPosBehind(due: seq<Reg>, rest: seq<Reg>, t: nat)
    requires forall d | d in due :: d.base <= t
    ensures InsertPos(due + rest, t) == |due| + InsertPos(rest, t)
  {
    if due == [] {
      assert due + rest == rest;
    } else {
      assert (due + rest)[1..] == due[1..] + rest;
      InsertPosBehind(due[1..], rest, t);
    }
  }

  lemma InsertBehind(due: seq<Reg>, rest: seq<Reg>, r: Reg, t: nat)
    requires r.base > t && forall d | d in due :: d.base == t
    ensures Insert(due + rest, r) == due + Insert(rest, r)
  {
    hide InsertPos;
    InsertPosBehind(due, rest, r.base);
    var p := InsertPos(rest, r.base);
    assert (due + rest)[..|due| + p] == due + rest[..p];
    assert (due + rest)[|due| + p..] == rest[p..];
  }

  lemma PopAllIsTick(q: seq<Reg>)
    requires Live(q)
    ensures PopAll(q, q[0].base) == Tick(q)
  {
    DueSplit(q);
    PopAllRequeues(Due(q), NotDue(q), q[0].base);
  }

  // ---------------------------------------------------------------------------------------------------------
  // Every step keeps the invariant

  /** A worker is never behind the server; while it lags behind the ready time, both are at the same tick. */
  lemma WorkerAhead(c: Config, s: State, w: nat)
    requires c.Valid() && Inv(c, s) && w < c.threads
    ensures var wk := s.workers[w];
            && s.pops <= wk.ticks
            && s.ready <= Time(c.start, s.pops)
            && (wk.done < s.ready ==> s.server.Scanning? && wk.ticks == s.pops && s.ready == Time(c.start, s.pops))
  {
    hide PcInv, After, Time, Live, StepsAbove;
    var wk := s.workers[w];
    assert WorkerInv(c, s.ready, s.queue, wk, w);
    if s.server == Idle && s.pops > 0 {
      TimeIncreases(c.start, s.pops - 1, s.pops);
    }
    if wk.done < s.ready && s.pops < wk.ticks {
      TimeMonotone(c.start, s.pops, wk.ticks - 1);
    }
  }

  /** When the search goes to the ready time itself, it finds the current tick. */
  lemma SearchAtReady(c: Config, s: State, w: nat)
    requires c.Valid() && Inv(c, s) && w < c.threads
    requires var wk := s.workers[w]; wk.pc == Searching && wk.ready > wk.done
    ensures var wk := s.workers[w];
            wk.ready == Time(c.start, wk.ticks) && AtTime(s.queue, wk.ready) == Due(After(c.start, wk.ticks))
  {
    hide After, Sorted, AtTime, Between;
    var wk := s.workers[w];
    assert WorkerInv(c, s.ready, s.queue, wk, w);
    WorkerAhead(c, s, w);
    AfterLive(c.start, s.pops);
    AtTimeBetween(s.queue, wk.ready);
    BetweenDue(s.queue);
  }

  /** A search of the list after `k` ticks, by a worker that has finished `n` ticks: it finds tick `n` if that lies
      inside the window, and nothing otherwise. */
  lemma WindowSearch(c: Config, k: nat, n: nat, done: int, horizon: int)
    requires c.Valid() && k <= n && done < horizon <= Time(c.start, k) + c.lookahead
    requires done < Time(c.start, n) && (n > 0 ==> Time(c.start, n - 1) <= done)
    ensures var q, t := After(c.start, k), Time(c.start, n);
            var r := ScanAhead(q, done, horizon);
            && done < r <= horizon
            && if t <= horizon then r == t && AtTime(q, r) == Due(After(c.start, n))
               else r < t && AtTime(q, r) == []
  {
    hide After, Live, Sorted, AtTime, Between, ScanAhead, StepsAbove, Due;
    var q, p, t := After(c.start, k), After(c.start, n), Time(c.start, n);
    AfterLive(c.start, k);
    AfterLive(c.start, n);
    WindowAgrees(c.start, c.lookahead, k, n, done, horizon);
    ScanAheadBetween(q, done, horizon);
    FirstOfWindow(p, done, horizon);
    var r := ScanAhead(q, done, horizon);
    AtTimeBetween(q, r);
    if t <= horizon {
      EventsVisible(c, k, n);
    } else {
      NarrowWindow(q, done, horizon);
    }
  }

  lemma NarrowWindow(q: seq<Reg>, done: int, horizon: int)
    requires done < horizon && Between(q, done, horizon) == []
    ensures Between(q, done, done + 1) == []
  {
    BetweenMembers(q, done, horizon);
    BetweenNone(q, done, done + 1);
  }

  /** In a sorted list whose head lies after `lo`, the window is empty exactly if the head lies past it. */
  lemma FirstOfWindow(q: seq<Reg>, lo: int, hi: int)
    requires |q| > 0 && Sorted(q) && lo < q[0].base
    ensures (Between(q, lo, hi) == []) == (q[0].base > hi)
    ensures q[0].base <= hi ==> Between(q, lo, hi)[0] == q[0]
  {
    if q[0].base > hi {
      BetweenNone(q, lo, hi);
    }
  }

  lemma InvWorker(c: Config, s: State, w: nat)
    requires |c.start| > 0 && Inv(c, s) && w < c.threads
    ensures |s.workers| == c.threads && s.queue == After(c.start, s.pops)
    ensures s.pops <= s.workers[w].ticks && WorkerInv(c, s.ready, s.queue, s.workers[w], w)
  {
  }

  lemma SearchKeeps(c: Config, s: State, w: nat, seen: int)
    requires c.Valid() && Inv(c, s) && w < |s.workers| == c.threads
    requires WorkerEnabled(c, s, Search(w, seen), s.workers[w])
    ensures WorkerInv(c, s.ready, s.queue, WorkerStep(c, s, Search(w, seen), s.workers[w]), w)
  {
    hide Inv, After, Time, Live, StepsAbove, ThreadTrace, ScanAhead, AtTime, MyModules, MyMatchers, IdList, Due, Holding;
    var wk := s.workers[w];
    var wk' := WorkerStep(c, s, Search(w, seen), wk);
    InvWorker(c, s, w);
    WorkerAhead(c, s, w);
    if wk.ready <= wk.done {
      WindowSearch(c, s.pops, wk.ticks, wk.done, seen + c.lookahead);
    } else {
      SearchAtReady(c, s, w);
    }
    FoundHolds(c, s.pops, wk', w);
  }

  lemma FoundHolds(c: Config, k: nat, wk: Worker, w: nat)
    requires c.Valid()
    requires wk.trace == ThreadTrace(c.start, wk.ticks, w)
    requires var events := AtTime(After(c.start, k), wk.ready);
             && wk.clocked == IdList(events) && wk.todo == MyModules(events, w) + MyMatchers(events, w)
             && wk.ready <= Time(c.start, wk.ticks)
             && events == (if wk.ready == Time(c.start, wk.ticks) then Due(After(c.start, wk.ticks)) else [])
    ensures Holding(c, After(c.start, k), wk, w)
  {
    hide After, Live, StepsAbove, ThreadTrace, AtTime, MyModules, MyMatchers, IdList, Due, Sorted, DistinctIds, Between,
      Resolve, Restrict, TickCalls;
    var q, p := After(c.start, k), After(c.start, wk.ticks);
    var events := AtTime(q, wk.ready);
    IdListIds(events);
    AfterLive(c.start, wk.ticks);
    DueSplit(p);
    if events != [] {
      EventsResolve(c, k, events, wk.ready, w);
      ThreadTraceStep(c.start, wk.ticks, w);
      DueCalls(p);
    } else {
      NothingTodo(w);
    }
  }

  lemma DueCalls(q: seq<Reg>)
    requires |q| > 0
    ensures TickCalls(q) == ModuleCalls(Due(q)) + MatcherCalls(Due(q))
  {
  }

  lemma EventsResolve(c: Config, k: nat, events: seq<Reg>, t: int, w: nat)
    requires c.Valid() && events == AtTime(After(c.start, k), t)
    ensures var todo := MyModules(events, w) + MyMatchers(events, w);
            && Resolve(todo, After(c.start, k)) == Restrict(ModuleCalls(events) + MatcherCalls(events), w)
            && forall p | p in todo :: p.reg in Ids(events)
  {
    hide After, Live, StepsAbove, AtTime, MyModules, MyMatchers, Sorted, DistinctIds, Between, Resolve, Restrict, Ids;
    var q := After(c.start, k);
    AfterLive(c.start, k);
    AtTimeBetween(q, t);
    BetweenMembers(q, t - 1, t);
    TodoResolves(events, w, q);
  }

  lemma NothingTodo(w: nat)
    ensures MyModules([], w) + MyMatchers([], w) == []
  {
  }

  lemma InvokeKeeps(c: Config, s: State, w: nat)
    requires c.Valid() && Inv(c, s) && w < c.threads && WorkerEnabled(c, s, Invoke(w), s.workers[w])
    ensures WorkerInv(c, s.ready, s.queue, WorkerStep(c, s, Invoke(w), s.workers[w]), w)
  {
    hide After, Time, Live, StepsAbove, ThreadTrace, Due;
    var wk := s.workers[w];
    assert WorkerInv(c, s.ready, s.queue, wk, w);
    var wk' := WorkerStep(c, s, Invoke(w), wk);
    assert wk.trace + Resolve(wk.todo, s.queue) == wk'.trace + Resolve(wk'.todo, s.queue);
  }

  lemma PublishKeeps(c: Config, s: State, w: nat)
    requires c.Valid() && Inv(c, s) && w < c.threads && WorkerEnabled(c, s, Publish(w), s.workers[w])
    ensures WorkerInv(c, s.ready, s.queue, WorkerStep(c, s, Publish(w), s.workers[w]), w)
  {
    hide Inv, After, Live, StepsAbove, ThreadTrace;
    InvWorker(c, s, w);
    var wk := s.workers[w];
    assert wk.clocked != [] ==> wk.trace + [] == ThreadTrace(c.start, wk.ticks + 1, w);
    TimeIncreases(c.start, wk.ticks, wk.ticks + 1);
  }

  lemma WorkerKeeps(c: Config, s: State, a: Action)
    requires c.Valid() && Inv(c, s) && !a.Announce? && !a.ReadDone? && !a.Pop?
    requires a.w < c.threads && WorkerEnabled(c, s, a, s.workers[a.w])
    ensures var wk := WorkerStep(c, s, a, s.workers[a.w]);
            && WorkerInv(c, s.ready, s.queue, wk, a.w)
            && s.workers[a.w].ticks <= wk.ticks && s.workers[a.w].done <= wk.done
  {
    hide After, Time, Live, StepsAbove, ThreadTrace, Holding;
    InvWorker(c, s, a.w);
    match a
    case Pass(_) => WorkerAhead(c, s, a.w);
    case Snapshot(_) =>
    case Search(_, seen) => SearchKeeps(c, s, a.w, seen);
    case Invoke(_) => InvokeKeeps(c, s, a.w);
    case Publish(_) => PublishKeeps(c, s, a.w);
  }

  /** A new ready time only widens every window. */
  lemma AnnounceKeeps(c: Config, s: State, w: nat)
    requires c.Valid() && Inv(c, s) && w < c.threads && s.server == Idle
    ensures WorkerInv(c, Time(c.start, s.pops), s.queue, s.workers[w], w)
  {
    assert WorkerInv(c, s.ready, s.queue, s.workers[w], w);
    hide After, Time, Live, StepsAbove, ThreadTrace, Holding;
    WorkerAhead(c, s, w);
  }

  /** Requeueing the current tick leaves every event alone that some worker is executing. */
  lemma PopKeeps(c: Config, s: State, w: nat)
    requires c.Valid() && Inv(c, s) && w < c.threads && s.server == Popping
    ensures s.pops < s.workers[w].ticks
    ensures WorkerInv(c, s.ready, After(c.start, s.pops + 1), s.workers[w], w)
  {
    hide Inv, After, Live, StepsAbove, ThreadTrace, Time, Resolve, Due;
    InvWorker(c, s, w);
    var k, wk := s.pops, s.workers[w];
    var n := wk.ticks;
    PoppingDone(c, s, w);
    if n <= k {
      TimeMonotone(c.start, n, k);
    }
    if wk.pc == Running && wk.clocked != [] {
      TimeMonotone(c.start, k, k + 1);
      EventsVisible(c, k, n);
      EventsVisible(c, k + 1, n);
      VisibleResolve(c, k, n, wk.todo);
    }
  }

  lemma PoppingDone(c: Config, s: State, w: nat)
    requires |c.start| > 0 && Inv(c, s) && w < c.threads && s.server == Popping
    ensures s.ready == Time(c.start, s.pops) && w < |s.workers| && s.workers[w].done >= s.ready
  {
  }

  lemma VisibleResolve(c: Config, k: nat, n: nat, todo: seq<Pending>)
    requires c.Valid()
    requires var t := Time(c.start, n);
             && Between(After(c.start, k), t - 1, t) == Due(After(c.start, n))
             && Between(After(c.start, k + 1), t - 1, t) == Due(After(c.start, n))
    requires forall p | p in todo :: p.reg in Ids(Due(After(c.start, n)))
    ensures Resolve(todo, After(c.start, k)) == Resolve(todo, After(c.start, k + 1))
  {
    hide After, Between, Due, Live, Sorted, DistinctIds, Resolve;
    var q, q', t: int := After(c.start, k), After(c.start, k + 1), Time(c.start, n);
    AfterLive(c.start, k);
    AfterLive(c.start, k + 1);
    BetweenMembers(q, t - 1, t);
    BetweenMembers(q', t - 1, t);
    ResolveStable(todo, Due(After(c.start, n)), q, q');
  }

  lemma OneWorkerKeeps(c: Config, s: State, w: nat, wk: Worker)
    requires c.Valid() && Inv(c, s) && w < c.threads
    requires WorkerInv(c, s.ready, s.queue, wk, w)
    requires s.workers[w].ticks <= wk.ticks && s.workers[w].done <= wk.done
    ensures Inv(c, s.(workers := s.workers[w := wk]))
  {
    hide WorkerInv, After, Time, Live, StepsAbove;
  }

  lemma AnnounceAll(c: Config, s: State, t: State)
    requires c.Valid() && Inv(c, s) && Step(c, s, Announce, t)
    ensures Inv(c, t)
  {
    hide WorkerInv, After, Live, StepsAbove;
    forall w | 0 <= w < c.threads ensures WorkerInv(c, t.ready, t.queue, t.workers[w], w) {
      AnnounceKeeps(c, s, w);
    }
  }

  lemma ReadKeeps(c: Config, s: State, t: State)
    requires c.Valid() && Inv(c, s) && Step(c, s, ReadDone, t)
    ensures Inv(c, t)
  {
    hide WorkerInv, After, Time, Live, StepsAbove;
  }

  lemma PopAllKeep(c: Config, s: State, t: State)
    requires c.Valid() && Inv(c, s) && Step(c, s, Pop, t)
    ensures Inv(c, t)
  {
    hide WorkerInv, Live, StepsAbove, PopAll, Tick, Sorted, DistinctIds;
    AfterLive(c.start, s.pops);
    PopAllIsTick(s.queue);
    assert t.queue == After(c.start, t.pops);
    forall w | 0 <= w < c.threads
      ensures t.pops <= t.workers[w].ticks && WorkerInv(c, t.ready, t.queue, t.workers[w], w)
    {
      PopKeeps(c, s, w);
    }
  }

  lemma StepKeeps(c: Config, s: State, a: Action, t: State)
    requires c.Valid() && Inv(c, s) && Step(c, s, a, t)
    ensures Inv(c, t)
  {
    hide Inv, WorkerEnabled, WorkerStep, WorkerInv;
    match a
    case Announce => AnnounceAll(c, s, t);
    case ReadDone => ReadKeeps(c, s, t);
    case Pop => PopAllKeep(c, s, t);
    case _ =>
      InvSize(c, s);
      WorkerKeeps(c, s, a);
      OneWorkerKeeps(c, s, a.w, WorkerStep(c, s, a, s.workers[a.w]));
  }

  lemma InvSize(c: Config, s: State)
    requires |c.start| > 0 && Inv(c, s)
    ensures |s.workers| == c.threads
  {
  }

  /** Every reachable state satisfies the invariant, for any number of workers and any interleaving. */
  lemma {:induction false} RunInv(c: Config, run: seq<State>)
    requires c.Valid() && Run(c, run)
    ensures Inv(c, Last(run))
  {
    hide Inv, Init, Step;
    var n := |run| - 1;
    if n == 0 {
      InitInv(c, run[0]);
    } else {
      var before := run[..n];
      assert forall i | 0 <= i < n :: before[i] == run[i];
      RunInv(c, before);
      assert Next(c, run[n - 1], run[n - 1 + 1]);
      var a :| Step(c, run[n - 1], a, run[n]);
      StepKeeps(c, run[n - 1], a, run[n]);
    }
  }

  lemma InitInv(c: Config, s: State)
    requires c.Valid() && Init(c, s)
    ensures Inv(c, s)
  {
    forall w | 0 <= w < c.threads ensures WorkerInv(c, s.ready, s.queue, s.workers[w], w) {
    }
  }

  // ---------------------------------------------------------------------------------------------------------
  // Safety: the fuzzy barrier refines the sequential clock

  /** At every point of every run the server's list is the sequential event list after `pops` ticks, and what a
      worker has done is its part of the sequential trace: all of the first `ticks` ticks, at least as many as the
      server has requeued, and while it runs a tick's events a further prefix of that tick. */
  lemma RefinesSequential(c: Config, run: seq<State>, w: nat)
    requires c.Valid() && Run(c, run) && w < c.threads
    ensures var s := Last(run);
            && s.queue == After(c.start, s.pops)
            && |s.workers| == c.threads
            && var wk := s.workers[w];
            && s.pops <= wk.ticks
            && ThreadTrace(c.start, wk.ticks, w) <= wk.trace <= ThreadTrace(c.start, wk.ticks + 1, w)
            && (wk.pc != Running || wk.clocked == [] ==> wk.trace == ThreadTrace(c.start, wk.ticks, w))
  {
    var s := Last(run);
    RunInv(c, run);
    InvWorker(c, s, w);
    hide After, Live, StepsAbove, Trace, Run;
    var wk := s.workers[w];
    ThreadTraceStep(c.start, wk.ticks, w);
  }

  /** Exactly once: an occurrence that the server has requeued has run every callback as often as it is registered,
      in the thread that owns the callback, with the occurrence number as its cycle. */
  lemma OwnerRunsOnce(c: Config, run: seq<State>, r: Reg, now: Reg, x: Call)
    requires c.Valid() && Run(c, run) && x.cb.thread < c.threads
    requires r in c.start && now in Last(run).queue && now.id == r.id == x.reg && r.cycle <= x.cycle < now.cycle
    ensures var s := Last(run);
            && |s.workers| == c.threads
            && Count(s.workers[x.cb.thread].trace, x) == Registered(r, x.cb)
  {
    var s, w := Last(run), x.cb.thread;
    hide *;
    RefinesSequential(c, run, w);
    CountInTrace(c, s.pops, s.workers[w].ticks, s.workers[w].trace, r, now, x);
  }

  lemma CountInTrace(c: Config, k: nat, n: nat, trace: seq<Call>, r: Reg, now: Reg, x: Call)
    requires c.Valid() && k <= n && r in c.start && now in After(c.start, k) && now.id == r.id == x.reg
    requires r.cycle <= x.cycle < now.cycle
    requires ThreadTrace(c.start, n, x.cb.thread) <= trace <= ThreadTrace(c.start, n + 1, x.cb.thread)
    ensures Count(trace, x) == Registered(r, x.cb)
  {
    hide *;
    CountInThread(c, k, n, r, now, x);
    CountInThread(c, k, n + 1, r, now, x);
    CountBetween(ThreadTrace(c.start, n, x.cb.thread), trace, ThreadTrace(c.start, n + 1, x.cb.thread), x);
  }

  lemma {:induction false} CountInThread(c: Config, k: nat, n: nat, r: Reg, now: Reg, x: Call)
    requires c.Valid() && k <= n && r in c.start && now in After(c.start, k) && now.id == r.id == x.reg
    requires r.cycle <= x.cycle < now.cycle
    ensures Count(ThreadTrace(c.start, n, x.cb.thread), x) == Registered(r, x.cb)
  {
    hide After, Trace, Live, Tick, Count, Registered, Restrict, StepsAbove;
    OccurrenceCount(c.start, k, r, now, x);
    var later := LaterSelf(c.start, k, n, now);
    OccurrenceCount(c.start, n, r, later, x);
    CountRestrict(Trace(c.start, n), x.cb.thread, x);
  }

  /** No other thread ever makes the call. */
  lemma OthersNeverRun(c: Config, run: seq<State>, w: nat, x: Call)
    requires c.Valid() && Run(c, run) && w < c.threads && x.cb.thread != w
    ensures w < |Last(run).workers| && x !in Last(run).workers[w].trace
  {
    var s := Last(run);
    hide After, Trace, Run, Live, Time;
    RefinesSequential(c, run, w);
    var n := s.workers[w].ticks;
    CountPrefix(s.workers[w].trace, ThreadTrace(c.start, n + 1, w), x);
    CountRestrict(Trace(c.start, n + 1), w, x);
    CountNone(s.workers[w].trace, x);
  }

  /** A worker that is executing an event is inside the window `[ready, ready + lookahead]`. */
  lemma InsideWindow(c: Config, run: seq<State>, w: nat)
    requires c.Valid() && Run(c, run) && w < c.threads
    ensures var s := Last(run);
            && w < |s.workers|
            && var wk := s.workers[w];
            wk.pc == Running && wk.clocked != [] ==> s.ready <= wk.ready <= s.ready + c.lookahead
  {
    var s := Last(run);
    RunInv(c, run);
    InvWorker(c, s, w);
    hide After, Live, StepsAbove, Trace, Run, Time;
    WorkerAhead(c, s, w);
    TimeMonotone(c.start, s.pops, s.workers[w].ticks);
  }

  /** So two workers never execute events that are more than the lookahead apart. */
  lemma NeverFarApart(c: Config, run: seq<State>, v: nat, w: nat)
    requires c.Valid() && Run(c, run) && v < c.threads && w < c.threads
    ensures var s := Last(run);
            && |s.workers| == c.threads
            && var a, b := s.workers[v], s.workers[w];
            && (a.pc == Running && a.clocked != [] && b.pc == Running && b.clocked != []
                ==> a.ready <= b.ready + c.lookahead)
  {
    hide *;
    InsideWindow(c, run, v);
    InsideWindow(c, run, w);
    RefinesSequential(c, run, w);
  }

  /** Whatever the server puts back lands after every worker's done time, after the event that any worker is
      executing and beyond the end of the open window: no event appears in a worker's past. */
  lemma ReaddsBeyondWindows(c: Config, run: seq<State>, r: Reg, w: nat)
    requires c.Valid() && Run(c, run) && w < c.threads
    requires var s := Last(run); s.server == Popping && r in s.queue && r.base == s.ready
    ensures var s := Last(run);
            && w < |s.workers|
            && var wk, next := s.workers[w], r.Advanced().base;
            && next > wk.done
            && next > s.ready + c.lookahead
            && (wk.pc == Running ==> next > wk.ready)
  {
    var s := Last(run);
    RunInv(c, run);
    InvWorker(c, s, w);
    StepsKept(c.start, s.pops, c.lookahead);
    hide After, Live, Trace, Run, Time, Holding;
  }

  // ---------------------------------------------------------------------------------------------------------
  // Deadlock freedom

  /** While the server waits, a worker that lags behind the ready time always has an enabled step; in particular
      it never sits at its wait test because it has already failed to find work at this ready time. */
  lemma LaggardEnabled(c: Config, s: State, w: nat) returns (a: Action)
    requires c.Valid() && Inv(c, s) && s.server.Scanning? && w < c.threads
    requires w < |s.workers| && s.workers[w].done < s.ready
    ensures !a.Announce? && !a.ReadDone? && !a.Pop? && a.w == w && WorkerEnabled(c, s, a, s.workers[w])
  {
    hide After, Time, Live, StepsAbove, Holding, ThreadTrace;
    InvWorker(c, s, w);
    var wk := s.workers[w];
    match wk.pc
    case Waiting => a := Pass(w);
    case Passed => a := Snapshot(w);
    case Searching => a := Search(w, wk.failed);
    case Running => a := if wk.todo == [] then Publish(w) else Invoke(w);
  }

  /** Whether the worker is still busy with what it found under an older ready time. */
  predicate Stale(ready: int, wk: Worker) {
    (wk.pc == Searching && wk.ready <= wk.done) || (wk.pc == Running && wk.ready < ready)
  }

  /** How far a lagging worker is from reaching the ready time. */
  function Stage(wk: Worker): nat {
    match wk.pc
    case Waiting => 3
    case Passed => 2
    case Searching => 1
    case Running => 0
  }

  ghost predicate Closer(ready: int, wk': Worker, wk: Worker) {
    || (!Stale(ready, wk') && Stale(ready, wk))
    || (Stale(ready, wk') == Stale(ready, wk)
        && (Stage(wk') < Stage(wk) || (Stage(wk') == Stage(wk) && |wk'.todo| < |wk.todo|)))
  }

  /** Every step of a lagging worker brings it strictly closer to the ready time, or onto it. */
  lemma LaggardProgress(c: Config, s: State, a: Action)
    requires c.Valid() && Inv(c, s) && s.server.Scanning?
    requires !a.Announce? && !a.ReadDone? && !a.Pop? && a.w < c.threads
    requires a.w < |s.workers| && s.workers[a.w].done < s.ready && WorkerEnabled(c, s, a, s.workers[a.w])
    ensures var wk := WorkerStep(c, s, a, s.workers[a.w]);
            wk.done >= s.ready || Closer(s.ready, wk, s.workers[a.w])
  {
    hide After, Time, Live, StepsAbove, Holding, ThreadTrace, ScanAhead, AtTime, MyModules, MyMatchers, IdList;
    InvWorker(c, s, a.w);
  }

  /** Extends a run by one step. */
  lemma Extend(c: Config, run: seq<State>, a: Action, t: State) returns (longer: seq<State>)
    requires Run(c, run) && Step(c, Last(run), a, t)
    ensures Run(c, longer) && run <= longer && Last(longer) == t
  {
    hide Step, Init;
    longer := run + [t];
    forall i | 0 <= i < |longer| - 1 ensures Next(c, longer[i], longer[i + 1]) {
      if i < |run| - 1 {
        assert Next(c, run[i], run[i + 1]);
      }
    }
  }

  lemma ExtendByWorker(c: Config, run: seq<State>, a: Action) returns (longer: seq<State>)
    requires Run(c, run) && !a.Announce? && !a.ReadDone? && !a.Pop? && a.w < |Last(run).workers|
    requires WorkerEnabled(c, Last(run), a, Last(run).workers[a.w])
    ensures Run(c, longer) && run <= longer
    ensures var s := Last(run);
            Last(longer) == s.(workers := s.workers[a.w := WorkerStep(c, s, a, s.workers[a.w])])
  {
    var s := Last(run);
    hide Run, WorkerEnabled, WorkerStep;
    longer := Extend(c, run, a, s.(workers := s.workers[a.w := WorkerStep(c, s, a, s.workers[a.w])]));
  }

  /** A lagging worker can reach the ready time by its own steps alone. */
  lemma CatchUp(c: Config, run: seq<State>, w: nat) returns (longer: seq<State>)
    requires c.Valid() && Run(c, run) && w < c.threads && Last(run).server.Scanning?
    requires w < |Last(run).workers|
    ensures Run(c, longer) && run <= longer
    ensures var s, t := Last(run), Last(longer);
            |t.workers| == |s.workers| && t == s.(workers := s.workers[w := t.workers[w]]) && t.workers[w].done >= s.ready
    decreases Stale(Last(run).ready, Last(run).workers[w]), Stage(Last(run).workers[w]), |Last(run).workers[w].todo|
  {
    var s := Last(run);
    hide Inv, Run, WorkerEnabled, WorkerStep, Stale, Stage, Step;
    longer := run;
    if s.workers[w].done < s.ready {
      RunInv(c, run);
      var a := LaggardEnabled(c, s, w);
      LaggardProgress(c, s, a);
      longer := ExtendByWorker(c, run, a);
      if Last(longer).workers[w].done < s.ready {
        longer := CatchUp(c, longer, w);
      }
    }
  }

  /** All lagging workers from number `w` on can reach the ready time. */
  lemma CatchUpFrom(c: Config, run: seq<State>, w: nat) returns (longer: seq<State>)
    requires c.Valid() && Run(c, run) && w <= c.threads && Last(run).server.Scanning?
    requires |Last(run).workers| == c.threads
    requires DoneBelow(Last(run), w)
    ensures Run(c, longer) && run <= longer
    ensures var s, t := Last(run), Last(longer);
            t == s.(workers := t.workers) && |t.workers| == c.threads && AllDone(t)
    decreases c.threads - w
  {
    hide Run;
    if w == c.threads {
      longer := run;
    } else {
      var next := CatchUp(c, run, w);
      longer := CatchUpFrom(c, next, w + 1);
    }
  }

  /** Once all workers have caught up, the server's scan finds out, at the latest on its next pass. */
  lemma FinishScan(c: Config, run: seq<State>) returns (longer: seq<State>)
    requires c.Valid() && Run(c, run) && Last(run).server.Scanning?
    requires |Last(run).workers| == c.threads && Last(run).server.next < c.threads
    requires AllDone(Last(run))
    ensures Run(c, longer) && run <= longer
    ensures Last(longer) == Last(run).(server := Popping)
    decreases var s := Last(run);
              if s.server.next > 0 && s.server.low < s.ready then 1 else 0, c.threads - Last(run).server.next
  {
    var s := Last(run);
    var i, d := s.server.next, s.workers[s.server.next].done;
    var low := if i == 0 || d < s.server.low then d else s.server.low;
    var t := s.(server := if i + 1 < |s.workers| then Scanning(i + 1, low)
                          else if low < s.ready then Scanning(0, low) else Popping);
    assert Step(c, s, ReadDone, t);
    hide Run, Step;
    longer := Extend(c, run, ReadDone, t);
    if t.server != Popping {
      longer := FinishScan(c, longer);
    }
  }

  /** No deadlock: whenever the server waits for its workers, in any reachable state, the run can be continued so
      that the wait ends. */
  lemma WaitCanEnd(c: Config, run: seq<State>) returns (longer: seq<State>)
    requires c.Valid() && Run(c, run) && Last(run).server.Scanning?
    ensures Run(c, longer) && run <= longer
    ensures Last(longer).server == Popping && Last(longer).ready == Last(run).ready
  {
    hide Run;
    RunInv(c, run);
    var next := CatchUpFrom(c, run, 0);
    longer := FinishScan(c, next);
  }
}
