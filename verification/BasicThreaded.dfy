/** The multi-threaded clock server that synchronises at every tick: the server hands each worker a queue of tasks,
    releases all workers by flipping a phase, and waits until a shared counter shows that all of them are done. The
    protocol is a step relation over any number of workers, with sequentially consistent steps. */
module BasicThreaded {
  import opened Schedule

  // ---------------------------------------------------------------------------------------------------------
  // What the callbacks are told

  /** The cycle that each callback would be told now. It is stored with the callback, so the last assignment wins. */
  type Cycles = map<Callback, nat>

  function CycleOf(m: Cycles, cb: Callback): nat {
    if cb in m then m[cb] else 0
  }

  /** The stored cycles after assigning a sequence of calls. */
  function Assigned(m: Cycles, calls: seq<Call>): Cycles {
    if calls == [] then m else Assigned(m, calls[..|calls| - 1])[calls[|calls| - 1].cb := calls[|calls| - 1].cycle]
  }

  /** Assigned calls as they turn out when they run. */
  function Told(calls: seq<Call>, m: Cycles): (r: seq<Call>)
    ensures |r| == |calls|
    ensures forall i | 0 <= i < |calls| :: r[i] == calls[i].(cycle := CycleOf(m, calls[i].cb))
  {
    if calls == [] then [] else [calls[0].(cycle := CycleOf(m, calls[0].cb))] + Told(calls[1..], m)
  }

  /** The calls of one tick, each with the cycle that was assigned last to its callback. */
  function Seen(calls: seq<Call>): seq<Call> {
    Told(calls, Assigned(map[], calls))
  }

  /** No callback is due in two registries that are at different cycles. */
  ghost predicate Consistent(calls: seq<Call>) {
    forall i, j | 0 <= i < |calls| && 0 <= j < |calls| :: calls[i].cb == calls[j].cb ==> calls[i].cycle == calls[j].cycle
  }

  /** What one thread does in the first `k` ticks. */
  ghost function SeenTrace(q: seq<Reg>, k: nat, thread: nat): seq<Call>
    requires |q| > 0
  {
    if k == 0 then [] else SeenTrace(q, k - 1, thread) + Restrict(Seen(TickCalls(After(q, k - 1))), thread)
  }

  lemma {:induction false} AssignedLast(m: Cycles, calls: seq<Call>, i: nat)
    requires i < |calls|
    ensures calls[i].cb in Assigned(m, calls)
    ensures exists j :: i <= j < |calls| && calls[j].cb == calls[i].cb && calls[j].cycle == Assigned(m, calls)[calls[i].cb]
  {
    var n := |calls| - 1;
    if calls[n].cb != calls[i].cb {
      AssignedLast(m, calls[..n], i);
    }
  }

  /** The stored cycle of an assigned callback does not depend on what was stored before. */
  lemma {:induction false} AssignedForgets(m: Cycles, calls: seq<Call>, i: nat)
    requires i < |calls|
    ensures CycleOf(Assigned(m, calls), calls[i].cb) == CycleOf(Assigned(map[], calls), calls[i].cb)
  {
    var n := |calls| - 1;
    if calls[n].cb != calls[i].cb {
      AssignedForgets(m, calls[..n], i);
    }
  }

  lemma ToldIsSeen(m: Cycles, calls: seq<Call>)
    ensures Told(calls, Assigned(m, calls)) == Seen(calls)
  {
    forall i | 0 <= i < |calls|
      ensures CycleOf(Assigned(m, calls), calls[i].cb) == CycleOf(Assigned(map[], calls), calls[i].cb)
    {
      AssignedForgets(m, calls, i);
    }
  }

  /** Every callback of the tick is told the right cycle exactly if the tick is consistent. */
  lemma SeenExactIff(calls: seq<Call>)
    ensures Seen(calls) == calls <==> Consistent(calls)
  {
    var m := Assigned(map[], calls);
    if Consistent(calls) {
      forall i | 0 <= i < |calls| ensures CycleOf(m, calls[i].cb) == calls[i].cycle {
        AssignedLast(map[], calls, i);
      }
    }
    if Seen(calls) == calls {
      forall i | 0 <= i < |calls| ensures calls[i].cycle == CycleOf(m, calls[i].cb) {
        assert Told(calls, m)[i] == calls[i];
      }
    }
  }

  lemma {:induction false} RestrictTold(calls: seq<Call>, m: Cycles, thread: nat)
    ensures Restrict(Told(calls, m), thread) == Told(Restrict(calls, thread), m)
  {
    if calls != [] {
      RestrictTold(calls[1..], m, thread);
      var c := calls[0].(cycle := CycleOf(m, calls[0].cb));
      assert Told(calls, m)[0] == c && Told(calls, m)[1..] == Told(calls[1..], m);
      var rest := Restrict(calls[1..], thread);
      assert ([calls[0]] + rest)[1..] == rest;
    }
  }

  /** Two lists of calls for the same callbacks are equal if every thread's part is. */
  lemma {:induction false} PartsDetermine(a: seq<Call>, b: seq<Call>)
    requires |a| == |b| && forall i | 0 <= i < |a| :: a[i].cb == b[i].cb
    requires forall thread :: Restrict(a, thread) == Restrict(b, thread)
    ensures a == b
  {
    if a != [] {
      var t := a[0].cb.thread;
      assert Restrict(a, t)[0] == a[0] && Restrict(b, t)[0] == b[0];
      forall thread ensures Restrict(a[1..], thread) == Restrict(b[1..], thread) {
        assert Restrict(a, thread) == Restrict(b, thread);
        if thread == t {
          assert Restrict(a, t)[1..] == Restrict(a[1..], t);
          assert Restrict(b, t)[1..] == Restrict(b[1..], t);
        }
      }
      PartsDetermine(a[1..], b[1..]);
      assert a == [a[0]] + a[1..] && b == [b[0]] + b[1..];
    }
  }

  lemma SeenPart(calls: seq<Call>, thread: nat)
    ensures |Restrict(Seen(calls), thread)| == |Restrict(calls, thread)|
  {
    RestrictTold(calls, Assigned(map[], calls), thread);
  }

  lemma {:induction false} SeenTraceLength(q: seq<Reg>, k: nat, thread: nat)
    requires |q| > 0
    ensures |SeenTrace(q, k, thread)| == |ThreadTrace(q, k, thread)|
  {
    hide After, Trace, ThreadTrace, TickCalls, Seen;
    if k > 0 {
      SeenTraceLength(q, k - 1, thread);
      ThreadTraceStep(q, k - 1, thread);
      SeenPart(TickCalls(After(q, k - 1)), thread);
    } else {
      assert ThreadTrace(q, k, thread) == [] by { hide *; NoTrace(q, thread); }
    }
  }

  lemma NoTrace(q: seq<Reg>, thread: nat)
    requires |q| > 0
    ensures ThreadTrace(q, 0, thread) == []
  {
  }

  ghost predicate AlwaysConsistent(q: seq<Reg>, k: nat)
    requires |q| > 0
  {
    forall i: nat | i < k :: Consistent(TickCalls(After(q, i)))
  }

  /** Over whole runs, every thread sees exactly its part of the sequential trace if and only if no tick finds a
      callback in two due registries that are at different cycles. */
  lemma {:induction false} SameTracesIff(q: seq<Reg>, k: nat)
    requires |q| > 0
    ensures (forall thread :: SeenTrace(q, k, thread) == ThreadTrace(q, k, thread)) <==> AlwaysConsistent(q, k)
  {
    hide After, TickCalls, ThreadTrace, Seen, Consistent;
    if k == 0 {
      forall thread ensures SeenTrace(q, 0, thread) == ThreadTrace(q, 0, thread) {
        NoTrace(q, thread);
      }
    } else {
      var n := k - 1;
      var calls := TickCalls(After(q, n));
      SameTracesIff(q, n);
      SeenExactIff(calls);
      SeenCallbacks(calls);
      forall thread ensures SeenTrace(q, k, thread) == ThreadTrace(q, k, thread) <==>
        && SeenTrace(q, n, thread) == ThreadTrace(q, n, thread)
        && Restrict(Seen(calls), thread) == Restrict(calls, thread)
      {
        ThreadTraceStep(q, n, thread);
        SeenTraceLength(q, n, thread);
        AppendSame(SeenTrace(q, n, thread), ThreadTrace(q, n, thread), Restrict(Seen(calls), thread), Restrict(calls, thread));
      }
      if forall thread :: SeenTrace(q, k, thread) == ThreadTrace(q, k, thread) {
        forall thread ensures Restrict(Seen(calls), thread) == Restrict(calls, thread) {
          assert SeenTrace(q, k, thread) == ThreadTrace(q, k, thread);
        }
        forall thread ensures SeenTrace(q, n, thread) == ThreadTrace(q, n, thread) {
          assert SeenTrace(q, k, thread) == ThreadTrace(q, k, thread);
        }
        PartsDetermine(Seen(calls), calls);
        assert AlwaysConsistent(q, n) && Consistent(calls);
      }
    }
  }

  lemma SeenCallbacks(calls: seq<Call>)
    ensures |Seen(calls)| == |calls| && forall i | 0 <= i < |calls| :: Seen(calls)[i].cb == calls[i].cb
  {
  }

  lemma AppendSame(a: seq<Call>, b: seq<Call>, x: seq<Call>, y: seq<Call>)
    requires |a| == |b|
    ensures a + x == b + y <==> a == b && x == y
  {
    if a + x == b + y {
      assert a == (a + x)[..|a|] && b == (b + y)[..|b|];
      assert x == (a + x)[|a|..] && y == (b + y)[|b|..];
    }
  }

  // ---------------------------------------------------------------------------------------------------------
  // Handing out the tasks

  /** A worker's task queue. */
  class WorkerThread {
    var tasks: seq<Call>

    constructor ()
      ensures tasks == []
    {
      tasks := [];
    }

    method AssignTask(task: Call)
      modifies this
      ensures tasks == old(tasks) + [task]
    {
      tasks := tasks + [task];
    }

    method GetNextWorkItem() returns (task: seq<Call>)
      modifies this
      ensures |task| <= 1 && task + tasks == old(tasks)
      ensures task == [] ==> old(tasks) == []
    {
      task := [];
      if |tasks| > 0 {
        task := [tasks[0]];
        tasks := tasks[1..];
      }
    }
  }

  /** The server's part of a tick before it wakes the workers. */
  class TaskServer {
    var lThreads: seq<WorkerThread>
    var currentCycle: Cycles

    ghost predicate Valid()
      reads this
    {
      forall i, j | 0 <= i < j < |lThreads| :: lThreads[i] != lThreads[j]
    }

    /** Every call goes to the queue of its own thread, in order; the cycles are stored with the callbacks. */
    ghost predicate Handed(calls: seq<Call>, queues: seq<seq<Call>>, before: Cycles)
      reads this, lThreads
    {
      && Valid() && |queues| == |lThreads|
      && (forall t | 0 <= t < |lThreads| :: lThreads[t].tasks == queues[t] + Restrict(calls, t))
      && currentCycle == Assigned(before, calls)
    }

    /** Hands out the tasks of the registries that are due: first all modules, then all rate matchers. Each thread's
        queue grows by exactly its own part of the sequential tick. */
    method AssignTasks(clocked: seq<Reg>)
      requires Valid() && Below(clocked, |lThreads|)
      modifies this`currentCycle, lThreads
      ensures Valid()
      ensures forall t | 0 <= t < |lThreads| ::
                lThreads[t].tasks == old(lThreads[t].tasks) + Restrict(ModuleCalls(clocked) + MatcherCalls(clocked), t)
      ensures currentCycle == Assigned(old(currentCycle), ModuleCalls(clocked) + MatcherCalls(clocked))
      ensures var calls := ModuleCalls(clocked) + MatcherCalls(clocked);
              Told(calls, currentCycle) == Seen(calls)
    {
      hide Handed, Below, ModuleCalls, MatcherCalls, CallsOf, Assigned, Valid, Told, Seen;
      ToldIsSeen(currentCycle, ModuleCalls(clocked) + MatcherCalls(clocked));
      ghost var queues := Queues();
      ghost var calls: seq<Call> := [];
      NothingHanded(queues);
      var k := 0;
      while k < |clocked|
        invariant k <= |clocked| && calls + ModuleCalls(clocked[k..]) == ModuleCalls(clocked)
        invariant Handed(calls, queues, old(currentCycle))
      {
        BelowAt(clocked, k, |lThreads|);
        PhaseStep(clocked, k, calls);
        AssignList(clocked[k], clocked[k].modules, calls, queues, old(currentCycle));
        calls := calls + CallsOf(clocked[k], clocked[k].modules);
        k := k + 1;
      }
      PhaseEnd(clocked, k, calls);
      k := 0;
      while k < |clocked|
        invariant k <= |clocked| && calls + MatcherCalls(clocked[k..]) == ModuleCalls(clocked) + MatcherCalls(clocked)
        invariant Handed(calls, queues, old(currentCycle))
      {
        BelowAt(clocked, k, |lThreads|);
        PhaseStep(clocked, k, calls);
        AssignList(clocked[k], clocked[k].matchers, calls, queues, old(currentCycle));
        calls := calls + CallsOf(clocked[k], clocked[k].matchers);
        k := k + 1;
      }
      PhaseEnd(clocked, k, calls);
      AllHanded(calls, queues, old(currentCycle));
    }

    ghost function Queues(): (s: seq<seq<Call>>)
      reads this, lThreads
      ensures |s| == |lThreads| && forall t | 0 <= t < |lThreads| :: s[t] == lThreads[t].tasks
    {
      seq(|lThreads|, t requires 0 <= t < |lThreads| reads this, lThreads => lThreads[t].tasks)
    }

    lemma NothingHanded(queues: seq<seq<Call>>)
      requires Valid() && queues == Queues()
      ensures Handed([], queues, currentCycle)
    {
    }

    lemma AllHanded(calls: seq<Call>, queues: seq<seq<Call>>, before: Cycles)
      requires Handed(calls, queues, before)
      ensures Valid() && |queues| == |lThreads| && currentCycle == Assigned(before, calls)
      ensures forall t | 0 <= t < |lThreads| :: lThreads[t].tasks == queues[t] + Restrict(calls, t)
    {
    }

    /** Hands out the callbacks of one registry. */
    method AssignList(r: Reg, cbs: seq<Callback>, ghost calls: seq<Call>, ghost queues: seq<seq<Call>>, ghost before: Cycles)
      requires Handed(calls, queues, before) && forall i | 0 <= i < |cbs| :: cbs[i].thread < |lThreads|
      modifies this`currentCycle, lThreads
      ensures Handed(calls + CallsOf(r, cbs), queues, before)
    {
      hide Handed;
      ghost var done := calls;
      var iter := 0;
      while iter < |cbs|
        invariant iter <= |cbs| && done + CallsOf(r, cbs[iter..]) == calls + CallsOf(r, cbs)
        invariant Handed(done, queues, before)
      {
        var task := Call(r.id, cbs[iter], r.cycle);
        assert cbs[iter..][1..] == cbs[iter + 1..];
        assert done + ([task] + CallsOf(r, cbs[iter + 1..])) == done + [task] + CallsOf(r, cbs[iter + 1..]);
        AssignOne(task, done, queues, before);
        done := done + [task];
        iter := iter + 1;
      }
      assert cbs[iter..] == [] && done + [] == done;
    }

    method AssignOne(task: Call, ghost calls: seq<Call>, ghost queues: seq<seq<Call>>, ghost before: Cycles)
      requires Handed(calls, queues, before) && task.cb.thread < |lThreads|
      modifies this`currentCycle, lThreads
      ensures Handed(calls + [task], queues, before)
    {
      hide Restrict;
      currentCycle := currentCycle[task.cb := task.cycle];
      lThreads[task.cb.thread].AssignTask(task);
      assert (calls + [task])[..|calls|] == calls;
      forall t | 0 <= t < |lThreads| ensures lThreads[t].tasks == queues[t] + Restrict(calls + [task], t) {
        RestrictAppend(calls, [task], t);
        RestrictOne(task, t);
      }
    }
  }

  /** All callbacks belong to one of the first `n` threads. */
  ghost predicate Below(q: seq<Reg>, n: nat) {
    forall i | 0 <= i < |q| ::
      && (forall j | 0 <= j < |q[i].modules| :: q[i].modules[j].thread < n)
      && (forall j | 0 <= j < |q[i].matchers| :: q[i].matchers[j].thread < n)
  }

  lemma BelowAt(q: seq<Reg>, k: nat, n: nat)
    requires Below(q, n) && k < |q|
    ensures forall j | 0 <= j < |q[k].modules| :: q[k].modules[j].thread < n
    ensures forall j | 0 <= j < |q[k].matchers| :: q[k].matchers[j].thread < n
  {
  }

  lemma PhaseStep(clocked: seq<Reg>, k: nat, calls: seq<Call>)
    requires k < |clocked|
    ensures calls + ModuleCalls(clocked[k..]) == calls + CallsOf(clocked[k], clocked[k].modules) + ModuleCalls(clocked[k + 1..])
    ensures calls + MatcherCalls(clocked[k..]) == calls + CallsOf(clocked[k], clocked[k].matchers) + MatcherCalls(clocked[k + 1..])
  {
    hide CallsOf;
    assert clocked[k..][1..] == clocked[k + 1..];
    var a, b := CallsOf(clocked[k], clocked[k].modules), ModuleCalls(clocked[k + 1..]);
    assert calls + (a + b) == calls + a + b;
    var c, d := CallsOf(clocked[k], clocked[k].matchers), MatcherCalls(clocked[k + 1..]);
    assert calls + (c + d) == calls + c + d;
  }

  lemma PhaseEnd(clocked: seq<Reg>, k: nat, calls: seq<Call>)
    requires k == |clocked|
    ensures calls + ModuleCalls(clocked[k..]) == calls && calls + MatcherCalls(clocked[k..]) == calls
    ensures clocked[0..] == clocked
  {
  }

  lemma RestrictOne(c: Call, thread: nat)
    ensures Restrict([c], thread) == if c.cb.thread == thread then [c] else []
  {
    assert [c][1..] == [];
  }
}
