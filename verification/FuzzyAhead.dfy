/** Running ahead: within the lookahead, a worker of the fuzzy barrier goes on to later events without waiting for the
    others. */
module FuzzyAhead {
  import opened Schedule
  import opened FuzzyBarrier

  /** The time up to which `k` ticks reach. */
  ghost function Reached(c: Config, k: nat): int
    requires |c.start| > 0
  {
    if k == 0 then -1 else Time(c.start, k - 1)
  }

  /** A worker at the wait test that has made exactly `k` ticks. */
  ghost predicate AtRest(c: Config, wk: Worker, k: nat)
    requires |c.start| > 0
  {
    wk.pc == Waiting && wk.ticks == k && wk.done == Reached(c, k) && wk.failed <= wk.done
  }

  /** The thread has something to do in a tick. */
  ghost predicate HasCalls(c: Config, k: nat, w: nat)
    requires |c.start| > 0
  {
    Restrict(TickCalls(After(c.start, k)), w) != []
  }

  // ---------------------------------------------------------------------------------------------------------
  // One round of one worker

  /** A worker that has found its events runs them and publishes its time. */
  lemma Finish(c: Config, run: seq<State>, w: nat) returns (longer: seq<State>)
    requires Run(c, run) && w < |Last(run).workers| && Last(run).workers[w].pc == Running
    ensures Run(c, longer) && run <= longer && w < |Last(longer).workers|
    ensures var s, wk, x := Last(run), Last(run).workers[w], Last(longer).workers[w];
            && Last(longer) == s.(workers := s.workers[w := x])
            && x.pc == Waiting && x.done == wk.ready && x.ticks == (if wk.clocked == [] then wk.ticks else wk.ticks + 1)
            && x.failed == if wk.worked || wk.todo != [] then -1 else wk.failed
    decreases |Last(run).workers[w].todo|
  {
    assert |run| > 0;
    hide Run;
    if Last(run).workers[w].todo == [] {
      longer := ExtendByWorker(c, run, Publish(w));
    } else {
      var next := ExtendByWorker(c, run, Invoke(w));
      longer := Finish(c, next, w);
    }
  }

  /** A waiting worker passes the wait test, although it is not behind the announced time, and searches the list. */
  lemma Begin(c: Config, run: seq<State>, w: nat) returns (longer: seq<State>)
    requires Run(c, run) && w < |Last(run).workers| && Last(run).workers[w].pc == Waiting
    requires var s, wk := Last(run), Last(run).workers[w]; wk.done < s.ready + c.lookahead && s.ready != wk.failed
    ensures Run(c, longer) && run <= longer && w < |Last(longer).workers|
    ensures var s, wk, x := Last(run), Last(run).workers[w], Last(longer).workers[w];
            && Last(longer) == s.(workers := s.workers[w := x])
            && x.pc == Running && x.failed == s.ready && !x.worked && x.ticks == wk.ticks && x.trace == wk.trace
            && x.done == wk.done
            && x.ready == (if s.ready <= wk.done then ScanAhead(s.queue, wk.done, s.ready + c.lookahead) else s.ready)
            && x.clocked == IdList(AtTime(s.queue, x.ready))
  {
    hide Run, AtTime, ScanAhead, MyModules, MyMatchers, IdList;
    var one := ExtendByWorker(c, run, Pass(w));
    var two := ExtendByWorker(c, one, Snapshot(w));
    longer := ExtendByWorker(c, two, Search(w, Last(two).ready));
  }

  /** What the search finds, when the worker's next tick is in the window: exactly this tick. */
  lemma FindsNext(c: Config, s: State, w: nat)
    requires c.Valid() && Inv(c, s) && s.server.Scanning? && w < c.threads && w < |s.workers|
    requires var wk := s.workers[w]; wk.pc == Waiting && Time(c.start, wk.ticks) <= s.ready + c.lookahead
    ensures var wk := s.workers[w];
            var r := if s.ready <= wk.done then ScanAhead(s.queue, wk.done, s.ready + c.lookahead) else s.ready;
            && wk.done < Time(c.start, wk.ticks) && r == Time(c.start, wk.ticks)
            && AtTime(s.queue, r) == Due(After(c.start, wk.ticks)) && IdList(AtTime(s.queue, r)) != []
  {
    hide Inv, After, Time, Live, StepsAbove, ThreadTrace, Holding, ScanAhead, AtTime, IdList, Due, Sorted, DistinctIds, Between;
    var wk := s.workers[w];
    InvWorker(c, s, w);
    WorkerAhead(c, s, w);
    NextDue(c, wk.ticks);
    if s.ready <= wk.done {
      WindowSearch(c, s.pops, wk.ticks, wk.done, s.ready + c.lookahead);
    } else {
      DueNow(c, wk.ticks);
    }
    IdListIds(AtTime(s.queue, Time(c.start, wk.ticks)));
  }

  lemma NextDue(c: Config, k: nat)
    requires c.Valid()
    ensures Due(After(c.start, k)) != []
  {
    AfterLive(c.start, k);
    hide After;
    DueSplit(After(c.start, k));
  }

  lemma DueNow(c: Config, k: nat)
    requires c.Valid()
    ensures AtTime(After(c.start, k), Time(c.start, k)) == Due(After(c.start, k))
  {
    AfterLive(c.start, k);
    hide After, AtTime, Between, Due;
    AtTimeBetween(After(c.start, k), Time(c.start, k));
    BetweenDue(After(c.start, k));
  }

  /** The calls that a worker has found are those of its thread in the tick. */
  lemma TodoIff(c: Config, s: State, w: nat)
    requires c.Valid() && Inv(c, s) && w < c.threads && w < |s.workers|
    requires var wk := s.workers[w];
             wk.pc == Running && wk.clocked != [] && wk.trace == ThreadTrace(c.start, wk.ticks, w)
    ensures s.workers[w].todo != [] <==> HasCalls(c, s.workers[w].ticks, w)
  {
    hide Inv, After, Time, Live, StepsAbove, ThreadTrace, TickCalls, Restrict;
    var wk := s.workers[w];
    InvWorker(c, s, w);
    ThreadTraceStep(c.start, wk.ticks, w);
    var r := Resolve(wk.todo, s.queue);
    assert wk.trace + r == wk.trace + Restrict(TickCalls(After(c.start, wk.ticks)), w);
    assert |r| == |Restrict(TickCalls(After(c.start, wk.ticks)), w)|;
  }

  /** A waiting worker whose next tick is in the window finds it. */
  lemma Found(c: Config, run: seq<State>, w: nat) returns (longer: seq<State>)
    requires c.Valid() && Run(c, run) && Last(run).server.Scanning? && w < c.threads && w < |Last(run).workers|
    requires var s, wk := Last(run), Last(run).workers[w];
             wk.pc == Waiting && s.ready != wk.failed && Time(c.start, wk.ticks) <= s.ready + c.lookahead
    ensures Run(c, longer) && run <= longer && w < |Last(longer).workers|
    ensures var s, wk, x := Last(run), Last(run).workers[w], Last(longer).workers[w];
            && Last(longer) == s.(workers := s.workers[w := x])
            && x.pc == Running && x.ready == Time(c.start, wk.ticks) && x.clocked != [] && x.ticks == wk.ticks
            && !x.worked && x.failed == s.ready && (x.todo != [] <==> HasCalls(c, wk.ticks, w))
  {
    assert |run| > 0;
    hide Run, Inv, Time, After, ScanAhead, AtTime, IdList, HasCalls, WorkerInv, ThreadTrace, Live, StepsAbove, Due, Step, Init;
    RunInv(c, run);
    FindsNext(c, Last(run), w);
    RestTrace(c, Last(run), w);
    longer := Begin(c, run, w);
    RunInv(c, longer);
    TodoIff(c, Last(longer), w);
  }

  /** One round: the worker makes its next tick, whatever the others do. It is ready for another round at the same announced
      time if it had something to do. */
  lemma Round(c: Config, run: seq<State>, w: nat) returns (longer: seq<State>)
    requires c.Valid() && Run(c, run) && Last(run).server.Scanning? && w < c.threads && w < |Last(run).workers|
    requires var s, wk := Last(run), Last(run).workers[w];
             wk.pc == Waiting && s.ready != wk.failed && Time(c.start, wk.ticks) <= s.ready + c.lookahead
    ensures Run(c, longer) && run <= longer && w < |Last(longer).workers|
    ensures var s, wk, x := Last(run), Last(run).workers[w], Last(longer).workers[w];
            && Last(longer) == s.(workers := s.workers[w := x])
            && x.pc == Waiting && x.ticks == wk.ticks + 1 && x.done == Time(c.start, wk.ticks)
            && x.failed == if HasCalls(c, wk.ticks, w) then -1 else s.ready
  {
    hide Run, Time, HasCalls, Live, StepsAbove;
    longer := Found(c, run, w);
    longer := Finish(c, longer, w);
  }

  lemma RestTrace(c: Config, s: State, w: nat)
    requires c.Valid() && Inv(c, s) && w < c.threads && w < |s.workers| && s.workers[w].pc == Waiting
    ensures s.workers[w].trace == ThreadTrace(c.start, s.workers[w].ticks, w)
  {
    hide Inv, After, Time, Live, StepsAbove, ThreadTrace;
    InvWorker(c, s, w);
  }

  // ---------------------------------------------------------------------------------------------------------
  // A run in which all workers have made exactly the ticks that the server has requeued

  ghost predicate Rested(c: Config, s: State, n: nat, k: nat)
    requires |c.start| > 0
  {
    && |s.workers| == c.threads && s.pops == k
    && forall w | 0 <= w < c.threads :: AtRest(c, s.workers[w], if w < n then k + 1 else k)
  }

  /** While the server waits at tick `k`, the workers from number `n` on make this tick. */
  lemma AllRound(c: Config, run: seq<State>, n: nat, k: nat) returns (longer: seq<State>)
    requires c.Valid() && Run(c, run) && Last(run).server.Scanning? && Last(run).ready == Time(c.start, k)
    requires n <= c.threads && Rested(c, Last(run), n, k)
    ensures Run(c, longer) && run <= longer && Rested(c, Last(longer), c.threads, k)
    ensures Last(longer) == Last(run).(workers := Last(longer).workers)
    decreases c.threads - n
  {
    assert |run| > 0;
    hide Run, Time, HasCalls, Live, StepsAbove, Sorted, DistinctIds;
    longer := run;
    if n < c.threads {
      assert AtRest(c, Last(run).workers[n], k);
      BeforeNext(c, k);
      var next := Round(c, run, n);
      assert AtRest(c, Last(next).workers[n], k + 1);
      longer := AllRound(c, next, n + 1, k);
    }
  }

  lemma BeforeNext(c: Config, k: nat)
    requires c.Valid()
    ensures Reached(c, k) < Time(c.start, k)
  {
    hide Time, Live;
    if k > 0 {
      TimeIncreases(c.start, k - 1, k);
    }
  }

  /** The server announces tick `k`. */
  lemma Announced(c: Config, run: seq<State>, k: nat) returns (longer: seq<State>)
    requires c.Valid() && Run(c, run) && Last(run).server == Idle && Rested(c, Last(run), 0, k)
    ensures Run(c, longer) && run <= longer && Rested(c, Last(longer), 0, k)
    ensures Last(longer).server == Scanning(0, 0) && Last(longer).ready == Time(c.start, k)
  {
    RunInv(c, run);
    var s := Last(run);
    hide Run, Init, After, WorkerInv, Live, StepsAbove;
    longer := Extend(c, run, Announce, s.(ready := s.queue[0].base, server := Scanning(0, 0)));
  }

  /** The server requeues tick `k`. */
  lemma Requeued(c: Config, run: seq<State>, k: nat) returns (longer: seq<State>)
    requires c.Valid() && Run(c, run) && Last(run).server == Popping && Rested(c, Last(run), c.threads, k)
    ensures Run(c, longer) && run <= longer && Rested(c, Last(longer), 0, k + 1) && Last(longer).server == Idle
  {
    RunInv(c, run);
    var s := Last(run);
    CanPop(c, s);
    hide Run, Init, Inv, PopAll, StepsAbove, AtRest;
    longer := Extend(c, run, Pop, s.(queue := PopAll(s.queue, s.ready), server := Idle, pops := s.pops + 1));
  }

  lemma CanPop(c: Config, s: State)
    requires c.Valid() && Inv(c, s) && s.server == Popping
    ensures s.ready >= 0 && StepsAbove(s.queue, 0)
  {
    StepsKept(c.start, s.pops, c.lookahead);
    hide Live, Holding, ThreadTrace, WorkerInv;
  }

  lemma {:induction false} InStep(c: Config, k: nat) returns (run: seq<State>)
    requires c.Valid()
    ensures Run(c, run) && Last(run).server == Idle && Rested(c, Last(run), 0, k)
  {
    if k == 0 {
      run := [Initial(c)];
    } else {
      hide Run, Rested, Time, Init, Live, StepsAbove;
      run := InStep(c, k - 1);
      run := Announced(c, run, k - 1);
      run := AllRound(c, run, 0, k - 1);
      AllReached(c, Last(run), k - 1);
      run := FinishScan(c, run);
      SameWorkers(c, Last(run), k - 1);
      run := Requeued(c, run, k - 1);
    }
  }

  lemma AllReached(c: Config, s: State, k: nat)
    requires |c.start| > 0 && Rested(c, s, c.threads, k) && s.ready == Time(c.start, k)
    ensures |s.workers| == c.threads && AllDone(s)
  {
    hide Time;
    forall w | 0 <= w < c.threads ensures s.workers[w].done >= s.ready {
      assert AtRest(c, s.workers[w], k + 1);
    }
  }

  lemma SameWorkers(c: Config, s: State, k: nat)
    requires |c.start| > 0
    ensures forall t: State | t.workers == s.workers && t.pops == s.pops && Rested(c, t, c.threads, k) :: Rested(c, s, c.threads, k)
  {
  }

  // ---------------------------------------------------------------------------------------------------------
  // Running ahead

  /** From tick `m` on, a worker makes all ticks up to `n`, while the announced time stays that of tick `k`. */
  lemma GoesOn(c: Config, run: seq<State>, w: nat, k: nat, m: nat, n: nat) returns (longer: seq<State>)
    requires c.Valid() && Run(c, run) && w < c.threads && w < |Last(run).workers| && k <= m <= n
    requires Last(run).server.Scanning? && Last(run).ready == Time(c.start, k) && Last(run).pops == k
    requires var wk := Last(run).workers[w]; wk.pc == Waiting && wk.ticks == m && wk.failed != Last(run).ready
    requires Time(c.start, n) <= Time(c.start, k) + c.lookahead
    requires forall i | m <= i < n :: HasCalls(c, i, w)
    ensures Run(c, longer) && run <= longer && w < |Last(longer).workers|
    ensures Last(longer) == Last(run).(workers := Last(run).workers[w := Last(longer).workers[w]])
    ensures Last(longer).workers[w].pc == Waiting && Last(longer).workers[w].ticks == n + 1
    decreases n - m
  {
    hide Run, Time, HasCalls, Live, StepsAbove;
    TimeMonotone(c.start, m, n);
    longer := Round(c, run, w);
    if m < n {
      longer := GoesOn(c, longer, w, k, m + 1, n);
    }
  }

  /** A worker that has something to do in each of the ticks from `k` on makes them all, up to the last one within the
      lookahead, although the server has not requeued tick `k` and no other worker has made it. */
  lemma RunsAhead(c: Config, k: nat, n: nat, w: nat) returns (run: seq<State>)
    requires c.Valid() && w < c.threads && k <= n && Time(c.start, n) <= Time(c.start, k) + c.lookahead
    requires forall i | k <= i < n :: HasCalls(c, i, w)
    ensures Run(c, run) && Last(run).pops == k && |Last(run).workers| == c.threads
    ensures Last(run).workers[w].trace == ThreadTrace(c.start, n + 1, w)
    ensures forall v | 0 <= v < c.threads && v != w :: Last(run).workers[v].trace == ThreadTrace(c.start, k, v)
  {
    hide Run, Time, HasCalls, Live, StepsAbove, ThreadTrace, Inv;
    run := InStep(c, k);
    run := Announced(c, run, k);
    BeforeNext(c, k);
    assert AtRest(c, Last(run).workers[w], k);
    ghost var before := Last(run);
    run := GoesOn(c, run, w, k, k, n);
    RunInv(c, run);
    forall v | 0 <= v < c.threads
      ensures Last(run).workers[v].trace == ThreadTrace(c.start, if v == w then n + 1 else k, v)
    {
      assert AtRest(c, before.workers[v], k);
      RestTrace(c, Last(run), v);
    }
  }

  // ---------------------------------------------------------------------------------------------------------
  // Waiting

  /** What a worker has done since it passed the wait test at announced time `ready`, when its trace was `before`. */
  ghost predicate SincePass(wk: Worker, ready: int, before: seq<Call>) {
    || |wk.trace| > |before|
    || (wk.trace == before && (wk.pc == Passed || (wk.failed == ready && (wk.pc == Running ==> !wk.worked))))
  }

  lemma StepSincePass(c: Config, s: State, a: Action, t: State, w: nat, before: seq<Call>)
    requires Step(c, s, a, t) && w < |s.workers| && SincePass(s.workers[w], s.ready, before) && t.ready == s.ready
    ensures w < |t.workers| && SincePass(t.workers[w], s.ready, before)
  {
    hide ScanAhead, AtTime, MyModules, MyMatchers, IdList, PopAll, StepsAbove, CycleOf;
  }

  lemma {:induction false} StillSincePass(c: Config, run: seq<State>, w: nat, i: nat, j: nat, before: seq<Call>)
    requires Run(c, run) && i <= j < |run| && w < |run[i].workers| && SincePass(run[i].workers[w], run[i].ready, before)
    requires forall m | i <= m <= j :: run[m].ready == run[i].ready
    ensures w < |run[j].workers| && SincePass(run[j].workers[w], run[i].ready, before)
  {
    hide Step, Init, SincePass;
    if i < j {
      StillSincePass(c, run, w, i, j - 1, before);
      assert Next(c, run[j - 1], run[j - 1 + 1]);
      var a :| Step(c, run[j - 1], a, run[j]);
      StepSincePass(c, run[j - 1], a, run[j], w, before);
    }
  }

  /** A worker does not search twice in vain: between two passages of the wait test at the same announced time it has run a
      callback. */
  lemma NoIdleRetry(c: Config, run: seq<State>, w: nat, i: nat, j: nat)
    requires Run(c, run) && i < j && j + 1 < |run| && w < |run[i].workers| && w < |run[j].workers|
    requires forall m | i <= m <= j :: run[m].ready == run[i].ready
    requires Step(c, run[i], Pass(w), run[i + 1]) && Step(c, run[j], Pass(w), run[j + 1])
    ensures |run[i].workers[w].trace| < |run[j].workers[w].trace|
  {
    hide Init;
    StillSincePass(c, run, w, i + 1, j, run[i].workers[w].trace);
  }
}
