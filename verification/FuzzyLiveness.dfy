/** Liveness of the fuzzy barrier: under a fair scheduler the server never waits for ever, and every tick is made. */
module FuzzyLiveness {
  import opened Schedule
  import opened FuzzyBarrier

  /** An infinite run, given by its states and the steps between them. */
  ghost predicate Endless(c: Config, run: nat -> State, acts: nat -> Action) {
    && Init(c, run(0))
    && forall i: nat :: Step(c, run(i), acts(i), run(i + 1))
  }

  predicate OfServer(a: Action) {
    a.Announce? || a.ReadDone? || a.Pop?
  }

  predicate OfWorker(a: Action, w: nat) {
    !OfServer(a) && a.w == w
  }

  ghost predicate WorkerCanMove(c: Config, s: State, w: nat) {
    w < |s.workers| && exists a :: OfWorker(a, w) && WorkerEnabled(c, s, a, s.workers[w])
  }

  ghost predicate ServerCanMove(c: Config, s: State) {
    exists a, t :: OfServer(a) && Step(c, s, a, t)
  }

  /** Worker `w` moves at `j`, or cannot. */
  ghost predicate WorkerTurn(c: Config, run: nat -> State, acts: nat -> Action, w: nat, j: nat) {
    OfWorker(acts(j), w) || !WorkerCanMove(c, run(j), w)
  }

  ghost predicate ServerTurn(c: Config, run: nat -> State, acts: nat -> Action, j: nat) {
    OfServer(acts(j)) || !ServerCanMove(c, run(j))
  }

  ghost predicate WorkerTurnLater(c: Config, run: nat -> State, acts: nat -> Action, w: nat, i: nat) {
    exists j: nat :: i <= j && WorkerTurn(c, run, acts, w, j)
  }

  ghost predicate ServerTurnLater(c: Config, run: nat -> State, acts: nat -> Action, i: nat) {
    exists j: nat :: i <= j && ServerTurn(c, run, acts, j)
  }

  /** Nobody can make a step all the time from some point on without making one. */
  ghost predicate Fair(c: Config, run: nat -> State, acts: nat -> Action) {
    && (forall w: nat, i: nat | w < c.threads :: WorkerTurnLater(c, run, acts, w, i))
    && (forall i: nat :: ServerTurnLater(c, run, acts, i))
  }

  lemma {:induction false} InvAt(c: Config, run: nat -> State, acts: nat -> Action, i: nat)
    requires c.Valid() && Endless(c, run, acts)
    ensures Inv(c, run(i))
  {
    hide Inv, Step, Init;
    if i == 0 {
      InitInv(c, run(0));
    } else {
      InvAt(c, run, acts, i - 1);
      StepKeeps(c, run(i - 1), acts(i - 1), run(i));
    }
  }

  // ---------------------------------------------------------------------------------------------------------
  // While the server does not finish its wait

  /** The announced time stays, and no worker falls back. */
  ghost predicate Onwards(s: State, t: State) {
    && t.ready == s.ready && t.pops == s.pops && t.queue == s.queue && |t.workers| == |s.workers|
    && forall w | 0 <= w < |s.workers| :: t.workers[w].done >= s.workers[w].done
  }

  /** A step of a worker, or of the server's scan. */
  lemma StepOnwards(c: Config, s: State, a: Action, t: State)
    requires c.Valid() && Inv(c, s) && Step(c, s, a, t) && !a.Announce? && !a.Pop?
    ensures Onwards(s, t)
    ensures if OfServer(a) then s.server.Scanning? && !t.server.Idle? && t.workers == s.workers else
              && t.server == s.server && a.w < |s.workers| && WorkerEnabled(c, s, a, s.workers[a.w])
              && t == s.(workers := s.workers[a.w := WorkerStep(c, s, a, s.workers[a.w])])
  {
    hide After, Time, Live, StepsAbove, Holding, ThreadTrace, ScanAhead, AtTime, MyModules, MyMatchers, IdList;
    if !OfServer(a) {
      InvWorker(c, s, a.w);
    }
  }

  lemma WaitStep(c: Config, s: State, a: Action, t: State)
    requires Step(c, s, a, t) && s.server.Scanning?
    ensures !a.Announce? && !a.Pop?
  {
  }

  /** A worker that lags behind makes its next step, unless the wait ends before. */
  lemma LaggardMoves(c: Config, run: nat -> State, acts: nat -> Action, w: nat, i: nat, j: nat) returns (m: nat)
    requires c.Valid() && Endless(c, run, acts) && w < c.threads && i <= j && WorkerTurn(c, run, acts, w, j)
    requires run(i).server.Scanning? && w < |run(i).workers| && run(i).workers[w].done < run(i).ready
    ensures m >= i && Onwards(run(i), run(m)) && !run(m).server.Idle?
    ensures run(m).server.Scanning? ==>
              || run(m).workers[w].done >= run(i).ready
              || Closer(run(i).ready, run(m).workers[w], run(i).workers[w])
    decreases j - i
  {
    hide Inv, Step, Closer, WorkerEnabled, WorkerStep;
    var s, a, t := run(i), acts(i), run(i + 1);
    InvAt(c, run, acts, i);
    WaitStep(c, s, a, t);
    StepOnwards(c, s, a, t);
    m := i + 1;
    if OfWorker(a, w) {
      LaggardProgress(c, s, a);
    } else {
      var b := LaggardEnabled(c, s, w);
      assert WorkerCanMove(c, s, w);
      assert t.workers[w] == s.workers[w];
      if t.server.Scanning? {
        m := LaggardMoves(c, run, acts, w, i + 1, j);
      }
    }
  }

  /** A worker that lags behind reaches the announced time, unless the wait ends before. */
  lemma LaggardArrives(c: Config, run: nat -> State, acts: nat -> Action, w: nat, i: nat) returns (m: nat)
    requires c.Valid() && Endless(c, run, acts) && Fair(c, run, acts) && w < c.threads
    requires run(i).server.Scanning? && w < |run(i).workers|
    ensures m >= i && Onwards(run(i), run(m)) && !run(m).server.Idle?
    ensures run(m).server.Scanning? ==> run(m).workers[w].done >= run(i).ready
    decreases Stale(run(i).ready, run(i).workers[w]), Stage(run(i).workers[w]), |run(i).workers[w].todo|
  {
    hide Endless, Stale, Stage, WorkerTurn, ServerTurn;
    m := i;
    if run(i).workers[w].done < run(i).ready {
      assert WorkerTurnLater(c, run, acts, w, i);
      var j: nat :| i <= j && WorkerTurn(c, run, acts, w, j);
      m := LaggardMoves(c, run, acts, w, i, j);
      if run(m).server.Scanning? && run(m).workers[w].done < run(i).ready {
        m := LaggardArrives(c, run, acts, w, m);
      }
    }
  }

  lemma AllArrive(c: Config, run: nat -> State, acts: nat -> Action, w: nat, i: nat) returns (m: nat)
    requires c.Valid() && Endless(c, run, acts) && Fair(c, run, acts) && w <= c.threads
    requires run(i).server.Scanning? && |run(i).workers| == c.threads && DoneBelow(run(i), w)
    ensures m >= i && Onwards(run(i), run(m)) && !run(m).server.Idle?
    ensures run(m).server.Scanning? ==> AllDone(run(m))
    decreases c.threads - w
  {
    hide Endless, Fair;
    if w == c.threads {
      m := i;
    } else {
      m := LaggardArrives(c, run, acts, w, i);
      if run(m).server.Scanning? {
        m := AllArrive(c, run, acts, w + 1, m);
      }
    }
  }

  // ---------------------------------------------------------------------------------------------------------
  // The server's own steps

  lemma ServerEnabled(c: Config, s: State)
    requires c.Valid() && Inv(c, s)
    ensures ServerCanMove(c, s)
  {
    ServerReady(c, s);
    hide Inv, WorkerInv, StepsAbove;
    var a, t := ServerStep(s);
    assert Step(c, s, a, t);
  }

  lemma ServerReady(c: Config, s: State)
    requires c.Valid() && Inv(c, s)
    ensures |s.queue| > 0 && StepsAbove(s.queue, 0) && (s.server.Popping? ==> s.ready >= 0)
    ensures s.server.Scanning? ==> s.server.next < |s.workers|
  {
    StepsKept(c.start, s.pops, c.lookahead);
    hide Live, Holding, ThreadTrace, WorkerInv;
  }

  lemma ServerStep(s: State) returns (a: Action, t: State)
    requires |s.queue| > 0 && StepsAbove(s.queue, 0) && (s.server.Popping? ==> s.ready >= 0)
    requires s.server.Scanning? ==> s.server.next < |s.workers|
    ensures OfServer(a) && forall c :: Step(c, s, a, t)
  {
    hide StepsAbove, PopAll;
    match s.server
    case Idle =>
      a, t := Announce, s.(ready := s.queue[0].base, server := Scanning(0, 0));
    case Scanning(i, l) =>
      var d := s.workers[i].done;
      var low := if i == 0 || d < l then d else l;
      a := ReadDone;
      t := s.(server := if i + 1 < |s.workers| then Scanning(i + 1, low)
                        else if low < s.ready then Scanning(0, low) else Popping);
    case Popping =>
      a, t := Pop, s.(queue := PopAll(s.queue, s.ready), server := Idle, pops := s.pops + 1);
  }

  /** The server makes its next step; until then only workers move. */
  lemma ServerMoves(c: Config, run: nat -> State, acts: nat -> Action, i: nat, j: nat) returns (m: nat)
    requires c.Valid() && Endless(c, run, acts) && i <= j && ServerTurn(c, run, acts, j)
    ensures m >= i && Onwards(run(i), run(m)) && run(m).server == run(i).server && OfServer(acts(m))
    decreases j - i
  {
    hide Inv, Step, WorkerEnabled, WorkerStep, ServerCanMove;
    InvAt(c, run, acts, i);
    m := i;
    if !OfServer(acts(i)) {
      ServerEnabled(c, run(i));
      StepOnwards(c, run(i), acts(i), run(i + 1));
      m := ServerMoves(c, run, acts, i + 1, j);
    }
  }

  lemma NextTurn(c: Config, run: nat -> State, acts: nat -> Action, i: nat) returns (m: nat)
    requires c.Valid() && Endless(c, run, acts) && Fair(c, run, acts)
    ensures m >= i && Onwards(run(i), run(m)) && run(m).server == run(i).server && OfServer(acts(m))
    ensures Inv(c, run(m)) && Step(c, run(m), acts(m), run(m + 1))
  {
    hide Inv, Step, ServerTurn, WorkerTurn;
    assert ServerTurnLater(c, run, acts, i);
    var j: nat :| i <= j && ServerTurn(c, run, acts, j);
    m := ServerMoves(c, run, acts, i, j);
    InvAt(c, run, acts, m);
  }

  /** Once all workers have caught up, the scan finds out. */
  lemma ScanEnds(c: Config, run: nat -> State, acts: nat -> Action, i: nat) returns (m: nat)
    requires c.Valid() && Endless(c, run, acts) && Fair(c, run, acts)
    requires run(i).server.Scanning? && run(i).server.next < c.threads && |run(i).workers| == c.threads && AllDone(run(i))
    ensures m >= i && Onwards(run(i), run(m)) && run(m).server == Popping
    decreases var s := run(i).server; if s.next > 0 && s.low < run(i).ready then 1 else 0, c.threads - run(i).server.next
  {
    hide Endless, Fair, Inv;
    m := NextTurn(c, run, acts, i);
    m := m + 1;
    if run(m).server != Popping {
      m := ScanEnds(c, run, acts, m);
    }
  }

  /** Under a fair scheduler no wait is endless: the server comes to requeue the registries of the announced time. */
  lemma WaitEnds(c: Config, run: nat -> State, acts: nat -> Action, i: nat) returns (m: nat)
    requires c.Valid() && Endless(c, run, acts) && Fair(c, run, acts) && run(i).server.Scanning?
    ensures m >= i && run(m).server == Popping && run(m).ready == run(i).ready && run(m).pops == run(i).pops
  {
    hide Endless, Fair;
    InvAt(c, run, acts, i);
    m := AllArrive(c, run, acts, 0, i);
    InvAt(c, run, acts, m);
    if run(m).server.Scanning? {
      m := ScanEnds(c, run, acts, m);
    }
  }

  /** From every point of a fair run, the server's list advances by another tick. */
  lemma TickMade(c: Config, run: nat -> State, acts: nat -> Action, i: nat) returns (m: nat)
    requires c.Valid() && Endless(c, run, acts) && Fair(c, run, acts)
    ensures m >= i && run(m).pops == run(i).pops + 1
  {
    hide Endless, Fair, Inv;
    m := i;
    if run(m).server == Idle {
      m := NextTurn(c, run, acts, m);
      m := m + 1;
    }
    if run(m).server.Scanning? {
      m := WaitEnds(c, run, acts, m);
    }
    m := NextTurn(c, run, acts, m);
    m := m + 1;
  }

  lemma {:induction false} EarlierTicks(q: seq<Reg>, n: nat, k: nat, w: nat)
    requires |q| > 0 && n <= k
    ensures ThreadTrace(q, n, w) <= ThreadTrace(q, k, w)
  {
    hide ThreadTrace, After, TickCalls, Restrict;
    if n < k {
      EarlierTicks(q, n, k - 1, w);
      ThreadTraceStep(q, k - 1, w);
    }
  }

  lemma TicksDone(c: Config, s: State, w: nat)
    requires c.Valid() && Inv(c, s) && w < c.threads
    ensures w < |s.workers| && ThreadTrace(c.start, s.pops, w) <= s.workers[w].trace
  {
    InvWorker(c, s, w);
    EarlierTicks(c.start, s.pops, s.workers[w].ticks, w);
    hide After, Live, StepsAbove, Trace, Time, ThreadTrace;
  }

  lemma StartState(c: Config, run: nat -> State, acts: nat -> Action)
    requires Endless(c, run, acts)
    ensures run(0).pops == 0
  {
  }

  lemma {:induction false} TicksMade(c: Config, run: nat -> State, acts: nat -> Action, n: nat) returns (m: nat)
    requires c.Valid() && Endless(c, run, acts) && Fair(c, run, acts)
    ensures run(m).pops == n
  {
    hide Fair, Endless;
    if n == 0 {
      m := 0;
      StartState(c, run, acts);
    } else {
      m := TicksMade(c, run, acts, n - 1);
      m := TickMade(c, run, acts, m);
    }
  }

  /** Under a fair scheduler every tick is made: for every number `n` there is a point at which the server's list is that of
      the sequential clock after `n` ticks, and every worker has made its part of all of them. */
  lemma EveryTickMade(c: Config, run: nat -> State, acts: nat -> Action, n: nat) returns (m: nat)
    requires c.Valid() && Endless(c, run, acts) && Fair(c, run, acts)
    ensures run(m).pops == n && run(m).queue == After(c.start, n) && |run(m).workers| == c.threads
    ensures forall w | 0 <= w < c.threads :: ThreadTrace(c.start, n, w) <= run(m).workers[w].trace
  {
    hide Fair, Endless, Inv, ThreadTrace, After, WorkerInv;
    m := TicksMade(c, run, acts, n);
    InvAt(c, run, acts, m);
    forall w | 0 <= w < c.threads
      ensures w < |run(m).workers| && ThreadTrace(c.start, n, w) <= run(m).workers[w].trace
    {
      TicksDone(c, run(m), w);
    }
    InvWorker(c, run(m), 0);
  }

  // ---------------------------------------------------------------------------------------------------------
  // Fair runs exist

  ghost predicate CanStep(c: Config, s: State, a: Action) {
    exists t :: Step(c, s, a, t)
  }

  /** Round robin: the step of worker `k`, if it can make one, and otherwise of the server. */
  ghost function Chosen(c: Config, s: State, k: nat): (a: Action)
    requires c.Valid() && Inv(c, s)
    ensures CanStep(c, s, a)
    ensures if k < c.threads && WorkerCanMove(c, s, k) then OfWorker(a, k) else OfServer(a)
  {
    ServerEnabled(c, s);
    if k < c.threads && WorkerCanMove(c, s, k) then
      var a :| OfWorker(a, k) && WorkerEnabled(c, s, a, s.workers[k]);
      StepOf(c, s, a);
      a
    else
      var a, t :| OfServer(a) && Step(c, s, a, t);
      a
  }

  lemma StepOf(c: Config, s: State, a: Action)
    requires !OfServer(a) && a.w < |s.workers| && WorkerEnabled(c, s, a, s.workers[a.w])
    ensures CanStep(c, s, a)
  {
    assert Step(c, s, a, s.(workers := s.workers[a.w := WorkerStep(c, s, a, s.workers[a.w])]));
  }

  /** Whose turn it is at step `i`: the workers take turns with the server, which has the last number. */
  function Whose(threads: nat, i: nat): (k: nat)
    ensures k <= threads
  {
    if i == 0 || Whose(threads, i - 1) == threads then 0 else Whose(threads, i - 1) + 1
  }

  lemma TurnOf(threads: nat, k: nat, i: nat) returns (j: nat)
    requires k <= threads
    ensures i <= j && Whose(threads, j) == k
  {
    j := i;
    while Whose(threads, j) != k
      invariant i <= j
      decreases k + (if Whose(threads, j) > k then threads + 1 else 0) - Whose(threads, j)
    {
      j := j + 1;
    }
  }

  ghost function RunAt(c: Config, i: nat): (s: State)
    requires c.Valid()
    ensures Inv(c, s)
  {
    if i == 0 then
      InitInv(c, Initial(c));
      Initial(c)
    else
      var s := RunAt(c, i - 1);
      var a := Chosen(c, s, Whose(c.threads, i - 1));
      var t :| Step(c, s, a, t);
      StepKeeps(c, s, a, t);
      t
  }

  ghost function ActAt(c: Config, i: nat): Action
    requires c.Valid()
  {
    Chosen(c, RunAt(c, i), Whose(c.threads, i))
  }

  lemma StepAt(c: Config, i: nat)
    requires c.Valid()
    ensures Step(c, RunAt(c, i), ActAt(c, i), RunAt(c, i + 1))
  {
    hide Step, Inv, Init;
  }

  lemma TurnAt(c: Config, i: nat)
    requires c.Valid()
    ensures var k := Whose(c.threads, i);
            if k < c.threads then OfWorker(ActAt(c, i), k) || !WorkerCanMove(c, RunAt(c, i), k) else OfServer(ActAt(c, i))
  {
    hide Step, Inv, Init, WorkerCanMove;
  }

  /** Every valid configuration has an endless fair run. */
  lemma FairRunExists(c: Config) returns (run: nat -> State, acts: nat -> Action)
    requires c.Valid()
    ensures Endless(c, run, acts) && Fair(c, run, acts)
  {
    assert Init(c, RunAt(c, 0));
    hide Init, Step, Inv, WorkerCanMove, ServerCanMove, RunAt, ActAt, OfWorker, OfServer;
    run, acts := (i: nat) => RunAt(c, i), (i: nat) => ActAt(c, i);
    forall i: nat ensures Step(c, run(i), acts(i), run(i + 1)) {
      StepAt(c, i);
    }
    forall w: nat, i: nat | w < c.threads ensures WorkerTurnLater(c, run, acts, w, i) {
      var j := TurnOf(c.threads, w, i);
      TurnAt(c, j);
      assert WorkerTurn(c, run, acts, w, j);
    }
    forall i: nat ensures ServerTurnLater(c, run, acts, i) {
      var j := TurnOf(c.threads, c.threads, i);
      TurnAt(c, j);
      assert ServerTurn(c, run, acts, j);
    }
  }
}
