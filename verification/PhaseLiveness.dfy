/** Infinite runs of the phase-flip barrier: under every scheduling each wait ends and every tick is made. */
module PhaseLiveness {
  import opened BasicThreaded
  import opened PhaseBarrier
  import opened Schedule

  /** An infinite run, given by its states and the steps between them. Nothing is asked of the scheduler: a waiting
      server has no step to make, and every step of a worker leaves less work. */
  ghost predicate Endless(c: Config, run: nat -> State, acts: nat -> Action) {
    && Init(c, run(0))
    && forall i: nat :: Step(run(i), acts(i), run(i + 1))
  }

  lemma {:induction false} InvAt(c: Config, run: nat -> State, acts: nat -> Action, i: nat)
    requires c.Valid() && Endless(c, run, acts)
    ensures Inv(c, run(i))
  {
    hide Inv, Step, Init;
    if i == 0 {
      InitInv(c, run(0));
    } else {
      InvAt(c, run, acts, i - 1);
      StepKeeps(c, run(i - 1), acts(i - 1), run(i));
    }
  }

  /** How far the server has come in a tick. */
  function Stage(s: State): nat {
    match s.server
    case Idle => 4
    case Assigning(_) => 3
    case Counted => 2
    case Waiting => 1
    case Readding => 0
  }

  /** What is left to do in this stage. */
  function Left(s: State): nat {
    match s.server
    case Assigning(n) => if n <= |Calls(s.clocked)| then |Calls(s.clocked)| - n else 0
    case Waiting => TotalWork(s.workers, s.phase)
    case _ => 0
  }

  /** Every step completes the tick or brings it closer to its end. */
  lemma StepProgress(c: Config, s: State, a: Action, t: State)
    requires c.Valid() && Inv(c, s) && Step(s, a, t)
    ensures t.ticks == s.ticks + 1 ||
            (t.ticks == s.ticks && (Stage(t) < Stage(s) || (Stage(t) == Stage(s) && Left(t) < Left(s))))
  {
    hide Live, After, SeenTrace, Told, Below, AtWork, Due, NotDue, TotalWork, Work, Calls, Requeue, WorkerInv;
    if !ByServer(a) {
      MovesInWait(c, s, a);
      WorkerKeeps(c, s, a, s.workers[a.w]);
      WorkUpdate(s.workers, a.w, t.workers[a.w], s.phase);
    }
  }

  /** From every point of an endless run the tick comes to its end. */
  lemma TickMade(c: Config, run: nat -> State, acts: nat -> Action, i: nat) returns (m: nat)
    requires c.Valid() && Endless(c, run, acts)
    ensures m > i && run(m).ticks == run(i).ticks + 1
    decreases Stage(run(i)), Left(run(i))
  {
    hide Inv, Step, Init, Stage, Left;
    InvAt(c, run, acts, i);
    StepProgress(c, run(i), acts(i), run(i + 1));
    m := i + 1;
    if run(m).ticks == run(i).ticks {
      m := TickMade(c, run, acts, m);
    }
  }

  /** Under every scheduling a wait ends. */
  lemma WaitOver(c: Config, run: nat -> State, acts: nat -> Action, i: nat) returns (m: nat)
    requires c.Valid() && Endless(c, run, acts) && run(i).server == Waiting
    ensures m > i && run(m).server == Readding && run(m).ticks == run(i).ticks
    decreases Left(run(i))
  {
    hide Inv, Init, Left, Stage;
    InvAt(c, run, acts, i);
    StepProgress(c, run(i), acts(i), run(i + 1));
    StagesInOrder(run(i), acts(i), run(i + 1));
    m := i + 1;
    if run(m).server == Waiting {
      m := WaitOver(c, run, acts, m);
    }
  }

  lemma StagesInOrder(s: State, a: Action, t: State)
    requires Step(s, a, t) && s.server == Waiting
    ensures t.ticks == s.ticks && Stage(s) == 1
    ensures t.server == Readding || (t.server == Waiting && Stage(t) == 1)
  {
  }

  lemma StartState(c: Config, run: nat -> State, acts: nat -> Action)
    requires Endless(c, run, acts)
    ensures run(0).ticks == 0 && run(0).server == Idle
  {
  }

  /** A tick is over when the server is idle again. */
  lemma TickStarts(s: State, a: Action, t: State)
    requires Step(s, a, t) && t.ticks != s.ticks
    ensures t.server == Idle
  {
  }

  lemma {:induction false} TicksMade(c: Config, run: nat -> State, acts: nat -> Action, n: nat) returns (m: nat)
    requires c.Valid() && Endless(c, run, acts)
    ensures run(m).ticks == n && run(m).server == Idle
  {
    hide Step, Init;
    if n == 0 {
      m := 0;
      StartState(c, run, acts);
    } else {
      m := TicksMade(c, run, acts, n - 1);
      m := TickMade(c, run, acts, m);
      m := FirstOf(c, run, acts, m);
    }
  }

  /** The point at which a tick that is made at `i` was completed. */
  lemma {:induction false} FirstOf(c: Config, run: nat -> State, acts: nat -> Action, i: nat) returns (m: nat)
    requires c.Valid() && Endless(c, run, acts)
    ensures m <= i && run(m).ticks == run(i).ticks && run(m).server == Idle
  {
    hide Step, Init;
    m := i;
    if i == 0 {
      StartState(c, run, acts);
    } else if run(i - 1).ticks == run(i).ticks {
      m := FirstOf(c, run, acts, i - 1);
    } else {
      assert Step(run(i - 1), acts(i - 1), run(i - 1 + 1));
      TickStarts(run(i - 1), acts(i - 1), run(i));
    }
  }

  /** Under every scheduling every tick is made: for every number `n` there is a point between ticks at which the server's
      list is that of the sequential clock after `n` ticks, and every worker has made exactly its part of them. */
  lemma EveryTickMade(c: Config, run: nat -> State, acts: nat -> Action, n: nat) returns (m: nat)
    requires c.Valid() && Endless(c, run, acts)
    ensures run(m).server == Idle && run(m).ticks == n && run(m).list == After(c.start, n) && |run(m).workers| == c.threads
    ensures forall w | 0 <= w < c.threads :: run(m).workers[w].trace == SeenTrace(c.start, n, w)
  {
    m := TicksMade(c, run, acts, n);
    InvAt(c, run, acts, m);
    hide Endless, Live, After, SeenTrace, Told, Below;
    forall w | 0 <= w < c.threads ensures run(m).workers[w].trace == SeenTrace(c.start, n, w) {
      assert WorkerInv(c, run(m), run(m).workers[w], w);
    }
  }

  // ---------------------------------------------------------------------------------------------------------
  // Endless runs exist


  ghost function NextOf(c: Config, s: State): (next: (Action, State))
    requires c.Valid() && Inv(c, s)
    ensures Step(s, next.0, next.1) && Inv(c, next.1)
  {
    SomeStep(c, s);
    var a, t :| Step(s, a, t);
    StepKeeps(c, s, a, t);
    (a, t)
  }

  lemma SomeStep(c: Config, s: State)
    requires c.Valid() && Inv(c, s)
    ensures exists a, t :: Step(s, a, t)
  {
    hide Inv, Step;
    var a, t := CanMove(c, s);
  }

  ghost function RunAt(c: Config, first: State, i: nat): (s: State)
    requires c.Valid() && Init(c, first)
    ensures Inv(c, s)
  {
    if i == 0 then
      InitInv(c, first);
      first
    else
      NextOf(c, RunAt(c, first, i - 1)).1
  }

  /** From every initial state of a valid configuration an endless run starts. */
  lemma EndlessRunExists(c: Config, first: State) returns (run: nat -> State, acts: nat -> Action)
    requires c.Valid() && Init(c, first)
    ensures Endless(c, run, acts) && run(0) == first
  {
    hide Init, Step, Inv;
    run, acts := (i: nat) => RunAt(c, first, i), (i: nat) => NextOf(c, RunAt(c, first, i)).0;
    forall i: nat ensures Step(run(i), acts(i), run(i + 1)) {
      assert RunAt(c, first, i + 1) == run(i + 1);
    }
  }
}
