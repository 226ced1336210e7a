/** Dynamic scheduling: pthreads switch between tasks that are protected by one lock each. A pthread looks for another
    task with try-locks, in round-robin order; what it does with a task that it has locked depends on the scheduler.
    The switch is a step relation over any number of pthreads and tasks; whether a task is ready or done, and the time
    of its next event, are whatever the environment says at the moment of the reading. */
module TaskOwnership {
  import opened Arithmetic

  datatype Kind = Simple | ReadyToRun | ReadyOrEarliest

  /** `kinds` gives the scheduler that each pthread uses; pthread number `main` is the main thread. */
  datatype Config = Config(tasks: nat, kinds: seq<Kind>, main: nat)

  /** The variables of a search: it is at position `i` of a round that starts at `offset`. */
  datatype Search = Search(offset: nat, i: nat, retries: nat, minTime: int, minIndex: Option<nat>)

  /** Where a pthread is. `Probing` has just locked a task; `Rejecting` and `Unlocking` give it up again; `Dropping`,
      `Freeing`, `Taking` and `Activating` exchange the current task for it. */
  datatype Pc =
    | Outside
    | Looking(s: Search)
    | Probing(s: Search, t: nat)
    | Rejecting(s: Search, t: nat)
    | Unlocking(s: Search, t: nat)
    | Dropping(t: nat)
    | Freeing(t: nat)
    | Taking(t: nat)
    | Activating(t: nat)
    | Releasing
    | Clearing

  datatype Pthread = Pthread(pc: Pc, task: Option<nat>)

  /** `owner` says who has locked a task; `active` and `thread` are the task's own record of who runs it. */
  datatype Tasks = Tasks(owner: seq<Option<nat>>, active: seq<bool>, thread: seq<nat>)

  datatype State = State(tasks: Tasks, seed: nat, pthreads: seq<Pthread>)

  /** `time` and `ready` are readings of the environment; `later` is a second reading of the same time. */
  datatype Action =
    | Start(p: nat, time: int)
    | Probe(p: nat)
    | Observe(p: nat, ready: bool, time: int, later: int)
    | Reject(p: nat)
    | Unlock(p: nat)
    | EndRound(p: nat, time: int)
    | Drop(p: nat)
    | Free(p: nat)
    | Take(p: nat)
    | Activate(p: nat)
    | Release(p: nat)
    | Clear(p: nat)
    | Forget(p: nat)

  const WRAP := 0x1_0000_0000

  /** The task that is next in the search; the sum wraps around at 32 bits. */
  function Index(offset: nat, i: nat, tasks: nat): (t: nat)
    requires tasks > 0
    ensures t < tasks
  {
    (i + offset) % WRAP % tasks
  }

  ghost predicate Init(c: Config, s: State) {
    && |s.tasks.owner| == |s.tasks.active| == |s.tasks.thread| == c.tasks && s.seed < WRAP
    && (forall t | 0 <= t < c.tasks :: s.tasks.owner[t] == None && !s.tasks.active[t])
    && |s.pthreads| == |c.kinds| && forall p | 0 <= p < |c.kinds| :: s.pthreads[p] == Pthread(Outside, None)
  }

  predicate Enabled(c: Config, a: Action, pc: Pc) {
    match a
    case Start(_, _) => pc == Outside
    case Probe(_) => pc.Looking? && pc.s.i < c.tasks
    case Observe(_, _, _, _) => pc.Probing?
    case Reject(_) => pc.Rejecting?
    case Unlock(_) => pc.Unlocking?
    case EndRound(_, _) => pc.Looking? && pc.s.i >= c.tasks
    case Drop(_) => pc.Dropping?
    case Free(_) => pc.Freeing?
    case Take(_) => pc.Taking?
    case Activate(_) => pc.Activating?
    case Release(p) => pc == Outside && p == c.main
    case Clear(_) => pc == Releasing
    case Forget(_) => pc == Clearing
  }

  /** What a locked task is good for: the simple scheduler takes it, the others take it if it is ready or done; the
      last one remembers the earliest of those it gives up. */
  function Judge(kind: Kind, s: Search, t: nat, ready: bool, time: int, later: int): Pc {
    if kind == Simple || ready then Dropping(t)
    else if kind == ReadyOrEarliest && time < s.minTime then Rejecting(s.(minTime := later, minIndex := Some(t)), t)
    else Rejecting(s, t)
  }

  /** After a round without success, only the last scheduler goes on, from the earliest task it has seen. */
  function NextRound(kind: Kind, s: Search, time: int): Pc {
    if kind == ReadyOrEarliest && s.minIndex.Some? && s.retries > 1 then
      Looking(Search(s.minIndex.value, 0, s.retries - 1, time, None))
    else Outside
  }

  function Tried(s: Search): Pc {
    Looking(s.(i := s.i + 1))
  }

  /** Whether a try-lock of the next task is made and succeeds. */
  predicate Locks(c: Config, wk: Pthread, m: Tasks)
    requires wk.pc.Looking? && c.tasks > 0 && |m.owner| == c.tasks
  {
    var t := Index(wk.pc.s.offset, wk.pc.s.i, c.tasks);
    wk.task != Some(t) && m.owner[t] == None
  }

  /** The acting pthread's variables after a step. */
  function Moved(c: Config, s: State, a: Action, wk: Pthread): Pthread
    requires a.p < |c.kinds| && |s.tasks.owner| == c.tasks && Enabled(c, a, wk.pc)
  {
    match a
    case Start(_, time) => wk.(pc := Looking(Search(s.seed, 0, 10, time, None)))
    case Probe(_) =>
      if Locks(c, wk, s.tasks) then wk.(pc := Probing(wk.pc.s, Index(wk.pc.s.offset, wk.pc.s.i, c.tasks)))
      else wk.(pc := Tried(wk.pc.s))
    case Observe(p, ready, time, later) => wk.(pc := Judge(c.kinds[p], wk.pc.s, wk.pc.t, ready, time, later))
    case Reject(_) => wk.(pc := Unlocking(wk.pc.s, wk.pc.t))
    case Unlock(_) => wk.(pc := Tried(wk.pc.s))
    case EndRound(p, time) => wk.(pc := NextRound(c.kinds[p], wk.pc.s, time))
    case Drop(_) => wk.(pc := if wk.task == None then Taking(wk.pc.t) else Freeing(wk.pc.t))
    case Free(_) => wk.(pc := Taking(wk.pc.t))
    case Take(_) => Pthread(Activating(wk.pc.t), Some(wk.pc.t))
    case Activate(_) => wk.(pc := Outside)
    case Release(_) => if wk.task == None then wk else wk.(pc := Releasing)
    case Clear(_) => wk.(pc := Clearing)
    case Forget(_) => Pthread(Outside, None)
  }

  /** The tasks' locks and records after a step. */
  function Changed(c: Config, m: Tasks, a: Action, wk: Pthread): Tasks
    requires InRange(c, m) && Fits(c, wk) && Enabled(c, a, wk.pc)
  {
    match a
    case Probe(p) =>
      if Locks(c, wk, m) then m.(owner := m.owner[Index(wk.pc.s.offset, wk.pc.s.i, c.tasks) := Some(p)]) else m
    case Reject(_) => m.(active := m.active[wk.pc.t := false])
    case Unlock(_) => m.(owner := m.owner[wk.pc.t := None])
    case Drop(_) => if wk.task == None then m else m.(active := m.active[wk.task.value := false])
    case Free(_) => m.(owner := m.owner[wk.task.value := None])
    case Take(p) => m.(thread := m.thread[wk.pc.t := p])
    case Activate(_) => m.(active := m.active[wk.pc.t := true])
    case Release(_) => if wk.task == None then m else m.(active := m.active[wk.task.value := false])
    case Clear(_) => m.(owner := m.owner[wk.task.value := None])
    case _ => m
  }

  ghost predicate Step(c: Config, s: State, a: Action, n: State) {
    && InRange(c, s.tasks) && a.p < |s.pthreads| == |c.kinds|
    && var wk := s.pthreads[a.p];
    && Fits(c, wk) && Enabled(c, a, wk.pc)
    && n == State(Changed(c, s.tasks, a, wk), NextSeed(s.seed, a), s.pthreads[a.p := Moved(c, s, a, wk)])
  }

  function NextSeed(seed: nat, a: Action): nat {
    if a.Start? then (seed + 1) % WRAP else seed
  }

  /** A finite run with its actions: any interleaving of the pthreads from an initial state. */
  ghost predicate Run(c: Config, run: seq<State>, acts: seq<Action>) {
    && |run| == |acts| + 1 && Init(c, run[0])
    && forall i | 0 <= i < |acts| :: Step(c, run[i], acts[i], run[i + 1])
  }

  function Last(run: seq<State>): State
    requires |run| > 0
  {
    run[|run| - 1]
  }

  // ---------------------------------------------------------------------------------------------------------
  // The invariant

  predicate InRange(c: Config, m: Tasks) {
    |m.owner| == |m.active| == |m.thread| == c.tasks
  }

  /** All task numbers that occur are in range, and a pthread that frees or releases has a task. */
  predicate Fits(c: Config, wk: Pthread) {
    && (wk.task.Some? ==> wk.task.value < c.tasks)
    && (Extra(wk.pc).Some? ==> Extra(wk.pc).value < c.tasks)
    && (wk.pc.Activating? ==> wk.task == Some(wk.pc.t))
    && (wk.pc.Freeing? || wk.pc == Releasing ==> wk.task.Some?)
    && (wk.pc.Probing? || wk.pc.Rejecting? || wk.pc.Unlocking? ==> wk.pc.s.i < c.tasks)
  }

  /** The task that a pthread has locked in addition to its current one. */
  function Extra(pc: Pc): Option<nat> {
    if pc.Probing? || pc.Rejecting? || pc.Unlocking? || pc.Dropping? || pc.Freeing? || pc.Taking? then Some(pc.t) else None
  }

  /** Whether the current task is still locked. */
  predicate Keeps(pc: Pc) {
    !pc.Taking? && pc != Clearing
  }

  /** Whether the current task is still marked as active. */
  predicate Marked(pc: Pc) {
    !pc.Freeing? && !pc.Taking? && !pc.Activating? && pc != Releasing && pc != Clearing
  }

  /** What a pthread has locked. */
  predicate Holds(wk: Pthread, t: nat) {
    Extra(wk.pc) == Some(t) || (Keeps(wk.pc) && wk.task == Some(t))
  }

  /** A pthread never locks its current task again. */
  predicate Consistent(wk: Pthread) {
    Extra(wk.pc).Some? ==> wk.task != Extra(wk.pc)
  }

  /** The lock of a task is held by exactly the pthread that knows about it. */
  ghost predicate Owned(m: Tasks, wk: Pthread, t: nat, p: nat)
    requires t < |m.owner|
  {
    m.owner[t] == Some(p) <==> Holds(wk, t)
  }

  /** The record of a task tells the truth: it is active for a pthread exactly if that pthread runs it, and the pthread
      is recorded before the task is marked as active. */
  ghost predicate Recorded(m: Tasks, wk: Pthread, t: nat, p: nat)
    requires t < |m.active| && t < |m.thread|
  {
    && (m.active[t] && m.thread[t] == p <==> Marked(wk.pc) && wk.task == Some(t))
    && (wk.pc.Activating? && wk.pc.t == t ==> m.thread[t] == p)
  }

  ghost predicate OwnerKnown(m: Tasks, t: nat, pthreads: nat)
    requires t < |m.owner| && t < |m.active| && t < |m.thread|
  {
    (m.owner[t].Some? ==> m.owner[t].value < pthreads) && (m.active[t] ==> m.thread[t] < pthreads)
  }

  ghost predicate Inv(c: Config, s: State) {
    && InRange(c, s.tasks) && |s.pthreads| == |c.kinds|
    && (forall p | 0 <= p < |c.kinds| :: Fits(c, s.pthreads[p]) && Consistent(s.pthreads[p]))
    && (forall t | 0 <= t < c.tasks :: OwnerKnown(s.tasks, t, |c.kinds|))
    && (forall t, p | 0 <= t < c.tasks && 0 <= p < |c.kinds| :: Owned(s.tasks, s.pthreads[p], t, p))
    && (forall t, p | 0 <= t < c.tasks && 0 <= p < |c.kinds| :: Recorded(s.tasks, s.pthreads[p], t, p))
  }

  // ---------------------------------------------------------------------------------------------------------
  // Every step keeps the invariant

  /** The acting pthread's own variables stay in order. */
  lemma ActorKeeps(c: Config, s: State, a: Action, wk: Pthread)
    requires a.p < |c.kinds| && |s.tasks.owner| == c.tasks && Enabled(c, a, wk.pc) && Fits(c, wk) && Consistent(wk)
    ensures Fits(c, Moved(c, s, a, wk)) && Consistent(Moved(c, s, a, wk))
  {
  }

  /** The acting pthread and one task. */
  lemma ActorTask(c: Config, s: State, a: Action, wk: Pthread, t: nat)
    requires a.p < |c.kinds| && InRange(c, s.tasks) && Enabled(c, a, wk.pc) && Fits(c, wk) && Consistent(wk)
    requires t < c.tasks && OwnerKnown(s.tasks, t, |c.kinds|)
    requires Owned(s.tasks, wk, t, a.p) && Recorded(s.tasks, wk, t, a.p)
    requires wk.pc.Taking? && wk.pc.t == t ==> !s.tasks.active[t]
    ensures var m := Changed(c, s.tasks, a, wk);
            && OwnerKnown(m, t, |c.kinds|)
            && Owned(m, Moved(c, s, a, wk), t, a.p)
            && Recorded(m, Moved(c, s, a, wk), t, a.p)
  {
  }

  /** Another pthread and one task. */
  lemma OtherTask(c: Config, s: State, a: Action, wk: Pthread, other: Pthread, t: nat, p: nat)
    requires a.p < |c.kinds| && InRange(c, s.tasks) && Enabled(c, a, wk.pc) && Fits(c, wk)
    requires t < c.tasks && p != a.p && Fits(c, other)
    requires Owned(s.tasks, wk, t, a.p) && Recorded(s.tasks, wk, t, a.p)
    requires Owned(s.tasks, other, t, p) && Recorded(s.tasks, other, t, p)
    ensures var m := Changed(c, s.tasks, a, wk);
            Owned(m, other, t, p) && Recorded(m, other, t, p)
  {
  }

  /** A task that is about to be taken is not marked as active any more. */
  lemma TakenIsIdle(c: Config, s: State, p: nat, t: nat)
    requires Inv(c, s) && p < |c.kinds| && t < c.tasks
    requires s.pthreads[p].pc.Taking? && s.pthreads[p].pc.t == t
    ensures !s.tasks.active[t]
  {
    assert OwnerKnown(s.tasks, t, |c.kinds|) && Owned(s.tasks, s.pthreads[p], t, p);
    var q := if s.tasks.active[t] then s.tasks.thread[t] else p;
    assert Recorded(s.tasks, s.pthreads[q], t, q) && Owned(s.tasks, s.pthreads[q], t, q);
  }

  lemma StepKeeps(c: Config, s: State, a: Action, n: State)
    requires Inv(c, s) && Step(c, s, a, n)
    ensures Inv(c, n)
  {
    hide Fits, Consistent, OwnerKnown, Owned, Recorded, Moved, Changed, Enabled;
    var wk := s.pthreads[a.p];
    assert Fits(c, wk) && Consistent(wk);
    ActorKeeps(c, s, a, wk);
    ChangedShape(c, s.tasks, a, wk);
    forall t | 0 <= t < c.tasks
      ensures OwnerKnown(n.tasks, t, |c.kinds|)
      ensures Owned(n.tasks, n.pthreads[a.p], t, a.p)
      ensures Recorded(n.tasks, n.pthreads[a.p], t, a.p)
    {
      ActorInv(c, s, a, wk, t);
    }
    forall t, p | 0 <= t < c.tasks && 0 <= p < |c.kinds| && p != a.p
      ensures Owned(n.tasks, n.pthreads[p], t, p)
      ensures Recorded(n.tasks, n.pthreads[p], t, p)
    {
      assert Owned(s.tasks, wk, t, a.p) && Recorded(s.tasks, wk, t, a.p);
      assert Owned(s.tasks, s.pthreads[p], t, p) && Recorded(s.tasks, s.pthreads[p], t, p);
      OtherTask(c, s, a, wk, s.pthreads[p], t, p);
    }
  }

  lemma ActorInv(c: Config, s: State, a: Action, wk: Pthread, t: nat)
    requires Inv(c, s) && a.p < |c.kinds| && wk == s.pthreads[a.p] && Enabled(c, a, wk.pc) && t < c.tasks
    ensures Fits(c, wk)
    ensures var m := Changed(c, s.tasks, a, wk);
            && InRange(c, m)
            && OwnerKnown(m, t, |c.kinds|)
            && Owned(m, Moved(c, s, a, wk), t, a.p)
            && Recorded(m, Moved(c, s, a, wk), t, a.p)
  {
    hide Fits, Consistent, OwnerKnown, Owned, Recorded, Moved, Changed, Enabled;
    assert Fits(c, wk) && Consistent(wk);
    assert OwnerKnown(s.tasks, t, |c.kinds|) && Owned(s.tasks, wk, t, a.p) && Recorded(s.tasks, wk, t, a.p);
    if wk.pc.Taking? && wk.pc.t == t {
      TakenIsIdle(c, s, a.p, t);
    }
    ChangedShape(c, s.tasks, a, wk);
    ActorTask(c, s, a, wk, t);
  }

  lemma ChangedShape(c: Config, m: Tasks, a: Action, wk: Pthread)
    requires InRange(c, m) && Fits(c, wk) && Enabled(c, a, wk.pc)
    ensures InRange(c, Changed(c, m, a, wk))
  {
  }

  lemma InitInv(c: Config, s: State)
    requires Init(c, s)
    ensures Inv(c, s)
  {
  }

  lemma {:induction false} RunInv(c: Config, run: seq<State>, acts: seq<Action>)
    requires Run(c, run, acts)
    ensures Inv(c, Last(run))
  {
    hide Inv, Init, Step;
    var n := |acts|;
    if n == 0 {
      InitInv(c, run[0]);
    } else {
      RunInv(c, run[..n], acts[..n - 1]);
      assert Step(c, run[n - 1], acts[n - 1], run[n - 1 + 1]);
      StepKeeps(c, run[n - 1], acts[n - 1], run[n]);
    }
  }

  // ---------------------------------------------------------------------------------------------------------
  // What the locks guarantee

  /** In every interleaving, no task is held by two pthreads. */
  lemma MutualExclusion(c: Config, run: seq<State>, acts: seq<Action>, p: nat, q: nat, t: nat)
    requires Run(c, run, acts) && p < |c.kinds| && q < |c.kinds| && p != q && t < c.tasks
    ensures |Last(run).pthreads| == |c.kinds|
    ensures !(Holds(Last(run).pthreads[p], t) && Holds(Last(run).pthreads[q], t))
  {
    RunInv(c, run, acts);
    var s := Last(run);
    hide Run, Holds;
    assert Owned(s.tasks, s.pthreads[p], t, p) && Owned(s.tasks, s.pthreads[q], t, q);
  }

  /** Between switches a pthread has locked its current task and nothing else: no probe has left a lock behind. The
      task's record names the pthread. */
  lemma NoLeakBetweenSwitches(c: Config, run: seq<State>, acts: seq<Action>, p: nat, t: nat)
    requires Run(c, run, acts) && p < |c.kinds| && t < c.tasks
    requires |Last(run).pthreads| == |c.kinds| && Last(run).pthreads[p].pc == Outside
    ensures var s := Last(run);
            && InRange(c, s.tasks)
            && (s.tasks.owner[t] == Some(p) <==> s.pthreads[p].task == Some(t))
            && (s.tasks.active[t] && s.tasks.thread[t] == p <==> s.pthreads[p].task == Some(t))
  {
    RunInv(c, run, acts);
    var s := Last(run);
    hide Run;
    assert Owned(s.tasks, s.pthreads[p], t, p) && Recorded(s.tasks, s.pthreads[p], t, p);
  }

  /** Every lock belongs to a pthread that knows about it, and every task marked as active is run by its owner. */
  lemma NoOrphans(c: Config, run: seq<State>, acts: seq<Action>, t: nat)
    requires Run(c, run, acts) && t < c.tasks
    ensures var s := Last(run);
            && InRange(c, s.tasks) && |s.pthreads| == |c.kinds|
            && (s.tasks.owner[t].Some? ==> s.tasks.owner[t].value < |c.kinds| && Holds(s.pthreads[s.tasks.owner[t].value], t))
            && (s.tasks.active[t] ==> s.tasks.owner[t] == Some(s.tasks.thread[t])
                                      && s.pthreads[s.tasks.thread[t]].task == Some(t))
  {
    RunInv(c, run, acts);
    var s := Last(run);
    hide Run;
    assert OwnerKnown(s.tasks, t, |c.kinds|);
    if s.tasks.owner[t].Some? {
      assert Owned(s.tasks, s.pthreads[s.tasks.owner[t].value], t, s.tasks.owner[t].value);
    }
    if s.tasks.active[t] {
      var p := s.tasks.thread[t];
      assert Owned(s.tasks, s.pthreads[p], t, p) && Recorded(s.tasks, s.pthreads[p], t, p);
    }
  }

  // ---------------------------------------------------------------------------------------------------------
  // Where a switch lands

  /** A pthread that has accepted a task and has not finished the exchange. */
  predicate Accepted(pc: Pc, t: nat) {
    (pc.Dropping? || pc.Freeing? || pc.Taking? || pc.Activating?) && pc.t == t
  }

  /** A pthread that exchanges its task has looked at the new one: some steps ago it had just locked it and, unless
      its scheduler is the simple one, found it ready or done; since then it has kept the lock. */
  lemma {:induction false} AcceptedWasReady(c: Config, run: seq<State>, acts: seq<Action>, p: nat, t: nat) returns (k: nat)
    requires Run(c, run, acts) && p < |c.kinds|
    requires |Last(run).pthreads| == |c.kinds| && Accepted(Last(run).pthreads[p].pc, t)
    ensures k < |acts| && p < |run[k].pthreads| && run[k].pthreads[p].pc.Probing? && run[k].pthreads[p].pc.t == t
    ensures acts[k].Observe? && acts[k].p == p && (c.kinds[p] == Simple || acts[k].ready)
    ensures t < c.tasks && forall i | k <= i < |run| :: |run[i].tasks.owner| == c.tasks && run[i].tasks.owner[t] == Some(p)
  {
    hide Step, Init, Inv;
    var n := |acts|;
    AcceptedHolds(c, run, acts, p, t);
    if n == 0 {
      NotAcceptedYet(c, run, p, t);
    } else {
      var before, earlier := run[..n], acts[..n - 1];
      assert Step(c, run[n - 1], acts[n - 1], run[n - 1 + 1]);
      RunInv(c, before, earlier);
      AcceptedStep(c, run[n - 1], acts[n - 1], run[n], p, t);
      if Accepted(run[n - 1].pthreads[p].pc, t) {
        k := AcceptedWasReady(c, before, earlier, p, t);
        assert forall i | 0 <= i < n :: before[i] == run[i];
      } else {
        k := n - 1;
        ProbingHolds(c, before, earlier, p, t);
      }
    }
  }

  lemma NotAcceptedYet(c: Config, run: seq<State>, p: nat, t: nat)
    requires |run| == 1 && Init(c, run[0]) && p < |c.kinds|
    ensures |run[0].pthreads| == |c.kinds| && !Accepted(run[0].pthreads[p].pc, t)
  {
  }

  lemma AcceptedHolds(c: Config, run: seq<State>, acts: seq<Action>, p: nat, t: nat)
    requires Run(c, run, acts) && p < |c.kinds|
    requires |Last(run).pthreads| == |c.kinds| && Accepted(Last(run).pthreads[p].pc, t)
    ensures t < c.tasks && |Last(run).tasks.owner| == c.tasks && Last(run).tasks.owner[t] == Some(p)
  {
    RunInv(c, run, acts);
    var s := Last(run);
    hide Run;
    assert Fits(c, s.pthreads[p]);
    assert Owned(s.tasks, s.pthreads[p], t, p);
  }

  lemma ProbingHolds(c: Config, run: seq<State>, acts: seq<Action>, p: nat, t: nat)
    requires Run(c, run, acts) && p < |c.kinds|
    requires |Last(run).pthreads| == |c.kinds| && Last(run).pthreads[p].pc.Probing? && Last(run).pthreads[p].pc.t == t
    ensures t < c.tasks && |Last(run).tasks.owner| == c.tasks && Last(run).tasks.owner[t] == Some(p)
  {
    RunInv(c, run, acts);
    var s := Last(run);
    hide Run;
    assert Fits(c, s.pthreads[p]);
    assert Owned(s.tasks, s.pthreads[p], t, p);
  }

  lemma AcceptedStep(c: Config, s: State, a: Action, n: State, p: nat, t: nat)
    requires Inv(c, s) && Step(c, s, a, n) && p < |c.kinds| && |n.pthreads| == |c.kinds| && Accepted(n.pthreads[p].pc, t)
    ensures |s.pthreads| == |c.kinds|
    ensures Accepted(s.pthreads[p].pc, t)
            || (s.pthreads[p].pc.Probing? && s.pthreads[p].pc.t == t
                && a.Observe? && a.p == p && (c.kinds[p] == Simple || a.ready))
  {
    hide Changed, Owned, Recorded, OwnerKnown, Consistent;
  }

  /** A pthread's current task changes only when an exchange ends, and when the main thread lets its task go. */
  lemma TaskChanges(c: Config, s: State, a: Action, n: State, p: nat)
    requires Inv(c, s) && Step(c, s, a, n) && p < |c.kinds|
    ensures |s.pthreads| == |n.pthreads| == |c.kinds|
    ensures n.pthreads[p].task != s.pthreads[p].task ==>
              a.p == p && ((a.Take? && n.pthreads[p].task == Some(s.pthreads[p].pc.t)) || (a.Forget? && n.pthreads[p].task == None))
  {
    hide Changed, Owned, Recorded, OwnerKnown, Consistent;
  }

  // ---------------------------------------------------------------------------------------------------------
  // Switching never waits

  /** How many steps a pthread can still make before it is outside of the switch. */
  function Left(c: Config, pc: Pc): nat {
    match pc
    case Outside => 0
    case Looking(s) => SearchLeft(c, s)
    case Probing(s, _) => SearchLeft(c, s) - 1
    case Rejecting(s, _) => SearchLeft(c, s) - 2
    case Unlocking(s, _) => SearchLeft(c, s) - 3
    case Dropping(_) => 4
    case Freeing(_) => 3
    case Taking(_) => 2
    case Activating(_) => 1
    case Releasing => 2
    case Clearing => 1
  }

  function SearchLeft(c: Config, s: Search): (n: nat)
    ensures n >= 6
  {
    s.retries * (4 * c.tasks + 6) + 4 * (if s.i < c.tasks then c.tasks - s.i else 0) + 6
  }

  /** A pthread inside a switch can always make its next step, whatever the others do, and every step brings it closer
      to the end: it never waits for a lock. */
  lemma SwitchNeverWaits(c: Config, run: seq<State>, acts: seq<Action>, p: nat) returns (a: Action, n: State)
    requires Run(c, run, acts) && p < |c.kinds|
    requires |Last(run).pthreads| == |c.kinds| && Last(run).pthreads[p].pc != Outside
    ensures a.p == p && Step(c, Last(run), a, n) && |n.pthreads| == |c.kinds|
    ensures Left(c, n.pthreads[p].pc) < Left(c, Last(run).pthreads[p].pc)
  {
    RunInv(c, run, acts);
    var s := Last(run);
    var wk := s.pthreads[p];
    hide Run;
    assert Fits(c, wk);
    a := NextAction(c, wk.pc, p);
    hide Owned, Recorded, OwnerKnown, Consistent, Changed;
    n := State(Changed(c, s.tasks, a, wk), NextSeed(s.seed, a), s.pthreads[a.p := Moved(c, s, a, wk)]);
    GetsCloser(c, s, a, wk);
  }

  function NextAction(c: Config, pc: Pc, p: nat): Action {
    match pc
    case Outside => Start(p, 0)
    case Looking(s) => if s.i < c.tasks then Probe(p) else EndRound(p, 0)
    case Probing(_, _) => Observe(p, true, 0, 0)
    case Rejecting(_, _) => Reject(p)
    case Unlocking(_, _) => Unlock(p)
    case Dropping(_) => Drop(p)
    case Freeing(_) => Free(p)
    case Taking(_) => Take(p)
    case Activating(_) => Activate(p)
    case Releasing => Clear(p)
    case Clearing => Forget(p)
  }

  /** Every step of a pthread inside a switch brings it closer to the end. */
  lemma GetsCloser(c: Config, s: State, a: Action, wk: Pthread)
    requires a.p < |c.kinds| && |s.tasks.owner| == c.tasks && Enabled(c, a, wk.pc) && wk.pc != Outside && Fits(c, wk)
    ensures Left(c, Moved(c, s, a, wk).pc) < Left(c, wk.pc)
  {
    if wk.pc.Looking? {
      var k := 4 * c.tasks + 6;
      assert (wk.pc.s.retries - 1) * k == wk.pc.s.retries * k - k;
    }
  }

  // ---------------------------------------------------------------------------------------------------------
  // Which tasks a round looks at

  ghost predicate Visited(offset: nat, tasks: nat, t: nat)
    requires tasks > 0
  {
    exists i: nat :: i < tasks && Index(offset, i, tasks) == t
  }

  /** A round looks at every task, unless its counter wraps around and 2^32 is not a multiple of the number of tasks:
      then the round skips one. */
  lemma RoundCoversIff(offset: nat, tasks: nat)
    requires 0 < tasks < WRAP && offset < WRAP
    ensures (forall t: nat | t < tasks :: Visited(offset, tasks, t)) <==> offset + tasks <= WRAP || WRAP % tasks == 0
  {
    if offset + tasks <= WRAP || WRAP % tasks == 0 {
      forall t: nat | t < tasks ensures Visited(offset, tasks, t) {
        var i := Found(offset, tasks, t);
      }
    } else {
      var r, m := WRAP % tasks, WRAP - offset;
      var x := if r > tasks - m then r else tasks - m;
      forall i: nat | i < tasks ensures Index(offset, i, tasks) != x {
        Skipped(offset, tasks, i, x);
      }
      assert !Visited(offset, tasks, x);
    }
  }

  /** Three tasks, and a counter that wraps around after the first: the round looks at task 0 twice, and never at 2. */
  lemma RoundSkips()
    ensures !Visited(0xFFFF_FFFF, 3, 2)
  {
    forall i: nat | i < 3 ensures Index(0xFFFF_FFFF, i, 3) != 2 {
      assert i == 0 || i == 1 || i == 2;
    }
  }

  lemma Found(offset: nat, tasks: nat, t: nat) returns (i: nat)
    requires t < tasks < WRAP && offset < WRAP && (offset + tasks <= WRAP || WRAP % tasks == 0)
    ensures i < tasks && Index(offset, i, tasks) == t
  {
    var k := (t - offset) / tasks;
    i := (t - offset) % tasks;
    assert i + offset == (-k) * tasks + t;
    ModIs(i + offset, tasks, -k, t);
    if i + offset >= WRAP {
      var b := WRAP / tasks;
      assert (-k - b) * tasks == (-k) * tasks - b * tasks;
      ModIs(i + offset - WRAP, tasks, -k - b, t);
    }
  }

  lemma ModIs(x: nat, n: nat, k: int, t: nat)
    requires t < n && x == k * n + t
    ensures x % n == t
  {
    var d, r := x / n, x % n;
    Distribute(d, k, n);
    if t > r {
      NoMultiple(n, d - k, t - r);
    } else if t < r {
      Distribute(k, d, n);
      NoMultiple(n, k - d, r - t);
    }
  }

  lemma Skipped(offset: nat, tasks: nat, i: nat, x: nat)
    requires 0 < tasks < WRAP && offset < WRAP < offset + tasks && WRAP % tasks != 0 && i < tasks
    requires x == if WRAP % tasks > tasks - (WRAP - offset) then WRAP % tasks else tasks - (WRAP - offset)
    ensures Index(offset, i, tasks) != x
  {
    var m := WRAP - offset;
    if i >= m {
      assert i + offset - WRAP < tasks;
      ModIs(i + offset, WRAP, 1, i - m);
      ModIs(i - m, tasks, 0, i - m);
    } else {
      var a, b := (i + offset) / tasks, WRAP / tasks;
      if (i + offset) % tasks == x {
        NoMultiple(tasks, b - a, x - WRAP % tasks + (m - i));
      }
    }
  }
}
