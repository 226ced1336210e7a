/** What a search for another task looks at, over whole runs: every round tries every task, a task that is not taken was
    locked or not ready, and the last scheduler goes on from the earliest task it has seen. */
module TaskSearch {
  import opened Arithmetic
  import opened TaskOwnership

  /** What a pthread has observed about a task that it had locked: `time` and `later` are two readings of the same time. */
  datatype Reading = Reading(task: nat, ready: bool, time: int, later: int)

  /** The pthread begins a round: the first one of a switch, or another one. */
  predicate Begins(a: Action, p: nat) {
    a.p == p && (a.Start? || a.EndRound?)
  }

  function ProbedBy(s: State, p: nat): nat {
    if p < |s.pthreads| && s.pthreads[p].pc.Probing? then s.pthreads[p].pc.t else 0
  }

  /** What the pthread has observed in its round, before step `n`. */
  function Readings(run: seq<State>, acts: seq<Action>, p: nat, n: nat): seq<Reading>
    requires n <= |acts| < |run|
  {
    if n == 0 || Begins(acts[n - 1], p) then []
    else NextReadings(Readings(run, acts, p, n - 1), run[n - 1], acts[n - 1], p)
  }

  function NextReadings(rs: seq<Reading>, s: State, a: Action, p: nat): seq<Reading> {
    if a.p == p && a.Observe? then rs + [Reading(ProbedBy(s, p), a.ready, a.time, a.later)] else rs
  }

  /** The time of its current task, as read when the round began. */
  function CurrentTime(acts: seq<Action>, p: nat, n: nat): int
    requires n <= |acts|
  {
    if n == 0 then 0 else if Begins(acts[n - 1], p) then acts[n - 1].time else CurrentTime(acts, p, n - 1)
  }

  /** How many rounds the switch has begun, and where the last one begins. */
  function RoundNumber(acts: seq<Action>, p: nat, n: nat): nat
    requires n <= |acts|
  {
    if n == 0 then 0
    else if Begins(acts[n - 1], p) then (if acts[n - 1].Start? then 1 else RoundNumber(acts, p, n - 1) + 1)
    else RoundNumber(acts, p, n - 1)
  }

  function RoundBegin(acts: seq<Action>, p: nat, n: nat): (b: nat)
    requires n <= |acts|
    ensures b <= n
  {
    if n == 0 || Begins(acts[n - 1], p) then n else RoundBegin(acts, p, n - 1)
  }

  function SearchOf(pc: Pc): Option<Search> {
    match pc
    case Looking(s) => Some(s)
    case Probing(s, _) => Some(s)
    case Rejecting(s, _) => Some(s)
    case Unlocking(s, _) => Some(s)
    case _ => None
  }

  // ---------------------------------------------------------------------------------------------------------
  // The earliest task

  /** Both readings of every time agree. */
  ghost predicate Steady(rs: seq<Reading>) {
    forall i | 0 <= i < |rs| :: rs[i].later == rs[i].time
  }

  /** Some task was earlier than the current one. */
  ghost predicate AnyBelow(rs: seq<Reading>, current: int) {
    exists i :: 0 <= i < |rs| && rs[i].time < current
  }

  /** The reading that decides: the last one that was below the current task's time or a second reading before it. If the
      readings are steady, it is the first one of the smallest, and below the current task's time. */
  ghost predicate Decides(rs: seq<Reading>, current: int, i: nat) {
    && i < |rs|
    && (forall j | i < j < |rs| :: rs[j].time >= rs[i].later)
    && (rs[i].time < current || exists k :: 0 <= k < i && rs[i].time < rs[k].later)
    && (Steady(rs) ==> rs[i].time < current && forall j | 0 <= j < |rs| ::
          rs[i].time <= rs[j].time && (j < i ==> rs[i].time < rs[j].time))
  }

  ghost predicate Remembers(kind: Kind, rs: seq<Reading>, current: int, s: Search) {
    if kind != ReadyOrEarliest then s.minIndex == None
    else match s.minIndex
      case None => s.minTime == current && !AnyBelow(rs, current)
      case Some(t) =>
        && AnyBelow(rs, current)
        && exists i: nat :: Decides(rs, current, i) && rs[i].task == t && rs[i].later == s.minTime
  }

  /** What a search knows: nothing that it has observed was ready, and it remembers the task that decides. */
  ghost predicate Knows(kind: Kind, rs: seq<Reading>, current: int, rounds: nat, pc: Pc) {
    SearchOf(pc).Some? ==>
      var s := SearchOf(pc).value;
      && rounds >= 1 && s.retries >= 1 && rounds + s.retries == 11
      && (forall i | 0 <= i < |rs| :: !rs[i].ready) && (kind == Simple ==> rs == [])
      && Remembers(kind, rs, current, s)
  }

  lemma RememberMore(rs: seq<Reading>, current: int, s: Search, r: Reading)
    requires Remembers(ReadyOrEarliest, rs, current, s)
    ensures var more := if r.time < s.minTime then s.(minTime := r.later, minIndex := Some(r.task)) else s;
            Remembers(ReadyOrEarliest, rs + [r], current, more)
  {
    var all := rs + [r];
    assert all[|rs|] == r;
    if s.minIndex == None {
      if r.time < s.minTime {
        assert Decides(all, current, |rs|);
      }
    } else {
      var i: nat :| Decides(rs, current, i) && rs[i].task == s.minIndex.value && rs[i].later == s.minTime;
      var j :| 0 <= j < |rs| && rs[j].time < current;
      assert all[j] == rs[j] && all[i] == rs[i];
      SteadyBefore(rs, r);
      if r.time < s.minTime {
        assert Decides(all, current, |rs|);
      } else {
        StillDecides(rs, current, i, r);
      }
    }
  }

  lemma SteadyBefore(rs: seq<Reading>, r: Reading)
    ensures Steady(rs + [r]) ==> Steady(rs)
  {
    assert forall j | 0 <= j < |rs| :: (rs + [r])[j] == rs[j];
  }

  lemma StillDecides(rs: seq<Reading>, current: int, i: nat, r: Reading)
    requires Decides(rs, current, i) && r.time >= rs[i].later
    ensures Decides(rs + [r], current, i)
  {
    var all := rs + [r];
    assert forall j | 0 <= j < |rs| :: all[j] == rs[j];
    SteadyBefore(rs, r);
    if rs[i].time >= current {
      var k :| 0 <= k < i && rs[i].time < rs[k].later;
      assert rs[i].time < all[k].later;
    }
  }

  lemma KnowsStep(c: Config, s: State, a: Action, n: State, p: nat, rs: seq<Reading>, current: int, rounds: nat)
    requires Inv(c, s) && Step(c, s, a, n) && p < |c.kinds|
    requires Knows(c.kinds[p], rs, current, rounds, s.pthreads[p].pc)
    ensures |n.pthreads| == |c.kinds|
    ensures Knows(c.kinds[p], if Begins(a, p) then [] else NextReadings(rs, s, a, p),
                  if Begins(a, p) then a.time else current,
                  if Begins(a, p) then (if a.Start? then 1 else rounds + 1) else rounds, n.pthreads[p].pc)
  {
    hide Changed, Owned, Recorded, OwnerKnown, Consistent, Decides, AnyBelow, Locks;
    NothingBelow(if Begins(a, p) then a.time else current);
    if a.p == p && a.Observe? {
      var pc := s.pthreads[p].pc;
      if c.kinds[p] == ReadyOrEarliest {
        RememberMore(rs, current, pc.s, Reading(pc.t, a.ready, a.time, a.later));
      }
    }
  }

  lemma NothingBelow(current: int)
    ensures !AnyBelow([], current)
  {
  }

  lemma {:induction false} AlwaysKnows(c: Config, run: seq<State>, acts: seq<Action>, p: nat, n: nat)
    requires Run(c, run, acts) && p < |c.kinds| && n <= |acts|
    ensures |run[n].pthreads| == |c.kinds|
    ensures Knows(c.kinds[p], Readings(run, acts, p, n), CurrentTime(acts, p, n), RoundNumber(acts, p, n), run[n].pthreads[p].pc)
  {
    InvAt(c, run, acts, n);
    if n > 0 {
      AlwaysKnows(c, run, acts, p, n - 1);
      InvAt(c, run, acts, n - 1);
      assert Step(c, run[n - 1], acts[n - 1], run[n - 1 + 1]);
      hide Inv, Step, Run, Knows;
      KnowsStep(c, run[n - 1], acts[n - 1], run[n], p, Readings(run, acts, p, n - 1), CurrentTime(acts, p, n - 1),
                RoundNumber(acts, p, n - 1));
    }
  }

  lemma InvAt(c: Config, run: seq<State>, acts: seq<Action>, n: nat)
    requires Run(c, run, acts) && n <= |acts|
    ensures Inv(c, run[n]) && |run[n].pthreads| == |c.kinds| && |run[n].tasks.owner| == c.tasks
  {
    hide Inv, Step, Init;
    var part, earlier := run[..n + 1], acts[..n];
    assert Run(c, part, earlier);
    RunInv(c, part, earlier);
    InvSizes(c, run[n]);
  }

  lemma InvSizes(c: Config, s: State)
    requires Inv(c, s)
    ensures |s.pthreads| == |c.kinds| && |s.tasks.owner| == c.tasks
  {
  }

  /** The end of a round without success. Nothing that was observed in it was ready. The pthread goes on, with a new round, if
      and only if its scheduler is the last one, some observed task was earlier than the current one, and it has made fewer
      than ten rounds. The new round starts at the task that decides: with steady readings, the first of the earliest ones. */
  lemma RoundEnds(c: Config, run: seq<State>, acts: seq<Action>, p: nat, n: nat)
    requires Run(c, run, acts) && p < |c.kinds| && n < |acts| && acts[n].EndRound? && acts[n].p == p
    ensures |run[n + 1].pthreads| == |c.kinds|
    ensures var rs, current, pc := Readings(run, acts, p, n), CurrentTime(acts, p, n), run[n + 1].pthreads[p].pc;
            && (forall i | 0 <= i < |rs| :: !rs[i].ready)
            && (pc != Outside <==> c.kinds[p] == ReadyOrEarliest && AnyBelow(rs, current) && RoundNumber(acts, p, n) < 10)
            && (pc != Outside ==> pc.Looking? && pc.s.i == 0)
            && (pc != Outside ==> exists i: nat :: Decides(rs, current, i) && rs[i].task == pc.s.offset)
  {
    AlwaysKnows(c, run, acts, p, n);
    InvAt(c, run, acts, n);
    assert Step(c, run[n], acts[n], run[n + 1]);
    hide Run, Inv, Changed, Decides, AnyBelow, Readings, CurrentTime, RoundNumber;
  }

  /** A second reading that is later than the current task's time can make a search go on from a task that is not earlier than
      the current one: the current task is at 100, and the first reading of task 3 gives 5 and the second one 200. */
  lemma LateReading()
    ensures var rs := [Reading(3, false, 5, 200), Reading(4, false, 150, 150)];
            Decides(rs, 100, 1) && rs[1].time >= 100 && !Decides(rs, 100, 0)
    ensures var s := Search(0, 0, 10, 100, None);
            var t := Judge(ReadyOrEarliest, s, 3, false, 5, 200).s;
            Judge(ReadyOrEarliest, t, 4, false, 150, 150).s.minIndex == Some(4)
  {
    var rs := [Reading(3, false, 5, 200), Reading(4, false, 150, 150)];
    assert rs[1].time < rs[0].later && rs[0].later != rs[0].time;
  }

  // ---------------------------------------------------------------------------------------------------------
  // Every task is tried

  /** Step `k` of the pthread finds the task locked, or has locked it and finds it not ready. */
  ghost predicate TriedAt(c: Config, run: seq<State>, acts: seq<Action>, p: nat, k: nat, t: nat) {
    && k < |acts| && k < |run| && p < |c.kinds| && acts[k].p == p
    && if acts[k].Probe? then t < |run[k].tasks.owner| && run[k].tasks.owner[t].Some?
       else acts[k].Observe? && p < |run[k].pthreads| && run[k].pthreads[p].pc.Probing? && run[k].pthreads[p].pc.t == t
            && !acts[k].ready && c.kinds[p] != Simple
  }

  ghost predicate Tried(c: Config, run: seq<State>, acts: seq<Action>, p: nat, n: nat, t: nat)
    requires n <= |acts|
  {
    exists k: nat :: RoundBegin(acts, p, n) <= k < n && TriedAt(c, run, acts, p, k, t)
  }

  ghost predicate TriedTo(c: Config, run: seq<State>, acts: seq<Action>, p: nat, n: nat, offset: nat, i: nat)
    requires n <= |acts|
  {
    forall j: nat | j < i && j < c.tasks :: Tried(c, run, acts, p, n, Index(offset, j, c.tasks))
  }

  ghost predicate PcTried(c: Config, run: seq<State>, acts: seq<Action>, p: nat, n: nat, pc: Pc)
    requires n <= |acts|
  {
    match pc
    case Looking(s) => TriedTo(c, run, acts, p, n, s.offset, s.i)
    case Probing(s, t) => s.i < c.tasks && t == Index(s.offset, s.i, c.tasks) && TriedTo(c, run, acts, p, n, s.offset, s.i)
    case Rejecting(s, _) => TriedTo(c, run, acts, p, n, s.offset, s.i + 1)
    case Unlocking(s, _) => TriedTo(c, run, acts, p, n, s.offset, s.i + 1)
    case _ => true
  }

  /** A step that does not begin a round forgets nothing. */
  lemma TriedMore(c: Config, run: seq<State>, acts: seq<Action>, p: nat, n: nat)
    requires n < |acts| && !Begins(acts[n], p)
    ensures forall offset: nat, i: nat | TriedTo(c, run, acts, p, n, offset, i) :: TriedTo(c, run, acts, p, n + 1, offset, i)
  {
    forall t: nat | Tried(c, run, acts, p, n, t) ensures Tried(c, run, acts, p, n + 1, t) {
      var k: nat :| RoundBegin(acts, p, n) <= k < n && TriedAt(c, run, acts, p, k, t);
      assert RoundBegin(acts, p, n + 1) <= k < n + 1;
    }
  }

  lemma TriedNext(c: Config, run: seq<State>, acts: seq<Action>, p: nat, n: nat, offset: nat, i: nat)
    requires n < |acts| && !Begins(acts[n], p) && TriedTo(c, run, acts, p, n, offset, i) && i < c.tasks
    requires TriedAt(c, run, acts, p, n, Index(offset, i, c.tasks))
    ensures TriedTo(c, run, acts, p, n + 1, offset, i + 1)
  {
    TriedMore(c, run, acts, p, n);
    hide TriedAt, Index;
    assert RoundBegin(acts, p, n + 1) <= n < n + 1;
    assert Tried(c, run, acts, p, n + 1, Index(offset, i, c.tasks));
  }

  lemma NothingTried(c: Config, run: seq<State>, acts: seq<Action>, p: nat, n: nat, offset: nat)
    requires n <= |acts|
    ensures TriedTo(c, run, acts, p, n, offset, 0)
  {
  }

  lemma TriedStep(c: Config, run: seq<State>, acts: seq<Action>, p: nat, n: nat)
    requires n < |acts| < |run| && p < |c.kinds| && Inv(c, run[n]) && Step(c, run[n], acts[n], run[n + 1])
    requires PcTried(c, run, acts, p, n, run[n].pthreads[p].pc)
    ensures |run[n + 1].pthreads| == |c.kinds| && PcTried(c, run, acts, p, n + 1, run[n + 1].pthreads[p].pc)
  {
    var a, pc := acts[n], run[n].pthreads[p].pc;
    hide Changed, Recorded, OwnerKnown, Consistent, Index, TriedTo;
    if Begins(a, p) {
      NothingTried(c, run, acts, p, n + 1, if run[n + 1].pthreads[p].pc.Looking? then run[n + 1].pthreads[p].pc.s.offset else 0);
    } else {
      TriedMore(c, run, acts, p, n);
      if a.p == p && a.Probe? && !Locks(c, run[n].pthreads[p], run[n].tasks) {
        LockedTask(c, run[n], p);
        TriedNext(c, run, acts, p, n, pc.s.offset, pc.s.i);
      } else if a.p == p && a.Observe? && run[n + 1].pthreads[p].pc.Rejecting? {
        TriedNext(c, run, acts, p, n, pc.s.offset, pc.s.i);
      }
    }
  }

  /** A try-lock that is not made or fails has found a locked task: its own, or that of somebody else. */
  lemma LockedTask(c: Config, s: State, p: nat)
    requires Inv(c, s) && p < |c.kinds| && s.pthreads[p].pc.Looking? && c.tasks > 0
    requires !Locks(c, s.pthreads[p], s.tasks)
    ensures s.tasks.owner[Index(s.pthreads[p].pc.s.offset, s.pthreads[p].pc.s.i, c.tasks)].Some?
  {
    hide Recorded, OwnerKnown, Index;
    var t := Index(s.pthreads[p].pc.s.offset, s.pthreads[p].pc.s.i, c.tasks);
    assert Owned(s.tasks, s.pthreads[p], t, p);
  }

  lemma {:induction false} AlwaysTried(c: Config, run: seq<State>, acts: seq<Action>, p: nat, n: nat)
    requires Run(c, run, acts) && p < |c.kinds| && n <= |acts|
    ensures |run[n].pthreads| == |c.kinds| && PcTried(c, run, acts, p, n, run[n].pthreads[p].pc)
  {
    InvAt(c, run, acts, n);
    if n == 0 {
      assert Init(c, run[0]);
    } else {
      AlwaysTried(c, run, acts, p, n - 1);
      InvAt(c, run, acts, n - 1);
      assert Step(c, run[n - 1], acts[n - 1], run[n - 1 + 1]);
      hide Inv, Step, Run, PcTried;
      TriedStep(c, run, acts, p, n - 1);
    }
  }

  /** Searches start at 32-bit numbers. */
  predicate SmallSearch(c: Config, pc: Pc) {
    SearchOf(pc).Some? ==>
      var s := SearchOf(pc).value;
      s.offset < WRAP && (s.minIndex.Some? ==> s.minIndex.value < c.tasks)
  }

  ghost predicate Small(c: Config, s: State) {
    s.seed < WRAP && forall p | 0 <= p < |s.pthreads| :: SmallSearch(c, s.pthreads[p].pc)
  }

  lemma SmallStep(c: Config, s: State, a: Action, n: State)
    requires c.tasks < WRAP && Small(c, s) && Step(c, s, a, n)
    ensures Small(c, n)
  {
    hide Changed, Locks, Index;
  }

  lemma {:induction false} SmallAt(c: Config, run: seq<State>, acts: seq<Action>, n: nat)
    requires Run(c, run, acts) && c.tasks < WRAP && n <= |acts|
    ensures Small(c, run[n])
  {
    hide Step, Small;
    if n == 0 {
      SmallStart(c, run[0]);
    } else {
      SmallAt(c, run, acts, n - 1);
      assert Step(c, run[n - 1], acts[n - 1], run[n - 1 + 1]);
      SmallStep(c, run[n - 1], acts[n - 1], run[n]);
    }
  }

  lemma SmallStart(c: Config, s: State)
    requires Init(c, s)
    ensures Small(c, s)
  {
  }

  /** A round without success has tried every task: at some step of the round the task was locked, or the pthread had locked it
      and found it neither ready nor done. This is so unless the round's 32-bit counter wraps around and 2^32 is not a multiple
      of the number of tasks. */
  lemma RoundTriesAll(c: Config, run: seq<State>, acts: seq<Action>, p: nat, n: nat, t: nat)
    requires Run(c, run, acts) && p < |c.kinds| && n < |acts| && acts[n].EndRound? && acts[n].p == p
    requires t < c.tasks < WRAP && |run[n].pthreads| == |c.kinds| && run[n].pthreads[p].pc.Looking?
    requires run[n].pthreads[p].pc.s.offset + c.tasks <= WRAP || WRAP % c.tasks == 0
    ensures Tried(c, run, acts, p, n, t)
  {
    AlwaysTried(c, run, acts, p, n);
    InvAt(c, run, acts, n);
    assert Step(c, run[n], acts[n], run[n + 1]);
    var s := run[n].pthreads[p].pc.s;
    SmallAt(c, run, acts, n);
    assert SmallSearch(c, run[n].pthreads[p].pc);
    hide Run, Inv, Changed, Tried, Moved;
    assert s.i >= c.tasks;
    RoundCoversIff(s.offset, c.tasks);
    assert Visited(s.offset, c.tasks, t);
  }

  /** A task that a pthread has locked and observed is taken if and only if the scheduler is the simple one or the task is ready
      or done. */
  lemma TakenIff(c: Config, run: seq<State>, acts: seq<Action>, p: nat, n: nat)
    requires Run(c, run, acts) && p < |c.kinds| && n < |acts| && acts[n].Observe? && acts[n].p == p
    ensures |run[n].pthreads| == |run[n + 1].pthreads| == |c.kinds| && run[n].pthreads[p].pc.Probing?
    ensures Accepted(run[n + 1].pthreads[p].pc, run[n].pthreads[p].pc.t) <==> c.kinds[p] == Simple || acts[n].ready
  {
    InvAt(c, run, acts, n);
    assert Step(c, run[n], acts[n], run[n + 1]);
    hide Run, Inv, Changed;
  }

  // ---------------------------------------------------------------------------------------------------------
  // Where the first round of a switch starts

  function Starts(acts: seq<Action>, n: nat): nat
    requires n <= |acts|
  {
    if n == 0 then 0 else Starts(acts, n - 1) + if acts[n - 1].Start? then 1 else 0
  }

  lemma {:induction false} SeedCounts(c: Config, run: seq<State>, acts: seq<Action>, n: nat)
    requires Run(c, run, acts) && n <= |acts|
    ensures run[n].seed == (run[0].seed + Starts(acts, n)) % WRAP
  {
    hide Init, Step;
    if n == 0 {
      SeedStart(c, run[0]);
    } else {
      SeedCounts(c, run, acts, n - 1);
      assert Step(c, run[n - 1], acts[n - 1], run[n - 1 + 1]);
      SeedStep(c, run[n - 1], acts[n - 1], run[n]);
    }
  }

  lemma SeedStart(c: Config, s: State)
    requires Init(c, s)
    ensures s.seed < WRAP
  {
  }

  lemma SeedStep(c: Config, s: State, a: Action, n: State)
    requires Step(c, s, a, n)
    ensures n.seed == if a.Start? then (s.seed + 1) % WRAP else s.seed
  {
    hide Changed, Moved;
  }

  /** Round robin: the first round of each switch, of whatever pthread, starts one task further than that of the switch
      before, modulo 2^32. */
  lemma SwitchStarts(c: Config, run: seq<State>, acts: seq<Action>, n: nat)
    requires Run(c, run, acts) && n < |acts| && acts[n].Start?
    ensures acts[n].p < |run[n + 1].pthreads| && run[n + 1].pthreads[acts[n].p].pc.Looking?
    ensures var s := run[n + 1].pthreads[acts[n].p].pc.s; s.i == 0 && s.offset == (run[0].seed + Starts(acts, n)) % WRAP
  {
    SeedCounts(c, run, acts, n);
    assert Step(c, run[n], acts[n], run[n + 1]);
    hide Run;
  }
}
