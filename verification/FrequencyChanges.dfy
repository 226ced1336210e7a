/** Ticks during which callbacks change frequencies. Each clocked registry is put back at the step that it has at that
    moment, so one tick is described by the clocked registries with those steps. What does not change between the moment
    of putting back and the end of the tick is the outline of the list: numbers, times and cycles, in order. */
module FrequencyChanges {
  import opened Schedule

  /** Numbers, times and cycles. */
  function Outline(q: seq<Reg>): (o: seq<Reg>)
    ensures |o| == |q| && forall i | 0 <= i < |q| :: o[i] == Reg(q[i].id, 0, q[i].base, q[i].cycle, [], [])
  {
    if q == [] then [] else [Reg(q[0].id, 0, q[0].base, q[0].cycle, [], [])] + Outline(q[1..])
  }

  ghost predicate SameOutline(a: seq<Reg>, b: seq<Reg>) {
    Outline(a) == Outline(b)
  }

  lemma OutlineIs(a: seq<Reg>, b: seq<Reg>)
    ensures SameOutline(a, b) <==> |a| == |b| && forall i | 0 <= i < |a| ::
              a[i].id == b[i].id && a[i].base == b[i].base && a[i].cycle == b[i].cycle
  {
    var x, y := Outline(a), Outline(b);
    hide Outline;
    if |a| == |b| && forall i | 0 <= i < |a| :: a[i].id == b[i].id && a[i].base == b[i].base && a[i].cycle == b[i].cycle {
      assert x == y;
    }
    if x == y {
      forall i | 0 <= i < |a| ensures a[i].id == b[i].id && a[i].base == b[i].base && a[i].cycle == b[i].cycle {
        assert x[i] == y[i];
      }
    }
  }

  /** `later` are the clocked registries of `due`, with the steps they had when they were put back. */
  ghost predicate WithSteps(later: seq<Reg>, due: seq<Reg>) {
    |later| == |due| && forall i | 0 <= i < |due| :: later[i].(step := due[i].step) == due[i]
  }

  /** One tick with frequency changes: some steps are used for putting back. */
  ghost predicate Ticked(q: seq<Reg>, s: seq<Reg>) {
    |q| > 0 && exists later :: WithSteps(later, Due(q)) && SameOutline(s, Requeue(NotDue(q), later))
  }

  // ---------------------------------------------------------------------------------------------------------
  // Outlines

  lemma {:induction false} OutlineInsertPos(a: seq<Reg>, b: seq<Reg>, t: nat)
    requires |a| == |b| && forall i | 0 <= i < |a| :: a[i].base == b[i].base
    ensures InsertPos(a, t) == InsertPos(b, t)
  {
    if a != [] {
      OutlineInsertPos(a[1..], b[1..], t);
    }
  }

  lemma OutlineInsert(a: seq<Reg>, b: seq<Reg>, r: Reg, s: Reg)
    requires SameOutline(a, b) && r.id == s.id && r.base == s.base && r.cycle == s.cycle
    ensures SameOutline(Insert(a, r), Insert(b, s))
  {
    hide SameOutline, InsertPos;
    OutlineIs(a, b);
    OutlineInsertPos(a, b, r.base);
    OutlineIs(Insert(a, r), Insert(b, s));
  }

  /** Putting back looks only at the outline of the list, and at number, next time and cycle of what is put back. */
  lemma {:induction false} OutlineRequeue(a: seq<Reg>, b: seq<Reg>, c: seq<Reg>, d: seq<Reg>)
    requires SameOutline(a, b) && |c| == |d|
    requires forall i | 0 <= i < |c| :: c[i].id == d[i].id && c[i].base + c[i].step == d[i].base + d[i].step && c[i].cycle == d[i].cycle
    ensures SameOutline(Requeue(a, c), Requeue(b, d))
    decreases |c|
  {
    hide SameOutline, Insert;
    if c != [] {
      OutlineInsert(a, b, c[0].Advanced(), d[0].Advanced());
      OutlineRequeue(Insert(a, c[0].Advanced()), Insert(b, d[0].Advanced()), c[1..], d[1..]);
    }
  }

  lemma OutlineSorted(a: seq<Reg>, b: seq<Reg>)
    requires SameOutline(a, b)
    ensures Sorted(a) <==> Sorted(b)
  {
    hide SameOutline;
    OutlineIs(a, b);
  }

  // ---------------------------------------------------------------------------------------------------------
  // First in, first out

  /** Every list of a run follows from the one before. */
  ghost predicate Course(qs: seq<seq<Reg>>) {
    && |qs| > 0 && (forall k | 0 <= k < |qs| :: |qs[k]| > 0 && Sorted(qs[k]) && DistinctIds(qs[k]))
    && forall k, n | 0 <= k < n < |qs| && n == k + 1 :: Ticked(qs[k], qs[n])
  }

  /** The calls of all ticks of a run. */
  ghost function CourseCalls(qs: seq<seq<Reg>>): seq<Call> {
    if |qs| <= 1 || qs[|qs| - 2] == [] then [] else CourseCalls(qs[..|qs| - 1]) + TickCalls(qs[|qs| - 2])
  }

  ghost predicate DueAt(q: seq<Reg>, id: nat) {
    |q| > 0 && exists i :: 0 <= i < |Due(q)| && q[i].id == id
  }

  /** After `k` ticks, `a` waits in front of `b`: at the last tick that clocked only one of them it was `b`; or there was no
      such tick, and `a` comes first in the initial list. */
  ghost predicate WaitsLonger(qs: seq<seq<Reg>>, k: nat, a: nat, b: nat)
    requires k < |qs|
  {
    if k == 0 then IndexOf(qs[0], a) < IndexOf(qs[0], b)
    else if DueAt(qs[k - 1], a) != DueAt(qs[k - 1], b) then DueAt(qs[k - 1], b)
    else WaitsLonger(qs, k - 1, a, b)
  }

  /** Registries with equal times stand in the order in which they have waited. */
  ghost predicate Fifo(q: seq<Reg>, qs: seq<seq<Reg>>, k: nat)
    requires k < |qs|
  {
    forall i, j | 0 <= i < j < |q| && q[i].base == q[j].base :: WaitsLonger(qs, k, q[i].id, q[j].id)
  }

  lemma FifoInsert(q: seq<Reg>, r: Reg, qs: seq<seq<Reg>>, k: nat)
    requires k < |qs| && Sorted(q)
    requires Fifo(q, qs, k) && forall i | 0 <= i < |q| :: WaitsLonger(qs, k, q[i].id, r.id)
    ensures Fifo(Insert(q, r), qs, k)
  {
    hide WaitsLonger;
    var p, s := InsertPos(q, r.base), Insert(q, r);
    forall n | p <= n < |q| ensures q[n].base > r.base {
      assert q[p].base <= q[n].base;
    }
    forall i, j | 0 <= i < j < |s| && s[i].base == s[j].base ensures WaitsLonger(qs, k, s[i].id, s[j].id) {
      InsertAt(q, r, i);
      InsertAt(q, r, j);
    }
  }

  lemma InsertAt(q: seq<Reg>, r: Reg, i: nat)
    requires i <= |q|
    ensures var p := InsertPos(q, r.base);
            Insert(q, r)[i] == if i < p then q[i] else if i == p then r else q[i - 1]
  {
    hide InsertPos;
    var p := InsertPos(q, r.base);
    PlacedAt(q[..p], r, q[p..], i);
  }

  lemma PlacedAt(a: seq<Reg>, r: Reg, b: seq<Reg>, i: nat)
    requires i <= |a| + |b|
    ensures (a + ([r] + b))[i] == if i < |a| then a[i] else if i == |a| then r else b[i - |a| - 1]
  {
  }

  /** What is put back waits behind the rest of the list. */
  ghost predicate Behind(q: seq<Reg>, due: seq<Reg>, qs: seq<seq<Reg>>, k: nat)
    requires k < |qs|
  {
    && (forall i, j | 0 <= i < |q| && 0 <= j < |due| :: WaitsLonger(qs, k, q[i].id, due[j].id))
    && (forall i, j | 0 <= i < j < |due| :: WaitsLonger(qs, k, due[i].id, due[j].id))
  }

  lemma BehindNext(q: seq<Reg>, due: seq<Reg>, qs: seq<seq<Reg>>, k: nat)
    requires k < |qs| && due != [] && Behind(q, due, qs, k)
    ensures Behind(Insert(q, due[0].Advanced()), due[1..], qs, k)
  {
    hide WaitsLonger, InsertPos;
    var s, rest := Insert(q, due[0].Advanced()), due[1..];
    forall i, j | 0 <= i < |s| && 0 <= j < |rest| ensures WaitsLonger(qs, k, s[i].id, rest[j].id) {
      InsertAt(q, due[0].Advanced(), i);
      assert rest[j] == due[j + 1];
    }
  }

  lemma {:induction false} FifoRequeue(q: seq<Reg>, due: seq<Reg>, qs: seq<seq<Reg>>, k: nat)
    requires k < |qs| && Sorted(q) && Fifo(q, qs, k) && Behind(q, due, qs, k)
    ensures Fifo(Requeue(q, due), qs, k)
    decreases |due|
  {
    hide WaitsLonger, Fifo, Insert, Sorted;
    if due != [] {
      var r := due[0].Advanced();
      forall i | 0 <= i < |q| ensures WaitsLonger(qs, k, q[i].id, r.id) {
        assert r.id == due[0].id;
      }
      FifoInsert(q, r, qs, k);
      InsertSorted(q, r);
      BehindNext(q, due, qs, k);
      FifoRequeue(Insert(q, r), due[1..], qs, k);
    }
  }

  /** First in, first out over whole runs, whatever frequency changes the callbacks make: among registries with equal
      times, the one that was not clocked when the other was comes first. */
  lemma {:induction false} TiesAreFifo(qs: seq<seq<Reg>>, k: nat)
    requires Course(qs) && k < |qs|
    ensures Fifo(qs[k], qs, k)
  {
    if k == 0 {
      StartsFifo(qs);
    } else {
      var n := k - 1;
      TiesAreFifo(qs, n);
      assert Ticked(qs[n], qs[k]);
      hide Fifo, WithSteps, SameOutline, Requeue, Sorted, DistinctIds, WaitsLonger, Due, NotDue;
      var later :| WithSteps(later, Due(qs[n])) && SameOutline(qs[k], Requeue(NotDue(qs[n]), later));
      FifoStep(qs, k, later);
      FifoSame(qs[k], Requeue(NotDue(qs[n]), later), qs, k);
    }
  }

  lemma StartsFifo(qs: seq<seq<Reg>>)
    requires Course(qs)
    ensures Fifo(qs[0], qs, 0)
  {
    var q := qs[0];
    forall i, j | 0 <= i < j < |q| ensures IndexOf(q, q[i].id) < IndexOf(q, q[j].id) {
      IndexOfAt(q, i);
      IndexOfAt(q, j);
    }
  }

  lemma FifoSame(a: seq<Reg>, b: seq<Reg>, qs: seq<seq<Reg>>, k: nat)
    requires k < |qs|
    requires SameOutline(a, b) && Fifo(b, qs, k)
    ensures Fifo(a, qs, k)
  {
    hide SameOutline, WaitsLonger;
    OutlineIs(a, b);
    forall i, j | 0 <= i < j < |a| && a[i].base == a[j].base ensures WaitsLonger(qs, k, a[i].id, a[j].id) {
      assert b[i].base == b[j].base;
    }
  }

  lemma DueOrNot(q: seq<Reg>, i: nat)
    requires |q| > 0 && DistinctIds(q) && i < |q|
    ensures DueAt(q, q[i].id) <==> i < |Due(q)|
  {
    hide DueCount;
  }

  lemma FifoStep(qs: seq<seq<Reg>>, k: nat, later: seq<Reg>)
    requires 0 < k < |qs| && |qs[k - 1]| > 0 && Sorted(qs[k - 1]) && DistinctIds(qs[k - 1])
    requires Fifo(qs[k - 1], qs, k - 1) && WithSteps(later, Due(qs[k - 1]))
    ensures Fifo(Requeue(NotDue(qs[k - 1]), later), qs, k)
  {
    RestFifo(qs, k);
    RestSorted(qs[k - 1]);
    LaterBehind(qs, k, later);
    hide *;
    FifoRequeue(NotDue(qs[k - 1]), later, qs, k);
  }

  /** Who is not clocked keeps its place. */
  lemma RestFifo(qs: seq<seq<Reg>>, k: nat)
    requires 0 < k < |qs| && |qs[k - 1]| > 0 && DistinctIds(qs[k - 1]) && Fifo(qs[k - 1], qs, k - 1)
    ensures Fifo(NotDue(qs[k - 1]), qs, k)
  {
    var q, rest := qs[k - 1], NotDue(qs[k - 1]);
    var n := |Due(q)|;
    hide DueAt, DueCount, DistinctIds;
    forall i, j | 0 <= i < j < |rest| && rest[i].base == rest[j].base ensures WaitsLonger(qs, k, rest[i].id, rest[j].id) {
      DueOrNot(q, n + i);
      DueOrNot(q, n + j);
      assert rest[i] == q[n + i] && rest[j] == q[n + j];
    }
  }

  /** Who is clocked goes behind the others, and stays in order among those clocked with it. */
  lemma LaterBehind(qs: seq<seq<Reg>>, k: nat, later: seq<Reg>)
    requires 0 < k < |qs| && |qs[k - 1]| > 0 && DistinctIds(qs[k - 1]) && Fifo(qs[k - 1], qs, k - 1)
    requires WithSteps(later, Due(qs[k - 1]))
    ensures Behind(NotDue(qs[k - 1]), later, qs, k)
  {
    var q, rest := qs[k - 1], NotDue(qs[k - 1]);
    var n := |Due(q)|;
    hide DueAt, DueCount, DistinctIds;
    forall i, j | 0 <= i < |rest| && 0 <= j < |later| ensures WaitsLonger(qs, k, rest[i].id, later[j].id) {
      DueOrNot(q, n + i);
      DueOrNot(q, j);
      assert rest[i] == q[n + i] && later[j].id == q[j].id;
    }
    forall i, j | 0 <= i < j < |later| ensures WaitsLonger(qs, k, later[i].id, later[j].id) {
      DueOrNot(q, i);
      DueOrNot(q, j);
      assert later[i].id == q[i].id && later[j].id == q[j].id && q[i].base == q[j].base;
    }
  }

  lemma RestSorted(q: seq<Reg>)
    requires |q| > 0 && Sorted(q)
    ensures Sorted(NotDue(q))
  {
  }

  /** The waiting order is strict, so it determines the order of ties. */
  lemma {:induction false} WaitingIsStrict(qs: seq<seq<Reg>>, k: nat, a: nat, b: nat)
    requires k < |qs|
    ensures !(WaitsLonger(qs, k, a, b) && WaitsLonger(qs, k, b, a))
  {
    hide DueAt;
    if k > 0 {
      WaitingIsStrict(qs, k - 1, a, b);
    }
  }
}
