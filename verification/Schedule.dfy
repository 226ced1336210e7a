/** The sequential schedule on values: the reference that every clock server variant is compared with.

    A registry is the set of callbacks that tick together. The event list holds every registry once, in the
    order of its next time. One tick clocks every registry that is due and puts it back at its next time. */
module Schedule {

  /** A clockable's callback and the thread that owns the clockable. */
  datatype Callback = Callback(id: nat, thread: nat)

  /** The scheduling fields of a clock registry, and its callback lists. */
  datatype Reg = Reg(id: nat, step: nat, base: nat, cycle: nat, modules: seq<Callback>, matchers: seq<Callback>) {
    /** The registry after it has been clocked: one cycle further, one step later. */
    function Advanced(): Reg {
      this.(base := base + step, cycle := cycle + 1)
    }
  }

  /** One callback invocation: the registry it ran for, the callback, and the cycle it was told. */
  datatype Call = Call(reg: nat, cb: Callback, cycle: nat)

  ghost predicate Sorted(q: seq<Reg>) {
    forall i, j | 0 <= i < j < |q| :: q[i].base <= q[j].base
  }

  ghost predicate DistinctIds(q: seq<Reg>) {
    forall i, j | 0 <= i < j < |q| :: q[i].id != q[j].id
  }

  ghost predicate StepsAbove(q: seq<Reg>, lookahead: nat) {
    forall r | r in q :: r.step > lookahead
  }

  /** What an initialised event list looks like. */
  ghost predicate Live(q: seq<Reg>) {
    && |q| > 0
    && Sorted(q)
    && DistinctIds(q)
    && StepsAbove(q, 0)
  }

  ghost function Ids(q: seq<Reg>): set<nat> {
    set r | r in q :: r.id
  }

  // ---------------------------------------------------------------------------------------------------------
  // The event list

  /** Where a registry due at `t` goes: behind everything that is not later than `t`. */
  function InsertPos(q: seq<Reg>, t: nat): (p: nat)
    ensures p <= |q|
    ensures forall i | 0 <= i < p :: q[i].base <= t
    ensures p < |q| ==> q[p].base > t
  {
    if q == [] || q[0].base > t then 0 else 1 + InsertPos(q[1..], t)
  }

  function Insert(q: seq<Reg>, r: Reg): seq<Reg> {
    var p := InsertPos(q, r.base);
    q[..p] + ([r] + q[p..])
  }

  /** How many registries at the head of the list are due at `t`. */
  function DueCount(q: seq<Reg>, t: nat): (n: nat)
    ensures n <= |q|
    ensures forall i | 0 <= i < n :: q[i].base == t
    ensures n < |q| ==> q[n].base != t
  {
    if q == [] || q[0].base != t then 0 else 1 + DueCount(q[1..], t)
  }

  function Due(q: seq<Reg>): seq<Reg>
    requires |q| > 0
  {
    q[..DueCount(q, q[0].base)]
  }

  function NotDue(q: seq<Reg>): seq<Reg>
    requires |q| > 0
  {
    q[DueCount(q, q[0].base)..]
  }

  /** Puts the clocked registries back, in the order in which they were clocked. */
  function Requeue(q: seq<Reg>, due: seq<Reg>): seq<Reg>
    decreases |due|
  {
    if due == [] then q else Requeue(Insert(q, due[0].Advanced()), due[1..])
  }

  /** The event list after one tick. */
  function Tick(q: seq<Reg>): seq<Reg>
    requires |q| > 0
  {
    Requeue(NotDue(q), Due(q))
  }

  /** The position of a registry in a list. */
  function IndexOf(q: seq<Reg>, id: nat): (i: nat)
    ensures i <= |q|
    ensures forall j | 0 <= j < i :: q[j].id != id
    ensures i < |q| ==> q[i].id == id
  {
    if q == [] || q[0].id == id then 0 else 1 + IndexOf(q[1..], id)
  }

  lemma IndexOfAt(q: seq<Reg>, i: nat)
    requires DistinctIds(q) && i < |q|
    ensures IndexOf(q, q[i].id) == i
  {
    var n := IndexOf(q, q[i].id);
    assert forall m | 0 <= m < i :: q[m].id != q[i].id;
  }

  // ---------------------------------------------------------------------------------------------------------
  // The callbacks of a tick

  function CallsOf(r: Reg, cbs: seq<Callback>): seq<Call> {
    if cbs == [] then [] else [Call(r.id, cbs[0], r.cycle)] + CallsOf(r, cbs[1..])
  }

  function ModuleCalls(due: seq<Reg>): seq<Call> {
    if due == [] then [] else CallsOf(due[0], due[0].modules) + ModuleCalls(due[1..])
  }

  function MatcherCalls(due: seq<Reg>): seq<Call> {
    if due == [] then [] else CallsOf(due[0], due[0].matchers) + MatcherCalls(due[1..])
  }

  /** Every module of every due registry, then every rate matcher of every due registry. */
  function TickCalls(q: seq<Reg>): seq<Call>
    requires |q| > 0
  {
    ModuleCalls(Due(q)) + MatcherCalls(Due(q))
  }

  /** The part of a trace that belongs to one thread. */
  function Restrict(calls: seq<Call>, thread: nat): seq<Call> {
    if calls == [] then []
    else if calls[0].cb.thread == thread then [calls[0]] + Restrict(calls[1..], thread)
    else Restrict(calls[1..], thread)
  }

  // ---------------------------------------------------------------------------------------------------------
  // Runs of the sequential clock

  /** The event list after `k` ticks. */
  ghost function After(q: seq<Reg>, k: nat): (r: seq<Reg>)
    requires |q| > 0
    ensures |r| == |q|
  {
    if k == 0 then q else
      var p := After(q, k - 1);
      TickLength(p);
      Tick(p)
  }

  /** The time point that tick number `k` clocks. */
  ghost function Time(q: seq<Reg>, k: nat): nat
    requires |q| > 0
  {
    After(q, k)[0].base
  }

  /** The whole callback trace of the first `k` ticks. */
  ghost function Trace(q: seq<Reg>, k: nat): seq<Call>
    requires |q| > 0
  {
    if k == 0 then [] else Trace(q, k - 1) + TickCalls(After(q, k - 1))
  }

  /** What one thread does in the first `k` ticks. */
  ghost function ThreadTrace(q: seq<Reg>, k: nat, thread: nat): seq<Call>
    requires |q| > 0
  {
    Restrict(Trace(q, k), thread)
  }

  /** The clock server's internal base cycle after `k` ticks, and the sum of the increments returned by them. */
  ghost function BaseCycleAfter(q: seq<Reg>, k: nat, start: nat): nat
    requires |q| > 0
  {
    if k == 0 then start else Time(q, k - 1) / 100
  }

  ghost function Forwarded(q: seq<Reg>, k: nat, start: nat): int
    requires |q| > 0
  {
    if k == 0 then 0
    else Forwarded(q, k - 1, start) + (BaseCycleAfter(q, k, start) - BaseCycleAfter(q, k - 1, start))
  }

  // ---------------------------------------------------------------------------------------------------------
  // Lemmas about one tick

  /** Only the number, the cycle and the lists of a registry matter for its callbacks. */
  lemma {:induction false} CallsOfSame(a: Reg, b: Reg, cbs: seq<Callback>)
    requires a.id == b.id && a.cycle == b.cycle
    ensures CallsOf(a, cbs) == CallsOf(b, cbs)
  {
    if cbs != [] {
      CallsOfSame(a, b, cbs[1..]);
    }
  }

  lemma {:induction false} RequeueLength(q: seq<Reg>, due: seq<Reg>)
    ensures |Requeue(q, due)| == |q| + |due|
    decreases |due|
  {
    if due != [] {
      RequeueLength(Insert(q, due[0].Advanced()), due[1..]);
    }
  }

  lemma TickLength(q: seq<Reg>)
    requires |q| > 0
    ensures |Tick(q)| == |q|
  {
    RequeueLength(NotDue(q), Due(q));
  }

  /** Insertion keeps the list sorted and is stable: the new entry follows everything that is not later. */
  lemma InsertSorted(q: seq<Reg>, r: Reg)
    requires Sorted(q)
    ensures Sorted(Insert(q, r))
  {
    var p := InsertPos(q, r.base);
    var s := Insert(q, r);
    forall i, j | 0 <= i < j < |s| ensures s[i].base <= s[j].base {
      if i < p < j {
        assert s[i] == q[i] && s[j] == q[j - 1];
      } else if i == p {
        assert q[p].base <= q[j - 1].base;
      }
    }
  }

  lemma InsertMembers(q: seq<Reg>, r: Reg)
    ensures forall x :: x in Insert(q, r) <==> x == r || x in q
  {
    var p := InsertPos(q, r.base);
    assert q == q[..p] + q[p..];
  }

  lemma InsertDistinct(q: seq<Reg>, due: seq<Reg>)
    requires due != [] && DistinctIds(q + due)
    ensures DistinctIds(Insert(q, due[0].Advanced()) + due[1..])
  {
    var r := due[0].Advanced();
    var p := InsertPos(q, r.base);
    var s, o := Insert(q, r) + due[1..], q + due;
    forall i, j | 0 <= i < j < |s| ensures s[i].id != s[j].id {
      var i' := if i < p then i else if i == p then |q| else if i <= |q| then i - 1 else i;
      var j' := if j < p then j else if j == p then |q| else if j <= |q| then j - 1 else j;
      assert s[i].id == o[i'].id && s[j].id == o[j'].id;
    }
  }

  lemma {:induction false} RequeueProps(q: seq<Reg>, due: seq<Reg>)
    requires Sorted(q) && DistinctIds(q + due)
    ensures Sorted(Requeue(q, due)) && DistinctIds(Requeue(q, due))
    ensures forall x :: x in Requeue(q, due) <==> x in q || exists d :: d in due && x == d.Advanced()
    decreases |due|
  {
    if due == [] {
      assert q + due == q;
    } else {
      var r := due[0].Advanced();
      InsertSorted(q, r);
      InsertDistinct(q, due);
      InsertMembers(q, r);
      RequeueProps(Insert(q, r), due[1..]);
      forall x | x in q || exists d :: d in due && x == d.Advanced()
        ensures x in Requeue(q, due)
      {
        if x !in q {
          var d :| d in due && x == d.Advanced();
          assert d == due[0] || d in due[1..];
        }
      }
    }
  }

  /** A sorted list splits into the registries at the earliest time and those strictly later. */
  lemma DueSplit(q: seq<Reg>)
    requires |q| > 0 && Sorted(q)
    ensures q == Due(q) + NotDue(q)
    ensures Due(q) != []
    ensures forall r :: r in Due(q) <==> r in q && r.base == q[0].base
    ensures forall r :: r in NotDue(q) <==> r in q && r.base > q[0].base
  {
    var n := DueCount(q, q[0].base);
    assert forall i | n <= i < |q| :: q[i].base >= q[n].base;
    assert q == Due(q) + NotDue(q);
  }

  lemma HeadIsFirst(q: seq<Reg>, r: Reg)
    requires Sorted(q) && r in q
    ensures q[0].base <= r.base
  {
  }

  lemma DueDistinct(q: seq<Reg>)
    requires |q| > 0 && DistinctIds(q)
    ensures DistinctIds(NotDue(q) + Due(q))
  {
    var n := DueCount(q, q[0].base);
    var s := NotDue(q) + Due(q);
    assert forall i | 0 <= i < |s| :: s[i] == if i < |q| - n then q[i + n] else q[i - (|q| - n)];
  }

  /** One tick: a registry that is not due is untouched, and one that is due is advanced. */
  lemma TickMembers(q: seq<Reg>)
    requires Live(q)
    ensures forall x :: x in Tick(q) <==>
      (x in q && x.base > q[0].base) || exists d :: d in q && d.base == q[0].base && x == d.Advanced()
  {
    DueSplit(q);
    DueDistinct(q);
    var due, rest := Due(q), NotDue(q);
    RequeueProps(rest, due);
  }

  /** One tick: the list stays live and time moves strictly forward. */
  lemma TickLive(q: seq<Reg>)
    requires Live(q)
    ensures Live(Tick(q)) && Tick(q)[0].base > q[0].base
  {
    var s := Tick(q);
    TickLength(q);
    DueSplit(q);
    DueDistinct(q);
    RequeueProps(NotDue(q), Due(q));
    TickMembers(q);
    forall r | r in s ensures r.step > 0 && r.base > q[0].base {
      if r !in q {
        var d :| d in q && d.base == q[0].base && r == d.Advanced();
      }
    }
    assert s[0] in s;
  }

  /** A tick neither loses nor duplicates a registry. */
  lemma TickIds(q: seq<Reg>)
    requires Live(q)
    ensures Ids(Tick(q)) == Ids(q)
  {
    TickMembers(q);
    var s := Tick(q);
    forall r | r in q ensures r.id in Ids(s) {
      var r' := if r.base > q[0].base then r else r.Advanced();
      assert r.base >= q[0].base;
      assert r' in s;
    }
    forall x | x in s ensures x.id in Ids(q) {
      if x !in q {
        var d :| d in q && d.base == q[0].base && x == d.Advanced();
      }
    }
  }

  // ---------------------------------------------------------------------------------------------------------
  // Lemmas about runs

  lemma {:induction false} AfterLive(q: seq<Reg>, k: nat)
    requires Live(q)
    ensures Live(After(q, k)) && Sorted(After(q, k)) && DistinctIds(After(q, k)) && Ids(After(q, k)) == Ids(q)
  {
    if k > 0 {
      AfterLive(q, k - 1);
      TickLive(After(q, k - 1));
      TickIds(After(q, k - 1));
    }
  }

  /** Clocked time strictly increases. */
  lemma {:induction false} TimeIncreases(q: seq<Reg>, i: nat, j: nat)
    requires Live(q) && i < j
    ensures Time(q, i) < Time(q, j)
    decreases j
  {
    hide Live, Tick;
    AfterLive(q, j - 1);
    TickLive(After(q, j - 1));
    if i < j - 1 {
      TimeIncreases(q, i, j - 1);
    }
  }

  lemma TimeMonotone(q: seq<Reg>, i: nat, j: nat)
    requires Live(q) && i <= j
    ensures Time(q, i) <= Time(q, j)
  {
    if i < j {
      TimeIncreases(q, i, j);
    }
  }

  lemma TickSteps(q: seq<Reg>, bound: nat)
    requires Live(q) && StepsAbove(q, bound)
    ensures StepsAbove(Tick(q), bound)
  {
    TickMembers(q);
    forall r | r in Tick(q) ensures r.step > bound {
      if r !in q {
        var d :| d in q && d.base == q[0].base && r == d.Advanced();
      }
    }
  }

  lemma {:induction false} StepsKept(q: seq<Reg>, k: nat, bound: nat)
    requires Live(q) && StepsAbove(q, bound)
    ensures StepsAbove(After(q, k), bound)
  {
    hide Live, Tick, StepsAbove;
    if k > 0 {
      StepsKept(q, k - 1, bound);
      AfterLive(q, k - 1);
      TickSteps(After(q, k - 1), bound);
    }
  }

  lemma {:induction false} RestrictAppend(a: seq<Call>, b: seq<Call>, thread: nat)
    ensures Restrict(a + b, thread) == Restrict(a, thread) + Restrict(b, thread)
  {
    if a == [] {
      assert a + b == b;
    } else {
      RestrictAppend(a[1..], b, thread);
      assert a + b == [a[0]] + (a[1..] + b);
      var ra, rb := Restrict(a[1..], thread), Restrict(b, thread);
      assert [a[0]] + (ra + rb) == ([a[0]] + ra) + rb;
    }
  }

  /** The run starts with the given list, and goes on by one tick. */
  lemma RunStep(q: seq<Reg>, k: nat)
    requires |q| > 0
    ensures After(q, 0) == q && Trace(q, 0) == []
    ensures After(q, k + 1) == Tick(After(q, k))
    ensures Trace(q, k + 1) == Trace(q, k) + TickCalls(After(q, k))
  {
  }

  /** The increments add up to the last clocked time, in whole base cycles. */
  lemma {:induction false} ForwardedSum(q: seq<Reg>, k: nat, start: nat)
    requires |q| > 0
    ensures Forwarded(q, k, start) == BaseCycleAfter(q, k, start) - start
  {
    hide BaseCycleAfter, Time;
    if k > 0 {
      ForwardedSum(q, k - 1, start);
    } else {
      StartCycle(q, start);
    }
  }

  lemma StartCycle(q: seq<Reg>, start: nat)
    requires |q| > 0
    ensures BaseCycleAfter(q, 0, start) == start
  {
  }

  lemma ThreadTraceStep(q: seq<Reg>, k: nat, thread: nat)
    requires |q| > 0
    ensures ThreadTrace(q, k + 1, thread) == ThreadTrace(q, k, thread) + Restrict(TickCalls(After(q, k)), thread)
  {
    RestrictAppend(Trace(q, k), TickCalls(After(q, k)), thread);
  }

  // ---------------------------------------------------------------------------------------------------------
  // The stretch of the list that a lookahead window can see

  /** The registries due after `lo` and not after `hi`, in list order. */
  function Between(q: seq<Reg>, lo: int, hi: int): seq<Reg> {
    if q == [] then []
    else if lo < q[0].base <= hi then [q[0]] + Between(q[1..], lo, hi)
    else Between(q[1..], lo, hi)
  }

  lemma {:induction false} BetweenAppend(a: seq<Reg>, b: seq<Reg>, lo: int, hi: int)
    ensures Between(a + b, lo, hi) == Between(a, lo, hi) + Between(b, lo, hi)
  {
    if a == [] {
      assert a + b == b;
    } else {
      BetweenAppend(a[1..], b, lo, hi);
      assert a + b == [a[0]] + (a[1..] + b);
      var ra, rb := Between(a[1..], lo, hi), Between(b, lo, hi);
      assert [a[0]] + (ra + rb) == ([a[0]] + ra) + rb;
    }
  }

  lemma {:induction false} BetweenMembers(q: seq<Reg>, lo: int, hi: int)
    ensures forall r :: r in Between(q, lo, hi) <==> r in q && lo < r.base <= hi
  {
    if q != [] {
      BetweenMembers(q[1..], lo, hi);
      assert q == [q[0]] + q[1..];
    }
  }

  lemma {:induction false} BetweenNone(q: seq<Reg>, lo: int, hi: int)
    requires forall r | r in q :: !(lo < r.base <= hi)
    ensures Between(q, lo, hi) == []
  {
    if q != [] {
      BetweenNone(q[1..], lo, hi);
    }
  }

  lemma {:induction false} BetweenAll(q: seq<Reg>, lo: int, hi: int)
    requires forall r | r in q :: lo < r.base <= hi
    ensures Between(q, lo, hi) == q
  {
    if q != [] {
      BetweenAll(q[1..], lo, hi);
    }
  }

  lemma InsertOutside(q: seq<Reg>, r: Reg, lo: int, hi: int)
    requires !(lo < r.base <= hi)
    ensures Between(Insert(q, r), lo, hi) == Between(q, lo, hi)
  {
    var p := InsertPos(q, r.base);
    var a, b := q[..p], q[p..];
    assert Between([r] + b, lo, hi) == Between(b, lo, hi) by { assert ([r] + b)[1..] == b; }
    hide Between, InsertPos;
    BetweenAppend(a, [r] + b, lo, hi);
    BetweenAppend(a, b, lo, hi);
    assert q == a + b;
  }

  lemma {:induction false} RequeueOutside(q: seq<Reg>, due: seq<Reg>, lo: int, hi: int)
    requires forall d | d in due :: !(lo < d.base + d.step <= hi)
    ensures Between(Requeue(q, due), lo, hi) == Between(q, lo, hi)
    decreases |due|
  {
    hide Between, Insert;
    if due != [] {
      InsertOutside(q, due[0].Advanced(), lo, hi);
      RequeueOutside(Insert(q, due[0].Advanced()), due[1..], lo, hi);
    }
  }

  lemma RequeueLater(rest: seq<Reg>, due: seq<Reg>, lo: int, hi: int)
    requires forall d | d in due :: d.base <= lo && d.base + d.step > hi
    ensures Between(Requeue(rest, due), lo, hi) == Between(due + rest, lo, hi)
  {
    RequeueOutside(rest, due, lo, hi);
    BetweenAppend(due, rest, lo, hi);
    BetweenNone(due, lo, hi);
  }

  /** A tick does not touch the part of the list in `(lo, hi]` when it clocks nothing after `lo` and puts
      nothing back up to `hi`. */
  lemma TickOutside(q: seq<Reg>, lookahead: nat, lo: int, hi: int)
    requires Live(q) && q[0].base <= lo && hi <= q[0].base + lookahead
    requires StepsAbove(q, lookahead)
    ensures Between(Tick(q), lo, hi) == Between(q, lo, hi)
  {
    hide Between, Sorted, DueCount;
    DueSplit(q);
    RequeueLater(NotDue(q), Due(q), lo, hi);
  }

  /** Seen from `k` ticks into the run, the events in a window that opens at or before the next time point are
      already the events the run will find there `n - k` ticks later: every step is longer than the window. */
  lemma {:induction false} WindowAgrees(q: seq<Reg>, lookahead: nat, k: nat, n: nat, lo: int, hi: int)
    requires Live(q) && StepsAbove(q, lookahead) && k <= n
    requires n > k ==> Time(q, n - 1) <= lo
    requires hi <= Time(q, k) + lookahead
    ensures Between(After(q, k), lo, hi) == Between(After(q, n), lo, hi)
    decreases n
  {
    hide Between, Live, StepsAbove, Tick, Sorted;
    if k < n {
      TimeMonotone(q, k, n - 1);
      if k < n - 1 {
        TimeIncreases(q, n - 2, n - 1);
      }
      WindowAgrees(q, lookahead, k, n - 1, lo, hi);
      AfterLive(q, n - 1);
      StepsKept(q, n - 1, lookahead);
      TickOutside(After(q, n - 1), lookahead, lo, hi);
    }
  }

  lemma BetweenHead(due: seq<Reg>, rest: seq<Reg>, t: int)
    requires forall r | r in due :: r.base == t
    requires forall r | r in rest :: r.base > t
    ensures Between(due + rest, t - 1, t) == due
  {
    BetweenAppend(due, rest, t - 1, t);
    BetweenAll(due, t - 1, t);
    BetweenNone(rest, t - 1, t);
    assert due + [] == due;
  }

  lemma BetweenDue(q: seq<Reg>)
    requires |q| > 0 && Sorted(q)
    ensures Between(q, q[0].base - 1, q[0].base) == Due(q)
  {
    hide *;
    DueSplit(q);
    BetweenHead(Due(q), NotDue(q), q[0].base);
  }
}
