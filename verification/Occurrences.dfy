/** Counting callback invocations in the sequential trace: every occurrence of a registry runs each of its
    callbacks exactly as often as it is registered, with the occurrence's own cycle number. */
module Occurrences {
  import opened Schedule

  function Count(calls: seq<Call>, x: Call): nat {
    if calls == [] then 0 else (if calls[0] == x then 1 else 0) + Count(calls[1..], x)
  }

  function CountCb(cbs: seq<Callback>, cb: Callback): nat {
    if cbs == [] then 0 else (if cbs[0] == cb then 1 else 0) + CountCb(cbs[1..], cb)
  }

  /** How often `cb` is registered with `r`, as a module or as a rate matcher. */
  function Registered(r: Reg, cb: Callback): nat {
    CountCb(r.modules, cb) + CountCb(r.matchers, cb)
  }

  lemma {:induction false} CountAppend(a: seq<Call>, b: seq<Call>, x: Call)
    ensures Count(a + b, x) == Count(a, x) + Count(b, x)
  {
    if a == [] {
      assert a + b == b;
    } else {
      CountAppend(a[1..], b, x);
      assert a + b == [a[0]] + (a[1..] + b);
    }
  }

  /** Restricting a trace to a thread keeps that thread's calls and drops all others. */
  lemma {:induction false} CountRestrict(calls: seq<Call>, thread: nat, x: Call)
    ensures Count(Restrict(calls, thread), x) == if x.cb.thread == thread then Count(calls, x) else 0
  {
    if calls != [] {
      CountRestrict(calls[1..], thread, x);
    }
  }

  lemma {:induction false} CountNone(calls: seq<Call>, x: Call)
    ensures Count(calls, x) == 0 <==> x !in calls
  {
    if calls != [] {
      CountNone(calls[1..], x);
      assert calls == [calls[0]] + calls[1..];
    }
  }

  lemma {:induction false} CountPrefix(a: seq<Call>, b: seq<Call>, x: Call)
    requires a <= b
    ensures Count(a, x) <= Count(b, x)
  {
    assert b == a + b[|a|..];
    CountAppend(a, b[|a|..], x);
  }

  lemma CountBetween(a: seq<Call>, t: seq<Call>, b: seq<Call>, x: Call)
    requires a <= t <= b && Count(a, x) == Count(b, x)
    ensures Count(t, x) == Count(a, x)
  {
    CountPrefix(a, t, x);
    CountPrefix(t, b, x);
  }

  lemma {:induction false} CountCallsOf(r: Reg, cbs: seq<Callback>, x: Call)
    ensures Count(CallsOf(r, cbs), x) == if x.reg == r.id && x.cycle == r.cycle then CountCb(cbs, x.cb) else 0
  {
    if cbs != [] {
      CountCallsOf(r, cbs[1..], x);
    }
  }

  lemma {:induction false} CountNotDue(due: seq<Reg>, x: Call)
    requires forall d | d in due :: d.id != x.reg
    ensures Count(ModuleCalls(due), x) == 0 && Count(MatcherCalls(due), x) == 0
  {
    if due != [] {
      CountNotDue(due[1..], x);
      CountCallsOf(due[0], due[0].modules, x);
      CountCallsOf(due[0], due[0].matchers, x);
      CountAppend(CallsOf(due[0], due[0].modules), ModuleCalls(due[1..]), x);
      CountAppend(CallsOf(due[0], due[0].matchers), MatcherCalls(due[1..]), x);
    }
  }

  lemma {:induction false} CountDue(due: seq<Reg>, p: Reg, x: Call)
    requires DistinctIds(due) && p in due && x.reg == p.id
    ensures Count(ModuleCalls(due), x) == if x.cycle == p.cycle then CountCb(p.modules, x.cb) else 0
    ensures Count(MatcherCalls(due), x) == if x.cycle == p.cycle then CountCb(p.matchers, x.cb) else 0
  {
    CountCallsOf(due[0], due[0].modules, x);
    CountCallsOf(due[0], due[0].matchers, x);
    CountAppend(CallsOf(due[0], due[0].modules), ModuleCalls(due[1..]), x);
    CountAppend(CallsOf(due[0], due[0].matchers), MatcherCalls(due[1..]), x);
    if due[0] == p {
      forall d | d in due[1..] ensures d.id != x.reg {
        var i :| 0 <= i < |due[1..]| && due[1..][i] == d;
        assert due[i + 1] == d && due[0].id != due[i + 1].id;
      }
      CountNotDue(due[1..], x);
    } else {
      var i :| 0 <= i < |due| && due[i] == p;
      assert due[1..][i - 1] == p;
      CountDue(due[1..], p, x);
    }
  }

  lemma DueUnique(q: seq<Reg>)
    requires |q| > 0 && DistinctIds(q)
    ensures DistinctIds(Due(q))
  {
  }

  /** One tick: a due registry's callbacks run once for its current cycle; no other call happens for it. */
  lemma CountTick(q: seq<Reg>, p: Reg, x: Call)
    requires Live(q) && p in q && x.reg == p.id
    ensures Count(TickCalls(q), x) == if p.base == q[0].base && x.cycle == p.cycle then Registered(p, x.cb) else 0
  {
    hide Due, NotDue, Count, CountCb, ModuleCalls, MatcherCalls;
    DueSplit(q);
    var due := Due(q);
    DueUnique(q);
    CountAppend(ModuleCalls(due), MatcherCalls(due), x);
    if p.base == q[0].base {
      CountDue(due, p, x);
    } else {
      forall d | d in due ensures d.id != x.reg {
        if d.id == p.id {
          UniqueId(q, d, p);
        }
      }
      CountNotDue(due, x);
    }
  }

  lemma UniqueId(q: seq<Reg>, a: Reg, b: Reg)
    requires DistinctIds(q) && a in q && b in q && a.id == b.id
    ensures a == b
  {
    var i :| 0 <= i < |q| && q[i] == a;
    var j :| 0 <= j < |q| && q[j] == b;
    assert i == j;
  }

  /** Where a registry in the list after a tick comes from. */
  lemma Predecessor(q: seq<Reg>, s: Reg) returns (p: Reg)
    requires Live(q) && s in Tick(q)
    ensures p in q && p.id == s.id && p.modules == s.modules && p.matchers == s.matchers && p.step == s.step
    ensures s.cycle == if p.base == q[0].base then p.cycle + 1 else p.cycle
    ensures s == if p.base == q[0].base then p.Advanced() else p
  {
    TickMembers(q);
    if s in q && s.base > q[0].base {
      p := s;
    } else {
      p :| p in q && p.base == q[0].base && s == p.Advanced();
    }
  }

  /** After any number of ticks, occurrence number `x.cycle` of a registry has run callback `x.cb` exactly as often
      as it is registered if that occurrence lies behind, and not at all otherwise. */
  lemma {:induction false} OccurrenceCount(q: seq<Reg>, k: nat, r: Reg, now: Reg, x: Call)
    requires Live(q) && r in q && now in After(q, k) && now.id == r.id == x.reg
    ensures r.cycle <= now.cycle && now.modules == r.modules && now.matchers == r.matchers && now.step == r.step
    ensures Count(Trace(q, k), x) == if r.cycle <= x.cycle < now.cycle then Registered(r, x.cb) else 0
  {
    hide After, Trace, Live, Tick, TickCalls, Count, CountCb, DistinctIds, Sorted;
    RunStep(q, if k == 0 then 0 else k - 1);
    if k == 0 {
      AfterLive(q, 0);
      UniqueId(q, r, now);
      CountEmpty(x);
    } else {
      AfterLive(q, k - 1);
      var b := After(q, k - 1);
      var p := Predecessor(b, now);
      OccurrenceCount(q, k - 1, r, p, x);
      CountTick(b, p, x);
      CountAppend(Trace(q, k - 1), TickCalls(b), x);
    }
  }

  lemma CountEmpty(x: Call)
    ensures Count([], x) == 0
  {
  }

  /** A registry found after `k` ticks is still there later, and its cycle count has not gone back. */
  lemma {:induction false} LaterSelf(q: seq<Reg>, k: nat, n: nat, now: Reg) returns (later: Reg)
    requires Live(q) && k <= n && now in After(q, k)
    ensures later in After(q, n) && later.id == now.id && later.cycle >= now.cycle
    decreases n
  {
    hide *;
    if k == n {
      later := now;
    } else {
      AfterLive(q, n - 1);
      RunStep(q, n - 1);
      var p := LaterSelf(q, k, n - 1, now);
      later := NextSelf(After(q, n - 1), p);
    }
  }

  lemma NextSelf(q: seq<Reg>, p: Reg) returns (s: Reg)
    requires Live(q) && p in q
    ensures s in Tick(q) && s.id == p.id && s.cycle >= p.cycle
  {
    TickMembers(q);
    hide Tick;
    assert p.base >= q[0].base;
    s := if p.base == q[0].base then p.Advanced() else p;
  }

  // ---------------------------------------------------------------------------------------------------------
  // The order of the calls

  /** How many modules the registries up to number `i` have. */
  function ModulesThrough(q: seq<Reg>, i: nat): nat
    requires i < |q|
  {
    (if i == 0 then 0 else ModulesThrough(q, i - 1)) + |q[i].modules|
  }

  /** How many rate matchers the registries up to number `i` have. */
  function MatchersThrough(q: seq<Reg>, i: nat): nat
    requires i < |q|
  {
    (if i == 0 then 0 else MatchersThrough(q, i - 1)) + |q[i].matchers|
  }

  lemma {:induction false} CallAt(r: Reg, cbs: seq<Callback>, k: nat)
    requires k < |cbs|
    ensures |CallsOf(r, cbs)| == |cbs| && CallsOf(r, cbs)[k] == Call(r.id, cbs[k], r.cycle)
  {
    if k > 0 {
      CallAt(r, cbs[1..], k - 1);
    } else if |cbs| > 1 {
      CallAt(r, cbs[1..], 0);
    }
  }

  lemma {:induction false} ModulesRest(q: seq<Reg>, i: nat)
    requires 0 < i < |q|
    ensures ModulesThrough(q, i) == |q[0].modules| + ModulesThrough(q[1..], i - 1)
  {
    if i > 1 {
      ModulesRest(q, i - 1);
    } else {
      assert ModulesThrough(q, 0) == |q[0].modules|;
    }
  }

  lemma {:induction false} CallsLength(r: Reg, cbs: seq<Callback>)
    ensures |CallsOf(r, cbs)| == |cbs|
  {
    if cbs != [] {
      CallsLength(r, cbs[1..]);
    }
  }

  /** Modules run registry by registry, and in the order of each registry's list. */
  lemma {:induction false} ModuleCallAt(q: seq<Reg>, i: nat, k: nat)
    requires i < |q| && k < |q[i].modules|
    ensures var n := ModulesThrough(q, i) - |q[i].modules| + k;
            0 <= n < |ModuleCalls(q)| && ModuleCalls(q)[n] == Call(q[i].id, q[i].modules[k], q[i].cycle)
    decreases |q|
  {
    CallsLength(q[0], q[0].modules);
    if i == 0 {
      CallAt(q[0], q[0].modules, k);
    } else {
      ModulesRest(q, i);
      ModuleCallAt(q[1..], i - 1, k);
    }
  }

  lemma {:induction false} MatchersRest(q: seq<Reg>, i: nat)
    requires 0 < i < |q|
    ensures MatchersThrough(q, i) == |q[0].matchers| + MatchersThrough(q[1..], i - 1)
  {
    if i > 1 {
      MatchersRest(q, i - 1);
    } else {
      assert MatchersThrough(q, 0) == |q[0].matchers|;
    }
  }

  lemma {:induction false} MatcherCallAt(q: seq<Reg>, i: nat, k: nat)
    requires i < |q| && k < |q[i].matchers|
    ensures var n := MatchersThrough(q, i) - |q[i].matchers| + k;
            0 <= n < |MatcherCalls(q)| && MatcherCalls(q)[n] == Call(q[i].id, q[i].matchers[k], q[i].cycle)
    decreases |q|
  {
    CallsLength(q[0], q[0].matchers);
    if i == 0 {
      CallAt(q[0], q[0].matchers, k);
    } else {
      MatchersRest(q, i);
      MatcherCallAt(q[1..], i - 1, k);
    }
  }

  lemma {:induction false} ModuleCount(q: seq<Reg>)
    requires |q| > 0
    ensures |ModuleCalls(q)| == ModulesThrough(q, |q| - 1)
  {
    CallsLength(q[0], q[0].modules);
    if |q| > 1 {
      ModulesRest(q, |q| - 1);
      ModuleCount(q[1..]);
    }
  }

  /** The order of the calls of a tick: all modules of all due registries come first, registry by registry in the order of
      the event list. */
  lemma ModuleInTick(q: seq<Reg>, i: nat, k: nat)
    requires |q| > 0 && i < |Due(q)| && k < |Due(q)[i].modules|
    ensures var due, r := Due(q), Due(q)[i];
            var n := ModulesThrough(due, i) - |r.modules| + k;
            0 <= n < |TickCalls(q)| && TickCalls(q)[n] == Call(r.id, r.modules[k], r.cycle)
  {
    hide Due, ModulesThrough, ModuleCalls, MatcherCalls;
    ModuleCallAt(Due(q), i, k);
  }

  /** Then come all rate matchers, in the same order. */
  lemma MatcherInTick(q: seq<Reg>, i: nat, k: nat)
    requires |q| > 0 && i < |Due(q)| && k < |Due(q)[i].matchers|
    ensures var due, r := Due(q), Due(q)[i];
            var n := ModulesThrough(due, |due| - 1) + MatchersThrough(due, i) - |r.matchers| + k;
            0 <= n < |TickCalls(q)| && TickCalls(q)[n] == Call(r.id, r.matchers[k], r.cycle)
  {
    hide Due, ModulesThrough, MatchersThrough, ModuleCalls, MatcherCalls;
    ModuleCount(Due(q));
    MatcherCallAt(Due(q), i, k);
  }
}
