/** When a callback may be registered in several registries without being told a wrong cycle by the multi-threaded clock
    that stores the cycle with the callback. */
module SharedCallbacks {
  import opened Arithmetic
  import opened BasicThreaded
  import opened ClosedForm
  import opened Occurrences
  import Protocol = PhaseBarrier
  import opened Schedule

  predicate Has(r: Reg, cb: Callback) {
    cb in r.modules || cb in r.matchers
  }

  ghost predicate Share(a: Reg, b: Reg) {
    exists cb :: Has(a, cb) && Has(b, cb)
  }

  /** Two registries that are always at the same cycle when they are due together: they start alike and have one step, or
      they are never due together. */
  predicate Compatible(a: Reg, b: Reg) {
    || (a.step == b.step && a.base == b.base && a.cycle == b.cycle)
    || Gcd2(a.step, b.step) == 0
    || (a.base - b.base) % Gcd2(a.step, b.step) != 0
  }

  ghost predicate AllCompatible(q: seq<Reg>) {
    forall a, b | a in q && b in q && a.id != b.id && Share(a, b) :: Compatible(a, b)
  }

  /** No callback stands in two registries. */
  ghost predicate Unshared(q: seq<Reg>) {
    forall a, b | a in q && b in q && a.id != b.id :: !Share(a, b)
  }

  // ---------------------------------------------------------------------------------------------------------
  // The calls of a tick and the due registries

  lemma {:induction false} ListCall(r: Reg, cbs: seq<Callback>, x: Call)
    ensures x in CallsOf(r, cbs) <==> x.reg == r.id && x.cycle == r.cycle && x.cb in cbs
  {
    if cbs != [] {
      ListCall(r, cbs[1..], x);
      assert cbs == [cbs[0]] + cbs[1..];
      assert x == Call(x.reg, x.cb, x.cycle);
    }
  }

  ghost predicate Makes(r: Reg, x: Call) {
    x.reg == r.id && x.cycle == r.cycle && Has(r, x.cb)
  }

  lemma {:induction false} PhaseCall(due: seq<Reg>, x: Call)
    ensures x in ModuleCalls(due) || x in MatcherCalls(due) <==> exists r :: r in due && Makes(r, x)
  {
    if due != [] {
      var r := due[0];
      PhaseCall(due[1..], x);
      ListCall(r, r.modules, x);
      ListCall(r, r.matchers, x);
      hide CallsOf;
      assert due == [r] + due[1..];
      if Makes(r, x) {
        assert r in due;
      }
      if s :| s in due && Makes(s, x) {
        assert s == r || s in due[1..];
      }
    }
  }

  /** A tick is consistent if and only if due registries that share a callback are at the same cycle. */
  lemma ConsistentIff(q: seq<Reg>)
    requires |q| > 0
    ensures Consistent(TickCalls(q)) <==>
              forall a, b | a in Due(q) && b in Due(q) && Share(a, b) :: a.cycle == b.cycle
  {
    hide ModuleCalls, MatcherCalls, Due;
    var due, calls := Due(q), TickCalls(q);
    if Consistent(calls) {
      forall a, b | a in due && b in due && Share(a, b) ensures a.cycle == b.cycle {
        var cb :| Has(a, cb) && Has(b, cb);
        var i := CallIndex(q, a, cb);
        var j := CallIndex(q, b, cb);
      }
    }
    if forall a, b | a in due && b in due && Share(a, b) :: a.cycle == b.cycle {
      forall i, j | 0 <= i < |calls| && 0 <= j < |calls| && calls[i].cb == calls[j].cb
        ensures calls[i].cycle == calls[j].cycle
      {
        var a := CallMaker(q, i);
        var b := CallMaker(q, j);
        assert Has(a, calls[i].cb) && Has(b, calls[i].cb);
      }
    }
  }

  lemma CallIndex(q: seq<Reg>, r: Reg, cb: Callback) returns (i: nat)
    requires |q| > 0 && r in Due(q) && Has(r, cb)
    ensures i < |TickCalls(q)| && TickCalls(q)[i] == Call(r.id, cb, r.cycle)
  {
    hide ModuleCalls, MatcherCalls, Due;
    var x := Call(r.id, cb, r.cycle);
    PhaseCall(Due(q), x);
    assert Makes(r, x);
    assert TickCalls(q) == ModuleCalls(Due(q)) + MatcherCalls(Due(q));
    assert x in TickCalls(q);
    i :| 0 <= i < |TickCalls(q)| && TickCalls(q)[i] == x;
  }

  lemma CallMaker(q: seq<Reg>, i: nat) returns (r: Reg)
    requires |q| > 0 && i < |TickCalls(q)|
    ensures r in Due(q) && Makes(r, TickCalls(q)[i])
  {
    hide ModuleCalls, MatcherCalls, Due;
    var x := TickCalls(q)[i];
    PhaseCall(Due(q), x);
    r :| r in Due(q) && Makes(r, x);
  }

  // ---------------------------------------------------------------------------------------------------------
  // Callbacks of one registry

  /** Where a registry of a later list comes from. */
  lemma {:induction false} Ancestor(q: seq<Reg>, k: nat, now: Reg) returns (r: Reg)
    requires Live(q) && now in After(q, k)
    ensures r in q && r.id == now.id && r.modules == now.modules && r.matchers == now.matchers
  {
    hide Live, Tick, After;
    RunStep(q, if k == 0 then 0 else k - 1);
    if k == 0 {
      r := now;
    } else {
      AfterLive(q, k - 1);
      var p := Predecessor(After(q, k - 1), now);
      r := Ancestor(q, k - 1, p);
    }
  }

  /** If every callback is registered in one registry only, no tick is ever inconsistent. */
  lemma UnsharedIsConsistent(q: seq<Reg>, k: nat)
    requires |q| > 0 && Live(q) && Unshared(q)
    ensures AlwaysConsistent(q, k)
  {
    hide Live, After, Consistent, TickCalls;
    forall i: nat | i < k ensures Consistent(TickCalls(After(q, i))) {
      UnsharedTick(q, i);
    }
  }

  lemma UnsharedTick(q: seq<Reg>, k: nat)
    requires Live(q) && Unshared(q)
    ensures Consistent(TickCalls(After(q, k)))
  {
    AfterLive(q, k);
    var s := After(q, k);
    ConsistentIff(s);
    DueSplit(s);
    hide After, Consistent, TickCalls, Due, Live, Sorted, DistinctIds, Share, Unshared;
    forall a, b | a in Due(s) && b in Due(s) && Share(a, b) ensures a.cycle == b.cycle {
      UnsharedPair(q, k, a, b);
    }
  }

  lemma UnsharedPair(q: seq<Reg>, k: nat, a: Reg, b: Reg)
    requires Live(q) && Unshared(q) && a in After(q, k) && b in After(q, k) && Share(a, b)
    ensures a == b
  {
    AfterLive(q, k);
    hide After, Live, DistinctIds;
    var x := Ancestor(q, k, a);
    var y := Ancestor(q, k, b);
    SameShare(a, b, x, y);
    hide Share;
    UniqueId(After(q, k), a, b);
  }

  lemma SameShare(a: Reg, b: Reg, x: Reg, y: Reg)
    requires Share(a, b) && a.modules == x.modules && a.matchers == x.matchers && b.modules == y.modules && b.matchers == y.matchers
    ensures Share(x, y)
  {
    var cb :| Has(a, cb) && Has(b, cb);
    assert Has(x, cb) && Has(y, cb);
  }

  // ---------------------------------------------------------------------------------------------------------
  // The condition in closed form

  /** A common time gives a common tick: if a registry has a nominal time `t`, then the tick at `t` finds it due, at the
      cycle of that nominal time. */
  lemma TickAtTime(q: seq<Reg>, t: nat) returns (k: nat)
    requires Fresh(q)
    ensures ListAt(q, k, t - 1)
  {
    if t == 0 {
      k := 0;
    } else {
      k := ListAtExists(q, t - 1);
    }
  }

  lemma DueAtNominal(q: seq<Reg>, k: nat, t: nat, r: Reg, n: nat) returns (now: Reg)
    requires Fresh(q) && ListAt(q, k, t - 1) && r in q && Nominal(r, n) == t
    ensures now in Due(After(q, k)) && now == r.(base := t, cycle := r.cycle + n)
  {
    var s := After(q, k);
    AfterLive(q, k);
    DueSplit(s);
    hide After, Live, Sorted, DistinctIds, Due, Nominal, TicksBy, Fresh;
    now := StillThere(q, k, r);
    CycleIsTicksBy(q, k, t - 1, r, now);
    PositiveFresh(q, r);
    EarlierNominal(r, n);
    TicksByIs(r, t - 1, n);
    FirstAt(s, now, t);
  }

  lemma PositiveFresh(q: seq<Reg>, r: Reg)
    requires Fresh(q) && r in q
    ensures r.step > 0 && Live(q)
  {
  }

  lemma StillThere(q: seq<Reg>, k: nat, r: Reg) returns (now: Reg)
    requires |q| > 0 && r in q && Ids(After(q, k)) == Ids(q)
    ensures now in After(q, k) && now.id == r.id
  {
    hide After;
    assert r.id in Ids(q);
    now :| now in After(q, k) && now.id == r.id;
  }

  lemma FirstAt(s: seq<Reg>, now: Reg, t: nat)
    requires |s| > 0 && Sorted(s) && now in s && now.base == t && t <= s[0].base
    ensures s[0].base == t
  {
  }

  lemma EarlierNominal(r: Reg, n: nat)
    requires r.step > 0
    ensures n > 0 ==> Nominal(r, n - 1) < Nominal(r, n)
  {
    if n > 0 {
      NominalNext(r, n - 1);
    }
  }

  /** Registries whose starts agree modulo the greatest common divisor of their steps have a common nominal time. */
  lemma CommonTime(a: Reg, b: Reg) returns (i: nat, j: nat)
    requires a.step > 0 && b.step > 0 && Gcd2(a.step, b.step) > 0 && (a.base - b.base) % Gcd2(a.step, b.step) == 0
    ensures Nominal(a, i) == Nominal(b, j)
  {
    var g := Gcd2(a.step, b.step);
    var x, y := Bezout(a.step, b.step);
    var m := (b.base - a.base) / g;
    NegativeMultiple(a.base - b.base, g);
    assert b.base - a.base == m * g;
    var u, v := m * x, -(m * y);
    CombineScaled(m, x, y, a.step, b.step, g);
    var z := Abs(u) + Abs(v);
    ScaleUp(u, z, b.step);
    ScaleUp(v, z, a.step);
    i, j := u + z * b.step, v + z * a.step;
    CommonProduct(a.base, b.base, a.step, b.step, u, v, z);
  }

  function Abs(x: int): nat {
    if x < 0 then -x else x
  }

  lemma NegativeMultiple(d: int, g: nat)
    requires g > 0 && d % g == 0
    ensures -d == (-d) / g * g
  {
    var n, k, r := d / g, (-d) / g, (-d) % g;
    assert d == n * g && -d == k * g + r;
    Distribute(k, -n, g);
    OnlyZero(k + n, g, -r);
  }

  lemma CombineScaled(m: int, x: int, y: int, a: int, b: int, g: int)
    requires x * a + y * b == g
    ensures (m * x) * a + (m * y) * b == m * g
  {
    assert m * (x * a + y * b) == (m * x) * a + (m * y) * b;
  }

  lemma ScaleUp(u: int, z: nat, s: nat)
    requires s > 0 && z >= Abs(u)
    ensures u + z * s >= 0
  {
    assert z * s >= z;
  }

  lemma CommonProduct(p: int, q: int, a: int, b: int, u: int, v: int, z: int)
    requires u * a - v * b == q - p
    ensures p + (u + z * b) * a == q + (v + z * a) * b
  {
    assert (u + z * b) * a == u * a + z * b * a;
    assert (v + z * a) * b == v * b + z * a * b;
    assert z * b * a == z * a * b;
  }

  /** Registries that have a common nominal time have starts that agree modulo the greatest common divisor. */
  lemma CommonTimeDivides(a: Reg, b: Reg, i: nat, j: nat)
    requires a.step > 0 && b.step > 0 && Nominal(a, i) == Nominal(b, j)
    ensures Gcd2(a.step, b.step) > 0 && (a.base - b.base) % Gcd2(a.step, b.step) == 0
  {
    Gcd2Divisors(a.step, b.step, 1);
    Gcd2DividesBoth(a.step, b.step);
    var g := Gcd2(a.step, b.step);
    var x := Quotient(g, a.step);
    var y := Quotient(g, b.step);
    Difference(j, y, i, x, g);
    assert a.base - b.base == (j * y - i * x) * g;
    IntMultiple(j * y - i * x, g);
  }

  lemma Difference(j: int, y: int, i: int, x: int, g: int)
    ensures j * (y * g) - i * (x * g) == (j * y - i * x) * g
  {
    assert j * (y * g) == (j * y) * g && i * (x * g) == (i * x) * g;
  }

  lemma IntMultiple(n: int, g: nat)
    requires g > 0
    ensures (n * g) % g == 0
  {
    var m := n * g;
    var d, r := m / g, m % g;
    assert m == d * g + r;
    Distribute(n, d, g);
    OnlyZero(n - d, g, r);
  }

  /** Compatible registries are at the same cycle whenever they are due together. */
  lemma CompatibleCycles(a: Reg, b: Reg, i: nat, j: nat)
    requires a.step > 0 && b.step > 0 && Nominal(a, i) == Nominal(b, j) && Compatible(a, b)
    ensures a.cycle + i == b.cycle + j
  {
    CommonTimeDivides(a, b, i, j);
    QuotientUnique(i, j, a.step, 0);
  }

  /** Incompatible registries are due together at different cycles some time. */
  lemma IncompatibleCycles(a: Reg, b: Reg) returns (i: nat, j: nat)
    requires 0 < a.step && 0 < b.step && a.base < a.step && b.base < b.step && !Compatible(a, b)
    ensures Nominal(a, i) == Nominal(b, j) && a.cycle + i != b.cycle + j
  {
    if a.step == b.step {
      Gcd2Self(a.step);
      SmallMultiple(a.base - b.base, a.step);
      i, j := 0, 0;
    } else {
      i, j := CommonTime(a, b);
      if a.cycle + i == b.cycle + j {
        NextCommon(a, b, i, j);
        i, j := i + b.step, j + a.step;
      }
    }
  }

  lemma Gcd2Self(a: nat)
    requires a > 0
    ensures Gcd2(a, a) == a
  {
    assert a % a == 0;
    assert Gcd2(a, 0) == a;
  }

  lemma SmallMultiple(d: int, s: nat)
    requires 0 < d + s && d < s && d % s == 0
    ensures d == 0
  {
    assert d == d / s * s;
    OnlyZero(d / s, s, d);
  }

  lemma NextCommon(a: Reg, b: Reg, i: nat, j: nat)
    requires Nominal(a, i) == Nominal(b, j)
    ensures Nominal(a, i + b.step) == Nominal(b, j + a.step)
  {
    assert (i + b.step) * a.step == i * a.step + b.step * a.step;
    assert (j + a.step) * b.step == j * b.step + a.step * b.step;
  }

  /** No tick of any run is inconsistent, and so all threads always see their part of the sequential trace, if and only if
      registries that share a callback are compatible: they start alike and have one step, or their starts differ modulo
      the greatest common divisor of their steps. */
  lemma AlwaysConsistentIff(q: seq<Reg>)
    requires Fresh(q)
    ensures (forall k :: AlwaysConsistent(q, k)) <==> AllCompatible(q)
  {
    hide Live, AlwaysConsistent, Compatible, Share;
    if AllCompatible(q) {
      forall k ensures AlwaysConsistent(q, k) {
        CompatibleRun(q, k);
      }
    }
    if forall k :: AlwaysConsistent(q, k) {
      forall a, b | a in q && b in q && a.id != b.id && Share(a, b) ensures Compatible(a, b) {
        if !Compatible(a, b) {
          var k := InconsistentTick(q, a, b);
        }
      }
    }
  }

  lemma CompatibleRun(q: seq<Reg>, k: nat)
    requires Fresh(q) && AllCompatible(q)
    ensures AlwaysConsistent(q, k)
  {
    hide Live, After, Consistent, TickCalls, AllCompatible;
    forall i: nat | i < k ensures Consistent(TickCalls(After(q, i))) {
      CompatibleTick(q, i);
    }
  }

  lemma CompatibleTick(q: seq<Reg>, k: nat)
    requires Fresh(q) && AllCompatible(q)
    ensures Consistent(TickCalls(After(q, k)))
  {
    AfterLive(q, k);
    var s := After(q, k);
    ConsistentIff(s);
    DueSplit(s);
    hide After, Consistent, TickCalls, Due, Live, Fresh, Sorted, DistinctIds, Share, AllCompatible;
    forall a, b | a in Due(s) && b in Due(s) && Share(a, b) ensures a.cycle == b.cycle {
      CompatiblePair(q, k, a, b);
    }
  }

  lemma CompatiblePair(q: seq<Reg>, k: nat, a: Reg, b: Reg)
    requires Fresh(q) && AllCompatible(q) && a in After(q, k) && b in After(q, k) && Share(a, b) && a.base == b.base
    ensures a.cycle == b.cycle
  {
    AfterLive(q, k);
    hide After, Live, DistinctIds, Compatible, Nominal;
    var x := Ancestor(q, k, a);
    var y := Ancestor(q, k, b);
    NoDrift(q, k, x, a);
    NoDrift(q, k, y, b);
    SameShare(a, b, x, y);
    hide Share;
    if x.id == y.id {
      UniqueId(After(q, k), a, b);
    } else {
      PositiveFresh(q, x);
      PositiveFresh(q, y);
      CompatibleCycles(x, y, a.cycle - x.cycle, b.cycle - y.cycle);
    }
  }

  lemma InconsistentTick(q: seq<Reg>, a: Reg, b: Reg) returns (k: nat)
    requires Fresh(q) && a in q && b in q && Share(a, b) && !Compatible(a, b)
    ensures !AlwaysConsistent(q, k + 1)
  {
    PositiveFresh(q, a);
    PositiveFresh(q, b);
    assert a.base < a.step && b.base < b.step;
    hide Live, After, TickCalls, Consistent, Due, Nominal, Compatible, ListAt, Fresh, AlwaysConsistent, Share;
    var i, j := IncompatibleCycles(a, b);
    var t := Nominal(a, i);
    k := TickAtTime(q, t);
    var x := DueAtNominal(q, k, t, a, i);
    var y := DueAtNominal(q, k, t, b, j);
    SameShare(a, b, x, y);
    TwoCycles(After(q, k), x, y);
    NotAlways(q, k);
  }

  lemma TwoCycles(s: seq<Reg>, x: Reg, y: Reg)
    requires |s| > 0 && x in Due(s) && y in Due(s) && Share(x, y) && x.cycle != y.cycle
    ensures !Consistent(TickCalls(s))
  {
    hide Due, TickCalls, Consistent, Share;
    ConsistentIff(s);
  }

  lemma NotAlways(q: seq<Reg>, k: nat)
    requires |q| > 0 && !Consistent(TickCalls(After(q, k)))
    ensures !AlwaysConsistent(q, k + 1)
  {
    hide Consistent, TickCalls, After;
  }

  // ---------------------------------------------------------------------------------------------------------
  // What it means for the barrier protocol

  ghost predicate WorkersAgree(c: Protocol.Config, s: Protocol.State)
    requires |c.start| > 0
  {
    |s.workers| == c.threads && forall w | 0 <= w < c.threads :: s.workers[w].trace == ThreadTrace(c.start, s.ticks, w)
  }

  /** With compatible registries, every run agrees with the sequential clock. */
  lemma CompatibleRefines(c: Protocol.Config, run: seq<Protocol.State>)
    requires c.Valid() && Fresh(c.start) && AllCompatible(c.start)
    requires Protocol.Run(c, run) && Protocol.Last(run).server == Protocol.Idle
    ensures WorkersAgree(c, Protocol.Last(run))
  {
    CompatibleRun(c.start, Protocol.Last(run).ticks);
    hide Protocol.Run, Fresh, Live, AllCompatible, AlwaysConsistent, ThreadTrace;
    Protocol.RefinesSequentialIff(c, run);
  }

  /** Otherwise there is a number of ticks after which no run agrees with it any more. */
  lemma IncompatibleDiffers(c: Protocol.Config) returns (k: nat)
    requires c.Valid() && Fresh(c.start) && !AllCompatible(c.start)
    ensures forall run | Protocol.Run(c, run) && Protocol.Last(run).server == Protocol.Idle && Protocol.Last(run).ticks >= k ::
              !WorkersAgree(c, Protocol.Last(run))
  {
    AlwaysConsistentIff(c.start);
    k :| !AlwaysConsistent(c.start, k);
    hide Protocol.Run, Fresh, Live, AllCompatible, ThreadTrace, Consistent, TickCalls;
    forall run | Protocol.Run(c, run) && Protocol.Last(run).server == Protocol.Idle && Protocol.Last(run).ticks >= k
      ensures !WorkersAgree(c, Protocol.Last(run))
    {
      Protocol.RefinesSequentialIff(c, run);
    }
  }

  // ---------------------------------------------------------------------------------------------------------
  // A callback that is told a wrong cycle

  /** One callback in a registry with step 100 and in one with step 200: at time 200 the first is at cycle 2 and the
      second at cycle 1, and the callback is told cycle 2 both times. */
  lemma ToldWrongCycle(cb: Callback)
    ensures var q := [Reg(0, 100, 0, 0, [cb], []), Reg(1, 200, 0, 0, [cb], [])];
            && Fresh(q)
            && TickCalls(After(q, 2)) == [Call(1, cb, 1), Call(0, cb, 2)]
            && Seen(TickCalls(After(q, 2))) == [Call(1, cb, 2), Call(0, cb, 2)]
  {
    var a, b := Reg(0, 100, 0, 0, [cb], []), Reg(1, 200, 0, 0, [cb], []);
    var a', b' := a.Advanced().Advanced(), b.Advanced();
    TickOfTwo(a, b);
    TickOfOne(a.Advanced(), b');
    RunStep([a, b], 0);
    RunStep([a, b], 1);
    assert After([a, b], 2) == [b', a'];
    DueOfTwo(b', a');
    TwoCalls(b', a', cb);
    LastWins(Call(1, cb, 1), Call(0, cb, 2));
  }

  lemma TwoCalls(a: Reg, b: Reg, cb: Callback)
    requires a.modules == b.modules == [cb] && a.matchers == b.matchers == [] && Due([a, b]) == [a, b]
    ensures TickCalls([a, b]) == [Call(a.id, cb, a.cycle), Call(b.id, cb, b.cycle)]
  {
    assert [a, b][1..] == [b] && [b][1..] == [] && [cb][1..] == [];
    assert CallsOf(a, [cb]) == [Call(a.id, cb, a.cycle)] && CallsOf(b, [cb]) == [Call(b.id, cb, b.cycle)];
    assert ModuleCalls([b]) == CallsOf(b, [cb]) + [] && ModuleCalls([a, b]) == CallsOf(a, [cb]) + ModuleCalls([b]);
    assert MatcherCalls([b]) == [] && MatcherCalls([a, b]) == CallsOf(a, []) + MatcherCalls([b]);
  }

  lemma LastWins(x: Call, y: Call)
    requires x.cb == y.cb
    ensures Seen([x, y]) == [x.(cycle := y.cycle), y]
  {
    assert [x, y][..1] == [x] && [x][..0] == [] && [x, y][1..] == [y] && [y][1..] == [];
    assert Assigned(map[], [x, y]) == Assigned(map[], [x])[y.cb := y.cycle];
  }
}
