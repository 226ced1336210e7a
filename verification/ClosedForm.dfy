/** The sequential schedule in closed form, for fixed frequencies: a registry never drifts from its nominal times,
    and the whole event list, including the order of ties, is a function of the time alone. */
module ClosedForm {
  import opened Arithmetic
  import opened Schedule
  import opened Occurrences

  /** The step of a registry, and the time of its first tick, as initialisation computes them from the base frequency,
      its frequency and its skew in percent of a period. */
  function StepOf(baseFrequency: nat, frequency: nat): nat
    requires frequency > 0
  {
    baseFrequency / frequency * 100
  }

  function StartOf(baseFrequency: nat, skew: nat, frequency: nat): nat
    requires frequency > 0
  {
    skew * baseFrequency / frequency
  }

  /** With a base frequency that is a multiple of the frequency no rounding happens: different skews start at
      different times within the first period, and 100 base frequencies are exactly `frequency` steps. */
  lemma ExactSteps(baseFrequency: nat, skew: nat, frequency: nat)
    requires baseFrequency > 0 && Divides(frequency, baseFrequency) && skew < 100
    ensures var step, start := StepOf(baseFrequency, frequency), StartOf(baseFrequency, skew, frequency);
            && step >= 100 && start < step && start == skew * (step / 100)
            && (100 * baseFrequency) % step == 0 && (100 * baseFrequency) / step == frequency
  {
    var n := Quotient(frequency, baseFrequency);
    MultipleDivides(n, frequency);
    assert n > 0;
    assert skew * baseFrequency == (skew * n) * frequency;
    MultipleDivides(skew * n, frequency);
    MulStep(skew, 100, n);
    assert 100 * baseFrequency == frequency * (n * 100);
    MultipleDivides(frequency, n * 100);
    MultipleDivides(n, 100);
  }

  /** The same in unsigned 64-bit arithmetic, as the clock server computes them: both products can wrap around, and the
      first time is divided after that. */
  function Step64(baseFrequency: nat, frequency: nat): nat
    requires frequency > 0
  {
    baseFrequency / frequency * 100 % (UINT64_MAX + 1)
  }

  function Start64(baseFrequency: nat, skew: nat, frequency: nat): nat
    requires frequency > 0
  {
    skew * baseFrequency % (UINT64_MAX + 1) / frequency
  }

  predicate StepFits(baseFrequency: nat, frequency: nat)
    requires frequency > 0
  {
    baseFrequency / frequency * 100 <= UINT64_MAX
  }

  predicate StartFits(baseFrequency: nat, skew: nat) {
    skew * baseFrequency <= UINT64_MAX
  }

  /** The step is right if and only if it fits into 64 bits, and the first time if and only if the product of skew and
      base frequency does. */
  lemma Times64ExactIff(baseFrequency: nat, skew: nat, frequency: nat)
    requires 0 < frequency <= UINT64_MAX
    ensures Step64(baseFrequency, frequency) == StepOf(baseFrequency, frequency) <==> StepFits(baseFrequency, frequency)
    ensures Start64(baseFrequency, skew, frequency) == StartOf(baseFrequency, skew, frequency) <==> StartFits(baseFrequency, skew)
  {
    ReducedQuotient(skew * baseFrequency, frequency);
  }

  /** Otherwise the step is right modulo 2^64, and the first time is what the product is modulo 2^64, divided after that. */
  lemma TimesWrap(baseFrequency: nat, skew: nat, frequency: nat) returns (j: nat, k: nat, x: nat)
    requires frequency > 0
    ensures StepOf(baseFrequency, frequency) == Step64(baseFrequency, frequency) + j * (UINT64_MAX + 1)
    ensures Step64(baseFrequency, frequency) <= UINT64_MAX
    ensures skew * baseFrequency == x + k * (UINT64_MAX + 1) && x <= UINT64_MAX
    ensures Start64(baseFrequency, skew, frequency) == x / frequency
  {
    var y, z := StepOf(baseFrequency, frequency), skew * baseFrequency;
    j, k, x := y / (UINT64_MAX + 1), z / (UINT64_MAX + 1), z % (UINT64_MAX + 1);
  }

  /** A step that has wrapped around is still not zero, unless the base frequency is a multiple of 2^62. */
  lemma StepNotZero(baseFrequency: nat, frequency: nat)
    requires baseFrequency > 0 && Divides(frequency, baseFrequency) && !Divides(Pow2(62), baseFrequency)
    ensures Step64(baseFrequency, frequency) > 0
  {
    Pow62();
    hide Pow2;
    var y := Quotient(frequency, baseFrequency);
    MultipleDivides(y, frequency);
    hide Divides, Pow2;
    if Step64(baseFrequency, frequency) == 0 {
      ZeroStep(y);
      DividesMultiple(Pow2(62), y, frequency);
    }
  }

  lemma ZeroStep(y: nat)
    requires y * 100 % (UINT64_MAX + 1) == 0
    ensures Divides(Pow2(62), y)
  {
    Quarter(y, y * 100 / (UINT64_MAX + 1));
    OddFactor(62, y, 25);
  }

  lemma Quarter(y: nat, z: nat)
    requires y * 100 == z * (UINT64_MAX + 1)
    ensures Divides(Pow2(62), y * 25)
  {
    Pow62();
    hide Pow2;
    assert y * 25 == z * Pow2(62);
    MultipleDivides(z, Pow2(62));
  }

  lemma ReducedQuotient(x: nat, f: nat)
    requires 0 < f <= UINT64_MAX
    ensures x % (UINT64_MAX + 1) / f == x / f <==> x <= UINT64_MAX
  {
    var y := x % (UINT64_MAX + 1);
    if x > UINT64_MAX {
      assert x >= y + f;
      var q := y / f;
      assert y == q * f + y % f;
      var n := x / f;
      assert x == n * f + x % f;
      if n <= q {
        MulMonotone(n, q, f);
      }
    }
  }

  /** The base frequency can fit while a first time does not: with these two frequencies, a registry of the first one with
      skew 3 would start before one with skew 2. */
  lemma StartsWrap()
    ensures LcmAll64(1, [0x8000_0000, 3486784401]) == Some(7487812485248974848)
    ensures TrueLcmAll(1, [0x8000_0000, 3486784401]) == 7487812485248974848 <= UINT64_MAX
    ensures var f := 0x8000_0000;
            && Start64(7487812485248974848, 3, f) == 1870418611 != StartOf(7487812485248974848, 3, f)
            && Start64(7487812485248974848, 3, f) < Start64(7487812485248974848, 2, f) == StartOf(7487812485248974848, 2, f)
  {
    var a, b := 0x8000_0000, 3486784401;
    FirstLcm(a);
    TwoFrequencies();
    hide Lcm64, Gcd2, TrueLcm;
    assert [a, b][1..] == [b] && [b][1..] == [];
    assert LcmAll64(1, [a, b]) == LcmAll64(a, [b]);
    assert TrueLcmAll(1, [a, b]) == TrueLcmAll(a, [b]);
  }

  /** What initialisation gives: every registry starts within its first period. */
  ghost predicate Fresh(q: seq<Reg>) {
    |q| > 0 && Live(q) && forall r | r in q :: r.base < r.step
  }

  /** The list after `k` ticks is the list at time `t`: all events up to `t` are clocked, and none after. */
  ghost predicate ListAt(q: seq<Reg>, k: nat, t: int)
    requires |q| > 0
  {
    (if k == 0 then -1 else Time(q, k - 1)) <= t < Time(q, k)
  }

  /** Occurrence number `j` of a registry, counted from its start. */
  function Nominal(r: Reg, j: nat): nat {
    r.base + j * r.step
  }

  /** How many nominal times of a registry are not later than `t`. */
  function TicksBy(r: Reg, t: int): nat
    requires r.step > 0
  {
    if t < r.base then 0 else (t - r.base) / r.step + 1
  }

  lemma MulMonotone(a: nat, b: nat, s: nat)
    requires a <= b
    ensures a * s <= b * s
  {
  }

  /** `TicksBy` counts: occurrence `j` is due by `t` exactly if `j` is below it. */
  lemma TicksByCounts(r: Reg, t: int, j: nat)
    requires r.step > 0
    ensures Nominal(r, j) <= t <==> j < TicksBy(r, t)
  {
    if t >= r.base {
      var n := (t - r.base) / r.step;
      assert t - r.base == n * r.step + (t - r.base) % r.step;
      if j <= n {
        MulMonotone(j, n, r.step);
      } else {
        MulMonotone(n + 1, j, r.step);
        assert (n + 1) * r.step == n * r.step + r.step;
      }
    }
  }

  lemma TicksByIs(r: Reg, t: int, n: nat)
    requires r.step > 0 && t < Nominal(r, n) && (n > 0 ==> Nominal(r, n - 1) <= t)
    ensures n == TicksBy(r, t)
  {
    TicksByCounts(r, t, n);
    if n > 0 {
      TicksByCounts(r, t, n - 1);
    }
  }

  /** No drift: after every tick, a registry's next time is its nominal time for the number of times it has
      been clocked, and it is the first nominal time after the clocked one. */
  lemma {:induction false} NoDrift(q: seq<Reg>, k: nat, r: Reg, now: Reg)
    requires Fresh(q) && r in q && now in After(q, k) && now.id == r.id
    ensures now.cycle >= r.cycle && now.base == Nominal(r, now.cycle - r.cycle)
    ensures now == r.(base := now.base, cycle := now.cycle)
    ensures if k == 0 then now == r else Time(q, k - 1) < now.base <= Time(q, k - 1) + r.step
  {
    hide After, Live, Tick, Sorted, DistinctIds;
    RunStep(q, if k == 0 then 0 else k - 1);
    if k == 0 {
      AfterLive(q, 0);
      UniqueId(q, r, now);
    } else {
      AfterLive(q, k - 1);
      var b := After(q, k - 1);
      var p := Predecessor(b, now);
      NoDrift(q, k - 1, r, p);
      HeadIsFirst(b, p);
      if p.base == b[0].base {
        NominalNext(r, p.cycle - r.cycle);
      } else if k > 1 {
        TimeIncreases(q, k - 2, k - 1);
      }
    }
  }

  lemma NominalFirst(r: Reg)
    ensures Nominal(r, 0) == r.base
  {
  }

  lemma NominalNext(r: Reg, n: nat)
    ensures Nominal(r, n + 1) == Nominal(r, n) + r.step
  {
  }

  /** The number of times a registry has been clocked by time `t` is the number of its nominal times up to `t`. */
  lemma CycleIsTicksBy(q: seq<Reg>, k: nat, t: int, r: Reg, now: Reg)
    requires Fresh(q) && ListAt(q, k, t) && r in q && now in After(q, k) && now.id == r.id
    ensures now.cycle == r.cycle + TicksBy(r, t)
    ensures now == r.(base := Nominal(r, TicksBy(r, t)), cycle := r.cycle + TicksBy(r, t))
    ensures t < now.base <= t + r.step
  {
    hide After, Live, Sorted, DistinctIds, Nominal, TicksBy;
    NoDrift(q, k, r, now);
    AfterLive(q, k);
    HeadIsFirst(After(q, k), now);
    var n := now.cycle - r.cycle;
    if n > 0 {
      NominalNext(r, n - 1);
    } else {
      NominalFirst(r);
    }
    TicksByIs(r, t, n);
  }

  // ---------------------------------------------------------------------------------------------------------
  // The order of ties

  /** When the registry was last clocked: before all time if it has not been clocked yet. */
  ghost function LastClocked(q: seq<Reg>, e: Reg): int {
    var i := IndexOf(q, e.id);
    if i < |q| && e.cycle == q[i].cycle then -1 else e.base - e.step
  }

  /** The order of the event list: by time; among ties the one clocked earlier; among those the initial order. */
  ghost predicate Before(q: seq<Reg>, a: Reg, b: Reg) {
    || a.base < b.base
    || (a.base == b.base && LastClocked(q, a) < LastClocked(q, b))
    || (a.base == b.base && LastClocked(q, a) == LastClocked(q, b) && IndexOf(q, a.id) < IndexOf(q, b.id))
  }

  ghost predicate Ordered(q: seq<Reg>, l: seq<Reg>) {
    forall i, j | 0 <= i < j < |l| :: Before(q, l[i], l[j])
  }

  lemma IndexOfMember(q: seq<Reg>, r: Reg)
    requires DistinctIds(q) && r in q
    ensures IndexOf(q, r.id) < |q| && q[IndexOf(q, r.id)] == r
  {
    var i :| 0 <= i < |q| && q[i] == r;
    IndexOfAt(q, i);
  }

  lemma InsertOrdered(q: seq<Reg>, l: seq<Reg>, r: Reg)
    requires Ordered(q, l) && forall e | e in l && e.base == r.base :: Before(q, e, r)
    ensures Ordered(q, Insert(l, r))
  {
    var p, s := InsertPos(l, r.base), Insert(l, r);
    assert Sorted(l);
    hide Before;
    forall i, j | 0 <= i < j < |s| ensures Before(q, s[i], s[j]) {
      if j == p {
        assert s[i] == l[i] && l[i] in l;
        EarlierIsBefore(q, l[i], r);
      } else if i == p {
        assert l[p].base <= l[j - 1].base;
        EarlierIsBefore(q, r, l[j - 1]);
      } else {
        assert s[i] == l[if i < p then i else i - 1] && s[j] == l[if j < p then j else j - 1];
      }
    }
  }

  lemma EarlierIsBefore(q: seq<Reg>, a: Reg, b: Reg)
    ensures a.base < b.base ==> Before(q, a, b)
  {
  }

  /** Whether `e` goes before everything that is still to be put back in the tick at time `t`. */
  ghost predicate GoesBefore(q: seq<Reg>, e: Reg, due: seq<Reg>, t: int) {
    LastClocked(q, e) < t
    || (LastClocked(q, e) == t
        && forall d | d in due && d.base + d.step == e.base :: IndexOf(q, e.id) < IndexOf(q, d.id))
  }

  /** The due registries of one step length stand in their initial order. */
  ghost predicate DueInOrder(q: seq<Reg>, due: seq<Reg>) {
    forall i, j | 0 <= i < j < |due| :: due[i].step == due[j].step ==> IndexOf(q, due[i].id) < IndexOf(q, due[j].id)
  }

  lemma {:induction false} RequeueOrdered(q: seq<Reg>, l: seq<Reg>, due: seq<Reg>, t: int)
    requires Ordered(q, l) && DueInOrder(q, due)
    requires forall e | e in l :: GoesBefore(q, e, due, t)
    requires forall d | d in due :: d.base == t && LastClocked(q, d.Advanced()) == t
    ensures Ordered(q, Requeue(l, due))
    decreases |due|
  {
    if due != [] {
      var d, r, rest := due[0], due[0].Advanced(), due[1..];
      assert LastClocked(q, r) == t;
      assert forall e | e in l && e.base == r.base :: Before(q, e, r);
      InsertOrdered(q, l, r);
      InsertMembers(l, r);
      FirstInOrder(q, due);
      hide Ordered, LastClocked, IndexOf, Insert;
      forall e | e in Insert(l, r) ensures GoesBefore(q, e, rest, t) {
        if e != r {
          assert GoesBefore(q, e, due, t);
        }
      }
      RequeueOrdered(q, Insert(l, r), rest, t);
    }
  }

  lemma FirstInOrder(q: seq<Reg>, due: seq<Reg>)
    requires due != [] && DueInOrder(q, due)
    ensures DueInOrder(q, due[1..])
    ensures forall d | d in due[1..] && d.step == due[0].step :: IndexOf(q, due[0].id) < IndexOf(q, d.id)
  {
    var rest := due[1..];
    assert forall i | 0 <= i < |rest| :: rest[i] == due[i + 1];
  }

  /** The order of ties over a whole run. */
  lemma {:induction false} AlwaysOrdered(q: seq<Reg>, k: nat)
    requires Fresh(q)
    ensures Ordered(q, After(q, k))
  {
    hide After, Live, Tick, Ordered;
    RunStep(q, if k == 0 then 0 else k - 1);
    if k == 0 {
      AfterLive(q, 0);
      StartOrdered(q);
    } else {
      AlwaysOrdered(q, k - 1);
      TickOrdered(q, k - 1);
    }
  }

  lemma StartOrdered(q: seq<Reg>)
    requires Sorted(q) && DistinctIds(q)
    ensures Ordered(q, q)
  {
    forall i, j | 0 <= i < j < |q| ensures Before(q, q[i], q[j]) {
      IndexOfAt(q, i);
      IndexOfAt(q, j);
    }
  }

  /** The start of a registry that is found later in the run. */
  lemma Origin(q: seq<Reg>, k: nat, now: Reg) returns (r: Reg)
    requires Fresh(q) && now in After(q, k)
    ensures r in q && r.id == now.id && IndexOf(q, now.id) < |q| && q[IndexOf(q, now.id)] == r
    ensures now.cycle >= r.cycle && now.base == Nominal(r, now.cycle - r.cycle) && now.step == r.step
    ensures r.base < r.step
    ensures LastClocked(q, now) == if now.cycle == r.cycle then -1 else now.base - now.step
    ensures LastClocked(q, now) <= if k == 0 then -1 else Time(q, k - 1)
  {
    hide After, Live, Sorted, DistinctIds, IndexOf;
    AfterLive(q, k);
    AfterLive(q, 0);
    RunStep(q, 0);
    assert now.id in Ids(After(q, k));
    r :| r in q && r.id == now.id;
    IndexOfMember(q, r);
    NoDrift(q, k, r, now);
  }

  lemma TickOrdered(q: seq<Reg>, k: nat)
    requires Fresh(q) && Ordered(q, After(q, k))
    ensures Ordered(q, Tick(After(q, k)))
  {
    var b := After(q, k);
    DueOrdered(q, b);
    hide Live, After, Due, NotDue, Ordered, Before, Sorted, DistinctIds, IndexOf, LastClocked;
    AfterLive(q, k);
    DueSplit(b);
    forall d | d in Due(b) ensures LastClocked(q, d.Advanced()) == b[0].base {
      AdvancedLast(q, k, d);
    }
    forall e | e in NotDue(b) ensures GoesBefore(q, e, Due(b), b[0].base) {
      ClockedEarlier(q, k, e);
    }
    DueTies(q, k);
    hide GoesBefore, DueInOrder, Time, Fresh;
    RequeueOrdered(q, NotDue(b), Due(b), b[0].base);
  }

  lemma ClockedEarlier(q: seq<Reg>, k: nat, e: Reg)
    requires Fresh(q) && e in After(q, k)
    ensures LastClocked(q, e) < Time(q, k)
  {
    hide After, Live, IndexOf, LastClocked;
    var r := Origin(q, k, e);
    if k > 0 {
      TimeIncreases(q, k - 1, k);
    }
  }

  lemma DueOrdered(q: seq<Reg>, b: seq<Reg>)
    requires |b| > 0 && Ordered(q, b)
    ensures Ordered(q, Due(b)) && Ordered(q, NotDue(b))
  {
    hide Before;
  }

  lemma AdvancedLast(q: seq<Reg>, k: nat, d: Reg)
    requires Fresh(q) && d in After(q, k)
    ensures LastClocked(q, d.Advanced()) == d.base
  {
    hide After, Live, IndexOf;
    var r := Origin(q, k, d);
  }

  lemma DueTies(q: seq<Reg>, k: nat)
    requires Fresh(q) && Ordered(q, After(q, k))
    ensures DueInOrder(q, Due(After(q, k)))
  {
    var b := After(q, k);
    var due := Due(b);
    DueOrdered(q, b);
    AfterLive(q, k);
    DueSplit(b);
    hide Live, After, Due, NotDue, Before, Sorted, DistinctIds, IndexOf;
    forall i, j | 0 <= i < j < |due| && due[i].step == due[j].step
      ensures IndexOf(q, due[i].id) < IndexOf(q, due[j].id)
    {
      assert due[i] in due && due[j] in due;
      TieBreaks(q, k, due[i], due[j]);
    }
  }

  /** Two tied registries with the same step were clocked at the same time before, or both never. */
  lemma TieBreaks(q: seq<Reg>, k: nat, a: Reg, b: Reg)
    requires Fresh(q) && a in After(q, k) && b in After(q, k)
    requires a.base == b.base && a.step == b.step && Before(q, a, b)
    ensures IndexOf(q, a.id) < IndexOf(q, b.id)
  {
    hide After, Live, IndexOf, Nominal, LastClocked;
    var ra := Origin(q, k, a);
    var rb := Origin(q, k, b);
    NominalLate(ra, a.cycle - ra.cycle);
    NominalLate(rb, b.cycle - rb.cycle);
  }

  lemma NominalLate(r: Reg, n: nat)
    ensures if n == 0 then Nominal(r, n) == r.base else Nominal(r, n) >= r.step
  {
    if n > 0 {
      MulMonotone(1, n, r.step);
    }
  }

  // ---------------------------------------------------------------------------------------------------------
  // The schedule repeats

  /** Every time has its list. */
  lemma ListAtExists(q: seq<Reg>, t: nat) returns (k: nat)
    requires Fresh(q)
    ensures ListAt(q, k, t)
  {
    hide After, Live, Time;
    k := 0;
    while Time(q, k) <= t
      invariant (if k == 0 then -1 else Time(q, k - 1)) <= t
      decreases t - Time(q, k)
    {
      TimeIncreases(q, k, k + 1);
      k := k + 1;
    }
  }

  function Shift(e: Reg, h: nat): Reg
    requires e.step > 0
  {
    e.(base := e.base + h, cycle := e.cycle + h / e.step)
  }

  function ShiftAll(l: seq<Reg>, h: nat): (s: seq<Reg>)
    requires StepsAbove(l, 0)
    ensures |s| == |l| && forall i | 0 <= i < |l| :: s[i] == Shift(l[i], h)
  {
    if l == [] then [] else [Shift(l[0], h)] + ShiftAll(l[1..], h)
  }

  lemma NominalPeriod(r: Reg, n: nat, h: nat)
    requires r.step > 0 && h % r.step == 0
    ensures Nominal(r, n + h / r.step) == Nominal(r, n) + h
  {
    var d := h / r.step;
    assert h == d * r.step;
    assert (n + d) * r.step == n * r.step + d * r.step;
  }

  /** Over any span of `h` base units, a multiple of its step, a registry is clocked exactly `h / step` times. */
  lemma TicksPerPeriod(r: Reg, t: int, h: nat)
    requires t >= -1 && r.base < r.step && h % r.step == 0
    ensures TicksBy(r, t + h) == TicksBy(r, t) + h / r.step
  {
    var n, d := TicksBy(r, t), h / r.step;
    hide Nominal, TicksBy;
    TicksByCounts(r, t, n);
    NominalPeriod(r, n, h);
    if n > 0 {
      TicksByCounts(r, t, n - 1);
      NominalPeriod(r, n - 1, h);
    } else if d > 0 {
      NominalNext(r, n + d - 1);
      NominalFirst(r);
    }
    TicksByIs(r, t + h, n + d);
  }

  ghost predicate Period(q: seq<Reg>, h: nat) {
    h > 0 && forall r | r in q :: r.step > 0 && h % r.step == 0
  }

  /** The same registry, one period later. */
  lemma ShiftedSelf(q: seq<Reg>, k: nat, m: nat, t: int, h: nat, e: Reg, e': Reg)
    requires Fresh(q) && Period(q, h) && ListAt(q, k, t) && ListAt(q, m, t + h)
    requires e in After(q, k) && e' in After(q, m) && e.id == e'.id
    ensures e.step > 0 && e' == Shift(e, h) && LastClocked(q, e') == e'.base - e'.step
  {
    hide After, Live, Nominal, TicksBy, ListAt, IndexOf;
    var r := Origin(q, k, e);
    var r' := Origin(q, m, e');
    assert r == r';
    CycleIsTicksBy(q, k, t, r, e);
    CycleIsTicksBy(q, m, t + h, r, e');
    AtLeastMinusOne(q, k, t);
    TicksPerPeriod(r, t, h);
    NominalPeriod(r, TicksBy(r, t), h);
    AtLeastOne(h, r.step);
  }

  lemma AtLeastMinusOne(q: seq<Reg>, k: nat, t: int)
    requires |q| > 0 && ListAt(q, k, t)
    ensures t >= -1
  {
  }

  lemma AtLeastOne(h: nat, s: nat)
    requires h > 0 && s > 0 && h % s == 0
    ensures h / s >= 1
  {
  }

  /** One period later every registry stands at the same offset, `h / step` cycles further. */
  lemma PeriodMembers(q: seq<Reg>, k: nat, m: nat, t: int, h: nat, x: Reg)
    requires Fresh(q) && Period(q, h) && ListAt(q, k, t) && ListAt(q, m, t + h)
    ensures StepsAbove(After(q, k), 0)
    ensures x in ShiftAll(After(q, k), h) <==> x in After(q, m)
  {
    StepsKept(q, k, 0);
    AfterLive(q, k);
    AfterLive(q, m);
    var a, b := After(q, k), After(q, m);
    var s := ShiftAll(a, h);
    hide After, Live, Shift, ListAt, StepsAbove, ShiftAll, LastClocked;
    if x in s {
      var i :| 0 <= i < |s| && s[i] == x;
      assert a[i].id in Ids(b);
      var e' :| e' in b && e'.id == a[i].id;
      ShiftedSelf(q, k, m, t, h, a[i], e');
    }
    if x in b {
      assert x.id in Ids(a);
      var e :| e in a && e.id == x.id;
      ShiftedSelf(q, k, m, t, h, e, x);
      var i :| 0 <= i < |a| && a[i] == e;
      assert s[i] == x;
    }
  }

  lemma {:induction false} OrderedUnique(q: seq<Reg>, a: seq<Reg>, b: seq<Reg>)
    requires Ordered(q, a) && Ordered(q, b) && |a| == |b| && forall x :: x in a <==> x in b
    ensures a == b
  {
    if a != [] {
      assert a[0] in b && b[0] in a;
      hide LastClocked, IndexOf;
      HeadBefore(q, a, b[0]);
      HeadBefore(q, b, a[0]);
      TailMembers(q, a, b);
      OrderedUnique(q, a[1..], b[1..]);
    }
  }

  lemma HeadBefore(q: seq<Reg>, a: seq<Reg>, x: Reg)
    requires Ordered(q, a) && x in a
    ensures x == a[0] || Before(q, a[0], x)
  {
    var i :| 0 <= i < |a| && a[i] == x;
    hide Before;
  }

  lemma TailMembers(q: seq<Reg>, a: seq<Reg>, b: seq<Reg>)
    requires a != [] && b != [] && a[0] == b[0]
    requires Ordered(q, a) && Ordered(q, b) && forall x :: x in a <==> x in b
    ensures Ordered(q, a[1..]) && Ordered(q, b[1..]) && forall x :: x in a[1..] <==> x in b[1..]
  {
    hide LastClocked, IndexOf;
    HeadOnce(q, a);
    HeadOnce(q, b);
  }

  lemma HeadOnce(q: seq<Reg>, a: seq<Reg>)
    requires a != [] && Ordered(q, a)
    ensures Ordered(q, a[1..])
    ensures forall x :: x in a[1..] <==> x in a && x != a[0]
  {
    hide LastClocked, IndexOf;
    var rest := a[1..];
    forall i | 0 <= i < |rest| ensures rest[i] != a[0] {
      assert rest[i] == a[i + 1] && Before(q, a[0], a[i + 1]);
    }
    hide Before;
    assert forall i | 0 <= i < |rest| :: rest[i] == a[i + 1];
    assert a == [a[0]] + rest;
  }

  /** Among ties, a slower clock stands before a faster one. */
  ghost predicate SlowTiesFirst(l: seq<Reg>) {
    forall i, j | 0 <= i < j < |l| && l[i].base == l[j].base :: l[i].step >= l[j].step
  }

  lemma ShiftOrdered(q: seq<Reg>, k: nat, m: nat, t: int, h: nat)
    requires Fresh(q) && Period(q, h) && ListAt(q, k, t) && ListAt(q, m, t + h)
    requires StepsAbove(After(q, k), 0)
    ensures Ordered(q, ShiftAll(After(q, k), h)) <==> SlowTiesFirst(After(q, k))
  {
    var a := After(q, k);
    var s := ShiftAll(a, h);
    AlwaysOrdered(q, k);
    hide After, Live, ListAt, StepsAbove, ShiftAll, IndexOf;
    forall i | 0 <= i < |a| ensures LastClocked(q, s[i]) == s[i].base - s[i].step {
      assert s[i] in s;
      PeriodMembers(q, k, m, t, h, s[i]);
      ShiftedSelf(q, k, m, t, h, a[i], s[i]);
    }
    hide LastClocked;
    if SlowTiesFirst(a) {
      forall i, j | 0 <= i < j < |s| ensures Before(q, s[i], s[j]) {
        assert Before(q, a[i], a[j]);
        if a[i].base == a[j].base && a[i].step == a[j].step {
          TieBreaks(q, k, a[i], a[j]);
        }
      }
    }
    if Ordered(q, s) {
      forall i, j | 0 <= i < j < |a| && a[i].base == a[j].base ensures a[i].step >= a[j].step {
        assert Before(q, s[i], s[j]);
      }
    }
  }

  /** One period later the event list is the same list, shifted in time and cycles, if and only if no tie in it has a
      faster clock in front of a slower one. */
  lemma RepeatsIff(q: seq<Reg>, k: nat, m: nat, t: int, h: nat)
    requires Fresh(q) && Period(q, h) && ListAt(q, k, t) && ListAt(q, m, t + h)
    ensures StepsAbove(After(q, k), 0)
    ensures After(q, m) == ShiftAll(After(q, k), h) <==> SlowTiesFirst(After(q, k))
  {
    hide After, Live, ListAt, StepsAbove, ShiftAll, Ordered, SlowTiesFirst, Period;
    PeriodMembers(q, k, m, t, h, q[0]);
    forall x ensures x in ShiftAll(After(q, k), h) <==> x in After(q, m) {
      PeriodMembers(q, k, m, t, h, x);
    }
    AlwaysOrdered(q, m);
    ShiftOrdered(q, k, m, t, h);
    if SlowTiesFirst(After(q, k)) {
      OrderedUnique(q, After(q, m), ShiftAll(After(q, k), h));
    }
  }

  /** Once every registry has been clocked, the order of ties has settled and the list repeats for good. */
  lemma RepeatsOnceClocked(q: seq<Reg>, k: nat, m: nat, t: int, h: nat)
    requires Fresh(q) && Period(q, h) && ListAt(q, k, t) && ListAt(q, m, t + h)
    requires forall r | r in q :: r.base <= t
    ensures StepsAbove(After(q, k), 0) && After(q, m) == ShiftAll(After(q, k), h)
  {
    var a := After(q, k);
    AlwaysOrdered(q, k);
    hide After, Live, ListAt, StepsAbove, ShiftAll, IndexOf, Period;
    forall i, j | 0 <= i < j < |a| && a[i].base == a[j].base ensures a[i].step >= a[j].step {
      assert Before(q, a[i], a[j]);
      HasBeenClocked(q, k, t, a[i]);
      HasBeenClocked(q, k, t, a[j]);
    }
    hide Ordered, Before;
    RepeatsIff(q, k, m, t, h);
  }

  lemma HasBeenClocked(q: seq<Reg>, k: nat, t: int, e: Reg)
    requires Fresh(q) && ListAt(q, k, t) && e in After(q, k)
    requires forall r | r in q :: r.base <= t
    ensures LastClocked(q, e) == e.base - e.step
  {
    hide After, Live, ListAt, IndexOf, Nominal, LastClocked;
    var r := Origin(q, k, e);
    CycleIsTicksBy(q, k, t, r, e);
    DivNonNegative(t - r.base, r.step);
  }

  lemma DivNonNegative(a: nat, s: nat)
    requires s > 0
    ensures a / s >= 0
  {
  }

  /** The first period can differ: a fast clock registered before a slow one ticks first at the start, and second
      whenever they meet again. */
  lemma FirstPeriodDiffers()
    ensures var fast, slow := Reg(0, 100, 0, 0, [], []), Reg(1, 200, 0, 0, [], []);
            var q := [fast, slow];
            && Fresh(q) && Period(q, 200) && ListAt(q, 0, -1) && ListAt(q, 2, 199)
            && !SlowTiesFirst(q)
            && After(q, 2) == [slow.(base := 200, cycle := 1), fast.(base := 200, cycle := 2)]
  {
    hide Tick, After;
    var fast, slow := Reg(0, 100, 0, 0, [], []), Reg(1, 200, 0, 0, [], []);
    var q := [fast, slow];
    TickOfTwo(fast, slow);
    TickOfOne(fast.Advanced(), slow.Advanced());
    RunStep(q, 0);
    RunStep(q, 1);
    assert q[0].base == q[1].base && q[0].step < q[1].step;
  }

  /** Two registries due together, the faster one first: they are put back in that order, by their new times. */
  lemma TickOfTwo(a: Reg, b: Reg)
    requires a.base == b.base && a.step < b.step
    ensures Tick([a, b]) == [a.Advanced(), b.Advanced()]
  {
    DueOfTwo(a, b);
    var a', b' := a.Advanced(), b.Advanced();
    assert Requeue([], [a, b]) == Requeue(Insert([], a'), [b]) by { assert [a, b][1..] == [b]; }
    assert Requeue([a'], [b]) == Requeue(Insert([a'], b'), []) by { assert [b][1..] == []; }
    assert Insert([], a') == [a'];
    assert Insert([a'], b') == [a', b'] by { assert [a'][1..] == []; }
  }

  /** One due registry whose next time ties with another: it goes behind that one. */
  lemma TickOfOne(a: Reg, b: Reg)
    requires a.base < b.base == a.base + a.step
    ensures Tick([a, b]) == [b, a.Advanced()]
  {
    DueOfOne(a, b);
    var a' := a.Advanced();
    assert Requeue([b], [a]) == Requeue(Insert([b], a'), []) by { assert [a][1..] == []; }
    assert Insert([b], a') == [b, a'] by { assert [b][1..] == []; }
  }

  lemma DueOfTwo(a: Reg, b: Reg)
    requires a.base == b.base
    ensures Due([a, b]) == [a, b] && NotDue([a, b]) == []
  {
    assert [a, b][1..] == [b] && [b][1..] == [];
    assert DueCount([b], b.base) == 1;
    assert DueCount([a, b], a.base) == 2;
  }

  lemma DueOfOne(a: Reg, b: Reg)
    requires a.base < b.base
    ensures Due([a, b]) == [a] && NotDue([a, b]) == [b]
  {
    assert [a, b][1..] == [b];
    assert DueCount([a, b], a.base) == 1;
  }
}
