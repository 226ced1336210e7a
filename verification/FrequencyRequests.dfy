/** How the frequencies of the domains develop while callbacks run. Invocation number `n` makes the requests `env(n)`, one
    after the other; a request that a domain does not offer, or that names no domain, changes nothing. */
module FrequencyRequests {
  import opened Arithmetic
  import opened ClockObjects
  import opened ClosedForm
  import opened FastPath
  import opened FrequencyChanges
  import opened Occurrences
  import opened Schedule

  function DomainIndex(l: seq<ClockDomain>, d: ClockDomain): (i: nat)
    ensures i <= |l|
    ensures forall j | 0 <= j < i :: l[j] != d
    ensures i < |l| ==> l[i] == d
  {
    if l == [] || l[0] == d then 0 else 1 + DomainIndex(l[1..], d)
  }

  /** The frequencies after one request. */
  function Granted(l: seq<ClockDomain>, rates: seq<nat>, q: Request): (r: seq<nat>)
    ensures |r| == |rates|
  {
    var i := FirstDomain(l, q.domain);
    if i < |l| && i < |rates| && q.frequency in l[i].normalizedFrequencies then rates[i := q.frequency] else rates
  }

  function GrantedAll(l: seq<ClockDomain>, rates: seq<nat>, qs: seq<Request>): (r: seq<nat>)
    ensures |r| == |rates|
  {
    if qs == [] then rates else Granted(l, GrantedAll(l, rates, qs[..|qs| - 1]), qs[|qs| - 1])
  }

  lemma GrantedNone(l: seq<ClockDomain>, rates: seq<nat>, qs: seq<Request>)
    ensures GrantedAll(l, rates, qs[..0]) == rates
  {
  }

  lemma GrantedNext(l: seq<ClockDomain>, rates: seq<nat>, qs: seq<Request>, k: nat)
    requires k < |qs|
    ensures GrantedAll(l, rates, qs[..k + 1]) == Granted(l, GrantedAll(l, rates, qs[..k]), qs[k])
  {
    assert qs[..k + 1][..k] == qs[..k];
  }

  /** The domains of a list of registries. */
  function DomainsOf(l: seq<ClockRegistry>): (ds: seq<ClockDomain>)
    ensures |ds| == |l| && forall i | 0 <= i < |l| :: ds[i] == l[i].clockDomain
  {
    if l == [] then [] else [l[0].clockDomain] + DomainsOf(l[1..])
  }

  /** The course of the frequencies from invocation number `count` on, where they are `rates`. */
  datatype Plan = Plan(domains: seq<ClockDomain>, base: nat, env: Environment, count: nat, rates: seq<nat>) {
    /** The frequencies when `n` callbacks have been invoked. */
    function RatesAt(n: nat): (r: seq<nat>)
      ensures |r| == |rates|
    {
      if n <= count then rates else GrantedAll(domains, RatesAt(n - 1), env(n - 1))
    }

    /** The step of a registry of domain `d` when `n` callbacks have been invoked. */
    function StepAt(d: ClockDomain, n: nat): nat
    {
      var i := DomainIndex(domains, d);
      if i < |rates| && RatesAt(n)[i] > 0 then Step64(base, RatesAt(n)[i]) else 0
    }

    /** No step that ever occurs is zero, so that time goes forward. */
    ghost predicate Advances() {
      forall i, n: nat | 0 <= i < |domains| :: StepAt(domains[i], n) > 0
    }
  }

  /** How many rate matchers each registry has. */
  function MatcherCounts(due: seq<Reg>): (ns: seq<nat>)
    ensures |ns| == |due| && forall i | 0 <= i < |ns| :: ns[i] == |due[i].matchers|
  {
    if due == [] then [] else [|due[0].matchers|] + MatcherCounts(due[1..])
  }

  /** The steps of registries at the moments when they are put back: each after its rate matchers have run, one after the
      other; `n` callbacks have been invoked before the first of these. */
  function PutSteps(p: Plan, n: nat, counts: seq<nat>, ds: seq<ClockDomain>): (steps: seq<nat>)
    requires |counts| == |ds|
    ensures |steps| == |counts|
    decreases |counts|
  {
    if counts == [] then [] else [p.StepAt(ds[0], n + counts[0])] + PutSteps(p, n + counts[0], counts[1..], ds[1..])
  }

  function Stepped(due: seq<Reg>, steps: seq<nat>): (r: seq<Reg>)
    requires |due| == |steps|
    ensures |r| == |due| && forall i | 0 <= i < |r| :: r[i] == due[i].(step := steps[i])
  {
    if due == [] then [] else [due[0].(step := steps[0])] + Stepped(due[1..], steps[1..])
  }

  /** The clocked registries with the steps they have when they are put back. */
  function PutBack(p: Plan, n: nat, due: seq<Reg>, ds: seq<ClockDomain>): (r: seq<Reg>)
    requires |due| == |ds|
    ensures |r| == |due|
  {
    Stepped(due, PutSteps(p, n, MatcherCounts(due), ds))
  }

  /** The event list after one tick. */
  function NextList(p: Plan, q: seq<Reg>, ds: seq<ClockDomain>): seq<Reg>
    requires |q| == |ds| > 0
  {
    Requeue(NotDue(q), PutBack(p, p.count + |ModuleCalls(Due(q))|, Due(q), ds[..|Due(q)|]))
  }

  /** The event list after one pass of the specialised clock. */
  function NextPass(p: Plan, n: nat, q: seq<Reg>, ds: seq<ClockDomain>): (r: seq<Reg>)
    requires |q| == |ds|
    ensures |r| == |q| && forall i | 0 <= i < |r| :: r[i].id == q[i].id && r[i].cycle == q[i].cycle + 1
    decreases |q|
  {
    if q == [] then [] else
      var m := n + |q[0].modules| + |q[0].matchers|;
      [q[0].(step := p.StepAt(ds[0], m)).Advanced()] + NextPass(p, m, q[1..], ds[1..])
  }

  // ---------------------------------------------------------------------------------------------------------
  // The last request decides

  /** A request that names domain `i`, the first with its name, and asks for a frequency that it offers. */
  predicate Honours(l: seq<ClockDomain>, i: nat, q: Request)
    requires i < |l|
  {
    l[i].name == q.domain && (forall j | 0 <= j < i :: l[j].name != q.domain) && q.frequency in l[i].normalizedFrequencies
  }

  /** Request `k` of invocation `m` concerns domain `i`. */
  ghost predicate Concerns(p: Plan, i: nat, m: nat, k: nat)
    requires i < |p.domains|
  {
    k < |p.env(m)| && Honours(p.domains, i, p.env(m)[k])
  }

  ghost predicate Asks(p: Plan, i: nat, m: nat)
    requires i < |p.domains|
  {
    exists k: nat :: Concerns(p, i, m, k)
  }

  ghost predicate LastOfInvocation(p: Plan, i: nat, m: nat, k: nat)
    requires i < |p.domains|
  {
    Concerns(p, i, m, k) && forall x: nat | x > k :: !Concerns(p, i, m, x)
  }

  /** Request `k` of invocation `m` is the last one that concerns domain `i`, among all before invocation `n`. */
  ghost predicate LastRequest(p: Plan, n: nat, i: nat, m: nat, k: nat)
    requires i < |p.domains|
  {
    p.count <= m < n && LastOfInvocation(p, i, m, k) && forall y: nat | m < y < n :: !Asks(p, i, y)
  }

  /** No invocation before `n` has made a request that concerns domain `i`. */
  ghost predicate NoRequest(p: Plan, n: nat, i: nat)
    requires i < |p.domains|
  {
    forall m: nat | p.count <= m < n :: !Asks(p, i, m)
  }

  lemma GrantedAt(l: seq<ClockDomain>, rates: seq<nat>, q: Request, i: nat)
    requires i < |l| == |rates|
    ensures Granted(l, rates, q)[i] == if Honours(l, i, q) then q.frequency else rates[i]
  {
  }

  /** Requests of one invocation: the last one that concerns a domain decides. */
  lemma {:induction false} GrantedAllAt(l: seq<ClockDomain>, rates: seq<nat>, qs: seq<Request>, i: nat)
    requires i < |l| == |rates|
    ensures (forall x | 0 <= x < |qs| :: !Honours(l, i, qs[x])) ==> GrantedAll(l, rates, qs)[i] == rates[i]
    ensures forall k | 0 <= k < |qs| && Honours(l, i, qs[k]) && (forall x | k < x < |qs| :: !Honours(l, i, qs[x])) ::
              GrantedAll(l, rates, qs)[i] == qs[k].frequency
  {
    hide Honours, Granted;
    if qs != [] {
      var n := |qs| - 1;
      GrantedAllAt(l, rates, qs[..n], i);
      GrantedAt(l, GrantedAll(l, rates, qs[..n]), qs[n], i);
    }
  }

  /** A frequency is the one that the last request for the domain asks for, among all requests of all invocations before
      `n`; or the starting one if there is no request for it. */
  ghost predicate Decided(p: Plan, n: nat, i: nat, rate: nat)
    requires i < |p.domains| == |p.rates|
  {
    && (NoRequest(p, n, i) ==> rate == p.rates[i])
    && (forall m: nat, k: nat | LastRequest(p, n, i, m, k) :: Frequency(p, m, k) == Some(rate))
    && (NoRequest(p, n, i) || exists m: nat, k: nat :: LastRequest(p, n, i, m, k))
  }

  function Frequency(p: Plan, m: nat, k: nat): Option<nat> {
    if k < |p.env(m)| then Some(p.env(m)[k].frequency) else None
  }

  /** One invocation. */
  lemma AfterInvocation(p: Plan, m: nat, i: nat)
    requires i < |p.domains| == |p.rates| && p.count <= m
    ensures !Asks(p, i, m) ==> p.RatesAt(m + 1)[i] == p.RatesAt(m)[i]
    ensures forall k: nat | LastOfInvocation(p, i, m, k) :: Frequency(p, m, k) == Some(p.RatesAt(m + 1)[i])
  {
    hide Honours, GrantedAll;
    var qs := p.env(m);
    GrantedAllAt(p.domains, p.RatesAt(m), qs, i);
    if !Asks(p, i, m) {
      forall x | 0 <= x < |qs| ensures !Honours(p.domains, i, qs[x]) {
        assert !Concerns(p, i, m, x);
      }
    }
    forall k: nat | LastOfInvocation(p, i, m, k) ensures Frequency(p, m, k) == Some(p.RatesAt(m + 1)[i]) {
      forall x | k < x < |qs| ensures !Honours(p.domains, i, qs[x]) {
        assert !Concerns(p, i, m, x);
      }
    }
  }

  /** The frequency of a domain after `n` invocations is that of the last request for it. */
  lemma {:induction false} RateIsLastRequest(p: Plan, n: nat, i: nat)
    requires i < |p.domains| == |p.rates| && p.count <= n
    ensures Decided(p, n, i, p.RatesAt(n)[i])
  {
    if n > p.count {
      RateIsLastRequest(p, n - 1, i);
      AfterInvocation(p, n - 1, i);
      NextDecided(p, n - 1, i);
    }
  }

  lemma NextDecided(p: Plan, m: nat, i: nat)
    requires i < |p.domains| == |p.rates| && p.count <= m && Decided(p, m, i, p.RatesAt(m)[i])
    requires !Asks(p, i, m) ==> p.RatesAt(m + 1)[i] == p.RatesAt(m)[i]
    requires forall k: nat | LastOfInvocation(p, i, m, k) :: Frequency(p, m, k) == Some(p.RatesAt(m + 1)[i])
    ensures Decided(p, m + 1, i, p.RatesAt(m + 1)[i])
  {
    hide Plan.RatesAt, Decided, LastOfInvocation, Asks, Frequency;
    if Asks(p, i, m) {
      DecidedByAsking(p, m, i, p.RatesAt(m + 1)[i]);
    } else {
      StillDecided(p, m, i, p.RatesAt(m)[i]);
    }
  }

  lemma DecidedByAsking(p: Plan, m: nat, i: nat, rate: nat)
    requires i < |p.domains| == |p.rates| && p.count <= m && Asks(p, i, m)
    requires forall k: nat | LastOfInvocation(p, i, m, k) :: Frequency(p, m, k) == Some(rate)
    ensures Decided(p, m + 1, i, rate)
  {
    var n := m + 1;
    var k := LastOf(p, i, m);
    hide Concerns, Frequency, LastOfInvocation, Asks;
    assert LastRequest(p, n, i, m, k);
    assert !NoRequest(p, n, i);
    forall y: nat, x: nat | LastRequest(p, n, i, y, x) ensures y == m {
    }
  }

  lemma StillDecided(p: Plan, m: nat, i: nat, rate: nat)
    requires i < |p.domains| == |p.rates| && p.count <= m && !Asks(p, i, m) && Decided(p, m, i, rate)
    ensures Decided(p, m + 1, i, rate)
  {
    SameLast(p, m, i);
    hide LastRequest, NoRequest, Frequency, Asks;
  }

  lemma SameLast(p: Plan, m: nat, i: nat)
    requires i < |p.domains| && p.count <= m && !Asks(p, i, m)
    ensures NoRequest(p, m + 1, i) <==> NoRequest(p, m, i)
    ensures forall y: nat, x: nat :: LastRequest(p, m + 1, i, y, x) <==> LastRequest(p, m, i, y, x)
  {
    forall y: nat, x: nat ensures LastRequest(p, m + 1, i, y, x) <==> LastRequest(p, m, i, y, x) {
      if LastOfInvocation(p, i, y, x) {
        assert Asks(p, i, y);
      }
      hide Concerns, LastOfInvocation, Asks;
    }
  }

  lemma LastOf(p: Plan, i: nat, m: nat) returns (k: nat)
    requires i < |p.domains| && Asks(p, i, m)
    ensures LastOfInvocation(p, i, m, k)
  {
    hide Honours;
    var x: nat :| Concerns(p, i, m, x);
    k := x;
    var y: nat := x;
    while y + 1 < |p.env(m)|
      invariant x <= k <= y < |p.env(m)| && Concerns(p, i, m, k)
      invariant forall z: nat | k < z <= y :: !Concerns(p, i, m, z)
    {
      y := y + 1;
      if Concerns(p, i, m, y) {
        k := y;
      }
    }
  }

  // ---------------------------------------------------------------------------------------------------------
  // Without requests nothing changes

  lemma {:induction false} QuietRates(p: Plan, n: nat)
    requires Quiet(p.env)
    ensures p.RatesAt(n) == p.rates
  {
    if n > p.count {
      QuietRates(p, n - 1);
      assert p.env(n - 1) == [];
    }
  }

  lemma QuietStep(p: Plan, d: ClockDomain, n: nat)
    requires Quiet(p.env)
    ensures p.StepAt(d, n) == p.StepAt(d, p.count)
  {
    QuietRates(p, n);
  }

  lemma {:induction false} StepsWithin(p: Plan, n: nat, counts: seq<nat>, ds: seq<ClockDomain>, i: nat) returns (m: nat)
    requires |counts| == |ds| && i < |ds|
    ensures m >= n && PutSteps(p, n, counts, ds)[i] == p.StepAt(ds[i], m)
    decreases |counts|
  {
    hide Plan.RatesAt, Plan.StepAt;
    if i == 0 {
      m := n + counts[0];
    } else {
      m := StepsWithin(p, n + counts[0], counts[1..], ds[1..], i - 1);
    }
  }

  lemma QuietPutBack(p: Plan, n: nat, due: seq<Reg>, ds: seq<ClockDomain>)
    requires |due| == |ds| && Quiet(p.env)
    requires forall i | 0 <= i < |due| :: due[i].step == p.StepAt(ds[i], p.count)
    ensures PutBack(p, n, due, ds) == due
  {
    hide Plan.RatesAt, Plan.StepAt, PutSteps, Stepped, Quiet;
    forall i | 0 <= i < |due| ensures PutBack(p, n, due, ds)[i] == due[i] {
      var m := StepsWithin(p, n, MatcherCounts(due), ds, i);
      QuietStep(p, ds[i], m);
    }
  }

  lemma {:induction false} QuietNextPass(p: Plan, n: nat, q: seq<Reg>, ds: seq<ClockDomain>)
    requires |q| == |ds| && Quiet(p.env)
    requires forall i | 0 <= i < |q| :: q[i].step == p.StepAt(ds[i], p.count)
    ensures NextPass(p, n, q, ds) == Pass(q)
    decreases |q|
  {
    hide Plan.StepAt, Plan.RatesAt, Quiet;
    if q != [] {
      var m := n + |q[0].modules| + |q[0].matchers|;
      QuietStep(p, ds[0], m);
      QuietNextPass(p, m, q[1..], ds[1..]);
    }
  }

  lemma QuietNextList(p: Plan, q: seq<Reg>, ds: seq<ClockDomain>)
    requires |q| == |ds| > 0 && Quiet(p.env)
    requires forall i | 0 <= i < |q| :: q[i].step == p.StepAt(ds[i], p.count)
    ensures NextList(p, q, ds) == Tick(q)
  {
    hide DueCount, Requeue, ModuleCalls, PutBack, Plan.RatesAt, Plan.StepAt, Quiet;
    var due, n := Due(q), |Due(q)|;
    forall i | 0 <= i < n ensures due[i].step == p.StepAt(ds[..n][i], p.count) {
      assert due[i] == q[i];
    }
    QuietPutBack(p, p.count + |ModuleCalls(due)|, due, ds[..n]);
  }

  // ---------------------------------------------------------------------------------------------------------
  // Putting back step by step

  /** The outline of the list once the clocked registries from position `k` on are put back. */
  ghost function StillToPut(l: seq<Reg>, p: Plan, n: nat, v: seq<Reg>, ds: seq<ClockDomain>, k: nat): seq<Reg>
    requires k <= |v| == |ds|
  {
    Outline(Requeue(l, PutBack(p, n, v[k..], ds[k..])))
  }

  lemma AllToPut(l: seq<Reg>, p: Plan, n: nat, v: seq<Reg>, ds: seq<ClockDomain>)
    requires |v| == |ds|
    ensures StillToPut(l, p, n, v, ds, 0) == Outline(Requeue(l, PutBack(p, n, v, ds)))
    ensures StillToPut(l, p, n, v, ds, |v|) == Outline(l)
  {
    assert v[0..] == v && ds[0..] == ds;
  }

  lemma PutNext(l: seq<Reg>, s: seq<Reg>, p: Plan, n: nat, v: seq<Reg>, ds: seq<ClockDomain>, k: nat)
    requires k < |v| == |ds|
    requires var m := n + |v[k].matchers|;
             SameOutline(s, Insert(l, v[k].(step := p.StepAt(ds[k], m)).Advanced()))
    ensures StillToPut(l, p, n, v, ds, k) == StillToPut(s, p, n + |v[k].matchers|, v, ds, k + 1)
  {
    hide Insert, Plan.RatesAt, Plan.StepAt, PutBack;
    var m := n + |v[k].matchers|;
    PutBackFirst(p, n, v, ds, k);
    var later := PutBack(p, m, v[k + 1..], ds[k + 1..]);
    OutlineRequeue(s, Insert(l, v[k].(step := p.StepAt(ds[k], m)).Advanced()), later, later);
  }

  lemma PutBackFirst(p: Plan, n: nat, v: seq<Reg>, ds: seq<ClockDomain>, k: nat)
    requires k < |v| == |ds|
    ensures var m, b := n + |v[k].matchers|, PutBack(p, n, v[k..], ds[k..]);
            b[0] == v[k].(step := p.StepAt(ds[k], m)) && b[1..] == PutBack(p, m, v[k + 1..], ds[k + 1..])
  {
    hide Plan.RatesAt, Plan.StepAt;
    var a, d := v[k..], ds[k..];
    assert a[1..] == v[k + 1..] && d[1..] == ds[k + 1..];
    assert MatcherCounts(a)[1..] == MatcherCounts(a[1..]);
  }

  // ---------------------------------------------------------------------------------------------------------
  // The list after a tick

  lemma PutBackWithSteps(p: Plan, n: nat, due: seq<Reg>, ds: seq<ClockDomain>)
    requires |due| == |ds|
    ensures WithSteps(PutBack(p, n, due, ds), due)
  {
  }

  lemma PutBackSteps(p: Plan, n: nat, due: seq<Reg>, ds: seq<ClockDomain>)
    requires |due| == |ds|
    ensures WithSteps(PutBack(p, n, due, ds), due)
    ensures p.Advances() && (forall i | 0 <= i < |ds| :: ds[i] in p.domains) ==>
              forall i | 0 <= i < |due| :: PutBack(p, n, due, ds)[i].step > 0
  {
    hide Plan.RatesAt, Plan.StepAt, PutSteps;
    if p.Advances() && forall i | 0 <= i < |ds| :: ds[i] in p.domains {
      forall i | 0 <= i < |due| ensures PutSteps(p, n, MatcherCounts(due), ds)[i] > 0 {
        var m := StepsWithin(p, n, MatcherCounts(due), ds, i);
        assert ds[i] in p.domains;
      }
    }
  }

  /** The event list after a tick is sorted, holds the same registries, and follows from the one before. */
  lemma NextListTicked(p: Plan, q: seq<Reg>, ds: seq<ClockDomain>, s: seq<Reg>)
    requires |q| == |ds| > 0 && SameOutline(s, NextList(p, q, ds))
    ensures Ticked(q, s)
  {
    hide DueCount, Plan.RatesAt, Plan.StepAt, PutBack, ModuleCalls, Requeue, WithSteps, SameOutline;
    var n, m := |Due(q)|, p.count + |ModuleCalls(Due(q))|;
    PutBackSteps(p, m, Due(q), ds[..n]);
    assert WithSteps(PutBack(p, m, Due(q), ds[..n]), Due(q));
  }

  /** That many calls they make. */
  lemma {:induction false} MatchersThroughCalls(q: seq<Reg>, i: nat)
    requires i < |q|
    ensures |MatcherCalls(q[..i + 1])| == MatchersThrough(q, i)
  {
    var d := q[..i];
    if i > 0 {
      MatchersThroughCalls(q, i - 1);
    }
    assert q[..i + 1] == d + [q[i]];
    OneMoreMatcher(d, q[i]);
  }

  lemma {:induction false} OneMoreMatcher(d: seq<Reg>, r: Reg)
    ensures |MatcherCalls(d + [r])| == |MatcherCalls(d)| + |r.matchers|
  {
    if d == [] {
      CallsLength(r, r.matchers);
      assert d + [r] == [r] && [r][1..] == [];
    } else {
      OneMoreMatcher(d[1..], r);
      assert (d + [r])[1..] == d[1..] + [r];
    }
  }

  lemma {:induction false} MatchersOfPrefix(a: seq<Reg>, q: seq<Reg>, i: nat)
    requires a <= q && i < |a|
    ensures MatchersThrough(a, i) == MatchersThrough(q, i)
  {
    if i > 0 {
      MatchersOfPrefix(a, q, i - 1);
    }
  }

  /** The moment at which a registry is put back is the one after its own rate matchers. */
  lemma {:induction false} PutStepsAt(p: Plan, n: nat, due: seq<Reg>, ds: seq<ClockDomain>, i: nat)
    requires |due| == |ds| && i < |due|
    ensures PutSteps(p, n, MatcherCounts(due), ds)[i] == p.StepAt(ds[i], n + MatchersThrough(due, i))
    decreases i
  {
    hide Plan.StepAt, MatcherCounts, PutSteps;
    FirstPut(p, n, due, ds);
    if i > 0 {
      MatchersRest(due, i);
      PutStepsAt(p, n + |due[0].matchers|, due[1..], ds[1..], i - 1);
      assert PutSteps(p, n, MatcherCounts(due), ds)[i] == PutSteps(p, n, MatcherCounts(due), ds)[1..][i - 1];
    }
  }

  lemma PutBackAt(p: Plan, n: nat, due: seq<Reg>, ds: seq<ClockDomain>, i: nat)
    requires |due| == |ds| && i < |due|
    ensures PutBack(p, n, due, ds)[i] == due[i].(step := p.StepAt(ds[i], n + MatchersThrough(due, i)))
  {
    hide Plan.StepAt, MatcherCounts, PutSteps, MatchersThrough;
    PutStepsAt(p, n, due, ds, i);
  }

  lemma FirstPut(p: Plan, n: nat, due: seq<Reg>, ds: seq<ClockDomain>)
    requires |due| == |ds| > 0
    ensures var m, s := n + |due[0].matchers|, PutSteps(p, n, MatcherCounts(due), ds);
            s[0] == p.StepAt(ds[0], m) && s[1..] == PutSteps(p, m, MatcherCounts(due[1..]), ds[1..])
  {
    hide Plan.StepAt;
    assert MatcherCounts(due)[1..] == MatcherCounts(due[1..]);
  }

  /** How many callbacks have been invoked when due registry `i` is put back: all modules, and the rate matchers of the
      registries up to this one. */
  function Moment(p: Plan, q: seq<Reg>, i: nat): nat
    requires i < |q|
  {
    p.count + |ModuleCalls(Due(q))| + MatchersThrough(q, i)
  }

  ghost predicate Stands(q: seq<Reg>, id: nat, base: nat, cycle: nat) {
    exists x :: x in q && x.id == id && x.base == base && x.cycle == cycle
  }

  /** A due registry goes to the time clocked plus the step that it has after its last rate matcher has run. */
  lemma NextTimeOf(p: Plan, q: seq<Reg>, ds: seq<ClockDomain>, i: nat)
    requires |q| == |ds| > 0 && Sorted(q) && DistinctIds(q) && i < |Due(q)|
    ensures Stands(NextList(p, q, ds), q[i].id, q[0].base + p.StepAt(ds[i], Moment(p, q, i)), q[i].cycle + 1)
  {
    hide *;
    DueAtHead(q, i);
    RestSorted(q);
    DueDistinct(q);
    NextListIs(p, q, ds);
    PutBackStands(p, p.count + |ModuleCalls(Due(q))|, NotDue(q), Due(q), ds[..|Due(q)|], i);
  }

  lemma NextListIs(p: Plan, q: seq<Reg>, ds: seq<ClockDomain>)
    requires |q| == |ds| > 0
    ensures |Due(q)| <= |q|
    ensures NextList(p, q, ds) == Requeue(NotDue(q), PutBack(p, p.count + |ModuleCalls(Due(q))|, Due(q), ds[..|Due(q)|]))
    ensures forall i | 0 <= i < |Due(q)| :: Moment(p, q, i) == p.count + |ModuleCalls(Due(q))| + MatchersThrough(q, i)
  {
    hide Plan.StepAt, DueCount, Requeue, PutBack, ModuleCalls, MatchersThrough;
  }

  lemma PutBackStands(p: Plan, n: nat, rest: seq<Reg>, due: seq<Reg>, ds: seq<ClockDomain>, i: nat)
    requires |due| == |ds| && i < |due| && Sorted(rest) && DistinctIds(rest + due)
    ensures Stands(Requeue(rest, PutBack(p, n, due, ds)),
                   due[i].id, due[i].base + p.StepAt(ds[i], n + MatchersThrough(due, i)), due[i].cycle + 1)
  {
    hide Plan.StepAt, Requeue, PutBack, Sorted, MatchersThrough;
    var later := PutBack(p, n, due, ds);
    PutBackAt(p, n, due, ds, i);
    PutBackWithSteps(p, n, due, ds);
    SameIds(rest, due, later);
    hide DistinctIds, WithSteps;
    RequeueProps(rest, later);
    assert later[i] in later;
    assert later[i].Advanced() in Requeue(rest, later);
  }

  lemma SameIds(rest: seq<Reg>, due: seq<Reg>, later: seq<Reg>)
    requires DistinctIds(rest + due) && WithSteps(later, due)
    ensures DistinctIds(rest + later)
  {
    forall i, j | 0 <= i < j < |rest + later| ensures (rest + later)[i].id != (rest + later)[j].id {
      assert (rest + due)[i].id == (rest + later)[i].id && (rest + due)[j].id == (rest + later)[j].id;
    }
  }

  lemma DueAtHead(q: seq<Reg>, i: nat)
    requires |q| > 0 && Sorted(q) && i < |Due(q)|
    ensures Due(q)[i] == q[i] && q[i].base == q[0].base && MatchersThrough(Due(q), i) == MatchersThrough(q, i)
  {
    DueSplit(q);
    assert Due(q)[i] in Due(q);
    MatchersOfPrefix(Due(q), q, i);
  }

  /** The numbers are those of before, and every time is later than the one clocked, if no step is zero. */
  lemma NextListLater(p: Plan, q: seq<Reg>, ds: seq<ClockDomain>, s: seq<Reg>)
    requires |q| == |ds| > 0 && Sorted(q) && DistinctIds(q) && SameOutline(s, NextList(p, q, ds))
    requires p.Advances() && forall i | 0 <= i < |ds| :: ds[i] in p.domains
    ensures forall i | 0 <= i < |s| :: s[i].base > q[0].base
  {
    hide DueCount, PutBack, ModuleCalls, Requeue, WithSteps, SameOutline, Sorted, DistinctIds, Plan.Advances;
    var n, m := |Due(q)|, p.count + |ModuleCalls(Due(q))|;
    var later := PutBack(p, m, Due(q), ds[..n]);
    forall i | 0 <= i < n ensures ds[..n][i] in p.domains {
      assert ds[..n][i] == ds[i];
    }
    PutBackSteps(p, m, Due(q), ds[..n]);
    StepsLater(q, later);
    OutlineIs(s, Requeue(NotDue(q), later));
    forall i | 0 <= i < |s| ensures s[i].base > q[0].base {
      assert Requeue(NotDue(q), later)[i] in Requeue(NotDue(q), later);
    }
  }

  lemma StepsLater(q: seq<Reg>, later: seq<Reg>)
    requires |q| > 0 && Sorted(q) && DistinctIds(q) && WithSteps(later, Due(q))
    requires forall i | 0 <= i < |later| :: later[i].step > 0
    ensures forall x | x in Requeue(NotDue(q), later) :: x.base > q[0].base
  {
    LaterDistinct(q, later);
    RestSorted(q);
    DueSplit(q);
    hide Due, NotDue, Requeue, Sorted, DistinctIds;
    RequeueProps(NotDue(q), later);
    forall x | x in Requeue(NotDue(q), later) ensures x.base > q[0].base {
      if x !in NotDue(q) {
        var d :| d in later && x == d.Advanced();
        var i :| 0 <= i < |later| && later[i] == d;
        assert Due(q)[i] in Due(q);
      }
    }
  }

  lemma LaterDistinct(q: seq<Reg>, later: seq<Reg>)
    requires |q| > 0 && DistinctIds(q) && WithSteps(later, Due(q))
    ensures DistinctIds(NotDue(q) + later)
  {
    DueDistinct(q);
    hide *;
    SameIds(NotDue(q), Due(q), later);
  }

  /** The plan from a later moment on is the same plan. */
  lemma {:induction false} PlanGoesOn(p: Plan, later: Plan, n: nat)
    requires later.domains == p.domains && later.base == p.base && later.env == p.env && p.count <= later.count
    requires |later.rates| == |p.rates| && later.rates == p.RatesAt(later.count)
    ensures later.RatesAt(n) == p.RatesAt(if n <= later.count then later.count else n)
  {
    if n > later.count {
      PlanGoesOn(p, later, n - 1);
    }
  }

  lemma StillAdvances(p: Plan, later: Plan)
    requires later.domains == p.domains && later.base == p.base && later.env == p.env && p.count <= later.count
    requires |later.rates| == |p.rates| && later.rates == p.RatesAt(later.count)
    ensures p.Advances() ==> later.Advances()
  {
    hide Plan.RatesAt, Step64;
    if p.Advances() {
      forall i, n: nat | 0 <= i < |later.domains| ensures later.StepAt(later.domains[i], n) > 0 {
        PlanGoesOn(p, later, n);
        assert p.StepAt(p.domains[i], if n <= later.count then later.count else n) > 0;
      }
    }
  }

  // ---------------------------------------------------------------------------------------------------------
  // The specialised clock does not reorder its list

  /** How many callbacks have been invoked when registry `i` goes on, `n` of them before the pass. */
  function CallsThrough(q: seq<Reg>, n: nat, i: nat): nat
    requires i < |q|
    decreases |q|
  {
    var m := n + |q[0].modules| + |q[0].matchers|;
    if i == 0 then m else CallsThrough(q[1..], m, i - 1)
  }

  /** The next time of registry `i`: its time plus its step of that moment. */
  function TimeAfterPass(p: Plan, n: nat, q: seq<Reg>, ds: seq<ClockDomain>, i: nat): nat
    requires i < |q| == |ds|
  {
    q[i].base + p.StepAt(ds[i], CallsThrough(q, n, i))
  }

  /** In a pass, each registry goes on after its own callbacks and those of the registries in front of it. */
  lemma {:induction false} CallsThroughIs(q: seq<Reg>, n: nat, i: nat)
    requires i < |q|
    ensures CallsThrough(q, n, i) == n + |PassCalls(q[..i + 1])|
    decreases |q|
  {
    var d := q[..i + 1];
    CallsLength(q[0], q[0].modules);
    CallsLength(q[0], q[0].matchers);
    assert d[0] == q[0] && d[1..] == q[1..][..i];
    if i > 0 {
      CallsThroughIs(q[1..], n + |q[0].modules| + |q[0].matchers|, i - 1);
    } else {
      assert d[1..] == [];
    }
  }

  lemma {:induction false} PassTimes(p: Plan, n: nat, q: seq<Reg>, ds: seq<ClockDomain>, i: nat)
    requires i < |q| == |ds|
    ensures NextPass(p, n, q, ds)[i].base == TimeAfterPass(p, n, q, ds, i)
    decreases |q|
  {
    hide Plan.StepAt;
    if i > 0 {
      PassTimes(p, n + |q[0].modules| + |q[0].matchers|, q[1..], ds[1..], i - 1);
    }
  }

  /** The list after a pass is sorted if and only if each registry's time plus its step of that moment is at most that of
      the next one. */
  lemma PassSortedIff(p: Plan, n: nat, q: seq<Reg>, ds: seq<ClockDomain>)
    requires |q| == |ds|
    ensures Sorted(NextPass(p, n, q, ds)) <==>
            forall i, j | 0 <= i < j < |q| && j == i + 1 :: TimeAfterPass(p, n, q, ds, i) <= TimeAfterPass(p, n, q, ds, j)
  {
    var s := NextPass(p, n, q, ds);
    forall i | 0 <= i < |q| ensures s[i].base == TimeAfterPass(p, n, q, ds, i) {
      PassTimes(p, n, q, ds, i);
    }
    hide NextPass, TimeAfterPass;
    if forall i, j | 0 <= i < j < |q| && j == i + 1 :: TimeAfterPass(p, n, q, ds, i) <= TimeAfterPass(p, n, q, ds, j) {
      forall i, j | 0 <= i < j < |s| ensures s[i].base <= s[j].base {
        StepwiseOrdered(s, i, j);
      }
    }
  }

  lemma {:induction false} StepwiseOrdered(s: seq<Reg>, i: nat, j: nat)
    requires i <= j < |s| && forall k, m | 0 <= k < m < |s| && m == k + 1 :: s[k].base <= s[m].base
    ensures s[i].base <= s[j].base
  {
    if i < j {
      StepwiseOrdered(s, i, j - 1);
      assert s[j - 1].base <= s[j].base;
    }
  }

  /** A domain with frequencies 1 and 4, and registries with skews 0 and 50: the callback of the second one asks for
      frequency 4, and the list goes out of order. */
  lemma PassUnsorted(d: ClockDomain, a: Callback, b: Callback)
    requires d.name == "D" && d.normalizedFrequencies == [1, 4]
    ensures var q := [Reg(0, StepOf(4, 1), StartOf(4, 0, 1), 0, [a], []), Reg(1, StepOf(4, 1), StartOf(4, 50, 1), 0, [b], [])];
            var p := Plan([d], 4, n => if n == 1 then [Request("D", 4)] else [], 0, [1]);
            var s := NextPass(p, 0, q, [d, d]);
            && Sorted(q) && s[0].base == 400 && s[1].base == 300 && !Sorted(s)
  {
    var env: Environment := n => if n == 1 then [Request("D", 4)] else [];
    var p := Plan([d], 4, env, 0, [1]);
    var q := [Reg(0, 400, 0, 0, [a], []), Reg(1, 400, 200, 0, [b], [])];
    RatesOfUnsorted(p, d);
    PassTimes(p, 0, q, [d, d], 0);
    PassTimes(p, 0, q, [d, d], 1);
    assert q[1..] == [q[1]];
    hide Plan.RatesAt, NextPass;
    assert CallsThrough(q, 0, 0) == 1 && CallsThrough(q, 0, 1) == 2;
    assert p.StepAt(d, 1) == 400 && p.StepAt(d, 2) == 100;
  }

  lemma RatesOfUnsorted(p: Plan, d: ClockDomain)
    requires d.name == "D" && d.normalizedFrequencies == [1, 4]
    requires p.domains == [d] && p.count == 0 && p.rates == [1] && p.env(0) == [] && p.env(1) == [Request("D", 4)]
    ensures p.RatesAt(1) == [1] && p.RatesAt(2) == [4]
  {
    var qs := [Request("D", 4)];
    assert qs[..|qs| - 1] == [];
    assert p.RatesAt(0) == [1];
    assert GrantedAll(p.domains, [1], []) == [1];
    assert Granted([d], [1], Request("D", 4)) == [4];
  }

  // ---------------------------------------------------------------------------------------------------------
  // Only offered frequencies occur

  ghost predicate Offered(l: seq<ClockDomain>, rates: seq<nat>) {
    |rates| == |l| && forall i | 0 <= i < |l| :: rates[i] in l[i].normalizedFrequencies
  }

  lemma {:induction false} GrantedAllOffered(l: seq<ClockDomain>, rates: seq<nat>, qs: seq<Request>)
    requires Offered(l, rates)
    ensures Offered(l, GrantedAll(l, rates, qs))
  {
    if qs != [] {
      GrantedAllOffered(l, rates, qs[..|qs| - 1]);
    }
  }

  lemma {:induction false} RatesOffered(p: Plan, n: nat)
    requires Offered(p.domains, p.rates)
    ensures Offered(p.domains, p.RatesAt(n))
  {
    if n > p.count {
      RatesOffered(p, n - 1);
      GrantedAllOffered(p.domains, p.RatesAt(n - 1), p.env(n - 1));
    }
  }

  /** Every step that ever occurs is positive, whatever the callbacks ask for and even if it has wrapped around, unless the
      base frequency is a multiple of 2^62. */
  lemma StepsPositive(p: Plan, d: ClockDomain, n: nat)
    requires Offered(p.domains, p.rates) && d in p.domains && p.base > 0 && !Divides(Pow2(62), p.base)
    requires AllPositive(d.normalizedFrequencies) && AllDivide(d.normalizedFrequencies, p.base)
    ensures p.StepAt(d, n) > 0
  {
    RatesOffered(p, n);
    var i := DomainIndex(p.domains, d);
    var f := p.RatesAt(n)[i];
    StepNotZero(p.base, f);
  }
}
