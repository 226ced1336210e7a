/** The specialised clock for a model with a single domain: one pass over the event list clocks every registry
    once, and never reorders the list. It is compared with the general clock on the reference schedule. */
module FastPath {
  import opened Schedule

  /** The event list of a single domain: one step, distinct skews, so distinct times within one period. */
  ghost predicate OneDomain(q: seq<Reg>, step: nat) {
    && |q| > 0 && step > 0
    && (forall i | 0 <= i < |q| :: q[i].step == step)
    && (forall i, j | 0 <= i < j < |q| :: q[i].base < q[j].base < q[0].base + step)
  }

  function Pass(q: seq<Reg>): (s: seq<Reg>)
    ensures |s| == |q| && forall i | 0 <= i < |q| :: s[i] == q[i].Advanced()
  {
    if q == [] then [] else [q[0].Advanced()] + Pass(q[1..])
  }

  /** For each registry in turn its modules and then its rate matchers. */
  function PassCalls(q: seq<Reg>): seq<Call> {
    if q == [] then [] else AllCallsOf(q[0]) + PassCalls(q[1..])
  }

  function AllCallsOf(r: Reg): seq<Call> {
    CallsOf(r, r.modules) + CallsOf(r, r.matchers)
  }

  /** The list in the middle of a pass made by single ticks: the clocked registries wait behind the others. */
  function Rotated(q: seq<Reg>, i: nat): seq<Reg>
    requires i <= |q|
  {
    q[i..] + Pass(q)[..i]
  }

  lemma HeadAlone(q: seq<Reg>)
    requires |q| > 0 && forall j | 0 < j < |q| :: q[0].base < q[j].base
    ensures Due(q) == [q[0]] && NotDue(q) == q[1..]
  {
    assert DueCount(q, q[0].base) == 1 + DueCount(q[1..], q[0].base);
  }

  lemma {:induction false} InsertPosLast(q: seq<Reg>, t: nat)
    requires forall i | 0 <= i < |q| :: q[i].base <= t
    ensures InsertPos(q, t) == |q|
  {
    if q != [] {
      InsertPosLast(q[1..], t);
    }
  }

  lemma InsertLast(q: seq<Reg>, r: Reg)
    requires forall i | 0 <= i < |q| :: q[i].base <= r.base
    ensures Insert(q, r) == q + [r]
  {
    InsertPosLast(q, r.base);
  }

  lemma TickRotates(q: seq<Reg>)
    requires |q| > 0
    requires forall j | 0 < j < |q| :: q[0].base < q[j].base <= q[0].base + q[0].step
    ensures Tick(q) == q[1..] + [q[0].Advanced()]
    ensures TickCalls(q) == AllCallsOf(q[0])
  {
    HeadAlone(q);
    InsertLast(q[1..], q[0].Advanced());
    RequeueOne(q[1..], q[0]);
    CallsOfOne(q[0]);
  }

  lemma RequeueOne(l: seq<Reg>, d: Reg)
    ensures Requeue(l, [d]) == Insert(l, d.Advanced())
  {
    assert [d][1..] == [];
  }

  lemma CallsOfOne(d: Reg)
    ensures ModuleCalls([d]) == CallsOf(d, d.modules) && MatcherCalls([d]) == CallsOf(d, d.matchers)
  {
    assert [d][1..] == [];
    assert CallsOf(d, d.modules) + [] == CallsOf(d, d.modules);
    assert CallsOf(d, d.matchers) + [] == CallsOf(d, d.matchers);
  }

  /** After `i` single ticks the first `i` registries have gone to the back, in order, and exactly their callbacks
      have run. */
  lemma {:induction false} RotatedAfter(q: seq<Reg>, step: nat, i: nat)
    requires |q| > 0 && OneDomain(q, step) && i <= |q|
    ensures After(q, i) == Rotated(q, i)
    ensures Trace(q, i) == PassCalls(q[..i])
  {
    hide After, Trace, Tick, TickCalls, PassCalls, OneDomain, Pass, Rotated;
    RunStep(q, if i == 0 then 0 else i - 1);
    if i == 0 {
      RotatedNone(q);
    } else {
      RotatedAfter(q, step, i - 1);
      RotatedHead(q, step, i - 1);
      TickRotates(Rotated(q, i - 1));
      PassCallsAppend(q[..i - 1], q[i - 1]);
      assert q[..i] == q[..i - 1] + [q[i - 1]];
    }
  }

  lemma RotatedNone(q: seq<Reg>)
    ensures PassCalls(q[..0]) == [] && Rotated(q, 0) == q
  {
  }

  lemma RotatedHead(q: seq<Reg>, step: nat, i: nat)
    requires |q| > 0 && OneDomain(q, step) && i < |q|
    ensures var s := Rotated(q, i);
            && |s| > 0 && s[0] == q[i]
            && (forall j | 0 < j < |s| :: s[0].base < s[j].base <= s[0].base + s[0].step)
            && s[1..] + [s[0].Advanced()] == Rotated(q, i + 1)
  {
    var s, p, n := Rotated(q, i), Pass(q), |q| - i;
    hide Pass;
    forall j | 0 < j < |s| ensures s[0].base < s[j].base <= s[0].base + s[0].step {
      if j >= n {
        assert s[j] == p[j - n];
        assert q[j - n].base < q[i].base < q[0].base + step;
      } else {
        assert s[j] == q[i + j];
        assert q[i].base < q[i + j].base < q[0].base + step;
      }
    }
    assert s[1..] == q[i + 1..] + p[..i];
    assert p[..i + 1] == p[..i] + [p[i]];
  }

  lemma {:induction false} PassCallsAppend(a: seq<Reg>, r: Reg)
    ensures PassCalls(a + [r]) == PassCalls(a) + AllCallsOf(r)
  {
    hide AllCallsOf;
    if a == [] {
      assert [] + [r] == [r] && [r][1..] == [];
      assert PassCalls([r]) == AllCallsOf(r) + [];
    } else {
      PassCallsAppend(a[1..], r);
      assert a + [r] == [a[0]] + (a[1..] + [r]);
      var head, mid, last := AllCallsOf(a[0]), PassCalls(a[1..]), AllCallsOf(r);
      assert head + (mid + last) == (head + mid) + last;
    }
  }

  /** One pass of the specialised clock is exactly one tick of the general clock per registry: the same event list
      in the same order, the same times and cycles, the same callback trace and the same total increment; the last
      time clocked is that of the last registry in the list. */
  lemma PassEqualsTicks(q: seq<Reg>, step: nat, baseCycle: nat)
    requires |q| > 0 && OneDomain(q, step)
    ensures Pass(q) == After(q, |q|)
    ensures PassCalls(q) == Trace(q, |q|)
    ensures Time(q, |q| - 1) == q[|q| - 1].base
    ensures Forwarded(q, |q|, baseCycle) == q[|q| - 1].base / 100 - baseCycle
    ensures OneDomain(Pass(q), step)
  {
    RotatedFull(q);
    ForwardedSum(q, |q|, baseCycle);
    hide After, Trace, OneDomain, Rotated, Pass, PassCalls;
    RotatedAfter(q, step, |q|);
    RotatedAfter(q, step, |q| - 1);
    RotatedHead(q, step, |q| - 1);
    PassOneDomain(q, step);
  }

  lemma RotatedFull(q: seq<Reg>)
    ensures Rotated(q, |q|) == Pass(q) && q[..|q|] == q
  {
    hide Pass;
    var p := Pass(q);
    assert p[..|q|] == p;
  }

  lemma PassOneDomain(q: seq<Reg>, step: nat)
    requires OneDomain(q, step)
    ensures OneDomain(Pass(q), step)
  {
    var s := Pass(q);
    hide Pass;
    forall i, j | 0 <= i < j < |s| ensures s[i].base < s[j].base < s[0].base + step {
      assert q[i].base < q[j].base;
    }
  }
}
