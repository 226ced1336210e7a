/** The event list and the lists of the domains as values: what the loops of the clock server build up step by step. */
module ClockLists {
  import opened Arithmetic
  import opened ClockObjects
  import opened ClosedForm
  import opened FastPath
  import opened FrequencyChanges
  import opened FrequencyRequests
  import opened Occurrences
  import opened RandomOrder
  import opened Schedule

  lemma NoCalls(r: Reg, trace: seq<Call>)
    ensures trace + CallsOf(r, []) == trace
  {
  }

  lemma PermutedTransitive()
    ensures forall l :: Permuted(l, l)
    ensures forall a, b, c :: Permuted(a, b) && Permuted(b, c) ==> Permuted(a, c)
  {
  }

  lemma {:induction false} CallsOfAppend(r: Reg, cbs: seq<Callback>, cb: Callback, trace: seq<Call>)
    ensures trace + CallsOf(r, cbs + [cb]) == trace + CallsOf(r, cbs) + [Call(r.id, cb, r.cycle)]
  {
    if cbs == [] {
      assert [cb][1..] == [] && cbs + [cb] == [cb];
    } else {
      CallsOfAppend(r, cbs[1..], cb, trace + [Call(r.id, cbs[0], r.cycle)]);
      assert cbs + [cb] == [cbs[0]] + (cbs[1..] + [cb]);
      Reassociate(trace, [Call(r.id, cbs[0], r.cycle)], CallsOf(r, cbs[1..] + [cb]));
      Reassociate(trace, [Call(r.id, cbs[0], r.cycle)], CallsOf(r, cbs[1..]));
    }
  }

  lemma RandomTrace(before: seq<Call>, trace: seq<Call>, w: seq<Reg>, due: seq<Reg>, mods: seq<seq<Callback>>, rms: seq<seq<Callback>>)
    requires SameMatchers(w, due) && trace == before + ListCalls(due, mods) + ListCalls(w, rms)
    requires Shuffled(mods, ModuleLists(due)) && Shuffled(rms, MatcherLists(w))
    ensures RandomCalls(before, trace, due, mods, rms)
  {
    SameMatcherLists(w, due, rms);
    Reassociate(before, ListCalls(due, mods), ListCalls(due, rms));
  }

  lemma {:induction false} PhaseLength(due: seq<Reg>, lists: seq<seq<Callback>>)
    requires Shuffled(lists, ModuleLists(due))
    ensures |ListCalls(due, lists)| == |ModuleCalls(due)|
  {
    hide CallsOf;
    if due != [] {
      PermutedLength(lists[0], due[0].modules);
      CallsLength(due[0], lists[0]);
      CallsLength(due[0], due[0].modules);
      hide Permuted;
      PhaseLength(due[1..], lists[1..]);
    }
  }

  lemma SameMatcherLists(a: seq<Reg>, b: seq<Reg>, lists: seq<seq<Callback>>)
    requires SameMatchers(a, b)
    ensures ListCalls(a, lists) == ListCalls(b, lists) && MatcherLists(a) == MatcherLists(b)
  {
    hide ListCalls, MatcherLists;
    SameListCalls(a, b, lists);
  }

  /** A writer is attached exactly once, to the registry of its readers. */
  lemma {:induction false} AttachedOnce(writers: seq<Writer>, k: nat, r: ClockRegistry)
    requires k < |writers| && ReadersAgree(writers[k])
    requires OwnCallback(writers, k)
    ensures multiset(Attached(writers, r))[writers[k].cb] == if writers[k].readers[0] == r then 1 else 0
  {
    var n := |writers| - 1;
    if k < n {
      AttachedOnce(writers[..n], k, r);
    } else {
      NeverAttached(writers[..n], writers[k].cb, r);
    }
  }

  lemma {:induction false} NeverAttached(writers: seq<Writer>, cb: Callback, r: ClockRegistry)
    requires forall i | 0 <= i < |writers| :: writers[i].cb != cb
    ensures multiset(Attached(writers, r))[cb] == 0
  {
    if writers != [] {
      NeverAttached(writers[..|writers| - 1], cb, r);
    }
  }

  lemma HasReader(w: Writer)
    requires ReadersAgree(w)
    ensures w.readers != []
  {
  }

  /** After attaching, a writer stands exactly once if and only if it stood nowhere before. */
  lemma StandsOnceIff(writers: seq<Writer>, k: nat, before: map<ClockRegistry, seq<Callback>>,
                      after: map<ClockRegistry, seq<Callback>>)
    requires k < |writers| && ReadersAgree(writers[k]) && OwnCallback(writers, k) && writers[k].readers[0] in before
    requires before.Keys == after.Keys && forall r | r in before :: after[r] == before[r] + Attached(writers, r)
    ensures StandsOnce(writers[k].cb, after) <==> StandsNowhere(writers[k].cb, before)
  {
    var cb, home := writers[k].cb, writers[k].readers[0];
    forall r | r in before ensures multiset(after[r])[cb] == multiset(before[r])[cb] + if r == home then 1 else 0 {
      AttachedOnce(writers, k, r);
    }
    hide Attached, ReadersAgree, OwnCallback;
    assert forall r | r in before :: cb in before[r] <==> multiset(before[r])[cb] > 0;
    assert forall r | r in after :: cb in after[r] <==> multiset(after[r])[cb] > 0;
    assert cb in after[home];
    if StandsNowhere(cb, before) {
      assert multiset(after[home])[cb] == 1 && forall s | s in after && s != home :: cb !in after[s];
    }
  }

  lemma ViewInsert(l: seq<ClockRegistry>, r: ClockRegistry)
    ensures var p := InsertPos(ViewOf(l), r.nBaseCycle);
            ViewOf(l[..p] + ([r] + l[p..])) == Insert(ViewOf(l), r.Value())
  {
    hide InsertPos, ViewOf;
    var v, p := ViewOf(l), InsertPos(ViewOf(l), r.nBaseCycle);
    var s := l[..p] + ([r] + l[p..]);
    var t, w := Insert(v, r.Value()), ViewOf(s);
    forall i | 0 <= i < |s| ensures w[i] == t[i] {
      assert w[i] == s[i].Value();
    }
  }

  lemma CallsOfStep(r: Reg, cbs: seq<Callback>, k: nat, trace: seq<Call>)
    requires k < |cbs|
    ensures trace + CallsOf(r, cbs[k..]) == trace + [Call(r.id, cbs[k], r.cycle)] + CallsOf(r, cbs[k + 1..])
  {
    assert cbs[k..][1..] == cbs[k + 1..];
    var rest := CallsOf(r, cbs[k + 1..]);
    assert trace + ([Call(r.id, cbs[k], r.cycle)] + rest) == trace + [Call(r.id, cbs[k], r.cycle)] + rest;
  }

  /** The trace once the first `n` registries have run their modules. */
  function TraceAfter(trace: seq<Call>, v: seq<Reg>, n: nat): seq<Call>
    requires n <= |v|
  {
    trace + ModuleCalls(v[..n])
  }

  lemma NoCallsYet(trace: seq<Call>, v: seq<Reg>)
    ensures TraceAfter(trace, v, 0) == trace
  {
  }

  lemma {:induction false} ModuleCallsAppend(a: seq<Reg>, r: Reg)
    ensures ModuleCalls(a + [r]) == ModuleCalls(a) + CallsOf(r, r.modules)
    ensures MatcherCalls(a + [r]) == MatcherCalls(a) + CallsOf(r, r.matchers)
  {
    hide CallsOf;
    if a == [] {
      assert [] + [r] == [r] && [r][1..] == [];
      assert CallsOf(r, r.modules) + [] == CallsOf(r, r.modules);
      assert CallsOf(r, r.matchers) + [] == CallsOf(r, r.matchers);
    } else {
      ModuleCallsAppend(a[1..], r);
      assert a + [r] == [a[0]] + (a[1..] + [r]);
      Reassociate(CallsOf(a[0], a[0].modules), ModuleCalls(a[1..]), CallsOf(r, r.modules));
      Reassociate(CallsOf(a[0], a[0].matchers), MatcherCalls(a[1..]), CallsOf(r, r.matchers));
    }
  }

  lemma Reassociate(a: seq<Call>, b: seq<Call>, c: seq<Call>)
    ensures a + (b + c) == (a + b) + c
  {
  }

  lemma DueTrace(trace: seq<Call>, v: seq<Reg>)
    requires |v| > 0
    ensures TraceAfter(trace, v, DueCount(v, v[0].base)) == trace + ModuleCalls(Due(v))
  {
  }

  lemma ModuleCallsStep(v: seq<Reg>, n: nat, trace: seq<Call>, r: Reg)
    requires n < |v| && r.id == v[n].id && r.cycle == v[n].cycle && r.modules == v[n].modules
    ensures TraceAfter(trace, v, n + 1) == TraceAfter(trace, v, n) + CallsOf(r, r.modules)
  {
    hide CallsOf, ModuleCalls;
    CallsOfSame(r, v[n], r.modules);
    ModuleCallsAppend(v[..n], v[n]);
    assert v[..n + 1] == v[..n] + [v[n]];
    Reassociate(trace, ModuleCalls(v[..n]), CallsOf(r, r.modules));
  }

  lemma {:induction false} DueCountIs(v: seq<Reg>, t: nat, n: nat)
    requires n <= |v| && (forall i | 0 <= i < n :: v[i].base == t) && (n < |v| ==> v[n].base != t)
    ensures DueCount(v, t) == n
  {
    if n > 0 {
      DueCountIs(v[1..], t, n - 1);
    }
  }

  /** Of a list without duplicates: what the list of clocked registries is. */
  lemma OnceEach(l: seq<ClockRegistry>, rest: seq<ClockRegistry>, s: set<ClockRegistry>)
    requires multiset(l) + multiset(rest) == multiset(s)
    ensures NoDup(rest)
  {
    forall i, j | 0 <= i < j < |rest| ensures rest[i] != rest[j] {
      assert rest == rest[..j] + rest[j..];
      assert rest[i] in rest[..j] && rest[j] in rest[j..];
      assert (multiset(l) + multiset(rest))[rest[i]] <= 1;
    }
  }

  /** The next registry to put back is not in the event list yet. */
  lemma NextOnce(l: seq<ClockRegistry>, clocked: seq<ClockRegistry>, k: nat, s: set<ClockRegistry>)
    requires k < |clocked| && multiset(l) + multiset(clocked[k..]) == multiset(s)
    ensures AllIn(l, s) && clocked[k] in s && clocked[k] !in l
    ensures multiset(clocked[k..]) == multiset{clocked[k]} + multiset(clocked[k + 1..])
  {
    var r, m := clocked[k], multiset(l) + multiset(clocked[k..]);
    assert clocked[k..] == [r] + clocked[k + 1..];
    assert r in m && m[r] <= 1;
    forall i | 0 <= i < |l| ensures l[i] in s {
      assert l[i] in multiset(l);
      assert l[i] in m;
    }
  }

  /** The trace once the rate matchers from position `k` on have run, and the list once those are put back. */
  function CallsLeft(trace: seq<Call>, v: seq<Reg>, k: nat): seq<Call>
    requires k <= |v|
  {
    trace + MatcherCalls(v[k..])
  }

  /** The event list and the clocked registries from position `k` on hold every registry once. */
  ghost predicate OneEach(l: seq<ClockRegistry>, clocked: seq<ClockRegistry>, k: nat, s: set<ClockRegistry>)
    requires k <= |clocked|
  {
    multiset(l) + multiset(clocked[k..]) == multiset(s)
  }

  lemma MatcherCallsStep(v: seq<Reg>, k: nat, trace: seq<Call>, r: Reg)
    requires k < |v| && r.id == v[k].id && r.cycle == v[k].cycle && r.matchers == v[k].matchers
    ensures CallsLeft(trace, v, k) == CallsLeft(trace + CallsOf(r, r.matchers), v, k + 1)
  {
    hide CallsOf;
    assert v[k..][1..] == v[k + 1..];
    CallsOfSame(r, v[k], r.matchers);
    Reassociate(trace, CallsOf(r, r.matchers), MatcherCalls(v[k + 1..]));
  }

  lemma MembersOf(l: seq<ClockRegistry>, s: set<ClockRegistry>)
    requires multiset(l) == multiset(s)
    ensures AllIn(l, s) && forall r | r in s :: r in l
  {
    forall i | 0 <= i < |l| ensures l[i] in s {
      assert l[i] in multiset(l);
    }
    forall r | r in s ensures r in l {
      assert r in multiset(s);
      assert r in multiset(l);
    }
  }

  lemma ViewSteps(l: seq<ClockRegistry>)
    requires forall i | 0 <= i < |l| :: l[i].nStep > 0
    ensures StepsAbove(ViewOf(l), 0)
  {
    hide ViewOf;
    forall r | r in ViewOf(l) ensures r.step > 0 {
      var i :| 0 <= i < |l| && ViewOf(l)[i] == r;
    }
  }

  lemma DueBases(v: seq<Reg>)
    requires |v| > 0 && Sorted(v)
    ensures forall i | 0 <= i < |v| :: v[i].base >= v[0].base && (v[i].base == v[0].base <==> i < |Due(v)|)
  {
    hide DueCount;
    var n := DueCount(v, v[0].base);
    forall i | n <= i < |v| ensures v[i].base > v[0].base {
      assert v[n].base <= v[i].base;
    }
  }

  lemma SplitMembers(all: seq<ClockRegistry>, clocked: seq<ClockRegistry>, rest: seq<ClockRegistry>, v: seq<Reg>,
                     s: set<ClockRegistry>)
    requires all == clocked + rest && multiset(all) == multiset(s) && |v| == |all| > 0 && |clocked| == |Due(v)|
    requires AllIn(all, s) && forall r | r in s :: r in all
    requires forall i | 0 <= i < |v| :: v[i].base == all[i].nBaseCycle
    requires forall i | 0 <= i < |v| :: v[i].base >= v[0].base && (v[i].base == v[0].base <==> i < |Due(v)|)
    ensures multiset(rest) + multiset(clocked) == multiset(s) && AllIn(clocked, s)
    ensures forall r | r in s :: r.nBaseCycle >= v[0].base && (r in clocked <==> r.nBaseCycle == v[0].base)
  {
    forall i | 0 <= i < |clocked| ensures clocked[i] in s {
      assert clocked[i] == all[i];
    }
    forall r | r in s ensures r.nBaseCycle >= v[0].base && (r in clocked <==> r.nBaseCycle == v[0].base) {
      var i :| 0 <= i < |all| && all[i] == r;
      if r in clocked {
        var j :| 0 <= j < |clocked| && clocked[j] == r;
        assert all[j] == r;
      }
      if i < |clocked| {
        assert clocked[i] == r;
      }
    }
  }

  /** The trace once the registries from position `k` on have been clocked by the specialised clock. */
  function PassLeft(trace: seq<Call>, v: seq<Reg>, k: nat): seq<Call>
    requires k <= |v|
  {
    trace + PassCalls(v[k..])
  }

  lemma PassStart(v: seq<Reg>, trace: seq<Call>)
    ensures PassLeft(trace, v, 0) == trace + PassCalls(v)
  {
    assert v[0..] == v;
  }

  lemma PassEnd(v: seq<Reg>, trace: seq<Call>)
    ensures PassLeft(trace, v, |v|) == trace
  {
  }

  lemma PassStep(v: seq<Reg>, k: nat, trace: seq<Call>, r: Reg)
    requires k < |v| && r.(step := v[k].step) == v[k]
    ensures PassLeft(trace, v, k) == PassLeft(trace + AllCallsOf(r), v, k + 1)
  {
    hide CallsOf;
    assert v[k..][1..] == v[k + 1..];
    CallsOfSame(r, v[k], r.modules);
    CallsOfSame(r, v[k], r.matchers);
    Reassociate(trace, AllCallsOf(r), PassCalls(v[k + 1..]));
  }

  lemma SameMembers(a: seq<ClockRegistry>, b: seq<ClockRegistry>)
    requires multiset(a) == multiset(b)
    ensures forall r :: r in a <==> r in b
  {
    forall r ensures r in a <==> r in b {
      assert r in a <==> r in multiset(a);
      assert r in b <==> r in multiset(b);
    }
  }

  lemma InsertAllAppend(l: seq<ClockRegistry>, r: ClockRegistry)
    ensures InsertAll(ViewOf(l + [r])) == Insert(InsertAll(ViewOf(l)), r.Value())
  {
    hide Insert, ViewOf;
    var v := ViewOf(l + [r]);
    assert v[..|v| - 1] == ViewOf(l);
  }

  lemma DomainLists(l: seq<ClockDomain>)
    ensures |Lists(l)| == |l| && forall i | 0 <= i < |l| :: Lists(l)[i] == l[i].lClock
  {
  }

  lemma FlattenStep(ls: seq<seq<ClockRegistry>>, i: nat)
    requires i < |ls| && Disjoint(ls)
    ensures Flatten(ls[..i + 1]) == Flatten(ls[..i]) + ls[i]
    ensures Apart(Flatten(ls[..i]), ls[i]) && NoDup(ls[i])
  {
    assert ls[..i + 1][..i] == ls[..i];
    FlattenMember(ls[..i]);
  }

  lemma {:induction false} FlattenMember(ls: seq<seq<ClockRegistry>>)
    ensures forall r :: r in Flatten(ls) <==> exists i :: 0 <= i < |ls| && r in ls[i]
  {
    if ls != [] {
      var front := ls[..|ls| - 1];
      FlattenMember(front);
      forall r ensures r in Flatten(ls) <==> exists i :: 0 <= i < |ls| && r in ls[i] {
        if r in Flatten(front) {
          var i :| 0 <= i < |front| && r in front[i];
          assert r in ls[i];
        }
        if i :| 0 <= i < |ls| && r in ls[i] {
          assert i < |front| ==> r in front[i];
        }
      }
    }
  }

  lemma {:induction false} FlattenNoDup(ls: seq<seq<ClockRegistry>>)
    requires Disjoint(ls)
    ensures NoDup(Flatten(ls))
  {
    if ls != [] {
      var l := |ls| - 1;
      FlattenNoDup(ls[..l]);
      FlattenStep(ls, l);
      assert ls[..l + 1] == ls;
      NoDupAppend(Flatten(ls[..l]), ls[l]);
    }
  }

  lemma NextIsNew(order: seq<ClockRegistry>, l: seq<ClockRegistry>, k: nat)
    requires NoDup(l) && Apart(order, l) && k < |l|
    ensures order + l[..k + 1] == (order + l[..k]) + [l[k]] && l[k] !in order + l[..k]
    ensures forall j | 0 <= j < k :: l[j] != l[k]
  {
    var done := order + l[..k];
    forall i | 0 <= i < |done| ensures done[i] != l[k] {
      if i < |order| {
        assert done[i] in order;
      } else {
        assert done[i] == l[i - |order|];
      }
    }
  }

  lemma NoDupAppend(a: seq<ClockRegistry>, b: seq<ClockRegistry>)
    requires NoDup(a) && NoDup(b) && Apart(a, b)
    ensures NoDup(a + b)
  {
    var s := a + b;
    forall i, j | 0 <= i < j < |s| ensures s[i] != s[j] {
      if i < |a| <= j {
        assert s[i] in a && s[j] in b;
      }
    }
  }

  lemma FlattenAll(ls: seq<seq<ClockRegistry>>, s: set<ClockRegistry>)
    requires Disjoint(ls)
    requires forall i, r | 0 <= i < |ls| && r in ls[i] :: r in s
    requires forall r | r in s :: exists i :: 0 <= i < |ls| && r in ls[i]
    ensures multiset(Flatten(ls)) == multiset(s)
    ensures forall r | r in s :: r in Flatten(ls)
  {
    hide Disjoint, Flatten, NoDup;
    FlattenMember(ls);
    FlattenNoDup(ls);
    NoDupMultiset(Flatten(ls), s);
  }

  lemma NoDupTail(l: seq<ClockRegistry>)
    requires NoDup(l) && l != []
    ensures NoDup(l[1..]) && l[0] !in l[1..] && l == [l[0]] + l[1..]
  {
  }

  lemma {:induction false} NoDupMultiset(l: seq<ClockRegistry>, s: set<ClockRegistry>)
    requires NoDup(l) && forall r :: r in l <==> r in s
    ensures multiset(l) == multiset(s)
  {
    if l == [] {
      assert s == {};
    } else {
      var x, rest := l[0], l[1..];
      NoDupTail(l);
      hide NoDup;
      forall r ensures r in rest <==> r in s - {x} {
        assert r in l <==> r == x || r in rest;
      }
      NoDupMultiset(rest, s - {x});
      assert multiset(s) == multiset(s - {x}) + multiset{x};
    }
  }

  lemma {:induction false} AllFrequenciesPositive(l: seq<ClockDomain>)
    requires forall i | 0 <= i < |l| :: AllPositive(l[i].normalizedFrequencies)
    ensures AllPositive(AllFrequencies(l))
  {
    if l != [] {
      AllFrequenciesPositive(l[1..]);
    }
  }

  lemma NotEmpty(l: seq<ClockRegistry>, s: set<ClockRegistry>, r: ClockRegistry)
    requires multiset(l) == multiset(s) && r in s
    ensures |l| > 0
  {
    assert r in multiset(s);
  }

  lemma FrequencyDivides(fs: seq<nat>, f: nat, m: nat)
    requires AllDivide(fs, m) && f in fs
    ensures Divides(f, m)
  {
  }

  lemma {:induction false} FrequenciesDivide(l: seq<ClockDomain>, m: nat)
    requires AllDivide(AllFrequencies(l), m)
    ensures forall i | 0 <= i < |l| :: AllDivide(l[i].normalizedFrequencies, m)
  {
    if l != [] {
      var fs, rest := l[0].normalizedFrequencies, AllFrequencies(l[1..]);
      forall i | 0 <= i < |fs| ensures Divides(fs[i], m) {
        assert (fs + rest)[i] == fs[i];
      }
      forall i | 0 <= i < |rest| ensures Divides(rest[i], m) {
        assert (fs + rest)[|fs| + i] == rest[i];
      }
      FrequenciesDivide(l[1..], m);
      assert forall i | 1 <= i < |l| :: l[i] == l[1..][i - 1];
    }
  }

  lemma {:induction false} DivideAll(l: seq<ClockDomain>, m: nat)
    requires forall i | 0 <= i < |l| :: AllDivide(l[i].normalizedFrequencies, m)
    ensures AllDivide(AllFrequencies(l), m)
  {
    if l != [] {
      assert forall i | 0 <= i < |l[1..]| :: l[1..][i] == l[i + 1];
      DivideAll(l[1..], m);
      assert AllDivide(l[0].normalizedFrequencies, m);
    }
  }

  /** The frequencies that initialisation goes through are those of the domains. */
  lemma OfferedDivideIff(l: seq<ClockDomain>, m: nat)
    ensures AllDivide(AllFrequencies(l), m) <==> OfferedDivide(l, m)
  {
    hide AllFrequencies, Divides;
    if AllDivide(AllFrequencies(l), m) {
      FrequenciesDivide(l, m);
      forall i, j | 0 <= i < |l| && 0 <= j < |l[i].normalizedFrequencies| ensures Divides(l[i].normalizedFrequencies[j], m) {
        assert AllDivide(l[i].normalizedFrequencies, m);
      }
    }
    if OfferedDivide(l, m) {
      DivideAll(l, m);
    }
  }

  // ---------------------------------------------------------------------------------------------------------
  // The initial event list

  /** Of two events with equal times in the initial list, the first one was added first. */
  lemma {:induction false} AddedInOrder(v: seq<Reg>, p: nat, q: nat) returns (i: nat, j: nat)
    requires p < q < |InsertAll(v)| && InsertAll(v)[p].base == InsertAll(v)[q].base
    ensures i < j < |v| && v[i] == InsertAll(v)[p] && v[j] == InsertAll(v)[q]
  {
    var front, last := v[..|v| - 1], v[|v| - 1];
    var s, pos := InsertAll(front), InsertPos(InsertAll(front), last.base);
    assert InsertAll(v) == Insert(s, last);
    InsertAllSorted(front);
    hide InsertAll, InsertPos, Sorted;
    InsertAt(s, last, p);
    InsertAt(s, last, q);
    if p == pos {
      LaterBehind(s, last.base, q - 1);
    } else if q == pos {
      i := SourceOf(front, p);
      j := |v| - 1;
    } else {
      i, j := AddedInOrder(front, if p < pos then p else p - 1, if q < pos then q else q - 1);
    }
  }

  lemma LaterBehind(s: seq<Reg>, t: nat, k: nat)
    requires Sorted(s) && InsertPos(s, t) <= k < |s|
    ensures s[k].base > t
  {
  }

  lemma {:induction false} SourceOf(v: seq<Reg>, p: nat) returns (i: nat)
    requires p < |InsertAll(v)|
    ensures i < |v| && v[i] == InsertAll(v)[p]
  {
    var front, last := v[..|v| - 1], v[|v| - 1];
    var s := InsertAll(front);
    var pos := InsertPos(s, last.base);
    InsertAt(s, last, p);
    if p == pos {
      i := |v| - 1;
    } else {
      i := SourceOf(front, if p < pos then p else p - 1);
    }
  }

  /** A list of all registries holds them in the order of registration. */
  lemma {:induction false} FlattenOrder(ls: seq<seq<ClockRegistry>>, i: nat, j: nat)
    requires i < j < |Flatten(ls)|
    ensures RegisteredBefore(ls, Flatten(ls)[i], Flatten(ls)[j])
  {
    var m := |ls| - 1;
    var front := ls[..m];
    var f := Flatten(front);
    if j < |f| {
      FlattenOrder(front, i, j);
      var a, b, c, d :| 0 <= a <= c < |front| && 0 <= b < |front[a]| && 0 <= d < |front[c]|
        && front[a][b] == f[i] && front[c][d] == f[j] && (a < c || b < d);
      assert ls[a][b] == f[i] && ls[c][d] == f[j];
    } else if i < |f| {
      var a, b := PlaceOf(front, i);
      assert ls[a][b] == f[i] && ls[m][j - |f|] == Flatten(ls)[j];
    } else {
      assert ls[m][i - |f|] == Flatten(ls)[i] && ls[m][j - |f|] == Flatten(ls)[j];
    }
  }

  lemma {:induction false} PlaceOf(ls: seq<seq<ClockRegistry>>, i: nat) returns (a: nat, b: nat)
    requires i < |Flatten(ls)|
    ensures a < |ls| && b < |ls[a]| && ls[a][b] == Flatten(ls)[i]
  {
    var m := |ls| - 1;
    var f := Flatten(ls[..m]);
    if i < |f| {
      a, b := PlaceOf(ls[..m], i);
    } else {
      a, b := m, i - |f|;
    }
  }

  lemma {:induction false} InsertAllSorted(v: seq<Reg>)
    ensures Sorted(InsertAll(v))
  {
    if v != [] {
      InsertAllSorted(v[..|v| - 1]);
      InsertSorted(InsertAll(v[..|v| - 1]), v[|v| - 1]);
    }
  }

  lemma AllLeft(l: seq<ClockRegistry>, clocked: seq<ClockRegistry>, s: set<ClockRegistry>, v: seq<Reg>, trace: seq<Call>)
    requires multiset(l) + multiset(clocked) == multiset(s)
    ensures OneEach(l, clocked, 0, s) && CallsLeft(trace, v, 0) == trace + MatcherCalls(v)
  {
    assert v[0..] == v && clocked[0..] == clocked;
  }

  lemma NoneLeft(l: seq<ClockRegistry>, clocked: seq<ClockRegistry>, s: set<ClockRegistry>, v: seq<Reg>, trace: seq<Call>)
    requires |v| == |clocked| && OneEach(l, clocked, |v|, s)
    ensures multiset(l) == multiset(s) && CallsLeft(trace, v, |v|) == trace
  {
    assert v[|v|..] == [] && clocked[|v|..] == [];
  }

  /** The clocked registries while they are put back: the first `k` have gone on, the others are as they were. */
  ghost predicate PutSoFar(l: seq<ClockRegistry>, v: seq<Reg>, k: nat)
    reads l
  {
    && k <= |l| == |v|
    && (forall j | 0 <= j < |l| :: l[j].id == v[j].id && l[j].lModules == v[j].modules && l[j].lWriterRM == v[j].matchers)
    && (forall j | 0 <= j < |l| :: if j < k
          then l[j].nCycle == v[j].cycle + 1 && l[j].nBaseCycle >= v[j].base
          else l[j].nCycle == v[j].cycle && l[j].nBaseCycle == v[j].base)
  }

  lemma NothingPut(l: seq<ClockRegistry>)
    ensures PutSoFar(l, ViewOf(l), 0)
  {
    hide ViewOf;
  }

  lemma PutAt(l: seq<ClockRegistry>, v: seq<Reg>, j: nat)
    requires PutSoFar(l, v, |l|) && j < |l|
    ensures |v| == |l| && l[j].nCycle == v[j].cycle + 1 && l[j].nBaseCycle >= v[j].base
  {
  }

  /** The same for the random clock, which rearranges the lists of rate matchers. */
  ghost predicate ShuffledSoFar(l: seq<ClockRegistry>, v: seq<Reg>, k: nat)
    reads l
  {
    && k <= |l| == |v|
    && (forall j | 0 <= j < |l| :: l[j].id == v[j].id && Permuted(l[j].lWriterRM, v[j].matchers))
    && (forall j | 0 <= j < |l| :: if j < k
          then l[j].nCycle == v[j].cycle + 1 && l[j].nBaseCycle >= v[j].base
          else l[j].nCycle == v[j].cycle && l[j].nBaseCycle == v[j].base)
  }

  lemma NothingShuffledYet(l: seq<ClockRegistry>)
    ensures ShuffledSoFar(l, ViewOf(l), 0)
  {
    hide ViewOf;
  }

  lemma ShuffledAt(l: seq<ClockRegistry>, v: seq<Reg>, j: nat)
    requires ShuffledSoFar(l, v, |l|) && j < |l|
    ensures |v| == |l| && l[j].nCycle == v[j].cycle + 1 && l[j].nBaseCycle >= v[j].base
  {
  }

  lemma PermutedLength(a: seq<Callback>, b: seq<Callback>)
    requires Permuted(a, b)
    ensures |a| == |b|
  {
    assert |a| == |multiset(a)| && |b| == |multiset(b)|;
  }

  lemma RandomPut(l: seq<Reg>, s: seq<Reg>, p: Plan, n: nat, v: seq<Reg>, ds: seq<ClockDomain>, k: nat, now: Reg, m: nat)
    requires k < |v| == |ds| && m == n + |v[k].matchers|
    requires now.id == v[k].id && now.base == v[k].base && now.cycle == v[k].cycle
    requires SameOutline(s, Insert(l, now.(step := p.StepAt(ds[k], m)).Advanced()))
    ensures StillToPut(l, p, n, v, ds, k) == StillToPut(s, p, m, v, ds, k + 1)
  {
    hide Insert, SameOutline, StillToPut, Plan.StepAt;
    var x, y := now.(step := p.StepAt(ds[k], m)).Advanced(), v[k].(step := p.StepAt(ds[k], m)).Advanced();
    OutlineIs(l, l);
    OutlineInsert(l, l, x, y);
    OutlineTransitive(s, Insert(l, x), Insert(l, y));
    PutNext(l, s, p, n, v, ds, k);
  }

  // ---------------------------------------------------------------------------------------------------------
  // The two phases of a tick

  /** The same registries with the same rate matchers, to be told the same cycles. */
  ghost predicate SameMatchers(a: seq<Reg>, b: seq<Reg>) {
    |a| == |b| && forall i | 0 <= i < |a| ::
      a[i].id == b[i].id && a[i].base == b[i].base && a[i].cycle == b[i].cycle && a[i].matchers == b[i].matchers
  }

  /** What the first phase leaves: steps and module lists may have changed, and nothing else. */
  lemma SplitViews(all: seq<ClockRegistry>, clocked: seq<ClockRegistry>, rest: seq<ClockRegistry>, v: seq<Reg>)
    requires all == clocked + rest && |v| == |all| > 0 && |clocked| == |Due(v)|
    requires forall i | 0 <= i < |v| :: v[i] == all[i].Value().(step := v[i].step, modules := v[i].modules)
    ensures SameMatchers(ViewOf(clocked), Due(v)) && SameOutline(ViewOf(rest), NotDue(v))
  {
    hide ViewOf, DueCount, SameOutline;
    var n := |clocked|;
    var a, b := ViewOf(clocked), ViewOf(rest);
    forall i | 0 <= i < n ensures a[i].(step := v[i].step, modules := v[i].modules) == v[i] {
      assert clocked[i] == all[i];
    }
    forall i | 0 <= i < |b| ensures b[i].(step := v[n + i].step, modules := v[n + i].modules) == v[n + i] {
      assert rest[i] == all[n + i];
    }
    OutlineIs(b, NotDue(v));
  }

  lemma {:induction false} SameMatcherCalls(a: seq<Reg>, b: seq<Reg>)
    requires SameMatchers(a, b)
    ensures MatcherCalls(a) == MatcherCalls(b)
  {
    hide CallsOf;
    if a != [] {
      CallsOfSame(a[0], b[0], a[0].matchers);
      SameMatcherCalls(a[1..], b[1..]);
    }
  }

  lemma OutlineTransitive(a: seq<Reg>, b: seq<Reg>, c: seq<Reg>)
    requires SameOutline(a, b) && SameOutline(b, c)
    ensures SameOutline(a, c)
  {
  }

  lemma SameCounts(a: seq<Reg>, b: seq<Reg>)
    requires SameMatchers(a, b)
    ensures MatcherCounts(a) == MatcherCounts(b)
  {
    hide MatcherCounts;
  }

  lemma TickTrace(trace: seq<Call>, v: seq<Reg>)
    requires |v| > 0
    ensures trace + TickCalls(v) == trace + ModuleCalls(Due(v)) + MatcherCalls(Due(v))
  {
    Reassociate(trace, ModuleCalls(Due(v)), MatcherCalls(Due(v)));
  }

  lemma DomainsPrefix(all: seq<ClockRegistry>, clocked: seq<ClockRegistry>, rest: seq<ClockRegistry>)
    requires all == clocked + rest
    ensures DomainsOf(clocked) == DomainsOf(all)[..|clocked|]
  {
    hide DomainsOf;
  }

  /** Putting back what the first phase leaves gives the list after the tick. */
  lemma ListAfterTick(p: Plan, n: nat, v: seq<Reg>, ds: seq<ClockDomain>, rest: seq<Reg>, w: seq<Reg>,
                      dw: seq<ClockDomain>, s: seq<Reg>)
    requires |v| == |ds| > 0 && SameOutline(rest, NotDue(v)) && SameMatchers(w, Due(v)) && dw == ds[..|Due(v)|]
    requires n == p.count + |ModuleCalls(Due(v))| && SameOutline(s, Requeue(rest, PutBack(p, n, w, dw)))
    ensures SameOutline(s, NextList(p, v, ds))
  {
    hide DueCount, SameOutline, Requeue, ModuleCalls, PutSteps, MatcherCounts;
    SameCounts(w, Due(v));
    OutlineRequeue(rest, NotDue(v), PutBack(p, n, w, dw), PutBack(p, n, Due(v), dw));
    OutlineTransitive(s, Requeue(rest, PutBack(p, n, w, dw)), NextList(p, v, ds));
  }

  /** The same for a random tick, with the calls of both phases: `mid` is the trace between them. */
  lemma RandomTickResult(p: Plan, v: seq<Reg>, ds: seq<ClockDomain>, rest: seq<Reg>, w: seq<Reg>, dw: seq<ClockDomain>,
                         s: seq<Reg>, before: seq<Call>, mid: seq<Call>, trace: seq<Call>,
                         mods: seq<seq<Callback>>, rms: seq<seq<Callback>>)
    requires |v| == |ds| > 0 && SameOutline(rest, NotDue(v)) && SameMatchers(w, Due(v)) && dw == ds[..|Due(v)|]
    requires p.count == |before| && mid == before + ListCalls(Due(v), mods) && trace == mid + ListCalls(w, rms)
    requires Shuffled(mods, ModuleLists(Due(v))) && Shuffled(rms, MatcherLists(w))
    requires SameOutline(s, Requeue(rest, PutBack(p, |mid|, w, dw)))
    ensures RandomCalls(before, trace, Due(v), mods, rms) && SameOutline(s, NextList(p, v, ds))
  {
    hide *;
    PhaseLength(Due(v), mods);
    RandomTrace(before, trace, w, Due(v), mods, rms);
    ListAfterTick(p, |mid|, v, ds, rest, w, dw, s);
  }

  lemma TickResult(p: Plan, v: seq<Reg>, ds: seq<ClockDomain>, s: seq<Reg>)
    requires |v| == |ds| > 0 && Sorted(v) && DistinctIds(v) && SameOutline(s, NextList(p, v, ds))
    ensures Ticked(v, s) && Sorted(s)
    ensures p.Advances() && (forall i | 0 <= i < |ds| :: ds[i] in p.domains) ==> forall i | 0 <= i < |s| :: s[i].base > v[0].base
  {
    NextListTicked(p, v, ds, s);
    hide NextList, SameOutline, WithSteps, Plan.StepAt, Sorted, DistinctIds;
    var later :| WithSteps(later, Due(v)) && SameOutline(s, Requeue(NotDue(v), later));
    TickedSorted(v, s, later);
    if p.Advances() && forall i | 0 <= i < |ds| :: ds[i] in p.domains {
      NextListLater(p, v, ds, s);
    }
  }

  lemma TickedSorted(v: seq<Reg>, s: seq<Reg>, later: seq<Reg>)
    requires |v| > 0 && Sorted(v) && DistinctIds(v) && WithSteps(later, Due(v)) && SameOutline(s, Requeue(NotDue(v), later))
    ensures Sorted(s)
  {
    LaterDistinct(v, later);
    RestSorted(v);
    hide *;
    RequeueProps(NotDue(v), later);
    OutlineSorted(s, Requeue(NotDue(v), later));
  }

  /** Without requests, the new list is the reference tick. */
  lemma QuietTick(p: Plan, v: seq<Reg>, all: seq<ClockRegistry>, l: seq<ClockRegistry>)
    requires |v| == |all| > 0 && Sorted(v) && DistinctIds(v) && multiset(l) == multiset(all) && Quiet(p.env)
    requires forall m | 0 <= m < |v| :: v[m].step == p.StepAt(all[m].clockDomain, p.count)
    requires forall m | 0 <= m < |v| :: v[m].id == all[m].id && v[m].modules == all[m].lModules && v[m].matchers == all[m].lWriterRM
    requires forall i | 0 <= i < |l| :: l[i].nStep == p.StepAt(l[i].clockDomain, p.count)
    requires SameOutline(ViewOf(l), NextList(p, v, DomainsOf(all)))
    ensures ViewOf(l) == Tick(v)
  {
    QuietNextList(p, v, DomainsOf(all));
    var a, t := ViewOf(l), Tick(v);
    OutlineIs(a, t);
    StaysOrAdvances(v);
    hide ViewOf, Tick, Plan.StepAt, SameOutline, Sorted, Quiet, NextList;
    forall i | 0 <= i < |a| ensures a[i] == t[i] {
      assert l[i] in multiset(l);
      assert l[i] in all;
      var m :| 0 <= m < |all| && all[m] == l[i];
      SameRest(v, t, i, m);
    }
  }

  lemma StaysOrAdvances(v: seq<Reg>)
    requires |v| > 0 && Sorted(v) && DistinctIds(v)
    ensures forall x | x in Tick(v) :: x in v || exists d :: d in v && x == d.Advanced()
  {
    DueSplit(v);
    DueDistinct(v);
    RequeueProps(NotDue(v), Due(v));
  }

  /** A registry keeps its number, its step and its lists in a tick. */
  lemma SameRest(v: seq<Reg>, t: seq<Reg>, i: nat, m: nat)
    requires DistinctIds(v) && |v| > 0 && m < |v| && i < |t| && t[i].id == v[m].id
    requires forall x | x in t :: x in v || exists d :: d in v && x == d.Advanced()
    ensures t[i].step == v[m].step && t[i].modules == v[m].modules && t[i].matchers == v[m].matchers
  {
    var x := t[i];
    assert x in t;
    var d := x;
    if x !in v {
      d :| d in v && x == d.Advanced();
    }
    var n :| 0 <= n < |v| && v[n] == d;
    assert v[n].id == v[m].id;
  }

  // ---------------------------------------------------------------------------------------------------------
  // The pass of the specialised clock

  /** The planned pass, seen from position `k`, when `n` callbacks have been invoked. */
  ghost predicate PassGoes(next: seq<Reg>, p: Plan, n: nat, v: seq<Reg>, ds: seq<ClockDomain>, k: nat) {
    k <= |v| == |ds| == |next| && NextPass(p, n, v[k..], ds[k..]) == next[k..]
  }

  lemma PassGoesStart(next: seq<Reg>, p: Plan, n: nat, v: seq<Reg>, ds: seq<ClockDomain>)
    requires |v| == |ds| && next == NextPass(p, n, v, ds)
    ensures PassGoes(next, p, n, v, ds, 0)
  {
    assert v[0..] == v && ds[0..] == ds && next[0..] == next;
  }

  lemma PassGoesNext(next: seq<Reg>, p: Plan, n: nat, v: seq<Reg>, ds: seq<ClockDomain>, k: nat)
    requires k < |v| && PassGoes(next, p, n, v, ds, k)
    ensures var m := n + |v[k].modules| + |v[k].matchers|;
            && next[k] == v[k].(step := p.StepAt(ds[k], m)).Advanced()
            && PassGoes(next, p, m, v, ds, k + 1)
  {
    hide Plan.StepAt;
    assert v[k..][1..] == v[k + 1..] && ds[k..][1..] == ds[k + 1..] && next[k..][1..] == next[k + 1..];
    assert next[k..][0] == next[k];
  }

  /** The list during the pass: the first `k` registries have gone on as planned, the others are as they were. */
  ghost predicate Passed(l: seq<ClockRegistry>, v: seq<Reg>, next: seq<Reg>, k: nat)
    reads l
  {
    && k <= |l| == |v| == |next|
    && (forall j | 0 <= j < |l| :: l[j].id == v[j].id && l[j].lModules == v[j].modules && l[j].lWriterRM == v[j].matchers)
    && (forall j | 0 <= j < |l| :: if j < k
          then l[j].nCycle == v[j].cycle + 1 && l[j].nBaseCycle == next[j].base
          else l[j].nCycle == v[j].cycle && l[j].nBaseCycle == v[j].base)
  }

  lemma NothingPassed(l: seq<ClockRegistry>, next: seq<Reg>)
    requires |next| == |l|
    ensures Passed(l, ViewOf(l), next, 0)
  {
    hide ViewOf;
  }

  lemma AllPassed(l: seq<ClockRegistry>, v: seq<Reg>, next: seq<Reg>)
    requires Passed(l, v, next, |l|)
    requires forall i | 0 <= i < |next| && i < |v| :: next[i].id == v[i].id && next[i].cycle == v[i].cycle + 1
    ensures SameOutline(ViewOf(l), next)
  {
    hide ViewOf, SameOutline;
    OutlineIs(ViewOf(l), next);
  }

  /** Without requests, the pass is the reference pass. */
  lemma QuietPass(p: Plan, n: nat, v: seq<Reg>, l: seq<ClockRegistry>)
    requires |v| == |l| && Quiet(p.env)
    requires forall i | 0 <= i < |v| :: v[i].step == p.StepAt(l[i].clockDomain, p.count)
    requires forall i | 0 <= i < |v| :: v[i].modules == l[i].lModules && v[i].matchers == l[i].lWriterRM
    requires forall i | 0 <= i < |l| :: l[i].nStep == p.StepAt(l[i].clockDomain, p.count)
    requires SameOutline(ViewOf(l), NextPass(p, n, v, DomainsOf(l)))
    ensures ViewOf(l) == Pass(v)
  {
    hide ViewOf, Plan.StepAt, SameOutline, Quiet, NextPass, Pass;
    QuietNextPass(p, n, v, DomainsOf(l));
    OutlineIs(ViewOf(l), Pass(v));
  }

  // ---------------------------------------------------------------------------------------------------------
  // The record of a run

  /** A time that is clocked after another one. */
  predicate Reached(t: nat, next: nat, strict: bool) {
    if strict then t < next else t <= next
  }

  /** The event lists and times of a run so far, from `start` to `now`. */
  ghost predicate Recorded(lists: seq<seq<Reg>>, times: seq<nat>, now: seq<Reg>, start: seq<Reg>,
                           before: seq<Call>, trace: seq<Call>, strict: bool) {
    && Course(lists) && |lists| == |times| + 1 && lists[0] == start && lists[|times|] == now
    && (forall k | 0 <= k < |times| :: |lists[k]| > 0 && times[k] == lists[k][0].base)
    && trace == before + CourseCalls(lists)
    && |now| > 0 && (times != [] ==> Reached(times[|times| - 1], now[0].base, strict))
  }

  lemma RecordedNext(lists: seq<seq<Reg>>, times: seq<nat>, q: seq<Reg>, s: seq<Reg>, start: seq<Reg>,
                     before: seq<Call>, sofar: seq<Call>, trace: seq<Call>, t: nat, strict: bool)
    requires Recorded(lists, times, q, start, before, sofar, strict) && Ticked(q, s)
    requires trace == sofar + TickCalls(q) && t == q[0].base && |s| > 0 && Reached(t, s[0].base, strict) && Sorted(s) && DistinctIds(s)
    ensures Recorded(lists + [s], times + [t], s, start, before, trace, strict)
    ensures times != [] ==> Reached(times[|times| - 1], t, strict)
  {
    hide Ticked, Sorted, DistinctIds, TickCalls;
    var qs := lists + [s];
    assert qs[..|qs| - 1] == lists;
    Reassociate(before, CourseCalls(lists), TickCalls(q));
    forall k, n | 0 <= k < n < |qs| && n == k + 1 ensures Ticked(qs[k], qs[n]) {
      assert n < |lists| ==> Ticked(lists[k], lists[n]);
    }
  }

  lemma RecordedAll(lists: seq<seq<Reg>>, times: seq<nat>, now: seq<Reg>, start: seq<Reg>, before: seq<Call>, trace: seq<Call>,
                    strict: bool)
    requires Recorded(lists, times, now, start, before, trace, strict)
    ensures Course(lists) && |lists| == |times| + 1 && lists[0] == start && lists[|times|] == now
    ensures forall k | 0 <= k < |times| :: |lists[k]| > 0 && times[k] == lists[k][0].base
    ensures trace == before + CourseCalls(lists)
  {
  }

  lemma RecordedStart(q: seq<Reg>, trace: seq<Call>, strict: bool)
    requires |q| > 0 && Sorted(q) && DistinctIds(q)
    ensures Recorded([q], [], q, q, trace, trace, strict)
  {
  }
}
