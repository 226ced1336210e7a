/** The randomised order of callbacks, on values: a tick may run the callbacks of each list of a due registry in any
    order, as long as it runs every list of modules before the first list of rate matchers. */
module RandomOrder {
  import opened Schedule

  ghost predicate Permuted(a: seq<Callback>, b: seq<Callback>) {
    multiset(a) == multiset(b)
  }

  /** Every list is an arrangement of the original list at its place. */
  ghost predicate Shuffled(lists: seq<seq<Callback>>, originals: seq<seq<Callback>>) {
    |lists| == |originals| && forall i | 0 <= i < |lists| :: Permuted(lists[i], originals[i])
  }

  function ModuleLists(due: seq<Reg>): (ls: seq<seq<Callback>>)
    ensures |ls| == |due| && forall i | 0 <= i < |ls| :: ls[i] == due[i].modules
  {
    if due == [] then [] else [due[0].modules] + ModuleLists(due[1..])
  }

  function MatcherLists(due: seq<Reg>): (ls: seq<seq<Callback>>)
    ensures |ls| == |due| && forall i | 0 <= i < |ls| :: ls[i] == due[i].matchers
  {
    if due == [] then [] else [due[0].matchers] + MatcherLists(due[1..])
  }

  /** The invocations of a phase that runs the given lists, one for each due registry. */
  function ListCalls(due: seq<Reg>, lists: seq<seq<Callback>>): seq<Call> {
    if due == [] || lists == [] then [] else CallsOf(due[0], lists[0]) + ListCalls(due[1..], lists[1..])
  }

  /** A tick has run the given arrangements of all module lists, and then those of all rate matcher lists. */
  ghost predicate RandomCalls(before: seq<Call>, trace: seq<Call>, due: seq<Reg>,
                              mods: seq<seq<Callback>>, rms: seq<seq<Callback>>) {
    && Shuffled(mods, ModuleLists(due)) && Shuffled(rms, MatcherLists(due))
    && trace == before + (ListCalls(due, mods) + ListCalls(due, rms))
  }

  // ---------------------------------------------------------------------------------------------------------
  // A shuffled phase makes the same calls

  lemma {:induction false} CallsOfMultiset(r: Reg, cbs: seq<Callback>, c: Call)
    ensures multiset(CallsOf(r, cbs))[c] == if c == Call(r.id, c.cb, r.cycle) then multiset(cbs)[c.cb] else 0
  {
    if cbs != [] {
      CallsOfMultiset(r, cbs[1..], c);
      assert cbs == [cbs[0]] + cbs[1..];
    }
  }

  lemma PermutedCalls(r: Reg, a: seq<Callback>, b: seq<Callback>)
    requires Permuted(a, b)
    ensures multiset(CallsOf(r, a)) == multiset(CallsOf(r, b))
  {
    forall c: Call ensures multiset(CallsOf(r, a))[c] == multiset(CallsOf(r, b))[c] {
      CallsOfMultiset(r, a, c);
      CallsOfMultiset(r, b, c);
    }
  }

  /** A phase that runs each list in any order makes every call of the phase exactly once. */
  lemma {:induction false} ShuffledModules(due: seq<Reg>, lists: seq<seq<Callback>>)
    requires Shuffled(lists, ModuleLists(due))
    ensures multiset(ListCalls(due, lists)) == multiset(ModuleCalls(due))
  {
    hide CallsOf, Permuted;
    if due != [] {
      assert Permuted(lists[0], ModuleLists(due)[0]);
      ShuffledModules(due[1..], lists[1..]);
      PermutedCalls(due[0], lists[0], due[0].modules);
    }
  }

  lemma {:induction false} ShuffledMatchers(due: seq<Reg>, lists: seq<seq<Callback>>)
    requires Shuffled(lists, MatcherLists(due))
    ensures multiset(ListCalls(due, lists)) == multiset(MatcherCalls(due))
  {
    hide CallsOf, Permuted;
    if due != [] {
      assert Permuted(lists[0], MatcherLists(due)[0]);
      ShuffledMatchers(due[1..], lists[1..]);
      PermutedCalls(due[0], lists[0], due[0].matchers);
    }
  }

  /** A random tick makes exactly the calls of the ordinary tick. */
  lemma SameCallsAsTick(q: seq<Reg>, mods: seq<seq<Callback>>, rms: seq<seq<Callback>>)
    requires |q| > 0 && Shuffled(mods, ModuleLists(Due(q))) && Shuffled(rms, MatcherLists(Due(q)))
    ensures multiset(ListCalls(Due(q), mods) + ListCalls(Due(q), rms)) == multiset(TickCalls(q))
  {
    hide ListCalls, ModuleCalls, MatcherCalls, Shuffled, Due;
    ShuffledModules(Due(q), mods);
    ShuffledMatchers(Due(q), rms);
  }

  /** The trace once the first `k` registries have run the given lists, of modules or of rate matchers. */
  ghost predicate ModulesRun(before: seq<Call>, v: seq<Reg>, k: nat, lists: seq<seq<Callback>>, trace: seq<Call>) {
    k <= |v| && Shuffled(lists, ModuleLists(v[..k])) && trace == before + ListCalls(v[..k], lists)
  }

  ghost predicate MatchersRun(before: seq<Call>, v: seq<Reg>, k: nat, lists: seq<seq<Callback>>, trace: seq<Call>) {
    k <= |v| && Shuffled(lists, MatcherLists(v[..k])) && trace == before + ListCalls(v[..k], lists)
  }

  lemma NothingRun(trace: seq<Call>, v: seq<Reg>)
    ensures ModulesRun(trace, v, 0, [], trace) && MatchersRun(trace, v, 0, [], trace)
  {
  }

  lemma ModulesDone(before: seq<Call>, v: seq<Reg>, lists: seq<seq<Callback>>, trace: seq<Call>)
    requires |v| > 0 && ModulesRun(before, v, DueCount(v, v[0].base), lists, trace)
    ensures Shuffled(lists, ModuleLists(Due(v))) && trace == before + ListCalls(Due(v), lists)
  {
  }

  lemma MatchersDone(before: seq<Call>, v: seq<Reg>, lists: seq<seq<Callback>>, trace: seq<Call>)
    requires MatchersRun(before, v, |v|, lists, trace)
    ensures Shuffled(lists, MatcherLists(v)) && trace == before + ListCalls(v, lists)
  {
    assert v[..|v|] == v;
  }

  lemma ModulesStep(before: seq<Call>, v: seq<Reg>, k: nat, lists: seq<seq<Callback>>, order: seq<Callback>, r: Reg,
                    trace: seq<Call>)
    requires k < |v| && r.id == v[k].id && r.cycle == v[k].cycle
    requires ModulesRun(before, v, k, lists, trace) && Permuted(order, v[k].modules)
    ensures ModulesRun(before, v, k + 1, lists + [order], trace + CallsOf(r, order))
  {
    hide CallsOf, ListCalls, ModuleLists, Permuted;
    PhaseStep(before, v, k, lists, order, r);
  }

  lemma MatchersStep(before: seq<Call>, v: seq<Reg>, k: nat, lists: seq<seq<Callback>>, order: seq<Callback>, r: Reg,
                     trace: seq<Call>)
    requires k < |v| && r.id == v[k].id && r.cycle == v[k].cycle
    requires MatchersRun(before, v, k, lists, trace) && Permuted(order, v[k].matchers)
    ensures MatchersRun(before, v, k + 1, lists + [order], trace + CallsOf(r, order))
  {
    hide CallsOf, ListCalls, MatcherLists, Permuted;
    PhaseStep(before, v, k, lists, order, r);
  }

  lemma PhaseStep(before: seq<Call>, v: seq<Reg>, k: nat, lists: seq<seq<Callback>>, order: seq<Callback>, r: Reg)
    requires k < |v| && |lists| == k && r.id == v[k].id && r.cycle == v[k].cycle
    ensures before + ListCalls(v[..k + 1], lists + [order]) == before + ListCalls(v[..k], lists) + CallsOf(r, order)
  {
    hide CallsOf, ListCalls;
    CallsOfSame(r, v[k], order);
    ListCallsAppend(v[..k], lists, v[k], order);
    assert v[..k + 1] == v[..k] + [v[k]];
    var a, b := ListCalls(v[..k], lists), CallsOf(r, order);
    assert before + (a + b) == before + a + b;
  }

  lemma {:induction false} ListCallsAppend(due: seq<Reg>, lists: seq<seq<Callback>>, r: Reg, l: seq<Callback>)
    requires |due| == |lists|
    ensures ListCalls(due + [r], lists + [l]) == ListCalls(due, lists) + CallsOf(r, l)
  {
    hide CallsOf;
    if due == [] {
      assert [r][1..] == [] && due + [r] == [r] && lists + [l] == [l];
      assert CallsOf(r, l) + [] == CallsOf(r, l);
    } else {
      ListCallsAppend(due[1..], lists[1..], r, l);
      assert due + [r] == [due[0]] + (due[1..] + [r]);
      assert lists + [l] == [lists[0]] + (lists[1..] + [l]);
      var a, b, c := CallsOf(due[0], lists[0]), ListCalls(due[1..], lists[1..]), CallsOf(r, l);
      assert a + (b + c) == a + b + c;
    }
  }

  lemma {:induction false} SameListCalls(a: seq<Reg>, b: seq<Reg>, lists: seq<seq<Callback>>)
    requires |a| == |b| && forall i | 0 <= i < |a| :: a[i].id == b[i].id && a[i].cycle == b[i].cycle
    ensures ListCalls(a, lists) == ListCalls(b, lists)
  {
    hide CallsOf;
    if a != [] && lists != [] {
      CallsOfSame(a[0], b[0], lists[0]);
      SameListCalls(a[1..], b[1..], lists[1..]);
    }
  }

  // ---------------------------------------------------------------------------------------------------------
  // The shuffle of one list

  /** The list in the middle of the shuffle: `n` callbacks are still to run, and `order` is what has run. */
  ghost predicate Shuffling(cbs: seq<Callback>, list: seq<Callback>, order: seq<Callback>, n: nat) {
    n <= |list| && multiset(list) == multiset(cbs) && multiset(order) + multiset(list[..n]) == multiset(cbs)
  }

  lemma NothingShuffled(cbs: seq<Callback>)
    ensures Shuffling(cbs, cbs, [], |cbs|)
  {
    assert cbs[..|cbs|] == cbs;
  }

  lemma AllShuffled(cbs: seq<Callback>, list: seq<Callback>, order: seq<Callback>)
    requires Shuffling(cbs, list, order, 0)
    ensures Permuted(list, cbs) && Permuted(order, cbs)
  {
  }

  /** One step of the shuffle: a callback runs and changes places with the last one that is still to run. */
  lemma SwapToEnd(cbs: seq<Callback>, list: seq<Callback>, order: seq<Callback>, n: nat, i: nat)
    requires i < n && Shuffling(cbs, list, order, n)
    ensures Shuffling(cbs, list[n - 1 := list[i]][i := list[n - 1]], order + [list[i]], n - 1)
  {
    var x, y := list[i], list[n - 1];
    var s := list[n - 1 := x][i := y];
    assert list[..n] == list[..n - 1] + [y];
    if i == n - 1 {
      assert s[..n - 1] == list[..n - 1];
    } else {
      assert s[..n - 1] == list[..n - 1][i := y];
    }
  }
}
