/** Enabling traces by name: rules are applied to the objects that exist and saved for the objects that are named later.
    A delayed action takes all saved rules back and can apply them again later. */
module TraceReplay {

  /** A regular expression and a trace level. */
  datatype Rule = Rule(regex: string, level: int)

  /** An object's on-flag and level. */
  datatype Status = Status(on: bool, level: int)

  type Matching = (string, string) -> bool

  // ---------------------------------------------------------------------------------------------------------
  // What the rules say about a name

  function Apply(m: Matching, st: Status, rule: Rule, name: string): Status {
    if m(rule.regex, name) then Status(true, rule.level) else st
  }

  function ApplyAll(m: Matching, st: Status, rules: seq<Rule>, name: string): Status {
    if rules == [] then st
    else Apply(m, ApplyAll(m, st, rules[..|rules| - 1], name), rules[|rules| - 1], name)
  }

  const UNTRACED := Status(false, 1)

  /** The rules, applied from left to right to an object that is not traced. */
  function Fold(m: Matching, rules: seq<Rule>, name: string): Status {
    ApplyAll(m, UNTRACED, rules, name)
  }

  predicate Matches(m: Matching, rules: seq<Rule>, name: string) {
    exists i :: 0 <= i < |rules| && m(rules[i].regex, name)
  }

  /** The two verbosity levels that are traced with a status. */
  function Bits(st: Status): (bool, bool) {
    (st.on && st.level >= 1, st.on && st.level >= 2)
  }

  /** The last rule that matches a name, or -1. */
  function LastMatch(m: Matching, rules: seq<Rule>, name: string): (i: int)
    ensures -1 <= i < |rules|
    ensures i >= 0 ==> m(rules[i].regex, name)
    ensures forall j | i < j < |rules| :: !m(rules[j].regex, name)
  {
    if rules == [] then -1
    else if m(rules[|rules| - 1].regex, name) then |rules| - 1
    else LastMatch(m, rules[..|rules| - 1], name)
  }

  lemma MatchesIff(m: Matching, rules: seq<Rule>, name: string)
    ensures Matches(m, rules, name) <==> LastMatch(m, rules, name) >= 0
  {
  }

  /** The last rule that matches decides; without one, the status stays what it was. */
  lemma {:induction false} LastMatchDecides(m: Matching, st: Status, rules: seq<Rule>, name: string)
    ensures var i := LastMatch(m, rules, name);
            ApplyAll(m, st, rules, name) == if i < 0 then st else Status(true, rules[i].level)
    ensures Matches(m, rules, name) <==> LastMatch(m, rules, name) >= 0
  {
    MatchesIff(m, rules, name);
    if rules != [] && !m(rules[|rules| - 1].regex, name) {
      LastMatchDecides(m, st, rules[..|rules| - 1], name);
    }
  }

  /** A name without a matching rule is not traced, and stays at level 1; otherwise the last matching rule gives the levels
      that are traced. */
  lemma FoldTraces(m: Matching, rules: seq<Rule>, name: string)
    ensures var i := LastMatch(m, rules, name);
            && Fold(m, rules, name) == (if i < 0 then Status(false, 1) else Status(true, rules[i].level))
            && Bits(Fold(m, rules, name)) == (i >= 0 && rules[i].level >= 1, i >= 0 && rules[i].level >= 2)
  {
    LastMatchDecides(m, UNTRACED, rules, name);
  }

  /** The rules with level zero, as a delayed action applies them. */
  function Zeroed(rules: seq<Rule>): (z: seq<Rule>)
    ensures |z| == |rules| && forall i | 0 <= i < |z| :: z[i] == Rule(rules[i].regex, 0)
  {
    if rules == [] then [] else [Rule(rules[0].regex, 0)] + Zeroed(rules[1..])
  }

  // ---------------------------------------------------------------------------------------------------------
  // The status of an object by history: which rules have been taken back since it was named

  /** Some pending action has taken back a rule for the name. */
  ghost predicate Delayed(m: Matching, pending: seq<seq<Rule>>, name: string) {
    exists i :: 0 <= i < |pending| && Matches(m, pending[i], name)
  }

  /** No saved rule matches the name, but one did that a delayed action has taken back since the object was named: it was
      named when there had been `at` captures. */
  ghost predicate Silenced(m: Matching, rules: seq<Rule>, captures: seq<seq<Rule>>, at: nat, name: string) {
    !Matches(m, rules, name) && exists i :: at <= i < |captures| && Matches(m, captures[i], name)
  }

  /** What flag and level of a named object should be. */
  ghost function Expected(m: Matching, rules: seq<Rule>, captures: seq<seq<Rule>>, at: nat, name: string): Status {
    if Silenced(m, rules, captures, at, name) then Status(true, 0) else Fold(m, rules, name)
  }

  /** Every rule that was ever taken back is saved again or belongs to a pending action. */
  ghost predicate Kept(rules: seq<Rule>, captures: seq<seq<Rule>>, pending: seq<seq<Rule>>) {
    forall i, r | 0 <= i < |captures| && r in captures[i] :: r in rules || IsPending(pending, r)
  }

  ghost predicate IsPending(pending: seq<seq<Rule>>, r: Rule) {
    exists j :: 0 <= j < |pending| && r in pending[j]
  }

  /** Another saved rule. */
  lemma RuleExpected(m: Matching, rules: seq<Rule>, captures: seq<seq<Rule>>, at: nat, name: string, rule: Rule)
    ensures Apply(m, Expected(m, rules, captures, at, name), rule, name) == Expected(m, rules + [rule], captures, at, name)
  {
    var more := rules + [rule];
    assert more[..|rules|] == rules;
    if m(rule.regex, name) {
      assert m(more[|rules|].regex, name);
    } else if Matches(m, rules, name) {
      var i :| 0 <= i < |rules| && m(rules[i].regex, name);
      assert m(more[i].regex, name);
    }
  }

  /** Taking back all rules. */
  lemma CaptureExpected(m: Matching, rules: seq<Rule>, captures: seq<seq<Rule>>, at: nat, name: string)
    requires at <= |captures|
    ensures ApplyAll(m, Expected(m, rules, captures, at, name), Zeroed(rules), name)
            == Expected(m, [], captures + [rules], at, name)
  {
    hide ApplyAll;
    var st := Expected(m, rules, captures, at, name);
    var more := captures + [rules];
    LastMatchDecides(m, st, Zeroed(rules), name);
    LastMatchDecides(m, UNTRACED, rules, name);
    LastMatchDecides(m, UNTRACED, [], name);
    if Matches(m, rules, name) {
      var i :| 0 <= i < |rules| && m(rules[i].regex, name);
      assert m(Zeroed(rules)[i].regex, name);
      assert Matches(m, more[|captures|], name);
    } else {
      assert !Matches(m, Zeroed(rules), name);
      assert forall i | 0 <= i < |captures| :: more[i] == captures[i];
      assert Silenced(m, [], more, at, name) <==> Silenced(m, rules, captures, at, name);
    }
  }

  /** Applying rules again, one after the other, keeps the status the expected one. */
  lemma {:induction false} GoExpected(m: Matching, rules: seq<Rule>, captures: seq<seq<Rule>>, at: nat, name: string, again: seq<Rule>)
    ensures ApplyAll(m, Expected(m, rules, captures, at, name), again, name)
            == Expected(m, rules + again, captures, at, name)
  {
    hide Expected;
    if again == [] {
      assert rules + again == rules;
    } else {
      var n := |again| - 1;
      GoExpected(m, rules, captures, at, name, again[..n]);
      RuleExpected(m, rules + again[..n], captures, at, name, again[n]);
      assert rules + again[..n] + [again[n]] == rules + again;
    }
  }

  /** Capturing, and going with the rules of pending action `k`, lose no rule. */
  lemma RulesKept(rules: seq<Rule>, captures: seq<seq<Rule>>, pending: seq<seq<Rule>>, k: nat)
    requires Kept(rules, captures, pending)
    ensures Kept([], captures + [rules], pending + [rules])
    ensures k < |pending| ==> Kept(rules + pending[k], captures, pending[..k] + pending[k + 1..])
  {
    forall r | IsPending(pending, r) || r in rules ensures IsPending(pending + [rules], r) {
      if r in rules {
        assert (pending + [rules])[|pending|] == rules;
      } else {
        var j :| 0 <= j < |pending| && r in pending[j];
        assert (pending + [rules])[j] == pending[j];
      }
    }
    if k < |pending| {
      var rest := pending[..k] + pending[k + 1..];
      forall r | IsPending(pending, r) ensures r in pending[k] || IsPending(rest, r) {
        var j :| 0 <= j < |pending| && r in pending[j];
        assert j != k ==> rest[if j < k then j else j - 1] == pending[j];
      }
    }
  }

  lemma MoreRulesKept(rules: seq<Rule>, captures: seq<seq<Rule>>, pending: seq<seq<Rule>>, more: seq<Rule>)
    requires Kept(rules, captures, pending)
    ensures Kept(rules + more, captures, pending)
  {
  }

  /** Flag and level differ from the fold of the saved rules exactly for the objects that are silenced, which is so only
      while an action with a matching rule is pending. What is traced is always what the saved rules say. */
  lemma ExactOutsideDelay(m: Matching, rules: seq<Rule>, captures: seq<seq<Rule>>, pending: seq<seq<Rule>>, at: nat, name: string)
    requires Kept(rules, captures, pending)
    ensures var st := Expected(m, rules, captures, at, name);
            && (st == Fold(m, rules, name) <==> !Silenced(m, rules, captures, at, name))
            && Bits(st) == Bits(Fold(m, rules, name))
            && (st != Fold(m, rules, name) ==> Delayed(m, pending, name))
  {
    LastMatchDecides(m, UNTRACED, rules, name);
    if Silenced(m, rules, captures, at, name) {
      var i :| at <= i < |captures| && Matches(m, captures[i], name);
      var x :| 0 <= x < |captures[i]| && m(captures[i][x].regex, name);
      var r := captures[i][x];
      assert r !in rules;
      var j :| 0 <= j < |pending| && r in pending[j];
    }
  }

  // ---------------------------------------------------------------------------------------------------------
  // The objects

  class Traceable {
    var objectName: string
    var myTraceOn: bool
    var traceLevel: int
    var traceOnArr: (bool, bool)
    ghost var namedAt: nat

    ghost predicate Sound()
      reads this
    {
      traceOnArr == Bits(State())
    }

    function State(): Status
      reads this
    {
      Status(myTraceOn, traceLevel)
    }

    constructor ()
      ensures Sound() && State() == UNTRACED && objectName == ""
    {
      objectName, myTraceOn, traceLevel, traceOnArr, namedAt := "", false, 1, (false, false), 0;
    }

    constructor CopyOf(t: Traceable)
      ensures Sound() && State() == t.State() && objectName == t.objectName && namedAt == t.namedAt
    {
      objectName, myTraceOn, traceLevel, namedAt := t.objectName, t.myTraceOn, t.traceLevel, t.namedAt;
      traceOnArr := (t.myTraceOn && t.traceLevel >= 1, t.myTraceOn && t.traceLevel >= 2);
    }

    method SetTraceOn(enabled: bool)
      modifies this`myTraceOn, this`traceOnArr
      ensures Sound() && State() == old(State()).(on := enabled)
    {
      myTraceOn := enabled;
      RecomputeTraceArr();
    }

    method SetTraceLevel(level: int)
      requires level <= 2
      modifies this`traceLevel, this`traceOnArr
      ensures Sound() && State() == old(State()).(level := level)
    {
      traceLevel := level;
      RecomputeTraceArr();
    }

    method RecomputeTraceArr()
      modifies this`traceOnArr
      ensures Sound()
    {
      traceOnArr := (myTraceOn && traceLevel >= 1, myTraceOn && traceLevel >= 2);
    }

    method EnableByRegex(m: Matching, rule: Rule)
      requires rule.level <= 2 && Sound()
      modifies this`myTraceOn, this`traceLevel, this`traceOnArr
      ensures Sound() && State() == Apply(m, old(State()), rule, objectName)
    {
      if m(rule.regex, objectName) {
        SetTraceOn(true);
        SetTraceLevel(rule.level);
      }
    }
  }

  ghost predicate LevelsFit(rules: seq<Rule>) {
    forall i | 0 <= i < |rules| :: rules[i].level <= 2
  }

  /** All traceable objects and the saved rules. `named` are the objects that have been given a name, `captures` the rules
      that every delayed action so far has taken back, and `pending` those that have not been applied again. */
  class Tracing {
    const matches: Matching
    const compiles: string -> bool
    var traceables: seq<Traceable>
    var regexes: seq<Rule>
    ghost var named: set<Traceable>
    ghost var captures: seq<seq<Rule>>
    ghost var pending: seq<seq<Rule>>

    /** The status that a named object should have. */
    ghost function Due(t: Traceable): Status
      reads this, t
    {
      Expected(matches, regexes, captures, t.namedAt, t.objectName)
    }

    ghost predicate Valid()
      reads this, traceables
    {
      && LevelsFit(regexes)
      && (forall i | 0 <= i < |pending| :: LevelsFit(pending[i]))
      && (forall t | t in traceables :: t.Sound())
      && (forall i, j | 0 <= i < j < |traceables| :: traceables[i] != traceables[j])
      && (forall t | t in traceables && t in named :: t.namedAt <= |captures| && t.State() == Due(t))
      && Kept(regexes, captures, pending)
    }

    constructor (matches: Matching, compiles: string -> bool)
      ensures Valid() && traceables == [] && regexes == [] && captures == pending == [] && named == {}
      ensures this.matches == matches && this.compiles == compiles
    {
      this.matches, this.compiles := matches, compiles;
      traceables, regexes, named, captures, pending := [], [], {}, [], [];
    }

    /** A new object has no name yet. */
    method NewTraceable() returns (t: Traceable)
      requires Valid()
      modifies this`traceables
      ensures Valid() && fresh(t) && traceables == old(traceables) + [t] && t.State() == UNTRACED
    {
      t := new Traceable();
      traceables := traceables + [t];
      assert forall x | x in traceables && x != t :: x in old(traceables);
    }

    /** Names an object: it is reset, and the saved rules are replayed for the name. */
    method SetTraceableName(t: Traceable, name: string)
      requires Valid() && t in traceables
      modifies this`named, t
      ensures Valid() && named == old(named) + {t}
      ensures t.objectName == name && t.State() == Fold(matches, regexes, name) && t.namedAt == |captures|
    {
      hide Matches, ApplyAll, Kept;
      t.SetTraceOn(false);
      t.SetTraceLevel(1);
      t.objectName := name;
      var iter := 0;
      NothingApplied(matches, UNTRACED, name);
      while iter < |regexes|
        invariant iter <= |regexes| && t.Sound() && t.objectName == name && named == old(named)
        invariant t.State() == ApplyAll(matches, UNTRACED, regexes[..iter], name)
      {
        OneMore(matches, UNTRACED, regexes, iter, name);
        t.EnableByRegex(matches, regexes[iter]);
        iter := iter + 1;
      }
      assert regexes[..iter] == regexes;
      t.namedAt := |captures|;
      named := named + {t};
    }

    /** Applies a rule to all objects, and saves it for the objects that are named later. */
    method EnableTraceByRegex(regexStr: string, level: int) returns (ok: bool)
      requires Valid() && level <= 2
      modifies this`regexes, traceables
      ensures Valid() && ok == compiles(regexStr)
      ensures regexes == if ok then old(regexes) + [Rule(regexStr, level)] else old(regexes)
      ensures forall t | t in traceables :: t.objectName == old(t.objectName) && t.namedAt == old(t.namedAt)
                && t.State() == if ok then Apply(matches, old(t.State()), Rule(regexStr, level), t.objectName) else old(t.State())
    {
      ok := compiles(regexStr);
      if ok {
        EnableSaving(Rule(regexStr, level));
      }
    }

    method EnableSaving(rule: Rule)
      requires Valid() && rule.level <= 2
      modifies this`regexes, traceables
      ensures Valid() && regexes == old(regexes) + [rule]
      ensures forall t | t in traceables :: t.objectName == old(t.objectName) && t.namedAt == old(t.namedAt)
                && t.State() == Apply(matches, old(t.State()), rule, t.objectName)
    {
      hide Expected, Apply, Kept;
      MoreRulesKept(regexes, captures, pending, [rule]);
      regexes := regexes + [rule];
      EnableAll(rule);
      forall t | t in traceables && t in named ensures t.State() == Due(t) {
        RuleExpected(matches, old(regexes), captures, t.namedAt, t.objectName, rule);
      }
    }

    /** Applies a rule to all objects without saving it. */
    method EnableAll(rule: Rule)
      requires rule.level <= 2 && forall t | t in traceables :: t.Sound()
      requires forall i, j | 0 <= i < j < |traceables| :: traceables[i] != traceables[j]
      modifies traceables
      ensures forall t | t in traceables :: t.Sound() && t.objectName == old(t.objectName) && t.namedAt == old(t.namedAt)
                && t.State() == Apply(matches, old(t.State()), rule, t.objectName)
    {
      hide Apply;
      var iter := 0;
      while iter < |traceables|
        invariant iter <= |traceables|
        invariant forall i | 0 <= i < |traceables| ::
                    && traceables[i].Sound() && traceables[i].objectName == old(traceables[i].objectName)
                    && traceables[i].namedAt == old(traceables[i].namedAt)
                    && traceables[i].State() == if i < iter
                         then Apply(matches, old(traceables[i].State()), rule, traceables[i].objectName)
                         else old(traceables[i].State())
      {
        traceables[iter].EnableByRegex(matches, rule);
        iter := iter + 1;
      }
    }

    /** Starts a delayed action: takes all saved rules back, and switches the objects they match to level zero. */
    method Delay() returns (savedRegexes: seq<Rule>)
      requires Valid()
      modifies this`regexes, this`captures, this`pending, traceables
      ensures Valid() && savedRegexes == old(regexes) && regexes == []
      ensures captures == old(captures) + [savedRegexes] && pending == old(pending) + [savedRegexes]
      ensures forall t | t in traceables :: t.objectName == old(t.objectName) && t.namedAt == old(t.namedAt)
                && t.State() == ApplyAll(matches, old(t.State()), Zeroed(savedRegexes), t.objectName)
    {
      hide Expected, ApplyAll, Kept;
      RulesKept(regexes, captures, pending, |pending|);
      savedRegexes, regexes := regexes, [];
      ghost var zeroed := Zeroed(savedRegexes);
      Unapplied();
      var iter := 0;
      while iter < |savedRegexes|
        invariant iter <= |savedRegexes| && regexes == [] && captures == old(captures) && pending == old(pending)
        invariant forall t | t in traceables :: t.Sound() && t.objectName == old(t.objectName) && t.namedAt == old(t.namedAt)
                    && t.State() == ApplyAll(matches, old(t.State()), zeroed[..iter], t.objectName)
      {
        forall t | t in traceables
          ensures ApplyAll(matches, old(t.State()), zeroed[..iter + 1], t.objectName)
                  == Apply(matches, ApplyAll(matches, old(t.State()), zeroed[..iter], t.objectName), zeroed[iter], t.objectName)
        {
          OneMore(matches, old(t.State()), zeroed, iter, t.objectName);
        }
        EnableAll(Rule(savedRegexes[iter].regex, 0));
        iter := iter + 1;
      }
      assert zeroed[..iter] == zeroed;
      captures, pending := captures + [savedRegexes], pending + [savedRegexes];
      forall t | t in traceables && t in named ensures t.State() == Due(t) {
        CaptureExpected(matches, old(regexes), old(captures), t.namedAt, t.objectName);
      }
    }

    lemma Unapplied()
      ensures forall t: Traceable :: ApplyAll(matches, t.State(), [], t.objectName) == t.State()
    {
    }

    /** Ends a delayed action: applies its rules again and saves them behind the rules that have been added meanwhile. An
        action may also have been made from a single rule, or may be applied more than once; then it is not pending. */
    method Go(savedRegexes: seq<Rule>, ghost k: nat)
      requires Valid() && LevelsFit(savedRegexes)
      modifies this`regexes, this`pending, traceables
      ensures Valid() && regexes == old(regexes) + savedRegexes
      ensures pending == if k < |old(pending)| && old(pending)[k] == savedRegexes
                           then old(pending)[..k] + old(pending)[k + 1..] else old(pending)
      ensures forall t | t in traceables :: t.objectName == old(t.objectName) && t.namedAt == old(t.namedAt)
                && t.State() == ApplyAll(matches, old(t.State()), savedRegexes, t.objectName)
    {
      hide Expected, ApplyAll, Kept;
      Unapplied();
      var iter := 0;
      while iter < |savedRegexes|
        invariant iter <= |savedRegexes| && regexes == old(regexes) + savedRegexes[..iter]
        invariant Valid() && pending == old(pending)
        invariant forall t | t in traceables :: t.objectName == old(t.objectName) && t.namedAt == old(t.namedAt)
                    && t.State() == ApplyAll(matches, old(t.State()), savedRegexes[..iter], t.objectName)
      {
        forall t | t in traceables
          ensures ApplyAll(matches, old(t.State()), savedRegexes[..iter + 1], t.objectName)
                  == Apply(matches, ApplyAll(matches, old(t.State()), savedRegexes[..iter], t.objectName), savedRegexes[iter],
                           t.objectName)
        {
          OneMore(matches, old(t.State()), savedRegexes, iter, t.objectName);
        }
        EnableSaving(savedRegexes[iter]);
        iter := iter + 1;
      }
      assert savedRegexes[..iter] == savedRegexes;
      if k < |pending| && pending[k] == savedRegexes {
        RulesKept(old(regexes), captures, pending, k);
        pending := pending[..k] + pending[k + 1..];
      }
    }

    /** Copies an object, with its name and status. */
    method Copy(t: Traceable) returns (c: Traceable)
      requires Valid() && t in traceables
      modifies this`traceables, this`named
      ensures Valid() && fresh(c) && traceables == old(traceables) + [c]
      ensures c.State() == t.State() && c.objectName == t.objectName && (c in named <==> t in named)
    {
      hide Expected, Kept;
      c := new Traceable.CopyOf(t);
      traceables := traceables + [c];
      if t in named {
        named := named + {c};
      }
      assert forall x | x in traceables && x != c :: x in old(traceables);
    }

    /** Removes an object from the list when it is destroyed. */
    method Destroy(i: nat)
      requires Valid() && i < |traceables|
      modifies this`traceables
      ensures Valid() && traceables == old(traceables)[..i] + old(traceables)[i + 1..]
    {
      hide Expected, Kept;
      ghost var before := traceables;
      traceables := traceables[..i] + traceables[i + 1..];
      assert forall j | 0 <= j < |traceables| :: traceables[j] == before[if j < i then j else j + 1];
    }

    /** For every named object, what is traced is what the saved rules say, in whatever order objects were named, rules
        added, and delayed actions started and ended; without pending actions, flag and level are those of the rules. */
    lemma OrderDoesNotMatter(t: Traceable)
      requires Valid() && t in traceables && t in named
      ensures t.traceOnArr == Bits(Fold(matches, regexes, t.objectName))
      ensures t.State() == Fold(matches, regexes, t.objectName)
              <==> !Silenced(matches, regexes, captures, t.namedAt, t.objectName)
      ensures pending == [] ==> t.State() == Fold(matches, regexes, t.objectName)
    {
      ExactOutsideDelay(matches, regexes, captures, pending, t.namedAt, t.objectName);
    }
  }

  lemma NothingApplied(m: Matching, st: Status, name: string)
    ensures ApplyAll(m, st, [], name) == st
  {
  }

  lemma OneMore(m: Matching, st: Status, rules: seq<Rule>, k: nat, name: string)
    requires k < |rules|
    ensures ApplyAll(m, st, rules[..k + 1], name) == Apply(m, ApplyAll(m, st, rules[..k], name), rules[k], name)
  {
    assert rules[..k + 1][..k] == rules[..k];
  }
}
