/** The objects of the clock server, as the clock methods update them in place: registries and domains, and the lists
    that hold them. */
module ClockObjects {
  import opened Arithmetic
  import opened Schedule

  /** A set of callbacks of one domain that tick together, `nSkew` percent of a period late. */
  class ClockRegistry {
    const id: nat
    const clockDomain: ClockDomain
    const nSkew: nat
    const dralSkew: nat
    const clockId: nat
    var lModules: seq<Callback>
    var lWriterRM: seq<Callback>
    var nFrequency: nat
    var nStep: nat
    var nBaseCycle: nat
    var nCycle: nat

    constructor (id: nat, domain: ClockDomain, skew: nat, dralSkew: nat, clockId: nat)
      ensures this.id == id && clockDomain == domain && nSkew == skew
      ensures this.dralSkew == dralSkew && this.clockId == clockId
      ensures nFrequency == domain.currentFrequency && nStep == 0 && nBaseCycle == 0 && nCycle == 0
      ensures lModules == [] && lWriterRM == []
    {
      this.id, clockDomain, nSkew, this.dralSkew, this.clockId := id, domain, skew, dralSkew, clockId;
      nFrequency := domain.currentFrequency;
      lModules, lWriterRM := [], [];
      nStep, nBaseCycle, nCycle := 0, 0, 0;
    }

    function Value(): Reg
      reads this
    {
      Reg(id, nStep, nBaseCycle, nCycle, lModules, lWriterRM)
    }
  }

  /** A group of registries that share a frequency, one registry per skew. */
  class ClockDomain {
    const name: string
    const normalizedFrequencies: seq<nat>
    var currentFrequency: nat
    var lClock: seq<ClockRegistry>

    constructor (name: string, frequencies: seq<nat>)
      requires frequencies != []
      ensures this.name == name && normalizedFrequencies == frequencies
      ensures currentFrequency == frequencies[0] && lClock == []
    {
      this.name, normalizedFrequencies := name, frequencies;
      currentFrequency, lClock := frequencies[0], [];
    }
  }

  /** The writing end of a rate matcher, and the registries of the connected reading ends. */
  datatype Writer = Writer(cb: Callback, readers: seq<ClockRegistry>)

  ghost predicate SameClock(a: ClockRegistry, b: ClockRegistry) {
    a.clockDomain.name == b.clockDomain.name && a.nSkew == b.nSkew
  }

  ghost predicate ReadersAgree(w: Writer) {
    |w.readers| > 0 && forall j | 1 <= j < |w.readers| :: SameClock(w.readers[0], w.readers[j])
  }

  /** Any two readers are in one domain and have one skew. */
  lemma ReadersAgreeIff(w: Writer)
    ensures ReadersAgree(w) <==> w.readers != [] && forall i, j | 0 <= i < |w.readers| && 0 <= j < |w.readers| ::
              w.readers[i].clockDomain.name == w.readers[j].clockDomain.name && w.readers[i].nSkew == w.readers[j].nSkew
  {
    if w.readers != [] && forall i, j | 0 <= i < |w.readers| && 0 <= j < |w.readers| ::
         w.readers[i].clockDomain.name == w.readers[j].clockDomain.name && w.readers[i].nSkew == w.readers[j].nSkew {
      assert w.readers[0] == w.readers[0];
    }
  }

  function AttachedBy(w: Writer, r: ClockRegistry): seq<Callback> {
    if w.readers != [] && w.readers[0] == r then [w.cb] else []
  }

  /** The writers that belong to a registry, in order. */
  ghost function Attached(writers: seq<Writer>, r: ClockRegistry): seq<Callback> {
    if writers == [] then [] else
      Attached(writers[..|writers| - 1], r) + AttachedBy(writers[|writers| - 1], r)
  }

  /** No other writer has the callback. */
  ghost predicate OwnCallback(writers: seq<Writer>, k: nat)
    requires k < |writers|
  {
    forall i | 0 <= i < |writers| && i != k :: writers[i].cb != writers[k].cb
  }

  /** A callback stands in exactly one place of one list. */
  ghost predicate StandsOnce(cb: Callback, lists: map<ClockRegistry, seq<Callback>>) {
    exists r :: r in lists && multiset(lists[r])[cb] == 1 && forall s | s in lists && s != r :: cb !in lists[s]
  }

  ghost predicate StandsNowhere(cb: Callback, lists: map<ClockRegistry, seq<Callback>>) {
    forall r | r in lists :: cb !in lists[r]
  }

  /** A frequency change that a callback asks for. */
  datatype Request = Request(domain: string, frequency: nat)

  type Environment = nat -> seq<Request>

  ghost predicate Quiet(env: Environment) {
    forall n :: env(n) == []
  }

  /** The event list as values. */
  function ViewOf(l: seq<ClockRegistry>): (v: seq<Reg>)
    reads l
    ensures |v| == |l| && forall i | 0 <= i < |l| :: v[i] == l[i].Value()
  {
    if l == [] then [] else [l[0].Value()] + ViewOf(l[1..])
  }

  /** Every registry has its own number. */
  ghost predicate Numbered(s: set<ClockRegistry>) {
    forall a, b | a in s && b in s && a.id == b.id :: a == b
  }

  /** The registries of a domain: one per skew; two of them have the same clock number exactly if they have the same
      dral skew. */
  ghost predicate ListWired(l: seq<ClockRegistry>, d: ClockDomain, all: set<ClockRegistry>, limit: nat) {
    && (forall i | 0 <= i < |l| ::
          l[i] in all && l[i].clockDomain == d && l[i].nSkew < 100 && l[i].clockId < limit)
    && (forall i, j | 0 <= i < j < |l| :: l[i].nSkew != l[j].nSkew
          && (l[i].dralSkew == l[j].dralSkew <==> l[i].clockId == l[j].clockId))
  }

  lemma ListExtend(l: seq<ClockRegistry>, d: ClockDomain, all: set<ClockRegistry>, limit: nat,
                   r: ClockRegistry, all': set<ClockRegistry>, limit': nat)
    requires ListWired(l, d, all, limit) && all <= all' && limit <= limit'
    requires r in all' && r.clockDomain == d && r.nSkew < 100 && r.clockId < limit'
    requires forall i | 0 <= i < |l| :: l[i].nSkew != r.nSkew && (l[i].dralSkew == r.dralSkew <==> l[i].clockId == r.clockId)
    ensures ListWired(l + [r], d, all', limit')
  {
  }

  lemma ListMonotone(l: seq<ClockRegistry>, d: ClockDomain, all: set<ClockRegistry>, limit: nat,
                     all': set<ClockRegistry>, limit': nat)
    requires ListWired(l, d, all, limit) && all <= all' && limit <= limit'
    ensures ListWired(l, d, all', limit')
  {
  }

  lemma ListKnown(l: seq<ClockRegistry>, d: ClockDomain, all: set<ClockRegistry>, limit: nat)
    requires ListWired(l, d, all, limit)
    ensures forall r | r in l :: r in all
  {
  }

  lemma ListDomain(l: seq<ClockRegistry>, d: ClockDomain, all: set<ClockRegistry>, limit: nat)
    requires ListWired(l, d, all, limit)
    ensures forall i | 0 <= i < |l| :: l[i] in all && l[i].clockDomain == d
  {
  }

  /** Times that never go back, and never stand still if `strict`. */
  ghost predicate Increasing(times: seq<nat>, strict: bool) {
    forall i, j | 0 <= i < j < |times| :: if strict then times[i] < times[j] else times[i] <= times[j]
  }

  lemma NothingIncreases(strict: bool)
    ensures Increasing([], strict)
  {
  }

  lemma IncreasingAppend(times: seq<nat>, t: nat, strict: bool)
    requires Increasing(times, strict)
    requires times != [] ==> if strict then times[|times| - 1] < t else times[|times| - 1] <= t
    ensures Increasing(times + [t], strict)
  {
  }

  ghost predicate AllIn(l: seq<ClockRegistry>, s: set<ClockRegistry>) {
    forall i | 0 <= i < |l| :: l[i] in s
  }

  /** The position of the first domain with the given name. */
  function FirstDomain(l: seq<ClockDomain>, name: string): (i: nat)
    ensures i <= |l|
    ensures forall j | 0 <= j < i :: l[j].name != name
    ensures i < |l| ==> l[i].name == name
  {
    if l == [] || l[0].name == name then 0 else 1 + FirstDomain(l[1..], name)
  }

  /** The current frequencies of domains. */
  function RatesOf(l: seq<ClockDomain>): (rates: seq<nat>)
    reads l`currentFrequency
    ensures |rates| == |l| && forall i | 0 <= i < |l| :: rates[i] == l[i].currentFrequency
  {
    if l == [] then [] else [l[0].currentFrequency] + RatesOf(l[1..])
  }

  /** The frequencies of all domains, in the order in which initialisation goes through them. */
  function AllFrequencies(l: seq<ClockDomain>): seq<nat> {
    if l == [] then [] else l[0].normalizedFrequencies + AllFrequencies(l[1..])
  }

  /** Every frequency of every domain divides a number. */
  ghost predicate OfferedDivide(l: seq<ClockDomain>, m: nat) {
    forall i, j | 0 <= i < |l| && 0 <= j < |l[i].normalizedFrequencies| :: Divides(l[i].normalizedFrequencies[j], m)
  }

  /** A registry was registered before another one: in an earlier domain, or earlier in the same domain. */
  ghost predicate RegisteredBefore(l: seq<seq<ClockRegistry>>, a: ClockRegistry, b: ClockRegistry) {
    exists i, j, k, n :: 0 <= i <= k < |l| && 0 <= j < |l[i]| && 0 <= n < |l[k]| && l[i][j] == a && l[k][n] == b && (i < k || j < n)
  }

  /** The registries of the domains, and all of them in one list, domain by domain. */
  function Lists(l: seq<ClockDomain>): (ls: seq<seq<ClockRegistry>>)
    reads l
    ensures |ls| == |l| && forall i | 0 <= i < |l| :: ls[i] == l[i].lClock
  {
    if l == [] then [] else [l[0].lClock] + Lists(l[1..])
  }

  function Flatten(ls: seq<seq<ClockRegistry>>): seq<ClockRegistry> {
    if ls == [] then [] else Flatten(ls[..|ls| - 1]) + ls[|ls| - 1]
  }

  ghost predicate NoDup(l: seq<ClockRegistry>) {
    forall i, j | 0 <= i < j < |l| :: l[i] != l[j]
  }

  /** Lists without duplicates and without common elements. */
  ghost predicate Disjoint(ls: seq<seq<ClockRegistry>>) {
    && (forall i | 0 <= i < |ls| :: NoDup(ls[i]))
    && (forall i, j | 0 <= i < j < |ls| :: Apart(ls[i], ls[j]))
  }

  ghost predicate Apart(a: seq<ClockRegistry>, b: seq<ClockRegistry>) {
    forall r | r in a :: r !in b
  }

  /** The event list that results from adding registries one by one. */
  function InsertAll(v: seq<Reg>): seq<Reg> {
    if v == [] then [] else Insert(InsertAll(v[..|v| - 1]), v[|v| - 1])
  }
}
