/** The clock server: domains, registries and the event list as objects that the clock methods update in place.

    A callback is code of the simulated model. The server's part of an invocation is the cycle number it passes, so
    an invocation appends to `trace`. What the model's code can do to the server is to ask for frequency changes:
    the `env` argument of the clock methods says which requests each invocation makes. */
module ClockServer {
  import opened Arithmetic
  import opened ClockLists
  import opened ClockObjects
  import opened ClosedForm
  import opened FastPath
  import opened FrequencyChanges
  import opened FrequencyRequests
  import opened Occurrences
  import opened RandomOrder
  import opened Schedule

  class ClockServer {
    var lDomain: seq<ClockDomain>
    var Bf: nat
    var internalBaseCycle: nat
    var lTimeEvents: seq<ClockRegistry>
    var trace: seq<Call>
    var nextId: nat
    var nextClockId: nat
    var nextCallback: nat
    ghost var registries: set<ClockRegistry>  // the registries of all domains

    /** A domain as registration leaves it. */
    ghost predicate DomainWired(d: ClockDomain)
      reads this`registries, this`nextClockId, d, registries`nFrequency
    {
      && AllPositive(d.normalizedFrequencies) && d.currentFrequency in d.normalizedFrequencies
      && ListWired(d.lClock, d, registries, nextClockId)
      && (forall r | r in registries && r in d.lClock :: r.nFrequency == d.currentFrequency)
    }

    /** What registration keeps: distinct domain names, every registry in exactly one domain. */
    ghost predicate Wired()
      reads this`registries, this`lDomain, this`nextId, this`nextClockId, lDomain, registries`nFrequency
    {
      && (forall i | 0 <= i < |lDomain| :: DomainWired(lDomain[i]))
      && (forall i, j | 0 <= i < j < |lDomain| :: lDomain[i].name != lDomain[j].name)
      && Numbered(registries)
      && (forall r | r in registries :: r.id < nextId && r.clockDomain in lDomain && r in r.clockDomain.lClock)
    }

    constructor ()
      ensures Wired() && OncePlaced() && lDomain == [] && registries == {} && trace == [] && lTimeEvents == []
    {
      lDomain, lTimeEvents, trace := [], [], [];
      Bf, internalBaseCycle, nextId, nextClockId, nextCallback := 0, 0, 0, 0, 0;
      registries := {};
    }

    /** Creates a clock domain; a name that is taken is refused. */
    method NewClockDomain(domainName: string, frequencies: seq<nat>) returns (ok: bool)
      requires Wired() && frequencies != [] && AllPositive(frequencies)
      modifies this`lDomain
      ensures Wired()
      ensures ok == (FirstDomain(old(lDomain), domainName) == |old(lDomain)|)
      ensures !ok ==> lDomain == old(lDomain)
      ensures ok ==> exists d: ClockDomain :: fresh(d) && lDomain == old(lDomain) + [d]
                       && d.name == domainName && d.normalizedFrequencies == frequencies && d.lClock == []
                       && d.currentFrequency == frequencies[0]
    {
      hide DomainWired, Numbered, AllPositive;
      var i := FindDomain(domainName);
      ok := i == |lDomain|;
      if ok {
        var d := new ClockDomain(domainName, frequencies);
        EmptyWired(d);
        ghost var before := lDomain;
        lDomain := lDomain + [d];
        forall k | 0 <= k < |lDomain| ensures DomainWired(lDomain[k]) {
          assert k < |before| ==> lDomain[k] == before[k];
        }
        assert d in lDomain && forall x | x in before :: x in lDomain;
      }
    }

    /** Registers a callback with a domain and a skew. It joins the registry of that domain and skew, which is created
        when it does not exist yet; a new registry shares the clock number of one with the same dral skew. The
        result is the registry that the clockable is told; an unknown domain is refused. */
    method RegisterClock(domainName: string, cb: Callback, skew: nat, dralSkew: nat) returns (home: ClockRegistry?)
      requires Wired() && skew < 100
      modifies this`registries, this`nextId, this`nextClockId, lDomain`lClock, registries`lModules
      ensures Wired()
      ensures (home == null) == (FirstDomain(lDomain, domainName) == |lDomain|)
      ensures home == null ==> registries == old(registries)
      ensures home != null ==>
                && registries == old(registries) + {home} && (home in old(registries) || fresh(home))
                && home.clockDomain == lDomain[FirstDomain(lDomain, domainName)] && home.nSkew == skew
                && home.lModules == (if home in old(registries) then old(home.lModules) else []) + [cb]
                && (home !in old(registries) ==> home.lWriterRM == [] && home.nCycle == 0 && home.dralSkew == dralSkew)
                && (forall i | 0 <= i < |lDomain| :: lDomain[i].lClock == old(lDomain[i].lClock)
                      + if lDomain[i] == home.clockDomain && home !in old(registries) then [home] else [])
      ensures forall r | r in old(registries) && r != home :: r.lModules == old(r.lModules)
    {
      hide Numbered, AllPositive;
      var i := FindDomain(domainName);
      if i == |lDomain| {
        return null;
      }
      var domain := lDomain[i];
      assert DomainWired(domain);
      hide Wired, DomainWired;
      var k, share := ScanDomain(domain, skew, dralSkew);
      if k < |domain.lClock| {
        home := domain.lClock[k];
        home.lModules := home.lModules + [cb];
      } else {
        home := AddRegistry(domain, skew, dralSkew, share, cb);
      }
    }

    /** Registers a module to be clocked by a callback of its own. The callback is new, so every callback made in this
        way stands in exactly one place of one registry. */
    method RegisterModule(domainName: string, thread: nat, skew: nat, dralSkew: nat)
      returns (home: ClockRegistry?, cb: Callback)
      requires Wired() && OncePlaced() && skew < 100
      modifies this`registries, this`nextId, this`nextClockId, this`nextCallback, lDomain`lClock, registries`lModules
      ensures Wired() && OncePlaced()
      ensures (home == null) == (FirstDomain(lDomain, domainName) == |lDomain|)
      ensures home != null ==>
                && home in registries && home.clockDomain.name == domainName && home.nSkew == skew && cb.thread == thread
                && (forall r | r in registries :: cb in r.lModules <==> r == home)
    {
      hide Wired, FirstDomain, DomainWired;
      cb := Callback(nextCallback, thread);
      nextCallback := nextCallback + 1;
      home := RegisterClock(domainName, cb, skew, dralSkew);
      if home != null {
        ghost var n := |home.lModules| - 1;
        assert home.lModules[n] == cb;
        forall r, i | r in registries && 0 <= i < |r.lModules| && (r != home || i < n)
          ensures r.lModules[i].id < cb.id
        {
          assert r in old(registries);
        }
      }
    }

    /** No two places in the lists of modules hold the same callback. */
    ghost predicate OncePlaced()
      reads this`registries, this`nextCallback, registries`lModules
    {
      && (forall r, i | r in registries && 0 <= i < |r.lModules| :: r.lModules[i].id < nextCallback)
      && (forall r, s, i, j | r in registries && s in registries && 0 <= i < |r.lModules| && 0 <= j < |s.lModules| ::
            r.lModules[i].id == s.lModules[j].id ==> r == s && i == j)
    }

    /** Looks for the registry with the given skew, and on the way for a clock number to share. */
    method ScanDomain(domain: ClockDomain, skew: nat, dralSkew: nat) returns (k: nat, share: Option<nat>)
      requires DomainWired(domain)
      ensures k <= |domain.lClock|
      ensures forall j | 0 <= j < k :: domain.lClock[j].nSkew != skew
      ensures k < |domain.lClock| ==> domain.lClock[k].nSkew == skew
      ensures k == |domain.lClock| ==> SharesOf(domain, k, dralSkew, share)
      ensures share.Some? ==> share.value < nextClockId
    {
      var iter, bInserted := 0, false;
      k, share := |domain.lClock|, None;
      ghost var from := 0;
      while iter < |domain.lClock| && !bInserted
        invariant iter <= |domain.lClock| && SharesOf(domain, iter, dralSkew, share)
        invariant share.Some? ==>
                    0 <= from < iter && domain.lClock[from].dralSkew == dralSkew && share.value == domain.lClock[from].clockId
        invariant share.Some? ==> share.value < nextClockId
        invariant if bInserted then iter == k + 1 && domain.lClock[k].nSkew == skew else k == |domain.lClock|
        invariant forall j | 0 <= j < iter && j != k :: domain.lClock[j].nSkew != skew
      {
        if domain.lClock[iter].nSkew == skew {
          k, bInserted := iter, true;
        }
        if domain.lClock[iter].dralSkew == dralSkew {
          share, from := Some(domain.lClock[iter].clockId), iter;
        }
        iter := iter + 1;
      }
    }

    /** The clock number shared by those of the first `n` registries that have the dral skew, if there are any. */
    ghost predicate SharesOf(domain: ClockDomain, n: nat, dralSkew: nat, share: Option<nat>)
      requires n <= |domain.lClock|
      reads domain
    {
      forall j | 0 <= j < n :: domain.lClock[j].dralSkew == dralSkew <==> share == Some(domain.lClock[j].clockId)
    }

    method AddRegistry(domain: ClockDomain, skew: nat, dralSkew: nat, share: Option<nat>, cb: Callback)
      returns (home: ClockRegistry)
      requires Wired() && domain in lDomain && skew < 100
      requires forall j | 0 <= j < |domain.lClock| :: domain.lClock[j].nSkew != skew
      requires SharesOf(domain, |domain.lClock|, dralSkew, share) && (share.Some? ==> share.value < nextClockId)
      modifies this`registries, this`nextId, this`nextClockId, domain`lClock
      ensures Wired()
      ensures fresh(home) && registries == old(registries) + {home}
      ensures home.clockDomain == domain && home.nSkew == skew && home.lModules == [cb] && home.lWriterRM == []
      ensures home.nCycle == 0 && home.dralSkew == dralSkew && domain.lClock == old(domain.lClock) + [home]
    {
      hide Numbered, AllPositive, ListWired;
      var clockId := if share.Some? then share.value else nextClockId;
      home := new ClockRegistry(nextId, domain, skew, dralSkew, clockId);
      home.lModules := [cb];
      assert DomainWired(domain);
      BelowLimit(domain.lClock, domain, registries, nextClockId);
      hide Wired, DomainWired;
      Join(domain, home, if share.Some? then nextClockId else nextClockId + 1);
    }

    /** Adds a new registry to its domain. */
    method Join(domain: ClockDomain, home: ClockRegistry, limit: nat)
      requires Wired() && domain in lDomain && home !in registries && home.id == nextId && nextClockId <= limit
      requires home.clockDomain == domain && home.nFrequency == domain.currentFrequency && home.nSkew < 100 && home.clockId < limit
      requires forall i | 0 <= i < |domain.lClock| :: domain.lClock[i].nSkew != home.nSkew
                 && (domain.lClock[i].dralSkew == home.dralSkew <==> domain.lClock[i].clockId == home.clockId)
      modifies this`registries, this`nextId, this`nextClockId, domain`lClock
      ensures Wired() && registries == old(registries) + {home} && domain.lClock == old(domain.lClock) + [home]
    {
      hide Numbered, AllPositive, ListWired;
      ghost var before, l := registries, domain.lClock;
      ListMonotone(l, domain, before, nextClockId, before, limit) by {
        assert DomainWired(domain);
      }
      ListExtend(l, domain, before, limit, home, before + {home}, limit);
      forall i | 0 <= i < |lDomain| && lDomain[i] != domain
        ensures ListWired(lDomain[i].lClock, lDomain[i], before + {home}, limit) && home !in lDomain[i].lClock
      {
        assert DomainWired(lDomain[i]);
        ListKnown(lDomain[i].lClock, lDomain[i], before, nextClockId);
        ListMonotone(lDomain[i].lClock, lDomain[i], before, nextClockId, before + {home}, limit);
      }
      NumberedExtend(before, home);
      nextId, nextClockId := nextId + 1, limit;
      domain.lClock := domain.lClock + [home];
      registries := registries + {home};
      forall i | 0 <= i < |lDomain| ensures DomainWired(lDomain[i]) {
        assert old(DomainWired(lDomain[i]));
      }
    }

    lemma BelowLimit(l: seq<ClockRegistry>, d: ClockDomain, all: set<ClockRegistry>, limit: nat)
      requires ListWired(l, d, all, limit)
      ensures forall i | 0 <= i < |l| :: l[i].clockId < limit
    {
    }

    lemma NumberedExtend(s: set<ClockRegistry>, r: ClockRegistry)
      requires Numbered(s) && forall x | x in s :: x.id < r.id
      ensures Numbered(s + {r})
    {
    }

    /** Attaches the writing end of a rate matcher to the registry of the given domain and skew. */
    method RegisterWriterRateMatcherClock(wrm: Callback, domain: ClockDomain, skew: nat) returns (home: ClockRegistry?)
      requires DomainWired(domain)
      modifies registries`lWriterRM
      ensures home == null ==> forall j | 0 <= j < |domain.lClock| :: domain.lClock[j].nSkew != skew
      ensures home != null ==>
                home in domain.lClock && home.nSkew == skew && home.lWriterRM == old(home.lWriterRM) + [wrm]
      ensures forall r | r in registries && r != home :: r.lWriterRM == old(r.lWriterRM)
    {
      home := null;
      var iter := 0;
      while iter < |domain.lClock| && home == null
        invariant iter <= |domain.lClock|
        invariant home == null ==> forall j | 0 <= j < iter :: domain.lClock[j].nSkew != skew
        invariant home != null ==>
                    home in domain.lClock && home.nSkew == skew && home.lWriterRM == old(home.lWriterRM) + [wrm]
        invariant forall r | r in registries && r != home :: r.lWriterRM == old(r.lWriterRM)
        decreases |domain.lClock| - iter
      {
        if domain.lClock[iter].nSkew == skew {
          home := domain.lClock[iter];
          home.lWriterRM := home.lWriterRM + [wrm];
        }
        iter := iter + 1;
      }
    }

    /** Attaches every writer to the registry of its readers; readers that are not all in one domain with one skew are
        refused. */
    method ConnectRateMatchers(writers: seq<Writer>) returns (ok: bool)
      requires Wired() && forall i, j | 0 <= i < |writers| && 0 <= j < |writers[i].readers| :: writers[i].readers[j] in registries
      modifies registries`lWriterRM
      ensures Wired()
      ensures ok == forall i | 0 <= i < |writers| :: ReadersAgree(writers[i])
      ensures ok ==> forall r | r in registries :: r.lWriterRM == old(r.lWriterRM) + Attached(writers, r)
    {
      hide Wired, DomainWired, Numbered, ReadersAgree, Attached;
      var k := 0;
      NoneAttached(writers);
      while k < |writers|
        invariant k <= |writers| && forall i | 0 <= i < k :: ReadersAgree(writers[i])
        invariant Wired()
        invariant forall r | r in registries :: r.lWriterRM == old(r.lWriterRM) + Attached(writers[..k], r)
      {
        ok := CheckReaders(writers[k]);
        if !ok {
          return;
        }
        AttachedStep(writers, k);
        Attach(writers[k]);
        k := k + 1;
      }
      assert writers[..k] == writers;
      ok := true;
    }

    lemma NoneAttached(writers: seq<Writer>)
      ensures forall r: ClockRegistry :: Attached(writers[..0], r) == []
    {
    }

    lemma AttachedStep(writers: seq<Writer>, k: nat)
      requires k < |writers| && ReadersAgree(writers[k])
      ensures forall r: ClockRegistry :: Attached(writers[..k + 1], r) == Attached(writers[..k], r) + AttachedBy(writers[k], r)
    {
      assert writers[..k + 1][..k] == writers[..k];
    }

    /** Attaches one writer whose readers agree: the registry found by domain and skew is the readers' own. */
    method Attach(w: Writer)
      requires Wired() && ReadersAgree(w) && w.readers[0] in registries
      modifies registries`lWriterRM
      ensures Wired()
      ensures forall r | r in registries :: r.lWriterRM == old(r.lWriterRM) + AttachedBy(w, r)
    {
      hide Numbered;
      var first := w.readers[0];
      assert DomainWired(first.clockDomain);
      SkewUnique(first.clockDomain.lClock, first, first.clockDomain, registries, nextClockId);
      hide Wired, DomainWired;
      var home := RegisterWriterRateMatcherClock(w.cb, first.clockDomain, first.nSkew);
    }

    lemma SkewUnique(l: seq<ClockRegistry>, r: ClockRegistry, d: ClockDomain, all: set<ClockRegistry>, limit: nat)
      requires ListWired(l, d, all, limit) && r in l
      ensures forall x | x in l && x.nSkew == r.nSkew :: x == r
    {
    }

    method CheckReaders(w: Writer) returns (ok: bool)
      ensures ok == ReadersAgree(w) && (ok ==> w.readers != [])
    {
      ok := |w.readers| > 0;
      var r := 1;
      while r < |w.readers| && ok
        invariant ok == (|w.readers| > 0 && forall j | 1 <= j < r && j < |w.readers| :: SameClock(w.readers[0], w.readers[j]))
      {
        ok := w.readers[0].clockDomain.name == w.readers[r].clockDomain.name && w.readers[0].nSkew == w.readers[r].nSkew;
        r := r + 1;
      }
    }

    /** Initialises the server: connects the rate matchers, computes the base frequency and every registry's step and
        first time, and builds the event list in registration order. It stops when the readers of a writer disagree,
        when there is no registry in the first domain, or when it detects an overflow of the base frequency. The schedule
        is the intended one if and only if the base frequency and everything that is computed from it for the registries
        fits into 64 bits. What was there before stays: a writer stands exactly once in the registries if and only if it
        stood in none before, and all registries are at cycle zero if and only if they were before. */
    method InitClockServer(writers: seq<Writer>) returns (ok: bool)
      requires Wired() && forall i, j | 0 <= i < |writers| && 0 <= j < |writers[i].readers| :: writers[i].readers[j] in registries
      modifies this`Bf, this`internalBaseCycle, this`lTimeEvents
      modifies registries`lWriterRM, registries`nStep, registries`nBaseCycle
      ensures ok == ((forall i | 0 <= i < |writers| :: ReadersAgree(writers[i])) && CanStart())
      ensures ok ==> forall r | r in registries :: r.lWriterRM == old(r.lWriterRM) + Attached(writers, r)
      ensures ok ==> (Started() <==> FrequencyFits() && TimesFit())
      ensures ok ==> Running()
      ensures ok ==> forall k | 0 <= k < |writers| && OwnCallback(writers, k) ::
                StandsOnce(writers[k].cb, WriterLists()) <==> StandsNowhere(writers[k].cb, old(WriterLists()))
      ensures AtCycleZero() <==> old(AtCycleZero())
      ensures ok && FrequencyFits() ==> Bf > 0 && forall m: nat :: Divides(Bf, m) <==> OfferedDivide(lDomain, m)
      ensures Wired() && (ok ==> LcmAll64(1, AllFrequencies(lDomain)) == Some(Bf))
    {
      hide Wired, ReadersAgree, Attached, CanStart, FrequencyFits, TimesFit, Running, Started, StandsOnce, StandsNowhere,
        OwnCallback, LcmAll64, AllFrequencies;
      ghost var before := WriterLists();
      ok := ConnectRateMatchers(writers);
      ghost var after := WriterLists();
      if ok {
        forall k | 0 <= k < |writers| && OwnCallback(writers, k)
          ensures StandsOnce(writers[k].cb, after) <==> StandsNowhere(writers[k].cb, before)
        {
          HasReader(writers[k]);
          StandsOnceIff(writers, k, before, after);
        }
        ok := StartSchedule();
      }
      if ok && FrequencyFits() {
        LeastBase();
      }
    }

    /** A base frequency that fits is the least common multiple of the frequencies of all domains. */
    lemma LeastBase()
      requires FrequencyFits() && LcmAll64(1, AllFrequencies(lDomain)) == Some(Bf)
      ensures Bf > 0 && forall m: nat :: Divides(Bf, m) <==> OfferedDivide(lDomain, m)
    {
      var fs := AllFrequencies(lDomain);
      hide AllFrequencies, AllDivide, Divides, OfferedDivide, LcmAll64;
      BaseFrequencyExactIff(1, fs);
      forall m: nat ensures Divides(Bf, m) <==> OfferedDivide(lDomain, m) {
        LcmAllIsLeast(1, fs, m);
        OneDivides(m);
        OfferedDivideIff(lDomain, m);
      }
    }

    /** It fits if and only if some number of 64 bits is a common multiple of all frequencies. */
    lemma FrequencyFitsIff()
      requires Wired()
      ensures FrequencyFits() <==> exists m: nat :: 0 < m <= UINT64_MAX && OfferedDivide(lDomain, m)
    {
      var fs := AllFrequencies(lDomain);
      PositiveFrequencies();
      hide AllFrequencies, AllDivide, Divides, OfferedDivide, AllPositive, Numbered;
      var l := TrueLcmAll(1, fs);
      LcmAllGrows(1, fs);
      OfferedDivideIff(lDomain, l);
      if m: nat :| 0 < m <= UINT64_MAX && OfferedDivide(lDomain, m) {
        OfferedDivideIff(lDomain, m);
        OneDivides(m);
        LcmAllIsLeast(1, fs, m);
        DividesBound(l, m);
      }
    }

    /** The initial event list is sorted, and events with equal times stand in the order of registration. */
    lemma RegistrationOrder(p: nat, q: nat)
      requires Wired() && Running() && Started() && p < q < |lTimeEvents|
      ensures lTimeEvents[p].nBaseCycle <= lTimeEvents[q].nBaseCycle
      ensures lTimeEvents[p].nBaseCycle == lTimeEvents[q].nBaseCycle ==>
                RegisteredBefore(Lists(lDomain), lTimeEvents[p], lTimeEvents[q])
    {
      hide ViewOf, AllFrequencies, TrueLcmAll, InsertAll, Flatten, Lists, StepOf, StartOf, Tuned, Nominal, RegisteredBefore;
      var all := Flatten(Lists(lDomain));
      var v := ViewOf(all);
      if lTimeEvents[p].nBaseCycle == lTimeEvents[q].nBaseCycle {
        var i, j := AddedInOrder(v, p, q);
        FlattenOrder(Lists(lDomain), i, j);
        ListedRegistry(i);
        ListedRegistry(j);
        SameRegistry(all, i, p);
        SameRegistry(all, j, q);
      }
    }

    lemma ListedRegistry(i: nat)
      requires Wired() && i < |Flatten(Lists(lDomain))|
      ensures Flatten(Lists(lDomain))[i] in registries
    {
      hide Wired;
      WiredLists();
      var a, b := PlaceOf(Lists(lDomain), i);
      assert Lists(lDomain)[a][b] in Lists(lDomain)[a];
    }

    /** Registries are known by their numbers. */
    lemma SameRegistry(all: seq<ClockRegistry>, i: nat, p: nat)
      requires Running() && i < |all| && p < |lTimeEvents| && all[i].Value() == lTimeEvents[p].Value()
      requires all[i] in registries
      ensures all[i] == lTimeEvents[p]
    {
      hide ViewOf, Tuned, Sorted;
      MembersOf(lTimeEvents, registries);
      assert all[i] in registries && lTimeEvents[p] in registries;
    }

    /** The rate matchers of every registry. */
    ghost function WriterLists(): map<ClockRegistry, seq<Callback>>
      reads this`registries, registries`lWriterRM
    {
      map r | r in registries :: r.lWriterRM
    }

    ghost predicate AtCycleZero()
      reads this`registries, registries`nCycle
    {
      forall r | r in registries :: r.nCycle == 0
    }

    /** Whether initialisation gets past its checks: there is a registry in the first domain, and the computation of the
        base frequency does not report an overflow. */
    ghost predicate CanStart()
      reads this`lDomain, lDomain
    {
      |lDomain| > 0 && |lDomain[0].lClock| > 0 && LcmAll64(1, AllFrequencies(lDomain)).Some?
    }

    /** Whether the base frequency fits into 64 bits. */
    ghost predicate FrequencyFits()
      reads this`lDomain
    {
      var fs := AllFrequencies(lDomain);
      AllPositive(fs) && TrueLcmAll(1, fs) <= UINT64_MAX
    }

    /** Whether the steps and the first times of all registries can be computed in 64 bits. */
    ghost predicate TimesFit()
      reads this`Bf, this`registries, registries`nFrequency
    {
      forall r | r in registries :: r.nFrequency > 0 && StepFits(Bf, r.nFrequency) && StartFits(Bf, r.nSkew)
    }

    /** The intended schedule: the base frequency is the least common multiple of all frequencies, every registry has the
        step and the first time of its frequency and skew, in its first period, and the event list is built in
        registration order. */
    ghost predicate Started()
      reads this, lDomain, lTimeEvents, registries, Flatten(Lists(lDomain))
    {
      && AllPositive(AllFrequencies(lDomain)) && Bf == TrueLcmAll(1, AllFrequencies(lDomain))
      && internalBaseCycle == 0
      && (forall r | r in registries :: Nominal(r))
      && ViewOf(lTimeEvents) == InsertAll(ViewOf(Flatten(Lists(lDomain))))
    }

    /** The step and the first time of a registry as they should be. */
    ghost predicate Nominal(r: ClockRegistry)
      reads this`Bf, r
    {
      && r.nFrequency > 0 && r.nStep == StepOf(Bf, r.nFrequency)
      && r.nBaseCycle == StartOf(Bf, r.nSkew, r.nFrequency) < r.nStep
    }

    /** A freshly initialised server with a single domain satisfies what the specialised clock needs: one step, and
        strictly increasing times within one period. */
    lemma OneDomainStarts()
      requires Wired() && Running() && Started() && |lDomain| == 1
      ensures exists step :: OneDomain(ViewOf(lTimeEvents), step)
    {
      hide ViewOf, AllFrequencies, TrueLcmAll, InsertAll, Flatten, Lists, Sorted, Numbered, StepOf, StartOf;
      var d, q := lDomain[0], ViewOf(lTimeEvents);
      assert DomainWired(d) && DomainTuned(d);
      MembersOf(lTimeEvents, registries);
      OnceEach([], lTimeEvents, registries);
      var step := StepOf(Bf, d.currentFrequency);
      forall i | 0 <= i < |q| ensures StartsBy(q[i], lTimeEvents[i], step) {
        assert lTimeEvents[i] in registries && lTimeEvents[i].clockDomain == d && Nominal(lTimeEvents[i]);
        FrequencyInBase(lTimeEvents[i]);
        ExactSteps(Bf, lTimeEvents[i].nSkew, d.currentFrequency);
      }
      forall i, j | 0 <= i < j < |q| ensures lTimeEvents[i].nSkew != lTimeEvents[j].nSkew {
        SkewUnique(d.lClock, lTimeEvents[j], d, registries, nextClockId);
      }
      StartsIncrease(q, lTimeEvents, step);
    }

    ghost predicate StartsBy(v: Reg, r: ClockRegistry, step: nat) {
      v.step == step >= 100 && v.base == r.nSkew * (step / 100) < step
    }

    lemma StartsIncrease(q: seq<Reg>, l: seq<ClockRegistry>, step: nat)
      requires |q| == |l| > 0 && Sorted(q)
      requires forall i | 0 <= i < |q| :: StartsBy(q[i], l[i], step)
      requires forall i, j | 0 <= i < j < |q| :: l[i].nSkew != l[j].nSkew
      ensures OneDomain(q, step)
    {
      forall i, j | 0 <= i < j < |q| ensures q[i].base < q[j].base < q[0].base + step {
        assert StartsBy(q[j], l[j], step) && StartsBy(q[i], l[i], step);
        SkewsApart(l[i].nSkew, l[j].nSkew, step / 100);
      }
      assert StartsBy(q[0], l[0], step);
      forall i | 0 <= i < |q| ensures q[i].step == step {
        assert StartsBy(q[i], l[i], step);
      }
    }

    lemma SkewsApart(a: nat, b: nat, n: nat)
      requires a != b && n > 0
      ensures a * n != b * n
    {
    }

    /** Checks that the lookahead of the threaded server is shorter than every period. It looks at the first registry of
        each domain only; the answer holds for every registry in the event list. */
    method InitClockServerThreaded(lookahead: nat) returns (ok: bool)
      requires Wired() && Running() && Started() && forall i | 0 <= i < |lDomain| :: |lDomain[i].lClock| > 0
      ensures ok == StepsAbove(ViewOf(lTimeEvents), lookahead)
      ensures Live(ViewOf(lTimeEvents))
    {
      hide Wired, Running, Started, StepsAbove, ViewOf, Live;
      ok := true;
      var i := 0;
      while i < |lDomain| && ok
        invariant i <= |lDomain|
        invariant ok == forall k | 0 <= k < i :: lDomain[k].lClock[0].nStep > lookahead
      {
        ok := lookahead < lDomain[i].lClock[0].nStep;
        i := i + 1;
      }
      FrontStepsDecide(lookahead);
      LiveList();
    }

    lemma FrontStepsDecide(lookahead: nat)
      requires Wired() && Running() && Started() && forall i | 0 <= i < |lDomain| :: |lDomain[i].lClock| > 0
      ensures StepsAbove(ViewOf(lTimeEvents), lookahead) <==> forall i | 0 <= i < |lDomain| :: lDomain[i].lClock[0].nStep > lookahead
    {
      hide Wired, Started, ViewOf, Sorted, Numbered, Tuned;
      var q := ViewOf(lTimeEvents);
      MembersOf(lTimeEvents, registries);
      if StepsAbove(q, lookahead) {
        forall i | 0 <= i < |lDomain| ensures lDomain[i].lClock[0].nStep > lookahead {
          FrontRegistered(i);
          var k :| 0 <= k < |lTimeEvents| && lTimeEvents[k] == lDomain[i].lClock[0];
          assert q[k] in q;
        }
      }
      if forall i | 0 <= i < |lDomain| :: lDomain[i].lClock[0].nStep > lookahead {
        forall r | r in q ensures r.step > lookahead {
          var k :| 0 <= k < |q| && q[k] == r;
          var i := DomainStep(lTimeEvents[k]);
        }
      }
    }

    lemma FrontRegistered(i: nat)
      requires Wired() && i < |lDomain| && |lDomain[i].lClock| > 0
      ensures lDomain[i].lClock[0] in registries
    {
      assert DomainWired(lDomain[i]);
    }

    lemma DomainStep(r: ClockRegistry) returns (i: nat)
      requires Wired() && Started() && r in registries && forall i | 0 <= i < |lDomain| :: |lDomain[i].lClock| > 0
      ensures i < |lDomain| && r.nStep == lDomain[i].lClock[0].nStep
    {
      hide ViewOf, AllFrequencies, TrueLcmAll, InsertAll, Flatten, Lists, Numbered, StepOf, StartOf;
      var d := r.clockDomain;
      assert d in lDomain && r in d.lClock;
      i :| 0 <= i < |lDomain| && lDomain[i] == d;
      assert DomainWired(lDomain[i]);
      assert d.lClock[0] in registries && d.lClock[0] in d.lClock;
      assert Nominal(r) && Nominal(d.lClock[0]);
    }

    /** A running server's event list. */
    lemma ListInOrder()
      requires Running()
      ensures |ViewOf(lTimeEvents)| > 0 && Sorted(ViewOf(lTimeEvents)) && DistinctIds(ViewOf(lTimeEvents))
      ensures AllIn(lTimeEvents, registries)
    {
      hide ViewOf, Sorted, Tuned;
      MembersOf(lTimeEvents, registries);
      OnceEach([], lTimeEvents, registries);
      var q := ViewOf(lTimeEvents);
      forall i, j | 0 <= i < j < |q| ensures q[i].id != q[j].id {
        assert lTimeEvents[i] in registries && lTimeEvents[j] in registries;
      }
    }

    lemma NominalSteps()
      requires Started()
      ensures forall r | r in registries :: r.nStep > 0
    {
      hide ViewOf, AllFrequencies, TrueLcmAll, InsertAll, Flatten, Lists, StepOf, StartOf;
      forall r | r in registries ensures r.nStep > 0 {
        assert Nominal(r);
      }
    }

    /** After the intended start the event list is a live schedule: the threaded variants can start from it. */
    lemma LiveList()
      requires Running() && Started()
      ensures Live(ViewOf(lTimeEvents))
    {
      hide Running, Started, ViewOf, Sorted, DistinctIds, StepsAbove;
      ListInOrder();
      NominalSteps();
      ViewSteps(lTimeEvents);
    }

    /** After initialisation every registry is in its first period: the closed form of the schedule applies. */
    lemma FreshList()
      requires Running() && Started()
      ensures Fresh(ViewOf(lTimeEvents))
    {
      LiveList();
      hide ViewOf, Sorted, AllFrequencies, TrueLcmAll, InsertAll, Flatten, Lists, Numbered, StepOf, StartOf, Tuned, Live;
      MembersOf(lTimeEvents, registries);
      var q := ViewOf(lTimeEvents);
      forall r | r in q ensures r.base < r.step {
        var i :| 0 <= i < |q| && q[i] == r;
        assert lTimeEvents[i] in registries;
      }
    }

    /** Computes the base frequency and builds the event list. */
    method StartSchedule() returns (ok: bool)
      requires Wired()
      modifies this`Bf, this`internalBaseCycle, this`lTimeEvents, registries`nStep, registries`nBaseCycle
      ensures ok == CanStart()
      ensures ok ==> (Started() <==> FrequencyFits() && TimesFit())
      ensures ok ==> Running()
      ensures Wired() && (ok ==> LcmAll64(1, AllFrequencies(lDomain)) == Some(Bf))
    {
      hide Wired, Running, Started, FrequencyFits, TimesFit, AllFrequencies, LcmAll64, ViewOf, Flatten, Lists, InsertAll, Scheduled;
      lTimeEvents := [];
      if |lDomain| == 0 || |lDomain[0].lClock| == 0 {
        return false;
      }
      var b := BaseFrequency();
      if b.None? {
        return false;
      }
      ok := true;
      ScheduleWith(b.value);
    }

    method ScheduleWith(b: nat)
      requires Wired() && CanStart() && LcmAll64(1, AllFrequencies(lDomain)) == Some(b) && lTimeEvents == []
      modifies this`Bf, this`internalBaseCycle, this`lTimeEvents, registries`nStep, registries`nBaseCycle
      ensures Started() <==> FrequencyFits() && TimesFit()
      ensures Running() && Wired() && Bf == b
    {
      hide *;
      Bf, internalBaseCycle := b, 0;
      ScheduleAll();
      StartedIff();
      ReadyToRun();
    }

    /** What initialisation computes is the intended schedule if and only if it fits into 64 bits. */
    lemma StartedIff()
      requires Wired() && LcmAll64(1, AllFrequencies(lDomain)) == Some(Bf) && internalBaseCycle == 0
      requires ViewOf(lTimeEvents) == InsertAll(ViewOf(Flatten(Lists(lDomain))))
      requires forall r | r in registries :: Scheduled(r)
      ensures Started() <==> FrequencyFits() && TimesFit()
    {
      hide AllFrequencies, TrueLcmAll, LcmAll64, ViewOf, Numbered, InsertAll, Flatten, Lists, Nominal, Scheduled, StepFits, StartFits, DomainWired;
      var fs := AllFrequencies(lDomain);
      PositiveFrequencies();
      LcmAll64Bounded(1, fs);
      BaseFrequencyExactIff(1, fs);
      if Bf == TrueLcmAll(1, fs) {
        forall r | r in registries
          ensures Nominal(r) <==> r.nFrequency > 0 && StepFits(Bf, r.nFrequency) && StartFits(Bf, r.nSkew)
        {
          NominalIff(r);
        }
      }
    }

    lemma PositiveFrequencies()
      requires Wired()
      ensures AllPositive(AllFrequencies(lDomain))
    {
      hide ListWired, Numbered, AllPositive;
      forall i | 0 <= i < |lDomain| ensures AllPositive(lDomain[i].normalizedFrequencies) {
        assert DomainWired(lDomain[i]);
      }
      AllFrequenciesPositive(lDomain);
    }

    lemma NominalIff(r: ClockRegistry)
      requires Wired() && AllPositive(AllFrequencies(lDomain)) && Bf == TrueLcmAll(1, AllFrequencies(lDomain)) <= UINT64_MAX
      requires r in registries && Scheduled(r)
      ensures Nominal(r) <==> r.nFrequency > 0 && StepFits(Bf, r.nFrequency) && StartFits(Bf, r.nSkew)
    {
      hide AllFrequencies, TrueLcmAll, Numbered, StepOf, StartOf, Step64, Start64, StepFits, StartFits, AllPositive, AllDivide;
      FrequencyInBase(r);
      ExactSteps(Bf, r.nSkew, r.nFrequency);
      DividesBound(r.nFrequency, Bf);
      Times64ExactIff(Bf, r.nSkew, r.nFrequency);
    }

    lemma FrequencyInBase(r: ClockRegistry)
      requires Wired() && AllPositive(AllFrequencies(lDomain)) && Bf == TrueLcmAll(1, AllFrequencies(lDomain))
      requires r in registries
      ensures Divides(r.nFrequency, Bf) && Bf > 0 && r.nSkew < 100
    {
      hide AllFrequencies, TrueLcmAll, Numbered, AllPositive, AllDivide, Divides;
      LcmAllGrows(1, AllFrequencies(lDomain));
      FrequenciesDivide(lDomain, Bf);
      assert DomainWired(r.clockDomain);
      FrequencyDivides(r.clockDomain.normalizedFrequencies, r.clockDomain.currentFrequency, Bf);
    }

    /** The state after an initialisation, whether or not the schedule is the intended one. */
    lemma ReadyToRun()
      requires Wired() && CanStart() && multiset(lTimeEvents) == multiset(registries) && internalBaseCycle == 0
      requires ViewOf(lTimeEvents) == InsertAll(ViewOf(Flatten(Lists(lDomain)))) && forall r | r in registries :: Scheduled(r)
      ensures Running()
    {
      hide AllFrequencies, LcmAll64, Sorted, ViewOf, Numbered, Step64, Start64, InsertAll, Flatten, Lists, ListWired, AllPositive;
      InsertAllSorted(ViewOf(Flatten(Lists(lDomain))));
      forall i | 0 <= i < |lDomain| ensures DomainTuned(lDomain[i]) {
        assert DomainWired(lDomain[i]);
        ListDomain(lDomain[i].lClock, lDomain[i], registries, nextClockId);
      }
      forall r | r in registries ensures InTune(r) {
        assert DomainWired(r.clockDomain) && Scheduled(r);
      }
      assert DomainWired(lDomain[0]);
      ListDomain(lDomain[0].lClock, lDomain[0], registries, nextClockId);
      NotEmpty(lTimeEvents, registries, lDomain[0].lClock[0]);
    }

    /** With 32-bit frequencies and a base frequency that fits, time goes forward whatever the callbacks ask for, even if
        some steps do not fit. */
    lemma AlwaysAdvances(env: Environment)
      requires Wired() && Tuned() && FrequencyFits() && LcmAll64(1, AllFrequencies(lDomain)) == Some(Bf)
      requires forall i | 0 <= i < |AllFrequencies(lDomain)| :: AllFrequencies(lDomain)[i] <= UINT32_MAX
      ensures ThisPlan(env).Advances()
    {
      hide AllFrequencies, TrueLcmAll, LcmAll64, Numbered, AllPositive, AllDivide, Divides, Plan.StepAt, InTune, ListWired;
      BaseFrequencyExactIff(1, AllFrequencies(lDomain));
      LcmAllGrows(1, AllFrequencies(lDomain));
      NarrowBase(AllFrequencies(lDomain));
      FrequenciesDivide(lDomain, Bf);
      var p := ThisPlan(env);
      forall i | 0 <= i < |lDomain| ensures p.rates[i] in lDomain[i].normalizedFrequencies {
        assert DomainTuned(lDomain[i]);
      }
      forall i, n: nat | 0 <= i < |lDomain| ensures p.StepAt(lDomain[i], n) > 0 {
        assert DomainTuned(lDomain[i]);
        StepsPositive(p, lDomain[i], n);
      }
    }

    /** The least common multiple of all frequencies of all domains. */
    method BaseFrequency() returns (b: Option<nat>)
      ensures b == LcmAll64(1, AllFrequencies(lDomain))
    {
      hide Lcm64;
      var bf: nat, i := 1, 0;
      assert lDomain[0..] == lDomain;
      while i < |lDomain|
        invariant i <= |lDomain|
        invariant LcmAll64(bf, AllFrequencies(lDomain[i..])) == LcmAll64(1, AllFrequencies(lDomain))
      {
        var fs, k := lDomain[i].normalizedFrequencies, 0;
        ghost var later := AllFrequencies(lDomain[i + 1..]);
        assert lDomain[i..][1..] == lDomain[i + 1..] && fs[0..] == fs;
        while k < |fs|
          invariant k <= |fs|
          invariant LcmAll64(bf, fs[k..] + later) == LcmAll64(1, AllFrequencies(lDomain))
        {
          assert fs[k..] + later == [fs[k]] + (fs[k + 1..] + later);
          if bf == 0 || fs[k] == 0 {
            return None;
          }
          var l := Lcm(bf, fs[k]);
          if l.None? {
            return None;
          }
          bf, k := l.value, k + 1;
        }
        assert fs[k..] + later == later;
        i := i + 1;
      }
      b := Some(bf);
    }

    /** The overflow test and the product, as the server computes them. */
    method Lcm(a: nat, b: nat) returns (l: Option<nat>)
      requires a > 0 && b > 0
      ensures l == Lcm64(a, b)
    {
      Gcd2Divisors(a, b, 1);
      Gcd2DividesBoth(a, b);
      var g := GcdLoop(a, b);
      PositiveQuotient(a, g);
      var p, q := a / g, b / g;
      l := if q > UINT64_MAX / p then None else Some(p * q * g % (UINT64_MAX + 1));
    }

    /** Computes the steps and the first times, and adds every registry to the event list. */
    method ScheduleAll()
      requires Wired() && lTimeEvents == []
      modifies this`lTimeEvents, registries`nStep, registries`nBaseCycle
      ensures multiset(lTimeEvents) == multiset(registries)
      ensures ViewOf(lTimeEvents) == InsertAll(ViewOf(Flatten(Lists(lDomain))))
      ensures forall r | r in registries :: Scheduled(r)
    {
      hide ViewOf, Wired, DomainWired, Flatten, Scheduled, Listed, Lists, InsertAll, Insert, Disjoint, NoDup, Apart;
      ghost var ls := Lists(lDomain);
      DomainLists(lDomain);
      WiredLists();
      NothingListed(ls);
      var i := 0;
      while i < |lDomain|
        invariant i <= |lDomain| && Wired() && ls == Lists(lDomain)
        invariant Listed(Flatten(ls[..i]))
      {
        FlattenStep(ls, i);
        ScheduleDomain(lDomain[i], Flatten(ls[..i]));
        i := i + 1;
      }
      assert ls[..i] == ls;
      FlattenAll(ls, registries);
      AllListed(Flatten(ls));
    }

    /** The lists of the domains share no registry and hold all of them, and every registry has a positive frequency. */
    lemma WiredLists()
      requires Wired()
      ensures var ls := Lists(lDomain);
              && Disjoint(ls)
              && (forall i, r | 0 <= i < |ls| && r in ls[i] :: r in registries && r.nFrequency > 0)
              && (forall r | r in registries :: exists i :: 0 <= i < |ls| && r in ls[i])
    {
      hide Numbered;
      var ls := Lists(lDomain);
      forall i | 0 <= i < |ls| ensures NoDup(ls[i]) && forall r | r in ls[i] :: r in registries && r.nFrequency > 0 {
        assert DomainWired(lDomain[i]);
      }
      forall i, j | 0 <= i < j < |ls| ensures Apart(ls[i], ls[j]) {
        assert DomainWired(lDomain[i]) && DomainWired(lDomain[j]);
        assert lDomain[i].name != lDomain[j].name;
      }
      forall r | r in registries ensures exists i :: 0 <= i < |ls| && r in ls[i] {
        var i :| 0 <= i < |lDomain| && lDomain[i] == r.clockDomain;
        assert r in ls[i];
      }
    }

    /** The step and the first time of a registry, as they are computed in 64 bits. */
    ghost predicate Scheduled(r: ClockRegistry)
      reads this`Bf, r
    {
      && r.nFrequency > 0
      && r.nStep == Step64(Bf, r.nFrequency)
      && r.nBaseCycle == Start64(Bf, r.nSkew, r.nFrequency)
    }

    ghost predicate AllScheduled(l: seq<ClockRegistry>)
      reads this`Bf, l
    {
      forall j | 0 <= j < |l| :: Scheduled(l[j])
    }

    lemma NothingListed(ls: seq<seq<ClockRegistry>>)
      requires lTimeEvents == []
      ensures Listed(Flatten(ls[..0]))
    {
    }

    lemma ScheduledAppend(l: seq<ClockRegistry>, r: ClockRegistry)
      requires AllScheduled(l) && Scheduled(r)
      ensures AllScheduled(l + [r])
    {
    }

    lemma AllListed(order: seq<ClockRegistry>)
      requires Listed(order)
      ensures multiset(lTimeEvents) == multiset(order) && ViewOf(lTimeEvents) == InsertAll(ViewOf(order))
      ensures forall r | r in order :: Scheduled(r)
    {
    }

    /** The inner loop, for one domain; `order` is what has been added before. */
    method ScheduleDomain(d: ClockDomain, ghost order: seq<ClockRegistry>)
      requires NoDup(d.lClock) && Apart(order, d.lClock) && Listed(order)
      requires forall r | r in d.lClock :: r in registries && r.nFrequency > 0
      modifies this`lTimeEvents, d.lClock`nStep, d.lClock`nBaseCycle
      ensures Listed(order + d.lClock)
    {
      hide ViewOf, Insert, Scheduled, InsertAll, NoDup, Apart, Listed;
      var k := 0;
      ghost var done := order;
      assert order + d.lClock[..0] == order;
      while k < |d.lClock|
        invariant k <= |d.lClock| && done == order + d.lClock[..k]
        invariant Listed(done)
      {
        NextIsNew(order, d.lClock, k);
        ScheduleOne(d.lClock[k], done);
        done := done + [d.lClock[k]];
        k := k + 1;
      }
      assert d.lClock[..k] == d.lClock;
    }

    method ScheduleOne(r: ClockRegistry, ghost order: seq<ClockRegistry>)
      requires r.nFrequency > 0 && r !in order && Listed(order)
      modifies this`lTimeEvents, r`nStep, r`nBaseCycle
      ensures Listed(order + [r])
    {
      hide ViewOf, Insert, InsertAll, Scheduled, AllScheduled;
      SameMembers(lTimeEvents, order);
      SetTimes(r);
      Readd(r);
      InsertAllAppend(order, r);
      ScheduledAppend(order, r);
    }

    method SetTimes(r: ClockRegistry)
      requires r.nFrequency > 0
      modifies r`nStep, r`nBaseCycle
      ensures Scheduled(r)
    {
      r.nStep := Bf / r.nFrequency * 100 % (UINT64_MAX + 1);
      r.nBaseCycle := r.nSkew * Bf % (UINT64_MAX + 1) / r.nFrequency;
    }

    /** The event list holds the scheduled registries `order`, added one by one. */
    ghost predicate Listed(order: seq<ClockRegistry>)
      reads this`Bf, this`lTimeEvents, lTimeEvents, order
    {
      && multiset(lTimeEvents) == multiset(order) && ViewOf(lTimeEvents) == InsertAll(ViewOf(order))
      && AllScheduled(order)
    }

    lemma EmptyWired(d: ClockDomain)
      requires AllPositive(d.normalizedFrequencies) && d.currentFrequency in d.normalizedFrequencies && d.lClock == []
      ensures DomainWired(d)
    {
    }

    /** Every domain runs at one of its frequencies, and every registry has the step of its domain's frequency, as it is
        computed in 64 bits. */
    ghost predicate Tuned()
      reads this`Bf, this`lDomain, this`registries, lDomain, registries`nFrequency, registries`nStep
    {
      && (forall i | 0 <= i < |lDomain| :: DomainTuned(lDomain[i]))
      && (forall i, j | 0 <= i < j < |lDomain| :: lDomain[i] != lDomain[j])
      && (forall r | r in registries :: InTune(r))
    }

    ghost predicate DomainTuned(d: ClockDomain)
      reads this`registries, d
    {
      && AllPositive(d.normalizedFrequencies) && d.currentFrequency in d.normalizedFrequencies
      && (forall i | 0 <= i < |d.lClock| :: d.lClock[i] in registries && d.lClock[i].clockDomain == d)
    }

    ghost predicate InTune(r: ClockRegistry)
      reads this`Bf, this`lDomain, lDomain, r`nFrequency, r`nStep
    {
      && r.clockDomain in lDomain && r in r.clockDomain.lClock
      && r.nFrequency == r.clockDomain.currentFrequency > 0 && r.nStep == Step64(Bf, r.nFrequency)
    }

    /** The current frequencies of the domains. */
    ghost function Rates(): (rates: seq<nat>)
      reads this`lDomain, lDomain`currentFrequency
      ensures |rates| == |lDomain| && forall i | 0 <= i < |lDomain| :: rates[i] == lDomain[i].currentFrequency
    {
      RatesOf(lDomain)
    }

    /** The course of the frequencies from now on, if the callbacks make the requests `env`. */
    ghost function ThisPlan(env: Environment): Plan
      reads this`lDomain, this`Bf, this`trace, lDomain`currentFrequency
    {
      Plan(lDomain, Bf, env, |trace|, Rates())
    }

    /** The frequencies have developed as planned. */
    ghost predicate Follows(env: Environment, p: Plan)
      reads this`lDomain, this`Bf, this`trace, lDomain`currentFrequency
    {
      && p.domains == lDomain && p.base == Bf && p.env == env && p.count <= |trace| && |p.rates| == |lDomain|
      && Rates() == p.RatesAt(|trace|)
    }

    lemma PlanStarts(env: Environment)
      ensures Follows(env, ThisPlan(env))
    {
    }

    /** A registry's step is the one planned. */
    lemma StepNow(env: Environment, p: Plan, r: ClockRegistry)
      requires Tuned() && Follows(env, p) && r in registries
      ensures r.nStep == p.StepAt(r.clockDomain, |trace|)
    {
      hide DomainTuned, Plan.RatesAt, Step64;
      assert InTune(r);
      var i := DomainIndex(lDomain, r.clockDomain);
      assert Rates()[i] == r.clockDomain.currentFrequency;
    }

    /** Between two calls of a clock method: the event list holds every registry once, in the order of its time. */
    ghost predicate Running()
      reads this, lDomain, registries, lTimeEvents
    {
      && Tuned() && Numbered(registries)
      && |lTimeEvents| > 0 && multiset(lTimeEvents) == multiset(registries)
      && Sorted(ViewOf(lTimeEvents))
      && internalBaseCycle <= lTimeEvents[0].nBaseCycle / 100
    }

    /** One tick: clocks every registry at the earliest time, first all modules, then all rate matchers, and returns
        the number of base cycles that time went forward. Whatever frequency changes the callbacks ask for, the new list is
        the old one without the clocked registries, into which these are put back one after the other, each at the step of
        that moment. */
    method Clock(env: Environment) returns (inc: nat)
      requires Running()
      modifies this`lTimeEvents, this`trace, this`internalBaseCycle, lDomain`currentFrequency
      modifies registries`nFrequency, registries`nStep, registries`nCycle, registries`nBaseCycle
      ensures Running()
      ensures trace == old(trace) + TickCalls(old(ViewOf(lTimeEvents)))
      ensures Follows(env, old(ThisPlan(env)))
      ensures SameOutline(ViewOf(lTimeEvents),
                          NextList(old(ThisPlan(env)), old(ViewOf(lTimeEvents)), DomainsOf(old(lTimeEvents))))
      ensures Ticked(old(ViewOf(lTimeEvents)), ViewOf(lTimeEvents))
      ensures var t := old(lTimeEvents[0].nBaseCycle);
              && internalBaseCycle == t / 100 && inc == t / 100 - old(internalBaseCycle)
              && (forall r | r in registries :: r.nBaseCycle >= t
                    && r.nCycle == old(r.nCycle) + (if old(r.nBaseCycle) == t then 1 else 0)
                    && (old(r.nBaseCycle) != t ==> r.nBaseCycle == old(r.nBaseCycle)))
              && (old(ThisPlan(env)).Advances() ==> forall r | r in registries :: r.nBaseCycle > t)
      ensures Quiet(env) ==> ViewOf(lTimeEvents) == Tick(old(ViewOf(lTimeEvents)))
    {
      hide ViewOf, Tuned, Follows, Sorted, Numbered, TickCalls, Tick, NextList, SameOutline, Ticked, Quiet, DomainsOf, RatesOf, Plan.Advances;
      var currentBaseCycle := lTimeEvents[0].nBaseCycle;
      PlanStarts(env);
      TickAll(env, ThisPlan(env));
      inc := currentBaseCycle / 100 - internalBaseCycle;
      internalBaseCycle := currentBaseCycle / 100;
    }

    /** Any number of ticks, whatever frequency changes the callbacks make: the clocked times strictly increase, and
        the returned increments add up to the last clocked time in whole base cycles. `lists` are the event lists on the
        way: the trace is exactly their ticks, and ties are first-in first-out over the whole run. */
    method Simulate(n: nat, env: Environment) returns (times: seq<nat>, total: nat, ghost lists: seq<seq<Reg>>)
      requires Running()
      modifies this`lTimeEvents, this`trace, this`internalBaseCycle, lDomain`currentFrequency
      modifies registries`nFrequency, registries`nStep, registries`nCycle, registries`nBaseCycle
      ensures Running() && |times| == n && Increasing(times, old(ThisPlan(env)).Advances())
      ensures total == (if n == 0 then old(internalBaseCycle) else times[n - 1] / 100) - old(internalBaseCycle)
      ensures Course(lists) && |lists| == n + 1
      ensures lists[0] == old(ViewOf(lTimeEvents)) && lists[n] == ViewOf(lTimeEvents)
      ensures forall k | 0 <= k < n :: |lists[k]| > 0 && times[k] == lists[k][0].base
      ensures trace == old(trace) + CourseCalls(lists)
      ensures Fifo(ViewOf(lTimeEvents), lists, n)
    {
      hide Running, Increasing, ViewOf, Course, CourseCalls, Fifo, Recorded, Ticked, TickCalls, Sorted, DistinctIds;
      times, total := [], 0;
      lists := [ViewOf(lTimeEvents)];
      ghost var strict := ThisPlan(env).Advances();
      CourseStarts(strict);
      NothingIncreases(strict);
      while |times| < n
        invariant Running() && |times| <= n
        invariant Increasing(times, strict) && (strict ==> ThisPlan(env).Advances())
        invariant Recorded(lists, times, ViewOf(lTimeEvents), old(ViewOf(lTimeEvents)), old(trace), trace, strict)
        invariant internalBaseCycle == if times == [] then old(internalBaseCycle) else times[|times| - 1] / 100
        invariant total == internalBaseCycle - old(internalBaseCycle)
        decreases n - |times|
      {
        ghost var q, sofar := ViewOf(lTimeEvents), trace;
        var t, inc := ClockOnce(env);
        RecordedNext(lists, times, q, ViewOf(lTimeEvents), old(ViewOf(lTimeEvents)), old(trace), sofar, trace, t,
          strict);
        IncreasingAppend(times, t, strict);
        times := times + [t];
        lists := lists + [ViewOf(lTimeEvents)];
        total := total + inc;
      }
      RecordedAll(lists, times, ViewOf(lTimeEvents), old(ViewOf(lTimeEvents)), old(trace), trace, strict);
      TiesAreFifo(lists, n);
    }

    lemma CourseStarts(strict: bool)
      requires Running()
      ensures Recorded([ViewOf(lTimeEvents)], [], ViewOf(lTimeEvents), ViewOf(lTimeEvents), trace, trace, strict)
    {
      ListInOrder();
      hide Recorded, Sorted, DistinctIds, Tuned;
      RecordedStart(ViewOf(lTimeEvents), trace, strict);
    }

    /** One tick, with the time it clocks. */
    method ClockOnce(env: Environment) returns (t: nat, inc: nat)
      requires Running()
      modifies this`lTimeEvents, this`trace, this`internalBaseCycle, lDomain`currentFrequency
      modifies registries`nFrequency, registries`nStep, registries`nCycle, registries`nBaseCycle
      ensures Running() && |old(ViewOf(lTimeEvents))| > 0 && t == old(ViewOf(lTimeEvents))[0].base
      ensures internalBaseCycle == t / 100 && inc == internalBaseCycle - old(internalBaseCycle)
      ensures Ticked(old(ViewOf(lTimeEvents)), ViewOf(lTimeEvents)) && trace == old(trace) + TickCalls(old(ViewOf(lTimeEvents)))
      ensures |ViewOf(lTimeEvents)| > 0 && Reached(t, ViewOf(lTimeEvents)[0].base, old(ThisPlan(env)).Advances())
      ensures old(ThisPlan(env)).Advances() ==> ThisPlan(env).Advances()
      ensures Sorted(ViewOf(lTimeEvents)) && DistinctIds(ViewOf(lTimeEvents))
    {
      hide Tuned, Sorted, Numbered, ViewOf, Ticked, TickCalls, DistinctIds, Plan.Advances;
      ghost var p := ThisPlan(env);
      t := lTimeEvents[0].nBaseCycle;
      inc := Clock(env);
      MembersOf(lTimeEvents, registries);
      ListInOrder();
      StillAdvances(p, ThisPlan(env));
      assert lTimeEvents[0] in registries;
    }

    /** The specialised clock for a single domain: clocks every registry once, in list order, without touching the
        list. Whatever frequency changes the callbacks ask for, each registry goes on by its step of that moment. */
    method UniqueDomainClock(env: Environment) returns (inc: int)
      requires Tuned() && |lTimeEvents| > 0 && multiset(lTimeEvents) == multiset(registries)
      modifies this`trace, this`internalBaseCycle, lDomain`currentFrequency
      modifies registries`nFrequency, registries`nStep, registries`nCycle, registries`nBaseCycle
      ensures Tuned() && Follows(env, old(ThisPlan(env)))
      ensures trace == old(trace) + PassCalls(old(ViewOf(lTimeEvents)))
      ensures SameOutline(ViewOf(lTimeEvents),
                          NextPass(old(ThisPlan(env)), |old(trace)|, old(ViewOf(lTimeEvents)), DomainsOf(lTimeEvents)))
      ensures var t := old(lTimeEvents[|lTimeEvents| - 1].nBaseCycle);
              internalBaseCycle == t / 100 && inc == t / 100 - old(internalBaseCycle)
      ensures Quiet(env) ==> ViewOf(lTimeEvents) == Pass(old(ViewOf(lTimeEvents)))
    {
      hide ViewOf, Tuned, Numbered, Pass, PassCalls, Quiet, Follows, NextPass, SameOutline;
      PlanStarts(env);
      var last := PassPlanned(env, ThisPlan(env));
      inc := last / 100 - internalBaseCycle;
      internalBaseCycle := last / 100;
    }

    /** The pass, with what it means when there are no requests. */
    method PassPlanned(env: Environment, ghost p: Plan) returns (last: int)
      requires Tuned() && Follows(env, p) && p.count == |trace|
      requires |lTimeEvents| > 0 && multiset(lTimeEvents) == multiset(registries)
      modifies this`trace, lDomain`currentFrequency
      modifies registries`nFrequency, registries`nStep, registries`nCycle, registries`nBaseCycle
      ensures Tuned() && Follows(env, p)
      ensures trace == old(trace) + PassCalls(old(ViewOf(lTimeEvents)))
      ensures last == old(lTimeEvents[|lTimeEvents| - 1].nBaseCycle)
      ensures SameOutline(ViewOf(lTimeEvents), NextPass(p, |old(trace)|, old(ViewOf(lTimeEvents)), DomainsOf(lTimeEvents)))
      ensures Quiet(env) ==> ViewOf(lTimeEvents) == Pass(old(ViewOf(lTimeEvents)))
    {
      hide ViewOf, Tuned, Numbered, Pass, PassCalls, Quiet, Follows, NextPass, SameOutline, Plan.StepAt;
      ghost var v := ViewOf(lTimeEvents);
      MembersOf(lTimeEvents, registries);
      PlannedSteps(env, p, lTimeEvents);
      last := PassAll(env, p);
      if Quiet(env) {
        QuietUnchanged(env, p, lTimeEvents);
        QuietPass(p, p.count, v, lTimeEvents);
      }
    }

    /** The loop over the event list; returns the time of the last registry it has clocked. */
    method PassAll(env: Environment, ghost p: Plan) returns (last: int)
      requires Tuned() && Follows(env, p) && |lTimeEvents| > 0 && multiset(lTimeEvents) == multiset(registries)
      modifies this`trace, lDomain`currentFrequency
      modifies registries`nFrequency, registries`nStep, registries`nCycle, registries`nBaseCycle
      ensures Tuned() && Follows(env, p)
      ensures trace == old(trace) + PassCalls(old(ViewOf(lTimeEvents)))
      ensures last == old(lTimeEvents[|lTimeEvents| - 1].nBaseCycle)
      ensures SameOutline(ViewOf(lTimeEvents), NextPass(p, |old(trace)|, old(ViewOf(lTimeEvents)), DomainsOf(lTimeEvents)))
    {
      hide ViewOf, Tuned, Follows, Pass, PassCalls, PassLeft, NextPass, PassGoes, SameOutline, AllCallsOf, Passed, NoDup, DomainsOf;
      ghost var v, ds := ViewOf(lTimeEvents), DomainsOf(lTimeEvents);
      ghost var next := NextPass(p, |trace|, v, ds);
      OnceEach([], lTimeEvents, registries);
      MembersOf(lTimeEvents, registries);
      PassStart(v, trace);
      PassGoesStart(next, p, |trace|, v, ds);
      NothingPassed(lTimeEvents, next);
      var cRegIter := 0;
      last := 0;
      while cRegIter < |lTimeEvents|
        invariant cRegIter <= |v| && Tuned() && Follows(env, p)
        invariant PassLeft(trace, v, cRegIter) == old(trace) + PassCalls(v)
        invariant PassGoes(next, p, |trace|, v, ds, cRegIter) && Passed(lTimeEvents, v, next, cRegIter)
        invariant cRegIter > 0 ==> last == v[cRegIter - 1].base
      {
        last := PassOne(cRegIter, lTimeEvents[cRegIter], env, p, next, v, ds);
        cRegIter := cRegIter + 1;
      }
      PassEnd(v, trace);
      AllPassed(lTimeEvents, v, next);
    }

    /** One round of the loop. */
    method PassOne(k: nat, currentEvent: ClockRegistry, env: Environment, ghost p: Plan,
                   ghost next: seq<Reg>, ghost v: seq<Reg>, ghost ds: seq<ClockDomain>) returns (last: int)
      requires Tuned() && Follows(env, p) && AllIn(lTimeEvents, registries) && NoDup(lTimeEvents)
      requires k < |lTimeEvents| && currentEvent == lTimeEvents[k] && ds == DomainsOf(lTimeEvents)
      requires |v| == |ds| && PassGoes(next, p, |trace|, v, ds, k) && Passed(lTimeEvents, v, next, k)
      modifies this`trace, lDomain`currentFrequency, registries`nFrequency, registries`nStep
      modifies currentEvent`nCycle, currentEvent`nBaseCycle
      ensures Tuned() && Follows(env, p)
      ensures PassGoes(next, p, |trace|, v, ds, k + 1) && PassLeft(trace, v, k + 1) == old(PassLeft(trace, v, k))
      ensures Passed(lTimeEvents, v, next, k + 1) && last == v[k].base
    {
      hide ViewOf, Tuned, Follows, PassLeft, PassGoes, AllCallsOf, Plan.StepAt, DomainsOf;
      PassStep(v, k, trace, currentEvent.Value());
      PassGoesNext(next, p, |trace|, v, ds, k);
      FireBoth(currentEvent, env, p);
      last := currentEvent.nBaseCycle - currentEvent.nStep;
    }

    /** Runs the modules and then the rate matchers of a registry, and advances it. */
    method FireBoth(r: ClockRegistry, env: Environment, ghost p: Plan)
      requires Tuned() && Follows(env, p) && r in registries
      modifies this`trace, lDomain`currentFrequency, registries`nFrequency, registries`nStep
      modifies r`nCycle, r`nBaseCycle
      ensures Tuned() && Follows(env, p)
      ensures trace == old(trace) + AllCallsOf(old(r.Value())) && |trace| == old(|trace| + |r.lModules| + |r.lWriterRM|)
      ensures r.nCycle == old(r.nCycle) + 1
      ensures r.nBaseCycle == old(r.nBaseCycle) + p.StepAt(r.clockDomain, |trace|) == old(r.nBaseCycle) + r.nStep
    {
      hide CallsOf, Tuned, Follows, Plan.StepAt;
      ghost var v := r.Value();
      InvokeAll(r, r.lModules, env, p);
      CallsOfSame(r.Value(), v, r.lWriterRM);
      Reassociate(old(trace), CallsOf(v, v.modules), CallsOf(v, v.matchers));
      InvokeAll(r, r.lWriterRM, env, p);
      CallsLength(v, v.modules);
      CallsLength(v, v.matchers);
      Advance(r, env, p);
    }

    /** Both phases of a tick. */
    method TickAll(env: Environment, ghost p: Plan)
      requires Running() && Follows(env, p) && p == ThisPlan(env)
      modifies this`lTimeEvents, this`trace, lDomain`currentFrequency
      modifies registries`nFrequency, registries`nStep, registries`nCycle, registries`nBaseCycle
      ensures Tuned() && Follows(env, p) && multiset(lTimeEvents) == multiset(registries) && Sorted(ViewOf(lTimeEvents))
      ensures trace == old(trace) + TickCalls(old(ViewOf(lTimeEvents)))
      ensures SameOutline(ViewOf(lTimeEvents), NextList(p, old(ViewOf(lTimeEvents)), DomainsOf(old(lTimeEvents))))
      ensures Ticked(old(ViewOf(lTimeEvents)), ViewOf(lTimeEvents))
      ensures var t := old(lTimeEvents[0].nBaseCycle);
              forall r | r in registries :: r.nBaseCycle >= t
                && r.nCycle == old(r.nCycle) + (if old(r.nBaseCycle) == t then 1 else 0)
                && (old(r.nBaseCycle) != t ==> r.nBaseCycle == old(r.nBaseCycle))
      ensures |lTimeEvents| > 0 && lTimeEvents[0].nBaseCycle >= old(lTimeEvents[0].nBaseCycle)
      ensures p.Advances() ==> forall r | r in registries :: r.nBaseCycle > old(lTimeEvents[0].nBaseCycle)
      ensures Quiet(env) ==> ViewOf(lTimeEvents) == Tick(old(ViewOf(lTimeEvents)))
    {
      hide ViewOf, Tuned, Follows, Sorted, Numbered, Quiet, Ticked, SameOutline, NextList, DistinctIds, Tick, Plan.StepAt, Plan.Advances,
        TickCalls, DomainsOf, AllIn;
      ghost var v, ds, all := ViewOf(lTimeEvents), DomainsOf(lTimeEvents), lTimeEvents;
      ListInOrder();
      MembersOf(all, registries);
      DomainsListed(all);
      PlannedSteps(env, p, all);
      TickBoth(env, p);
      TickResult(p, v, ds, ViewOf(lTimeEvents));
      MembersOf(lTimeEvents, registries);
      if Quiet(env) {
        QuietUnchanged(env, p, lTimeEvents);
        QuietTick(p, v, all, lTimeEvents);
      }
    }

    method TickBoth(env: Environment, ghost p: Plan)
      requires Running() && Follows(env, p) && p.count == |trace|
      modifies this`lTimeEvents, this`trace, lDomain`currentFrequency
      modifies registries`nFrequency, registries`nStep, registries`nCycle, registries`nBaseCycle
      ensures Tuned() && Follows(env, p) && multiset(lTimeEvents) == multiset(registries)
      ensures trace == old(trace) + TickCalls(old(ViewOf(lTimeEvents)))
      ensures SameOutline(ViewOf(lTimeEvents), NextList(p, old(ViewOf(lTimeEvents)), DomainsOf(old(lTimeEvents))))
      ensures var t := old(lTimeEvents[0].nBaseCycle);
              forall r | r in registries :: r.nBaseCycle >= t
                && r.nCycle == old(r.nCycle) + (if old(r.nBaseCycle) == t then 1 else 0)
                && (old(r.nBaseCycle) != t ==> r.nBaseCycle == old(r.nBaseCycle))
    {
      hide ViewOf, Tuned, Follows, Sorted, Numbered, ModuleCalls, MatcherCalls, DueCount, Requeue, Due, NotDue,
        SameOutline, SameMatchers, PutBack, DomainsOf, NextList, TickCalls;
      ghost var all, v := lTimeEvents, ViewOf(lTimeEvents);
      TickTrace(trace, v);
      var clocked := ClockPhase(env, p);
      ghost var rest, w, n := ViewOf(lTimeEvents), ViewOf(clocked), |trace|;
      SameMatcherCalls(w, Due(v));
      DomainsPrefix(all, clocked, lTimeEvents);
      RequeueAll(clocked, env, p);
      ListAfterTick(p, n, v, DomainsOf(all), rest, w, DomainsOf(clocked), ViewOf(lTimeEvents));
    }

    lemma DomainsListed(l: seq<ClockRegistry>)
      requires Tuned() && AllIn(l, registries)
      ensures forall i | 0 <= i < |l| :: DomainsOf(l)[i] in lDomain
    {
      hide DomainTuned;
      forall i | 0 <= i < |l| ensures DomainsOf(l)[i] in lDomain {
        assert InTune(l[i]);
      }
    }

    lemma PlannedSteps(env: Environment, p: Plan, l: seq<ClockRegistry>)
      requires Tuned() && Follows(env, p) && AllIn(l, registries)
      ensures forall i | 0 <= i < |l| :: l[i].nStep == p.StepAt(l[i].clockDomain, |trace|)
    {
      hide Tuned, Follows, Plan.StepAt;
      forall i | 0 <= i < |l| ensures l[i].nStep == p.StepAt(l[i].clockDomain, |trace|) {
        StepNow(env, p, l[i]);
      }
    }

    /** Without requests all steps are still what they were. */
    lemma QuietUnchanged(env: Environment, p: Plan, l: seq<ClockRegistry>)
      requires Tuned() && Follows(env, p) && Quiet(env) && AllIn(l, registries)
      ensures p.env == env && forall i | 0 <= i < |l| :: l[i].nStep == p.StepAt(l[i].clockDomain, p.count)
    {
      PlannedSteps(env, p, l);
      hide Tuned, Plan.StepAt, Plan.RatesAt, Quiet;
      forall i | 0 <= i < |l| ensures l[i].nStep == p.StepAt(l[i].clockDomain, p.count) {
        QuietStep(p, l[i].clockDomain, |trace|);
      }
    }

    /** The first phase of a tick, in terms of the sorted event list. */
    method ClockPhase(env: Environment, ghost p: Plan) returns (clocked: seq<ClockRegistry>)
      requires Running() && Follows(env, p)
      modifies this`lTimeEvents, this`trace, lDomain`currentFrequency, registries`nFrequency, registries`nStep
      ensures Tuned() && multiset(lTimeEvents) + multiset(clocked) == multiset(registries) && AllIn(clocked, registries)
      ensures forall r | r in registries :: r.nBaseCycle >= old(lTimeEvents[0].nBaseCycle)
                && (r in clocked <==> r.nBaseCycle == old(lTimeEvents[0].nBaseCycle))
      ensures trace == old(trace) + ModuleCalls(old(Due(ViewOf(lTimeEvents))))
      ensures clocked + lTimeEvents == old(lTimeEvents) && |clocked| == |old(Due(ViewOf(lTimeEvents)))|
      ensures SameMatchers(ViewOf(clocked), old(Due(ViewOf(lTimeEvents))))
      ensures SameOutline(ViewOf(lTimeEvents), old(NotDue(ViewOf(lTimeEvents))))
      ensures Follows(env, p)
    {
      hide ViewOf, Tuned, Follows, Sorted, Numbered, ModuleCalls, MatcherCalls, DueCount, SameMatchers, SameOutline;
      ghost var v, all := ViewOf(lTimeEvents), lTimeEvents;
      clocked := ClockDue(env, p);
      MembersOf(all, registries);
      DueBases(v);
      SplitMembers(all, clocked, lTimeEvents, v, registries);
      SplitViews(all, clocked, lTimeEvents, v);
    }

    /** Changes the frequency of a domain, and with it the step of its registries; their next times stay. An
        unknown domain or a frequency that the domain does not offer is refused. */
    method SetDomainFrequency(domainName: string, freq: nat) returns (ok: bool)
      requires Tuned()
      modifies lDomain`currentFrequency, registries`nFrequency, registries`nStep
      ensures Tuned()
      ensures Rates() == Granted(lDomain, old(Rates()), Request(domainName, freq))
      ensures var i := FirstDomain(lDomain, domainName);
              if i < |lDomain| && old(lDomain[i].currentFrequency) != freq && freq in lDomain[i].normalizedFrequencies then
                && ok && freq > 0
                && (forall j | 0 <= j < |lDomain| ::
                      lDomain[j].currentFrequency == if j == i then freq else old(lDomain[j].currentFrequency))
                && (forall r | r in registries :: if r in lDomain[i].lClock
                      then r.nFrequency == freq && r.nStep == Step64(Bf, freq)
                      else r.nFrequency == old(r.nFrequency) && r.nStep == old(r.nStep))
              else
                && ok == (i < |lDomain| && old(lDomain[i].currentFrequency) == freq)
                && (forall j | 0 <= j < |lDomain| :: lDomain[j].currentFrequency == old(lDomain[j].currentFrequency))
                && (forall r | r in registries :: r.nFrequency == old(r.nFrequency) && r.nStep == old(r.nStep))
    {
      hide Tuned, FirstDomain, RatesOf;
      var i := FindDomain(domainName);
      if i == |lDomain| {
        return false;
      }
      var domain := lDomain[i];
      if freq == domain.currentFrequency {
        return true;
      }
      if freq !in domain.normalizedFrequencies {
        return false;
      }
      ChangeFrequency(i, domain, freq);
      ok := true;
    }

    method ChangeFrequency(i: nat, domain: ClockDomain, freq: nat)
      requires Tuned() && i < |lDomain| && domain == lDomain[i] && freq in domain.normalizedFrequencies
      modifies lDomain`currentFrequency, registries`nFrequency, registries`nStep
      ensures Tuned() && freq > 0 && Rates() == old(Rates())[i := freq]
      ensures forall j | 0 <= j < |lDomain| ::
                lDomain[j].currentFrequency == if j == i then freq else old(lDomain[j].currentFrequency)
      ensures forall r | r in registries :: if r in domain.lClock
                then r.nFrequency == freq && r.nStep == Step64(Bf, freq)
                else r.nFrequency == old(r.nFrequency) && r.nStep == old(r.nStep)
    {
      assert DomainTuned(domain);
      OfferedFrequency(domain, freq);
      hide AllPositive, Step64;
      domain.currentFrequency := freq;
      Retune(domain, freq);
      forall k | 0 <= k < |lDomain| ensures DomainTuned(lDomain[k]) {
        assert old(DomainTuned(lDomain[k]));
      }
      forall r | r in registries ensures InTune(r) {
        assert old(InTune(r));
      }
    }

    lemma OfferedFrequency(domain: ClockDomain, freq: nat)
      requires DomainTuned(domain) && freq in domain.normalizedFrequencies
      ensures freq > 0
    {
      var i :| 0 <= i < |domain.normalizedFrequencies| && domain.normalizedFrequencies[i] == freq;
    }

    method FindDomain(domainName: string) returns (i: nat)
      ensures i == FirstDomain(lDomain, domainName)
    {
      i := 0;
      while i < |lDomain| && lDomain[i].name != domainName
        invariant i <= |lDomain| && FirstDomain(lDomain, domainName) == i + FirstDomain(lDomain[i..], domainName)
      {
        i := i + 1;
      }
    }

    method Retune(domain: ClockDomain, freq: nat)
      requires freq > 0 && forall i | 0 <= i < |domain.lClock| :: domain.lClock[i] in registries
      modifies registries`nFrequency, registries`nStep
      ensures forall r | r in registries :: if r in domain.lClock
                then r.nFrequency == freq && r.nStep == Step64(Bf, freq)
                else r.nFrequency == old(r.nFrequency) && r.nStep == old(r.nStep)
    {
      var k := 0;
      while k < |domain.lClock|
        invariant k <= |domain.lClock|
        invariant forall r | r in registries :: if r in domain.lClock[..k]
                    then r.nFrequency == freq && r.nStep == Step64(Bf, freq)
                    else r.nFrequency == old(r.nFrequency) && r.nStep == old(r.nStep)
      {
        var pcrCurrent := domain.lClock[k];
        pcrCurrent.nFrequency := freq;
        pcrCurrent.nStep := Bf / freq * 100 % (UINT64_MAX + 1);
        assert domain.lClock[..k + 1] == domain.lClock[..k] + [pcrCurrent];
        k := k + 1;
      }
      assert domain.lClock[..k] == domain.lClock;
    }

    /** Runs one callback of a registry, and whatever frequency changes it asks for. A request that the server
        refuses ends the simulation; here it has no effect, so that the run up to that point is covered. */
    method Invoke(r: ClockRegistry, cb: Callback, env: Environment, ghost p: Plan)
      requires Tuned() && Follows(env, p)
      modifies this`trace, lDomain`currentFrequency, registries`nFrequency, registries`nStep
      ensures Tuned()
      ensures trace == old(trace) + [Call(r.id, cb, r.nCycle)]
      ensures Follows(env, p)
    {
      hide Tuned, GrantedAll, RatesOf, Plan.StepAt;
      var requests := env(|trace|);
      trace := trace + [Call(r.id, cb, r.nCycle)];
      GrantAll(requests);
    }

    method GrantAll(requests: seq<Request>)
      requires Tuned()
      modifies lDomain`currentFrequency, registries`nFrequency, registries`nStep
      ensures Tuned() && Rates() == GrantedAll(lDomain, old(Rates()), requests)
    {
      hide Tuned, Granted, GrantedAll, RatesOf;
      ghost var rates := Rates();
      GrantedNone(lDomain, rates, requests);
      var k := 0;
      while k < |requests|
        invariant k <= |requests| && Tuned() && Rates() == GrantedAll(lDomain, rates, requests[..k])
      {
        GrantedNext(lDomain, rates, requests, k);
        var ok := SetDomainFrequency(requests[k].domain, requests[k].frequency);
        k := k + 1;
      }
      assert requests[..k] == requests;
    }

    /** Runs a list of callbacks of a registry. */
    method InvokeAll(r: ClockRegistry, cbs: seq<Callback>, env: Environment, ghost p: Plan)
      requires Tuned() && Follows(env, p)
      modifies this`trace, lDomain`currentFrequency, registries`nFrequency, registries`nStep
      ensures Tuned()
      ensures trace == old(trace) + CallsOf(old(r.Value()), cbs)
      ensures Follows(env, p)
    {
      hide Tuned, Follows, CallsOf;
      ghost var v := r.Value();
      var k := 0;
      assert cbs[k..] == cbs;
      while k < |cbs|
        invariant k <= |cbs| && Tuned()
        invariant trace + CallsOf(v, cbs[k..]) == old(trace) + CallsOf(v, cbs)
        invariant Follows(env, p)
      {
        CallsOfStep(v, cbs, k, trace);
        Invoke(r, cbs[k], env, p);
        k := k + 1;
      }
      assert cbs[k..] == [];
      NoCalls(v, trace);
    }

    /** Takes the registries that are due now off the event list and runs their modules. */
    method ClockDue(env: Environment, ghost p: Plan) returns (clocked: seq<ClockRegistry>)
      requires Tuned() && Follows(env, p) && |lTimeEvents| > 0
      modifies this`lTimeEvents, this`trace, lDomain`currentFrequency, registries`nFrequency, registries`nStep
      ensures Tuned()
      ensures clocked + lTimeEvents == old(lTimeEvents)
      ensures |clocked| == DueCount(old(ViewOf(lTimeEvents)), old(lTimeEvents[0].nBaseCycle))
      ensures trace == old(trace) + ModuleCalls(old(Due(ViewOf(lTimeEvents))))
      ensures Follows(env, p)
    {
      hide ViewOf, ModuleCalls, CallsOf, DueCount, Tuned, Follows, TraceAfter;
      ghost var v, all := ViewOf(lTimeEvents), lTimeEvents;
      var currentBaseCycle := lTimeEvents[0].nBaseCycle;
      clocked := [];
      NoCallsYet(trace, v);
      while |lTimeEvents| > 0 && lTimeEvents[0].nBaseCycle == currentBaseCycle
        invariant |clocked| <= |all| && clocked == all[..|clocked|] && lTimeEvents == all[|clocked|..] && Tuned()
        invariant forall i | 0 <= i < |clocked| :: v[i].base == currentBaseCycle
        invariant trace == TraceAfter(old(trace), v, |clocked|)
        invariant Follows(env, p)
        decreases |lTimeEvents|
      {
        ghost var n := |clocked|;
        assert v[n] == old(all[n].Value());
        var currentEvent := ClockHead(env, p);
        clocked := clocked + [currentEvent];
        ModuleCallsStep(v, n, old(trace), currentEvent.Value());
      }
      DueCountIs(v, currentBaseCycle, |clocked|);
      DueTrace(old(trace), v);
    }

    /** Takes the head off the event list and runs its modules. */
    method ClockHead(env: Environment, ghost p: Plan) returns (currentEvent: ClockRegistry)
      requires Tuned() && Follows(env, p) && |lTimeEvents| > 0
      modifies this`lTimeEvents, this`trace, lDomain`currentFrequency, registries`nFrequency, registries`nStep
      ensures Tuned()
      ensures currentEvent == old(lTimeEvents[0]) && lTimeEvents == old(lTimeEvents[1..])
      ensures trace == old(trace) + CallsOf(currentEvent.Value(), currentEvent.lModules)
      ensures Follows(env, p)
    {
      currentEvent := lTimeEvents[0];
      lTimeEvents := lTimeEvents[1..];
      InvokeAll(currentEvent, currentEvent.lModules, env, p);
      CallsOfSame(old(currentEvent.Value()), currentEvent.Value(), currentEvent.lModules);
    }

    /** Adds a registry behind everything that is not later. */
    method AddTimeEvent(time: nat, freq: ClockRegistry)
      requires freq.nBaseCycle == time
      modifies this`lTimeEvents
      ensures var p := InsertPos(old(ViewOf(lTimeEvents)), time);
              lTimeEvents == old(lTimeEvents)[..p] + ([freq] + old(lTimeEvents)[p..])
      ensures ViewOf(lTimeEvents) == Insert(old(ViewOf(lTimeEvents)), freq.Value())
    {
      hide InsertPos, ViewOf;
      ghost var before, v := lTimeEvents, ViewOf(lTimeEvents);
      ghost var p := InsertPos(v, time);
      var bAdded := false;
      var iter := 0;
      while iter < |lTimeEvents| && !bAdded
        invariant iter <= p
        invariant !bAdded ==> lTimeEvents == before
        invariant bAdded ==> lTimeEvents == before[..p] + ([freq] + before[p..])
        decreases |before| - iter, !bAdded
      {
        assert v[iter] == before[iter].Value();
        if lTimeEvents[iter].nBaseCycle > time {
          lTimeEvents := lTimeEvents[..iter] + ([freq] + lTimeEvents[iter..]);
          bAdded := true;
        } else {
          iter := iter + 1;
        }
      }
      if !bAdded {
        lTimeEvents := lTimeEvents + [freq];
      }
      ViewInsert(before, freq);
    }

    /** Runs the rate matchers of all clocked registries and puts the registries back, each at the step it has then. */
    method RequeueAll(clocked: seq<ClockRegistry>, env: Environment, ghost p: Plan)
      requires Tuned() && Follows(env, p) && multiset(lTimeEvents) + multiset(clocked) == multiset(registries)
      modifies this`lTimeEvents, this`trace, lDomain`currentFrequency, registries`nFrequency, registries`nStep
      modifies clocked`nCycle, clocked`nBaseCycle
      ensures Tuned() && Follows(env, p) && multiset(lTimeEvents) == multiset(registries)
      ensures trace == old(trace) + MatcherCalls(old(ViewOf(clocked)))
      ensures forall r | r in clocked :: r.nCycle == old(r.nCycle) + 1 && r.nBaseCycle >= old(r.nBaseCycle)
      ensures SameOutline(ViewOf(lTimeEvents),
                          Requeue(old(ViewOf(lTimeEvents)), PutBack(p, |old(trace)|, old(ViewOf(clocked)), DomainsOf(clocked))))
    {
      hide ViewOf, CallsOf, MatcherCalls, Tuned, Follows, StillToPut, Requeue, PutBack, CallsLeft, OneEach, DomainsOf, Outline,
        PutSoFar, NoDup;
      ghost var v, w, ds := ViewOf(clocked), ViewOf(lTimeEvents), DomainsOf(clocked);
      AllLeft(lTimeEvents, clocked, registries, v, trace);
      AllToPut(w, p, |trace|, v, ds);
      OnceEach(lTimeEvents, clocked, registries);
      NothingPut(clocked);
      var k := 0;
      while k < |clocked|
        invariant k <= |clocked| && Tuned() && Follows(env, p)
        invariant OneEach(lTimeEvents, clocked, k, registries) && PutSoFar(clocked, v, k)
        invariant CallsLeft(trace, v, k) == old(trace) + MatcherCalls(v)
        invariant StillToPut(ViewOf(lTimeEvents), p, |trace|, v, ds, k) == StillToPut(w, p, |old(trace)|, v, ds, 0)
      {
        RequeueAt(clocked, k, clocked[k], v, ds, env, p);
        k := k + 1;
      }
      NoneLeft(lTimeEvents, clocked, registries, v, trace);
      AllToPut(ViewOf(lTimeEvents), p, |trace|, v, ds);
      forall r | r in clocked ensures r.nCycle == old(r.nCycle) + 1 && r.nBaseCycle >= old(r.nBaseCycle) {
        var j :| 0 <= j < |clocked| && clocked[j] == r;
        PutAt(clocked, v, j);
      }
    }

    /** One round of the loop, for the registry at position `k`; `v` is what the registries looked like. */
    method RequeueAt(clocked: seq<ClockRegistry>, k: nat, r: ClockRegistry, ghost v: seq<Reg>, ghost ds: seq<ClockDomain>,
                     env: Environment, ghost p: Plan)
      requires Tuned() && Follows(env, p) && NoDup(clocked)
      requires k < |clocked| == |v| == |ds| && OneEach(lTimeEvents, clocked, k, registries)
      requires r == clocked[k] && PutSoFar(clocked, v, k) && ds[k] == r.clockDomain
      modifies this`lTimeEvents, this`trace, lDomain`currentFrequency, registries`nFrequency, registries`nStep
      modifies r`nCycle, r`nBaseCycle
      ensures Tuned() && Follows(env, p) && OneEach(lTimeEvents, clocked, k + 1, registries) && PutSoFar(clocked, v, k + 1)
      ensures CallsLeft(trace, v, k + 1) == old(CallsLeft(trace, v, k))
      ensures StillToPut(ViewOf(lTimeEvents), p, |trace|, v, ds, k + 1)
              == old(StillToPut(ViewOf(lTimeEvents), p, |trace|, v, ds, k))
    {
      hide ViewOf, CallsOf, MatcherCalls, Tuned, Follows, Insert, CallsLeft, StillToPut, SameOutline, Plan.StepAt;
      NextOnce(lTimeEvents, clocked, k, registries);
      MatcherCallsStep(v, k, trace, r.Value());
      CallsLength(r.Value(), r.lWriterRM);
      ghost var l, n := ViewOf(lTimeEvents), |trace|;
      RequeueNext(r, env, p);
      PutNext(l, ViewOf(lTimeEvents), p, n, v, ds, k);
    }

    /** Runs the rate matchers of a clocked registry and puts it back at its next time. */
    method RequeueNext(r: ClockRegistry, env: Environment, ghost p: Plan)
      requires Tuned() && Follows(env, p) && r in registries && r !in lTimeEvents
      modifies this`lTimeEvents, this`trace, lDomain`currentFrequency, registries`nFrequency, registries`nStep
      modifies r`nCycle, r`nBaseCycle
      ensures Tuned() && Follows(env, p)
      ensures trace == old(trace) + CallsOf(old(r.Value()), r.lWriterRM)
      ensures r.nCycle == old(r.nCycle) + 1 && r.nBaseCycle >= old(r.nBaseCycle)
      ensures multiset(lTimeEvents) == multiset(old(lTimeEvents)) + multiset{r}
      ensures SameOutline(ViewOf(lTimeEvents),
                          Insert(old(ViewOf(lTimeEvents)),
                                 old(r.Value()).(step := p.StepAt(r.clockDomain, |trace|)).Advanced()))
    {
      hide *;
      ghost var l := ViewOf(lTimeEvents);
      Fire(r, env, p);
      OutlineInsert(ViewOf(lTimeEvents), l, r.Value(), r.Value());
      Readd(r);
    }

    /** Runs the rate matchers of a clocked registry and advances it. */
    method Fire(r: ClockRegistry, env: Environment, ghost p: Plan)
      requires Tuned() && Follows(env, p) && r in registries && r !in lTimeEvents
      modifies this`trace, lDomain`currentFrequency, registries`nFrequency, registries`nStep
      modifies r`nCycle, r`nBaseCycle
      ensures Tuned() && Follows(env, p)
      ensures trace == old(trace) + CallsOf(old(r.Value()), r.lWriterRM)
      ensures r.nCycle == old(r.nCycle) + 1 && r.nBaseCycle >= old(r.nBaseCycle)
      ensures SameOutline(ViewOf(lTimeEvents), old(ViewOf(lTimeEvents)))
      ensures r.Value() == old(r.Value()).(step := p.StepAt(r.clockDomain, |trace|)).Advanced()
    {
      hide ViewOf, CallsOf, Tuned, Follows, SameOutline, Plan.StepAt;
      ghost var v := ViewOf(lTimeEvents);
      InvokeAll(r, r.lWriterRM, env, p);
      Advance(r, env, p);
      OutlineIs(ViewOf(lTimeEvents), v);
    }

    method Readd(r: ClockRegistry)
      modifies this`lTimeEvents
      ensures multiset(lTimeEvents) == multiset(old(lTimeEvents)) + multiset{r}
      ensures ViewOf(lTimeEvents) == Insert(old(ViewOf(lTimeEvents)), r.Value())
    {
      hide ViewOf, Insert, InsertPos;
      ghost var before, p := lTimeEvents, InsertPos(ViewOf(lTimeEvents), r.nBaseCycle);
      AddTimeEvent(r.nBaseCycle, r);
      assert before == before[..p] + before[p..];
    }

    method Advance(r: ClockRegistry, env: Environment, ghost p: Plan)
      requires Tuned() && Follows(env, p) && r in registries
      modifies r`nCycle, r`nBaseCycle
      ensures Tuned() && Follows(env, p) && r.nCycle == old(r.nCycle) + 1
      ensures r.nBaseCycle == old(r.nBaseCycle) + r.nStep && r.nStep == p.StepAt(r.clockDomain, |trace|)
    {
      hide Plan.StepAt, Plan.RatesAt, InTune, DomainTuned;
      StepNow(env, p, r);
      r.nCycle := r.nCycle + 1;
      r.nBaseCycle := r.nBaseCycle + r.nStep;
    }

    /** The randomised clock. It clocks the same registries as the ordinary clock and leaves the same times and cycles,
        but it runs the callbacks of each list in a random order, swapping each callback that it has run to the end of
        the list: `mods` and `rms` are the orders in which the lists of the due registries were run. */
    method RandomClock(env: Environment, random: nat -> nat)
      returns (inc: nat, ghost mods: seq<seq<Callback>>, ghost rms: seq<seq<Callback>>)
      requires Running()
      modifies this`lTimeEvents, this`trace, this`internalBaseCycle, lDomain`currentFrequency
      modifies registries`nFrequency, registries`nStep, registries`nCycle, registries`nBaseCycle
      modifies registries`lModules, registries`lWriterRM
      ensures Running()
      ensures var due := old(Due(ViewOf(lTimeEvents)));
              && Shuffled(mods, ModuleLists(due)) && Shuffled(rms, MatcherLists(due))
              && trace == old(trace) + (ListCalls(due, mods) + ListCalls(due, rms))
      ensures Follows(env, old(ThisPlan(env)))
      ensures SameOutline(ViewOf(lTimeEvents),
                          NextList(old(ThisPlan(env)), old(ViewOf(lTimeEvents)), DomainsOf(old(lTimeEvents))))
      ensures Ticked(old(ViewOf(lTimeEvents)), ViewOf(lTimeEvents))
      ensures var t := old(lTimeEvents[0].nBaseCycle);
              && internalBaseCycle == t / 100 && inc == t / 100 - old(internalBaseCycle)
              && (forall r | r in registries :: r.nBaseCycle >= t
                    && r.nCycle == old(r.nCycle) + (if old(r.nBaseCycle) == t then 1 else 0)
                    && (old(r.nBaseCycle) != t ==> r.nBaseCycle == old(r.nBaseCycle)))
              && (old(ThisPlan(env)).Advances() ==> forall r | r in registries :: r.nBaseCycle > t)
      ensures forall r | r in registries :: Permuted(r.lModules, old(r.lModules)) && Permuted(r.lWriterRM, old(r.lWriterRM))
      ensures Quiet(env) ==> SameOutline(ViewOf(lTimeEvents), Tick(old(ViewOf(lTimeEvents))))
    {
      hide ViewOf, Tuned, Follows, Sorted, Numbered, Due, Tick, ListCalls, Permuted, Shuffled, ModuleLists, MatcherLists,
        NextList, SameOutline, Ticked, Quiet, DomainsOf, RatesOf, DueCount, Plan.Advances;
      var currentBaseCycle := lTimeEvents[0].nBaseCycle;
      PlanStarts(env);
      mods, rms := RandomTick(env, ThisPlan(env), random);
      inc := currentBaseCycle / 100 - internalBaseCycle;
      internalBaseCycle := currentBaseCycle / 100;
    }

    /** Both phases of a random tick. */
    method RandomTick(env: Environment, ghost p: Plan, random: nat -> nat)
      returns (ghost mods: seq<seq<Callback>>, ghost rms: seq<seq<Callback>>)
      requires Running() && Follows(env, p) && p == ThisPlan(env)
      modifies this`lTimeEvents, this`trace, lDomain`currentFrequency
      modifies registries`nFrequency, registries`nStep, registries`nCycle, registries`nBaseCycle
      modifies registries`lModules, registries`lWriterRM
      ensures Tuned() && Follows(env, p) && multiset(lTimeEvents) == multiset(registries) && Sorted(ViewOf(lTimeEvents))
      ensures RandomCalls(old(trace), trace, old(Due(ViewOf(lTimeEvents))), mods, rms)
      ensures SameOutline(ViewOf(lTimeEvents), NextList(p, old(ViewOf(lTimeEvents)), DomainsOf(old(lTimeEvents))))
      ensures Ticked(old(ViewOf(lTimeEvents)), ViewOf(lTimeEvents))
      ensures var t := old(lTimeEvents[0].nBaseCycle);
              forall r | r in registries :: r.nBaseCycle >= t
                && r.nCycle == old(r.nCycle) + (if old(r.nBaseCycle) == t then 1 else 0)
                && (old(r.nBaseCycle) != t ==> r.nBaseCycle == old(r.nBaseCycle))
      ensures forall r | r in registries :: Permuted(r.lModules, old(r.lModules)) && Permuted(r.lWriterRM, old(r.lWriterRM))
      ensures |lTimeEvents| > 0 && lTimeEvents[0].nBaseCycle >= old(lTimeEvents[0].nBaseCycle)
      ensures p.Advances() ==> forall r | r in registries :: r.nBaseCycle > old(lTimeEvents[0].nBaseCycle)
      ensures Quiet(env) ==> SameOutline(ViewOf(lTimeEvents), Tick(old(ViewOf(lTimeEvents))))
    {
      hide ViewOf, Tuned, Follows, Sorted, Numbered, Quiet, Ticked, SameOutline, NextList, DistinctIds, Tick, Plan.StepAt, Plan.Advances, ListCalls,
        Permuted, Shuffled, ModuleLists, MatcherLists, Due, RandomCalls;
      ghost var v, ds, all := ViewOf(lTimeEvents), DomainsOf(lTimeEvents), lTimeEvents;
      ListInOrder();
      MembersOf(all, registries);
      DomainsListed(all);
      PlannedSteps(env, p, all);
      mods, rms := RandomBoth(env, p, random);
      TickResult(p, v, ds, ViewOf(lTimeEvents));
      MembersOf(lTimeEvents, registries);
      if Quiet(env) {
        QuietNextList(p, v, ds);
      }
    }

    method RandomBoth(env: Environment, ghost p: Plan, random: nat -> nat)
      returns (ghost mods: seq<seq<Callback>>, ghost rms: seq<seq<Callback>>)
      requires Running() && Follows(env, p) && p.count == |trace|
      modifies this`lTimeEvents, this`trace, lDomain`currentFrequency
      modifies registries`nFrequency, registries`nStep, registries`nCycle, registries`nBaseCycle
      modifies registries`lModules, registries`lWriterRM
      ensures Tuned() && Follows(env, p) && multiset(lTimeEvents) == multiset(registries)
      ensures RandomCalls(old(trace), trace, old(Due(ViewOf(lTimeEvents))), mods, rms)
      ensures SameOutline(ViewOf(lTimeEvents), NextList(p, old(ViewOf(lTimeEvents)), DomainsOf(old(lTimeEvents))))
      ensures var t := old(lTimeEvents[0].nBaseCycle);
              forall r | r in registries :: r.nBaseCycle >= t
                && r.nCycle == old(r.nCycle) + (if old(r.nBaseCycle) == t then 1 else 0)
                && (old(r.nBaseCycle) != t ==> r.nBaseCycle == old(r.nBaseCycle))
      ensures forall r | r in registries :: Permuted(r.lModules, old(r.lModules)) && Permuted(r.lWriterRM, old(r.lWriterRM))
    {
      hide ViewOf, Tuned, Follows, Sorted, Numbered, ModuleCalls, DueCount, Requeue, Due, NotDue, SameOutline, SameMatchers,
        PutBack, DomainsOf, NextList, ListCalls, Permuted, Shuffled, ModuleLists, MatcherLists, RatesOf, Plan.StepAt, RandomCalls;
      ghost var all, v := lTimeEvents, ViewOf(lTimeEvents);
      var clocked;
      clocked, mods := RandomPhase(env, p, random);
      ghost var rest, w, mid := ViewOf(lTimeEvents), ViewOf(clocked), trace;
      DomainsPrefix(all, clocked, lTimeEvents);
      rms := RandomRequeueDue(clocked, v[0].base, env, p, random);
      RandomTickResult(p, v, DomainsOf(all), rest, w, DomainsOf(clocked), ViewOf(lTimeEvents), old(trace), mid, trace, mods, rms);
    }

    /** Runs a list of callbacks in random order; `list` is the list afterwards, `order` the order in which they ran. */
    method InvokeShuffled(r: ClockRegistry, cbs: seq<Callback>, env: Environment, ghost p: Plan, random: nat -> nat)
      returns (list: seq<Callback>, ghost order: seq<Callback>)
      requires Tuned() && Follows(env, p)
      modifies this`trace, lDomain`currentFrequency, registries`nFrequency, registries`nStep
      ensures Tuned()
      ensures Permuted(list, cbs) && Permuted(order, cbs)
      ensures trace == old(trace) + CallsOf(old(r.Value()), order)
      ensures Follows(env, p)
    {
      hide Tuned, Follows, CallsOf, Shuffling, Permuted;
      ghost var v := r.Value();
      list, order := cbs, [];
      var vSize: nat := |cbs|;
      NothingShuffled(cbs);
      NoCalls(v, trace);
      while vSize > 0
        invariant vSize <= |list| && Tuned()
        invariant Shuffling(cbs, list, order, vSize)
        invariant trace == old(trace) + CallsOf(v, order)
        invariant Follows(env, p)
      {
        var i := random(|trace|) % vSize;
        SwapToEnd(cbs, list, order, vSize, i);
        CallsOfAppend(v, order, list[i], old(trace));
        Invoke(r, list[i], env, p);
        order := order + [list[i]];
        list := list[vSize - 1 := list[i]][i := list[vSize - 1]];
        vSize := vSize - 1;
      }
      AllShuffled(cbs, list, order);
    }

    /** The first phase of a random tick: takes the due registries off the event list and runs their modules. */
    method RandomDue(env: Environment, ghost p: Plan, random: nat -> nat) returns (clocked: seq<ClockRegistry>, ghost mods: seq<seq<Callback>>)
      requires Tuned() && Follows(env, p) && |lTimeEvents| > 0 && AllIn(lTimeEvents, registries)
      modifies this`lTimeEvents, this`trace, lDomain`currentFrequency, registries`nFrequency, registries`nStep
      modifies registries`lModules
      ensures Tuned()
      ensures clocked + lTimeEvents == old(lTimeEvents)
      ensures |clocked| == DueCount(old(ViewOf(lTimeEvents)), old(lTimeEvents[0].nBaseCycle))
      ensures Shuffled(mods, ModuleLists(old(Due(ViewOf(lTimeEvents)))))
      ensures trace == old(trace) + ListCalls(old(Due(ViewOf(lTimeEvents))), mods)
      ensures forall x | x in registries :: Permuted(x.lModules, old(x.lModules))
      ensures Follows(env, p)
    {
      hide ViewOf, ListCalls, CallsOf, DueCount, Tuned, Follows, ModulesRun, Shuffled, ModuleLists, Permuted;
      ghost var v, all := ViewOf(lTimeEvents), lTimeEvents;
      var currentBaseCycle := lTimeEvents[0].nBaseCycle;
      clocked, mods := [], [];
      PermutedTransitive();
      NothingRun(trace, v);
      while |lTimeEvents| > 0 && lTimeEvents[0].nBaseCycle == currentBaseCycle
        invariant |clocked| <= |all| && clocked == all[..|clocked|] && lTimeEvents == all[|clocked|..] && Tuned()
        invariant forall i | 0 <= i < |clocked| :: v[i].base == currentBaseCycle
        invariant ModulesRun(old(trace), v, |clocked|, mods, trace)
        invariant forall x | x in registries :: Permuted(x.lModules, old(x.lModules))
        invariant Follows(env, p)
        decreases |lTimeEvents|
      {
        ghost var n := |clocked|;
        assert v[n] == old(all[n].Value());
        ghost var now, sofar := all[n].Value(), trace;
        var currentEvent, cbs := RandomHead(env, p, random);
        clocked := clocked + [currentEvent];
        ModulesStep(old(trace), v, n, mods, cbs, now, sofar);
        mods := mods + [cbs];
      }
      DueCountIs(v, currentBaseCycle, |clocked|);
      ModulesDone(old(trace), v, mods, trace);
    }

    method RandomHead(env: Environment, ghost p: Plan, random: nat -> nat) returns (currentEvent: ClockRegistry, ghost order: seq<Callback>)
      requires Tuned() && Follows(env, p) && |lTimeEvents| > 0 && lTimeEvents[0] in registries
      modifies this`lTimeEvents, this`trace, lDomain`currentFrequency, registries`nFrequency, registries`nStep
      modifies registries`lModules
      ensures Tuned()
      ensures currentEvent == old(lTimeEvents[0]) && lTimeEvents == old(lTimeEvents[1..])
      ensures Permuted(order, old(currentEvent.lModules)) && Permuted(currentEvent.lModules, old(currentEvent.lModules))
      ensures forall x | x in registries && x != currentEvent :: x.lModules == old(x.lModules)
      ensures trace == old(trace) + CallsOf(old(currentEvent.Value()), order)
      ensures Follows(env, p)
    {
      hide Tuned, Follows, CallsOf;
      currentEvent := lTimeEvents[0];
      lTimeEvents := lTimeEvents[1..];
      var list;
      list, order := InvokeShuffled(currentEvent, currentEvent.lModules, env, p, random);
      currentEvent.lModules := list;
    }

    /** The first phase, in terms of the sorted event list. */
    method RandomPhase(env: Environment, ghost p: Plan, random: nat -> nat) returns (clocked: seq<ClockRegistry>, ghost mods: seq<seq<Callback>>)
      requires Running() && Follows(env, p)
      modifies this`lTimeEvents, this`trace, lDomain`currentFrequency, registries`nFrequency, registries`nStep
      modifies registries`lModules
      ensures Tuned() && multiset(lTimeEvents) + multiset(clocked) == multiset(registries) && AllIn(clocked, registries)
      ensures forall r | r in registries :: r.nBaseCycle >= old(lTimeEvents[0].nBaseCycle)
                && (r in clocked <==> r.nBaseCycle == old(lTimeEvents[0].nBaseCycle))
      ensures Shuffled(mods, ModuleLists(old(Due(ViewOf(lTimeEvents)))))
      ensures trace == old(trace) + ListCalls(old(Due(ViewOf(lTimeEvents))), mods)
      ensures forall x | x in registries :: Permuted(x.lModules, old(x.lModules))
      ensures SameMatchers(ViewOf(clocked), old(Due(ViewOf(lTimeEvents))))
      ensures clocked + lTimeEvents == old(lTimeEvents) && |clocked| == |old(Due(ViewOf(lTimeEvents)))|
      ensures SameOutline(ViewOf(lTimeEvents), old(NotDue(ViewOf(lTimeEvents))))
      ensures Follows(env, p)
    {
      hide ViewOf, Tuned, Follows, Sorted, Numbered, ListCalls, DueCount, MatcherLists, ModuleLists, Shuffled, SameMatchers, SameOutline, Permuted;
      ghost var v, all := ViewOf(lTimeEvents), lTimeEvents;
      MembersOf(all, registries);
      clocked, mods := RandomDue(env, p, random);
      DueBases(v);
      SplitMembers(all, clocked, lTimeEvents, v, registries);
      SplitViews(all, clocked, lTimeEvents, v);
    }

    /** The second phase, when the clocked registries are those that are due at `t`. */
    method RandomRequeueDue(clocked: seq<ClockRegistry>, ghost t: nat, env: Environment, ghost p: Plan, random: nat -> nat)
      returns (ghost rms: seq<seq<Callback>>)
      requires Tuned() && Follows(env, p) && multiset(lTimeEvents) + multiset(clocked) == multiset(registries)
      requires AllIn(clocked, registries)
      requires forall r | r in registries :: r.nBaseCycle >= t && (r in clocked <==> r.nBaseCycle == t)
      modifies this`lTimeEvents, this`trace, lDomain`currentFrequency, registries`nFrequency, registries`nStep
      modifies registries`nCycle, registries`nBaseCycle, registries`lWriterRM
      ensures Tuned() && Follows(env, p) && multiset(lTimeEvents) == multiset(registries)
      ensures Shuffled(rms, MatcherLists(old(ViewOf(clocked))))
      ensures trace == old(trace) + ListCalls(old(ViewOf(clocked)), rms)
      ensures forall r | r in registries :: r.nBaseCycle >= t
                && r.nCycle == old(r.nCycle) + (if old(r.nBaseCycle) == t then 1 else 0)
                && (old(r.nBaseCycle) != t ==> r.nBaseCycle == old(r.nBaseCycle))
      ensures forall x | x in registries :: Permuted(x.lWriterRM, old(x.lWriterRM))
      ensures SameOutline(ViewOf(lTimeEvents),
                          Requeue(old(ViewOf(lTimeEvents)), PutBack(p, |old(trace)|, old(ViewOf(clocked)), DomainsOf(clocked))))
    {
      hide ViewOf, ListCalls, Tuned, Follows, Requeue, PutBack, DomainsOf, SameOutline, Shuffled, MatcherLists, Permuted;
      rms := RandomRequeue(clocked, env, p, random);
    }

    /** The second phase of a random tick: runs the rate matchers and puts the registries back. */
    method RandomRequeue(clocked: seq<ClockRegistry>, env: Environment, ghost p: Plan, random: nat -> nat)
      returns (ghost rms: seq<seq<Callback>>)
      requires Tuned() && Follows(env, p) && multiset(lTimeEvents) + multiset(clocked) == multiset(registries)
      requires AllIn(clocked, registries)
      modifies this`lTimeEvents, this`trace, lDomain`currentFrequency, registries`nFrequency, registries`nStep
      modifies clocked`nCycle, clocked`nBaseCycle, clocked`lWriterRM
      ensures Tuned() && Follows(env, p) && multiset(lTimeEvents) == multiset(registries)
      ensures Shuffled(rms, MatcherLists(old(ViewOf(clocked))))
      ensures trace == old(trace) + ListCalls(old(ViewOf(clocked)), rms)
      ensures forall r | r in clocked :: r.nCycle == old(r.nCycle) + 1 && r.nBaseCycle >= old(r.nBaseCycle)
      ensures forall x | x in registries :: Permuted(x.lWriterRM, old(x.lWriterRM))
      ensures SameOutline(ViewOf(lTimeEvents),
                          Requeue(old(ViewOf(lTimeEvents)), PutBack(p, |old(trace)|, old(ViewOf(clocked)), DomainsOf(clocked))))
    {
      hide ViewOf, ListCalls, Tuned, Follows, StillToPut, Requeue, PutBack, OneEach, DomainsOf, Outline, ShuffledSoFar, NoDup,
        Shuffled, MatcherLists, Permuted, MatchersRun;
      ghost var v, w, ds := ViewOf(clocked), ViewOf(lTimeEvents), DomainsOf(clocked);
      AllLeft(lTimeEvents, clocked, registries, v, trace);
      AllToPut(w, p, |trace|, v, ds);
      NothingRun(trace, v);
      OnceEach(lTimeEvents, clocked, registries);
      PermutedTransitive();
      NothingShuffledYet(clocked);
      rms := [];
      var k := 0;
      while k < |clocked|
        invariant k <= |clocked| && Tuned() && Follows(env, p)
        invariant OneEach(lTimeEvents, clocked, k, registries) && ShuffledSoFar(clocked, v, k)
        invariant forall x | x in registries :: Permuted(x.lWriterRM, old(x.lWriterRM))
        invariant MatchersRun(old(trace), v, k, rms, trace)
        invariant StillToPut(ViewOf(lTimeEvents), p, |trace|, v, ds, k) == StillToPut(w, p, |old(trace)|, v, ds, 0)
      {
        rms := RandomAt(clocked, k, clocked[k], v, ds, rms, old(trace), env, p, random);
        k := k + 1;
      }
      MatchersDone(old(trace), v, rms, trace);
      NoneLeft(lTimeEvents, clocked, registries, v, trace);
      AllToPut(ViewOf(lTimeEvents), p, |trace|, v, ds);
      forall r | r in clocked ensures r.nCycle == old(r.nCycle) + 1 && r.nBaseCycle >= old(r.nBaseCycle) {
        var j :| 0 <= j < |clocked| && clocked[j] == r;
        ShuffledAt(clocked, v, j);
      }
    }

    /** One round of the loop, for the registry at position `k`; `v` is what the registries looked like, `before` what
        the trace was. */
    method RandomAt(clocked: seq<ClockRegistry>, k: nat, r: ClockRegistry, ghost v: seq<Reg>, ghost ds: seq<ClockDomain>,
                    ghost done: seq<seq<Callback>>, ghost before: seq<Call>, env: Environment, ghost p: Plan, random: nat -> nat)
      returns (ghost rms: seq<seq<Callback>>)
      requires Tuned() && Follows(env, p) && NoDup(clocked)
      requires k < |clocked| == |v| == |ds| && OneEach(lTimeEvents, clocked, k, registries)
      requires r == clocked[k] && ShuffledSoFar(clocked, v, k) && ds[k] == r.clockDomain
      requires MatchersRun(before, v, k, done, trace)
      modifies this`lTimeEvents, this`trace, lDomain`currentFrequency, registries`nFrequency, registries`nStep
      modifies r`nCycle, r`nBaseCycle, r`lWriterRM
      ensures Tuned() && Follows(env, p) && OneEach(lTimeEvents, clocked, k + 1, registries) && ShuffledSoFar(clocked, v, k + 1)
      ensures Permuted(r.lWriterRM, old(r.lWriterRM))
      ensures MatchersRun(before, v, k + 1, rms, trace)
      ensures StillToPut(ViewOf(lTimeEvents), p, |trace|, v, ds, k + 1)
              == old(StillToPut(ViewOf(lTimeEvents), p, |trace|, v, ds, k))
    {
      hide ViewOf, CallsOf, ListCalls, Tuned, Follows, Insert, StillToPut, SameOutline, Plan.StepAt, Shuffled, Permuted, MatchersRun;
      PermutedTransitive();
      NextOnce(lTimeEvents, clocked, k, registries);
      ghost var l, now, sofar := ViewOf(lTimeEvents), r.Value(), trace;
      ghost var order := RandomNext(r, env, p, random);
      CallsLength(now, order);
      PermutedLength(order, v[k].matchers);
      MatchersStep(before, v, k, done, order, now, sofar);
      RandomPut(l, ViewOf(lTimeEvents), p, |sofar|, v, ds, k, now, |trace|);
      rms := done + [order];
    }

    /** Runs the rate matchers of a clocked registry in random order and puts it back at its next time. */
    method RandomNext(r: ClockRegistry, env: Environment, ghost p: Plan, random: nat -> nat) returns (ghost order: seq<Callback>)
      requires Tuned() && Follows(env, p) && r in registries && r !in lTimeEvents
      modifies this`lTimeEvents, this`trace, lDomain`currentFrequency, registries`nFrequency, registries`nStep
      modifies r`nCycle, r`nBaseCycle, r`lWriterRM
      ensures Tuned() && Follows(env, p)
      ensures Permuted(order, old(r.lWriterRM)) && Permuted(r.lWriterRM, old(r.lWriterRM))
      ensures trace == old(trace) + CallsOf(old(r.Value()), order)
      ensures r.nCycle == old(r.nCycle) + 1 && r.nBaseCycle >= old(r.nBaseCycle)
      ensures multiset(lTimeEvents) == multiset(old(lTimeEvents)) + multiset{r}
      ensures SameOutline(ViewOf(lTimeEvents),
                          Insert(old(ViewOf(lTimeEvents)),
                                 old(r.Value()).(step := p.StepAt(r.clockDomain, |trace|)).Advanced()))
    {
      hide ViewOf, CallsOf, Tuned, Follows, Insert, SameOutline, Plan.StepAt, Permuted;
      ghost var l, now := ViewOf(lTimeEvents), r.Value();
      order := FireShuffled(r, env, p, random);
      OutlineInsert(ViewOf(lTimeEvents), l, r.Value(), now.(step := p.StepAt(r.clockDomain, |trace|)).Advanced());
      Readd(r);
    }

    /** Runs the rate matchers of a clocked registry in random order and advances it. */
    method FireShuffled(r: ClockRegistry, env: Environment, ghost p: Plan, random: nat -> nat)
      returns (ghost order: seq<Callback>)
      requires Tuned() && Follows(env, p) && r in registries && r !in lTimeEvents
      modifies this`trace, lDomain`currentFrequency, registries`nFrequency, registries`nStep
      modifies r`nCycle, r`nBaseCycle, r`lWriterRM
      ensures Tuned() && Follows(env, p)
      ensures Permuted(order, old(r.lWriterRM)) && Permuted(r.lWriterRM, old(r.lWriterRM))
      ensures trace == old(trace) + CallsOf(old(r.Value()), order)
      ensures r.nCycle == old(r.nCycle) + 1
      ensures r.nBaseCycle == old(r.nBaseCycle) + p.StepAt(r.clockDomain, |trace|)
      ensures SameOutline(ViewOf(lTimeEvents), old(ViewOf(lTimeEvents)))
    {
      hide ViewOf, CallsOf, Tuned, Follows, SameOutline, Plan.StepAt, Permuted;
      ghost var v := ViewOf(lTimeEvents);
      var list;
      list, order := InvokeShuffled(r, r.lWriterRM, env, p, random);
      r.lWriterRM := list;
      Advance(r, env, p);
      OutlineIs(ViewOf(lTimeEvents), v);
    }
  }
}
