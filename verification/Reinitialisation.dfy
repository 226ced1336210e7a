/** A server that is initialised twice without unregistering anything in between. */
module Reinitialisation {
  import opened Arithmetic
  import opened ClockLists
  import opened ClockObjects
  import opened ClosedForm
  import opened FrequencyChanges
  import opened FrequencyRequests
  import opened Schedule
  import Server = ClockServer

  /** With one domain, one module and one rate matcher: after initialisation, one tick, and another initialisation, the
      writer is attached twice, and the registry does not start at cycle zero. */
  method InitialiseTwice(cb: Callback, wrm: Callback) returns (server: Server.ClockServer, home: ClockRegistry)
    ensures home in server.registries && home.lWriterRM == [wrm, wrm] && home.nCycle == 1
  {
    hide Server.ClockServer.Wired, Server.ClockServer.Running;
    server, home := OneServer(cb);
    Initialise(server, home, wrm);
    TickOnce(server, home);
    Initialise(server, home, wrm);
  }

  ghost predicate Small(server: Server.ClockServer, home: ClockRegistry)
    reads server, home
  {
    && server.registries == {home} && |server.lDomain| == 1 && home.clockDomain == server.lDomain[0]
    && server.lDomain[0].normalizedFrequencies == [1]
  }

  method OneServer(cb: Callback) returns (server: Server.ClockServer, home: ClockRegistry)
    ensures fresh(server) && fresh(home) && fresh(server.lDomain) && server.Wired() && Small(server, home)
    ensures home.lWriterRM == [] && home.nCycle == 0
  {
    hide Server.ClockServer.Wired, Server.ClockServer.OncePlaced;
    server := new Server.ClockServer();
    var ok := server.NewClockDomain("D", [1]);
    var h := server.RegisterClock("D", cb, 0, 0);
    home := h;
  }

  /** One initialisation: it attaches the writer once more and leaves the cycle alone. */
  method Initialise(server: Server.ClockServer, home: ClockRegistry, wrm: Callback)
    requires server.Wired() && Small(server, home)
    modifies server`Bf, server`internalBaseCycle, server`lTimeEvents
    modifies server.registries`lWriterRM, server.registries`nStep, server.registries`nBaseCycle
    ensures server.Wired() && Small(server, home) && server.Running()
    ensures home.lWriterRM == old(home.lWriterRM) + [wrm] && home.nCycle == old(home.nCycle)
  {
    hide Server.ClockServer.Wired, Server.ClockServer.Started, Server.ClockServer.CanStart, Server.ClockServer.FrequencyFits,
      Server.ClockServer.TimesFit, Server.ClockServer.Running, Attached, ReadersAgree, LcmAll64,
      AllFrequencies, OwnCallback, StandsOnce, StandsNowhere;
    var writers := [Writer(wrm, [home])];
    OneWriter(wrm, home);
    CanStart(server, home);
    var ok := server.InitClockServer(writers);
  }

  method TickOnce(server: Server.ClockServer, home: ClockRegistry)
    requires server.Wired() && Small(server, home) && server.Running()
    modifies server`lTimeEvents, server`trace, server`internalBaseCycle, server.lDomain`currentFrequency
    modifies server.registries`nFrequency, server.registries`nStep, server.registries`nCycle, server.registries`nBaseCycle
    ensures server.Wired() && Small(server, home)
    ensures home.nCycle == old(home.nCycle) + 1 && home.lWriterRM == old(home.lWriterRM)
  {
    hide Server.ClockServer.Follows, Numbered, Sorted, ViewOf, NextList, SameOutline, Ticked, Tick, Quiet, TickCalls, DomainsOf,
      ListWired, AllPositive, Step64;
    var quiet: Environment := _ => [];
    OnlyOne(server.lTimeEvents, home);
    assert server.DomainWired(server.lDomain[0]);
    var inc := server.Clock(quiet);
    assert server.DomainTuned(server.lDomain[0]) && server.InTune(home);
  }

  lemma OneWriter(wrm: Callback, home: ClockRegistry)
    ensures ReadersAgree(Writer(wrm, [home])) && Attached([Writer(wrm, [home])], home) == [wrm]
  {
    var ws := [Writer(wrm, [home])];
    assert Attached(ws[..0], home) == [];
  }

  lemma OneFrequency(server: Server.ClockServer)
    requires |server.lDomain| == 1 && server.lDomain[0].normalizedFrequencies == [1]
    ensures AllFrequencies(server.lDomain) == [1] && LcmAll64(1, [1]) == Some(1) && TrueLcmAll(1, [1]) == 1
  {
    assert server.lDomain[1..] == [] && [1][1..] == [];
    FirstLcm(1);
  }

  lemma CanStart(server: Server.ClockServer, home: ClockRegistry)
    requires server.Wired() && Small(server, home)
    ensures server.CanStart()
  {
    OneFrequency(server);
    hide LcmAll64, AllFrequencies, Numbered, ListWired;
    assert home in server.registries && home in home.clockDomain.lClock;
  }

  lemma OnlyOne(l: seq<ClockRegistry>, home: ClockRegistry)
    requires multiset(l) == multiset({home}) && |l| > 0
    ensures l[0] == home
  {
    assert l[0] in multiset(l);
  }
}
