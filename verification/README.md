# Verified model of the ASIM clock server

ASIM simulates hardware modules that are clocked in several clock domains. Its clock server keeps a list of registries
(the callbacks of one domain and one skew), ordered by the time of their next tick, and clocks them; the same schedule is
also computed by a specialised fast path, by a randomised order, and by several multi-threaded protocols. This project
models that schedule and its implementations in Dafny and proves that they agree, together with four other parts of the
repository that rest on an invariant: port wiring, trace enabling, shaded columns, and strip charts.

## How the model is laid out

| file | what it holds |
|---|---|
| `Schedule.dfy` | the reference schedule on values: event list, tick, trace, runs, and the stretch of the list a lookahead window sees |
| `Occurrences.dfy` | counting: every occurrence of every registry runs each of its callbacks exactly once |
| `Arithmetic.dfy` | greatest common divisor, least common multiple, and the 64-bit computation with its overflow test |
| `ClosedForm.dfy` | the schedule as a function of time: no drift, period, and the order of ties |
| `FrequencyChanges.dfy` | ticks during which callbacks change frequencies: what one tick does to the list, and the order of ties over whole runs |
| `FastPath.dfy` | one pass of the single-domain clock equals one tick per registry of the general clock |
| `RandomOrder.dfy` | the randomised order makes the same calls |
| `ClockObjects.dfy`, `ClockLists.dfy` | registries, domains and writers as objects, and what the loops over lists of them do |
| `FrequencyRequests.dfy` | which requests of callbacks are granted, and the step that every registry then has when it is put back |
| `ClockServer.dfy` | the clock server: registration, initialisation, `Clock`, the fast path, the random clock, frequency changes during a tick |
| `Reinitialisation.dfy` | a server that is initialised twice |
| `BasicThreaded.dfy`, `PhaseBarrier.dfy` | task queues and the phase-flip barrier, for any number of workers |
| `SharedCallbacks.dfy` | when the basic threaded clock tells every callback its own cycle |
| `FuzzyBarrier.dfy` | the fuzzy barrier with lookahead, for any number of workers |
| `FuzzyAhead.dfy` | how far a worker of the fuzzy barrier runs ahead, and when it waits |
| `PhaseLiveness.dfy`, `FuzzyLiveness.dfy` | infinite runs: of the phase-flip barrier under every scheduler, of the fuzzy barrier under a fair one |
| `TaskSearch.dfy` | what a search for a task looks at and remembers, over whole runs |
| `TaskOwnership.dfy` | ownership of dynamic tasks by try-locks, for any number of pthreads |
| `PortWiring.dfy` | stable in-place sort of the ports, and the wiring of every group |
| `TraceReplay.dfy` | saved trace rules, late naming, and delayed actions |
| `ColumnShadows.dfy` | a packed bitmap as a set of columns, with its file |
| `StripChart.dfy` | the sampling period and the record layout |

Objects that the source updates in place are classes; the methods are proved against functions on values, and the
properties are lemmas about those functions. Code of the simulated model is not known: a callback appends one entry to a
trace, and an `Environment` says which frequency changes it asks for. The threaded protocols are step relations; every
interleaving of the listed steps is covered, and steps are sequentially consistent.

## What was found

Each of these is a property one would expect and the code does not always have. Every entry names a lemma or method that
shows it at a concrete input, and the statement that says exactly when the property holds.

* The overflow test of `lcm` compares the two reduced factors and forgets the common one, so an overflow can pass
  undetected: for the frequencies 2^31, 3^20 and 5 * 2^29 the base frequency comes out as a number that 3^20 does not divide
  (`Arithmetic.OverflowUndetected`). The base frequency is right if and only if the true least common multiple fits into 64
  bits (`Arithmetic.Lcm64ExactIff`, `Arithmetic.BaseFrequencyExactIff`).
* Steps and first times are computed modulo 2^64, with the multiplication before the division. A base frequency that fits
  is not enough: for 2^31 and 3^20 the first time for skew 3 is wrong (`ClosedForm.StartsWrap`). It is right if and only if
  skew times base frequency fits, and the step if and only if it fits itself (`ClosedForm.Times64ExactIff`); initialisation
  gives the intended schedule if and only if all of this holds (`ClockServer.ClockServer.InitClockServer`).
* The specialised clock for one domain never reorders its list. When a callback changes the frequency during a pass, the
  list can go out of order (`FrequencyRequests.PassUnsorted`); it stays sorted if and only if each registry's time plus its
  step of that moment is at most that of the next one (`FrequencyRequests.PassSortedIff`).
* The schedule repeats after 100 base frequencies as a set of events, but the order of simultaneous events can differ
  between the first and the second period (`ClosedForm.FirstPeriodDiffers`); `ClosedForm.RepeatsIff` says when it repeats.
* The basic threaded clock stores the cycle with the callback when it hands out tasks. A callback in two due registries at
  different cycles is told the later one twice, unlike in the sequential clock (`SharedCallbacks.ToldWrongCycle`). No tick
  of any run has such a callback if and only if registries that share one have the same step and start, or starts that
  differ modulo the greatest common divisor of their steps (`SharedCallbacks.AlwaysConsistentIff`); a callback in a single
  registry is always told its own cycle (`SharedCallbacks.UnsharedIsConsistent`).
* While a write port is connected, only the kinds of the following ports are checked, not their names: a fan-out that is
  too large can connect a read port of another name (`PortWiring.PortChecksCrossGroups`). Only the final count, an
  assertion that can be compiled out, refuses it. Without it, write ports are connected to
  ports of their own name only, if and only if the fan-outs do not exceed the read ports (`PortWiring.StaysInGroupIff`).
* The round-robin search for a task adds a 32-bit counter that wraps around. With three tasks and the counter at 2^32 - 1 a
  round never looks at task 2 (`TaskOwnership.RoundSkips`); a round that wraps looks at all tasks if and only if 2^32 is a
  multiple of their number (`TaskOwnership.RoundCoversIff`).
* Initialising the server again without unregistering attaches every rate matcher a second time and does not reset the
  cycle counts (`Reinitialisation.InitialiseTwice`). After initialisation a writer stands exactly once in the registries if
  and only if it stood in none before, and all registries are at cycle zero if and only if they were before
  (`ClockLists.StandsOnceIff`, `ClockServer.ClockServer.InitClockServer`).
* The number of spaces behind a strip chart text is an unsigned 64-bit difference and is counted in 32 bits: with 17
  characters where there is room for 16, writing never ends (`StripChart.LongTextNeverEnds`). A marker of fewer
  than 2^63 characters is written if and only if it fits and fewer than 2^32 spaces are missing
  (`StripChart.Charts.DumpRAWString`); `StripChart.PaddingEndsIff` has the condition for all 64-bit lengths.

## Model

| member | source | states |
|---|---|---|
| `Schedule.TickLive` | lib/libasim/src/clockserver.cpp:976-1036 | a tick keeps the event list sorted with every registry once, and the next time is strictly later |
| `Schedule.TickMembers` | lib/libasim/src/clockserver.cpp:980-1036 | after a tick the list holds exactly the registries that were not due, unchanged, and the due ones one step and one cycle further |
| `Schedule.RequeueProps` | lib/libasim/src/clockserver.cpp:1008-1036 | putting back any number of clocked registries keeps the list sorted and loses and duplicates none |
| `Schedule.TimeIncreases` | lib/libasim/src/clockserver.cpp:976-1042 | clocked time strictly increases over every run |
| `Schedule.ForwardedSum` | lib/libasim/src/clockserver.cpp:1038-1041 | the increments of any number of ticks add up to the last clocked time in whole base cycles |
| `Schedule.WindowAgrees` | lib/libasim/src/clockserver_threaded_fuzzy.cpp:110-117 | as every step is longer than the lookahead, a list that is some ticks old already shows a window exactly the events the run will find there |
| `Occurrences.OccurrenceCount` | lib/libasim/src/clockserver.cpp:993-1030 | after any number of ticks, each past occurrence of a registry has run each callback exactly as often as it is registered, and no future one has run any |
| `Occurrences.ModuleInTick` | lib/libasim/src/clockserver.cpp:980-1003 | the calls of a tick begin with all modules of the due registries, registry by registry in list order and in the order of each list |
| `Occurrences.MatcherInTick` | lib/libasim/src/clockserver.cpp:1008-1030 | then come all rate matchers of the due registries, in the same order |
| `Arithmetic.GcdDivisors` | lib/libasim/src/stripchart.cpp:55-71 | the recursive GCD divides both numbers and every common divisor divides it |
| `Arithmetic.GcdLoop` | lib/libasim/include/asim/clockserver.h:774-782 | the loop computes the same greatest common divisor |
| `Arithmetic.Bezout` | lib/libasim/include/asim/clockserver.h:774-782 | the greatest common divisor is an integer combination of the two numbers |
| `Arithmetic.LcmIsLeast` | lib/libasim/include/asim/clockserver.h:784-800 | the least common multiple divides exactly the common multiples |
| `Arithmetic.Lcm64ExactIff` | lib/libasim/include/asim/clockserver.h:789-800 | the 64-bit computation returns the least common multiple if and only if that fits into 64 bits |
| `Arithmetic.OverflowUndetected` | lib/libasim/src/clockserver.cpp:838-848 | three 32-bit frequencies for which the base frequency overflows without being reported, and is no multiple of one of them |
| `Arithmetic.LcmAllIsLeast` | lib/libasim/src/clockserver.cpp:838-848 | the base frequency before truncation divides exactly the common multiples of all frequencies |
| `Arithmetic.BaseFrequencyExactIff` | lib/libasim/src/clockserver.cpp:838-848 | the computed base frequency is the true one if and only if the true one fits into 64 bits |
| `ClosedForm.ExactSteps` | lib/libasim/src/clockserver.cpp:872-873 | within 64 bits the intended steps and first times involve no rounding: skews of one period are distinct times in it, and 100 base frequencies are exactly `frequency` steps |
| `ClosedForm.Times64ExactIff` | lib/libasim/src/clockserver.cpp:872-873 | computed in 64 bits, the step is the intended one if and only if it fits, and the first time if and only if skew times base frequency fits |
| `ClosedForm.TimesWrap` | lib/libasim/src/clockserver.cpp:872-873 | a step that does not fit is right modulo 2^64; a first time is the product modulo 2^64, divided after that |
| `ClosedForm.StartsWrap` | lib/libasim/src/clockserver.cpp:873-873 | two frequencies whose base frequency fits and a skew whose first time comes out wrong |
| `ClosedForm.NoDrift` | lib/libasim/src/clockserver.cpp:1030-1035 | after every tick a registry's next time is its nominal time for its cycle count, and the first one after the clocked time |
| `ClosedForm.TicksByCounts` | lib/libasim/src/clockserver.cpp:872-873 | the closed form counts the nominal times up to a time |
| `ClosedForm.CycleIsTicksBy` | lib/libasim/src/clockserver.cpp:1030-1035 | after clocking time t, a registry's cycle is the number of its nominal times up to t, and t < next time <= t + step |
| `ClosedForm.ListAtExists` | lib/libasim/src/clockserver.cpp:976-1036 | for every time there is a number of ticks after which exactly the events up to that time have been clocked |
| `ClosedForm.TicksPerPeriod` | lib/libasim/src/clockserver.cpp:872-873 | over every span that is a multiple of the step, a registry ticks exactly span / step times |
| `ClosedForm.PeriodMembers` | lib/libasim/src/clockserver.cpp:976-1036 | one common period later the event list holds exactly the same registries, shifted by the period |
| `ClosedForm.AlwaysOrdered` | lib/libasim/src/clockserver.cpp:733-762 | simultaneous events stand in the order in which they were last clocked, and before that in the order of the initial list |
| `ClosedForm.OrderedUnique` | lib/libasim/src/clockserver.cpp:733-762 | this order determines the whole event list |
| `ClosedForm.RepeatsIff` | lib/libasim/src/clockserver.cpp:976-1036 | the event list with the order of ties repeats after a common period if and only if slower registries come first among ties |
| `ClosedForm.RepeatsOnceClocked` | lib/libasim/src/clockserver.cpp:976-1036 | once every registry has been clocked, the whole list repeats after every common period |
| `ClosedForm.FirstPeriodDiffers` | lib/libasim/src/clockserver.cpp:976-1036 | two registries whose order in a tie differs between the first and the second period |
| `FrequencyChanges.TiesAreFifo` | lib/libasim/src/clockserver.cpp:976-1036 | over whole runs, whatever frequency changes the callbacks make, simultaneous events stand in the order in which they have waited: the one that was not clocked when the other was comes first |
| `FrequencyChanges.WaitingIsStrict` | lib/libasim/src/clockserver.cpp:733-762 | this waiting order is strict, so it determines the order of ties |
| `FrequencyRequests.NextListTicked` | lib/libasim/src/clockserver.cpp:1008-1036 | the list after a tick with frequency changes is that of putting the clocked registries back at some steps |
| `FrequencyRequests.RateIsLastRequest` | lib/libasim/src/clockserver.cpp:657-705 | after any number of invocations a domain runs at the frequency of the last request that names it and that it offers, among all requests of all invocations in order, or at its starting one if there is none |
| `FrequencyRequests.NextTimeOf` | lib/libasim/src/clockserver.cpp:1008-1036 | in a tick with frequency changes a due registry goes to the time clocked plus its step after all modules and the rate matchers of the registries up to it have run |
| `FrequencyRequests.MatchersThroughCalls` | lib/libasim/src/clockserver.cpp:1016-1028 | that moment in the trace is the end of the calls of these rate matchers |
| `FrequencyRequests.CallsThroughIs` | lib/libasim/src/clockserver.cpp:1051-1089 | in a pass of the specialised clock a registry goes on after its own callbacks and those of the registries in front of it |
| `FrequencyRequests.QuietNextList` | lib/libasim/src/clockserver.cpp:1008-1036 | without requests that list is the reference tick |
| `FrequencyRequests.StepsPositive` | lib/libasim/src/clockserver.cpp:657-705 | at every moment of a tick every domain has one of the frequencies it offers, and its step is not zero, even if it has wrapped around, unless 2^62 divides the base frequency |
| `FrequencyRequests.NextListLater` | lib/libasim/src/clockserver.cpp:1008-1036 | if no step is zero, every time in the list after a tick is later than the one clocked |
| `FrequencyRequests.PassSortedIff` | lib/libasim/src/clockserver.cpp:1045-1098 | the list after a pass of the specialised clock is sorted if and only if each registry's time plus its step of that moment is at most that of the next one |
| `FrequencyRequests.PassUnsorted` | lib/libasim/src/clockserver.cpp:1045-1098 | two registries and a frequency change that leave the list of the specialised clock out of order |
| `FastPath.PassEqualsTicks` | lib/libasim/src/clockserver.cpp:1045-1098 | one pass over a single domain equals one general tick per registry: same list and order, times, cycles, callback trace and total increment |
| `FastPath.RotatedAfter` | lib/libasim/src/clockserver.cpp:1051-1089 | after i general ticks the first i registries have gone to the back in order, and exactly their callbacks have run |
| `RandomOrder.SameCallsAsTick` | lib/libasim/src/clockserver.cpp:1136-1233 | whatever the random choices, the calls of a tick are exactly those of the ordinary tick, each once |
| `RandomOrder.SwapToEnd` | lib/libasim/src/clockserver.cpp:1177-1184 | swapping the chosen callback to the end keeps the list a permutation and takes exactly that callback out of the part still to run |
| `ClockServer.ClockServer.Clock` | lib/libasim/src/clockserver.cpp:972-1042 | for every environment: the due registries are put back at the steps they have at that moment, computed in 64 bits from the requests granted so far, which fixes every time, cycle and tie of the new list; the trace grows by exactly the calls of the due registries; time goes forward if no step is zero; without requests the new list is the reference tick |
| `ClockServer.ClockServer.Simulate` | lib/libasim/src/clockserver.cpp:972-1042 | over any number of ticks with frequency changes: clocked times never go back, and strictly increase if no step is zero; the increments add up to the last time in base cycles, the trace grows by the calls of every tick, and ties are first in, first out |
| `ClockServer.ClockServer.AlwaysAdvances` | lib/libasim/src/clockserver.cpp:657-705 | with 32-bit frequencies and a base frequency that fits, no step is ever zero, whatever the callbacks ask for |
| `ClockServer.ClockServer.ClockDue` | lib/libasim/src/clockserver.cpp:980-1003 | exactly the registries due now are taken off the list, in order, and their modules run |
| `ClockServer.ClockServer.RequeueAll` | lib/libasim/src/clockserver.cpp:1008-1036 | runs all rate matchers, advances each clocked registry once and puts it back in order at the step it has then; the new list is stated in full |
| `ClockServer.ClockServer.AddTimeEvent` | lib/libasim/src/clockserver.cpp:733-762 | the registry goes behind everything that is not later, nothing else moves |
| `ClockServer.ClockServer.UniqueDomainClock` | lib/libasim/src/clockserver.cpp:1045-1098 | one pass clocks every registry once in list order and advances it by the step it has at that moment, for every environment and from every list, also one that an earlier pass has left out of order; with fixed frequencies the list is the reference pass |
| `ClockServer.ClockServer.OneDomainStarts` | lib/libasim/src/clockserver.cpp:857-889 | after initialisation with one domain the list has what the fast path needs: one step and increasing times within one period |
| `ClockServer.ClockServer.RandomClock` | lib/libasim/src/clockserver.cpp:1136-1233 | for all random choices and environments: each list of each due registry is run once in some order, modules before rate matchers; lists are permutations of themselves; the new list is that of putting back at the steps of that moment, and that of the ordinary tick without requests |
| `ClockServer.ClockServer.InvokeShuffled` | lib/libasim/src/clockserver.cpp:1167-1187 | the shuffle runs every callback of a list exactly once and leaves a permutation |
| `ClockServer.ClockServer.SetDomainFrequency` | lib/libasim/src/clockserver.cpp:657-705 | changes frequency and step of exactly the registries of the domain and leaves all next times; unknown domains and frequencies are refused |
| `ClockServer.ClockServer.NewClockDomain` | lib/libasim/src/clockserver.cpp:355-409 | adds a domain that runs at its first frequency, unless the name is taken |
| `ClockServer.ClockServer.RegisterClock` | lib/libasim/src/clockserver.cpp:538-631 | the callback joins the registry of its domain and skew; if there is none, a registry with the given dral skew is added at the end of the domain's list, at cycle zero; registries keep distinct skews and share a clock number exactly if they share the dral skew |
| `ClockServer.ClockServer.RegisterModule` | lib/libasim/src/clockserver.cpp:511-525 | a callback made for a module stands in exactly one place of one registry |
| `ClockServer.ClockServer.RegisterWriterRateMatcherClock` | lib/libasim/src/clockserver.cpp:460-497 | attaches the writer to the registry with the skew and to no other |
| `ClockServer.ClockServer.ConnectRateMatchers` | lib/libasim/src/clockserver.cpp:785-832 | succeeds exactly if the readers of every writer agree in domain and skew; every registry gets exactly the writers of its readers |
| `ClockLists.AttachedOnce` | lib/libasim/src/clockserver.cpp:826-829 | one initialisation attaches a writer with a callback of its own exactly once, to the registry of its readers |
| `ClockLists.StandsOnceIff` | lib/libasim/src/clockserver.cpp:785-832 | after initialisation a writer stands exactly once in the registries if and only if it stood in none before |
| `Reinitialisation.InitialiseTwice` | lib/libasim/src/clockserver.cpp:775-900 | after initialisation, a tick and another initialisation a writer is attached twice and the registry starts at cycle one |
| `ClockServer.ClockServer.InitClockServer` | lib/libasim/src/clockserver.cpp:775-900 | succeeds exactly if readers agree, there is a registry in the reference domain and no overflow is reported, and then the server can run; the schedule is the intended one if and only if the base frequency and every registry's step and first time fit into 64 bits; a base frequency that fits is the least common multiple of all frequencies of all domains; writers stand exactly once, and cycles are zero, if and only if nothing was attached or clocked before |
| `ClockServer.ClockServer.StartedIff` | lib/libasim/src/clockserver.cpp:861-889 | with times computed modulo 2^64 the server starts with the intended schedule if and only if base frequency, steps and first times fit |
| `ClockServer.ClockServer.ScheduleAll` | lib/libasim/src/clockserver.cpp:861-889 | every registry of every domain is added once, with its step and first time as computed in 64 bits, in registration order |
| `ClockServer.ClockServer.BaseFrequency` | lib/libasim/src/clockserver.cpp:838-848 | the nested loop computes the fold of the 64-bit least common multiple over all frequencies |
| `ClockServer.ClockServer.LeastBase` | lib/libasim/src/clockserver.cpp:838-848 | a base frequency that fits divides exactly the numbers that every frequency of every domain divides |
| `ClockServer.ClockServer.FrequencyFitsIff` | lib/libasim/src/clockserver.cpp:838-848 | it fits if and only if some 64-bit number is a common multiple of all frequencies of all domains |
| `ClockServer.ClockServer.RegistrationOrder` | lib/libasim/src/clockserver.cpp:861-889 | the initial event list is sorted, and events with equal times stand in the order of registration, domain by domain |
| `ClockObjects.ReadersAgreeIff` | lib/libasim/src/clockserver.cpp:798-822 | the readers of a writer agree if any two of them are in one domain with one skew |
| `ClockServer.ClockServer.InitClockServerThreaded` | lib/libasim/src/clockserver_threaded_fuzzy.cpp:109-117 | looking at the first registry of each domain decides correctly whether the lookahead is shorter than every period in the event list |
| `ClockServer.ClockServer.FreshList` | lib/libasim/src/clockserver.cpp:872-887 | after initialisation every registry is in its first period, so the closed form applies |
| `BasicThreaded.TaskServer.AssignTasks` | lib/libasim/src/clockserver_threaded_basic.cpp:255-284 | each thread's queue grows by exactly its own part of the sequential tick, in the same order; the stored cycles are those of the last assignment |
| `BasicThreaded.WorkerThread.GetNextWorkItem` | lib/libasim/include/asim/clockserver.h:491-501 | takes the task at the front of the queue, and none only when the queue is empty |
| `BasicThreaded.SeenExactIff` | lib/libasim/src/clockserver_threaded_basic.cpp:261-282 | every callback of a tick is told the right cycle if and only if no callback is due in two registries at different cycles |
| `BasicThreaded.SameTracesIff` | lib/libasim/src/clockserver_threaded_basic.cpp:243-284 | over whole runs every thread's trace is its part of the sequential trace if and only if no tick has such a callback |
| `Occurrences.CountRestrict` | lib/libasim/src/clockserver_threaded_basic.cpp:243-284 | a thread's part of a list of calls has each call of that thread as often as the list, and no other: nothing is lost or duplicated |
| `SharedCallbacks.AlwaysConsistentIff` | lib/libasim/src/clockserver_threaded_basic.cpp:255-284 | no tick of any run has a callback due at two cycles if and only if registries that share a callback start alike with one step, or have starts that differ modulo the greatest common divisor of their steps |
| `SharedCallbacks.UnsharedIsConsistent` | lib/libasim/src/clockserver_threaded_basic.cpp:255-284 | a callback that stands in one registry only is always told its own cycle |
| `SharedCallbacks.ToldWrongCycle` | lib/libasim/src/clockserver_threaded_basic.cpp:261-282 | one callback in registries with steps 100 and 200 is told cycle 2 where it is at cycle 1 |
| `SharedCallbacks.CompatibleRefines` | lib/libasim/src/clockserver_threaded_basic.cpp:234-328 | under that condition every run of the barrier protocol agrees with the sequential clock between ticks |
| `SharedCallbacks.IncompatibleDiffers` | lib/libasim/src/clockserver_threaded_basic.cpp:234-328 | otherwise there is a number of ticks from which on no run agrees |
| `PhaseBarrier.RunsTickByTick` | lib/libasim/src/clockserver_threaded_basic.cpp:95-168 | in every interleaving, between ticks the list is the sequential one and every worker has run its part of all ticks; during a tick none has started the next |
| `PhaseBarrier.RefinesSequentialIff` | lib/libasim/src/clockserver_threaded_basic.cpp:234-328 | all workers of a run have exactly their part of the sequential trace if and only if no tick finds a callback in due registries at different cycles |
| `PhaseBarrier.CounterCounts` | lib/libasim/src/clockserver_threaded_basic.cpp:57-58 | while the server waits, the counter is the number of workers not flipped yet plus those flipped and not decremented |
| `PhaseBarrier.PassesOnlyWhenDone` | lib/libasim/src/clockserver_threaded_basic.cpp:375-385 | the server passes the wait only when every queue is empty, no worker has a task in hand, and every worker has run its part |
| `PhaseBarrier.ServerWorksAlone` | lib/libasim/src/clockserver_threaded_basic.cpp:255-289 | no worker can make a step while the server works on queues, stored cycles or lists |
| `PhaseBarrier.NeverStuck` | lib/libasim/src/clockserver_threaded_basic.cpp:123-153 | in every reachable state the server or some worker can make a step |
| `PhaseBarrier.WaitEnds` | lib/libasim/src/clockserver_threaded_basic.cpp:381-385 | every worker step leaves strictly less work in the tick |
| `PhaseBarrier.StepKeeps` | lib/libasim/src/clockserver_threaded_basic.cpp:334-343 | every step of the server and of any worker keeps the barrier invariant |
| `PhaseLiveness.WaitOver` | lib/libasim/src/clockserver_threaded_basic.cpp:375-385 | in every infinite run, under every scheduler, the server's wait ends |
| `PhaseLiveness.EveryTickMade` | lib/libasim/src/clockserver_threaded_basic.cpp:234-328 | in every such run, for every number of ticks, there is a point between ticks at which the list is the sequential one and every worker has made its part |
| `PhaseLiveness.EndlessRunExists` | lib/libasim/src/clockserver_threaded_basic.cpp:234-328 | from every initial state an infinite run starts |
| `FuzzyBarrier.RefinesSequential` | lib/libasim/src/clockserver_threaded_fuzzy.cpp:136-317 | in every interleaving the list is the sequential one after the ticks requeued so far, and every worker's trace is its part of the sequential trace for a number of ticks that is not smaller |
| `FuzzyBarrier.OwnerRunsOnce` | lib/libasim/src/clockserver_threaded_fuzzy.cpp:219-252 | every occurrence that has been requeued has run each of its callbacks exactly as often as it is registered, on the owning thread, with the right cycle |
| `FuzzyBarrier.OthersNeverRun` | lib/libasim/src/clockserver_threaded_fuzzy.cpp:225-249 | no worker ever runs a callback of another thread |
| `FuzzyBarrier.InsideWindow` | lib/libasim/src/clockserver_threaded_fuzzy.cpp:154-211 | a worker that executes an event is not behind the announced time by the time of the event and not more than the lookahead ahead of it |
| `FuzzyBarrier.NeverFarApart` | lib/libasim/src/clockserver_threaded_fuzzy.cpp:154-211 | two workers never execute events more than the lookahead apart |
| `FuzzyAhead.RunsAhead` | lib/libasim/src/clockserver_threaded_fuzzy.cpp:154-264 | a worker with something to do in each tick makes all ticks up to the last one within the lookahead, while the server stays at the first of them and no other worker has made it |
| `FuzzyAhead.NoIdleRetry` | lib/libasim/src/clockserver_threaded_fuzzy.cpp:154-166 | between two passages of the wait test at one announced time a worker has run a callback |
| `FuzzyBarrier.ReaddsBeyondWindows` | lib/libasim/src/clockserver_threaded_fuzzy.cpp:306-316 | what the server puts back lands behind every worker's done time and outside every open window |
| `FuzzyBarrier.LaggardEnabled` | lib/libasim/src/clockserver_threaded_fuzzy.cpp:143-166 | while the server waits, every worker that is not done with the announced time can make a step |
| `FuzzyBarrier.LaggardProgress` | lib/libasim/src/clockserver_threaded_fuzzy.cpp:154-264 | each step of such a worker brings it closer to being done |
| `FuzzyBarrier.WaitCanEnd` | lib/libasim/src/clockserver_threaded_fuzzy.cpp:290-295 | from every reachable state with a waiting server there is a continuation in which the wait ends |
| `FuzzyLiveness.WaitEnds` | lib/libasim/src/clockserver_threaded_fuzzy.cpp:290-295 | in every infinite run under a fair scheduler the server's wait ends |
| `FuzzyLiveness.EveryTickMade` | lib/libasim/src/clockserver_threaded_fuzzy.cpp:270-317 | in every such run, for every number of ticks, the server's list gets to that of the sequential clock and every worker has made its part |
| `FuzzyLiveness.FairRunExists` | lib/libasim/src/clockserver_threaded_fuzzy.cpp:136-317 | every valid configuration has an infinite fair run |
| `FuzzyBarrier.StepKeeps` | lib/libasim/src/clockserver_threaded_fuzzy.cpp:136-317 | every step of the server and of any worker keeps the protocol's invariant, including the soundness of the one-by-one scan of done times |
| `FuzzyBarrier.ReadKeeps` | lib/libasim/src/clockserver.cpp:1109-1122 | reading the done times one at a time finds a minimum that reaches the announced time only if every worker has reached it |
| `FuzzyBarrier.PopAllIsTick` | lib/libasim/src/clockserver_threaded_fuzzy.cpp:306-316 | popping and re-adding one registry at a time gives the same list as the sequential tick |
| `FuzzyBarrier.EventsVisible` | lib/libasim/src/clockserver_threaded_fuzzy.cpp:177-211 | events within the lookahead of the current head are in the list already, complete and in order |
| `FuzzyBarrier.LockedSearch` | lib/libasim/src/clockserver_threaded_fuzzy.cpp:176-211 | although the announced time is read again for every event, the search gives what a single reading gives |
| `TaskOwnership.MutualExclusion` | lib/libasim/src/clockserver_threaded_dynamic.cpp:287-325 | in every interleaving of any number of pthreads no task is held by two of them |
| `TaskOwnership.NoLeakBetweenSwitches` | lib/libasim/src/clockserver_threaded_dynamic.cpp:336-439 | between switches a pthread has locked its current task and nothing else, and the task's record names it |
| `TaskOwnership.NoOrphans` | lib/libasim/src/clockserver_threaded_dynamic.cpp:287-325 | every held lock belongs to a pthread that knows about it, and a task marked active is run by the recorded owner of its lock |
| `TaskOwnership.AcceptedWasReady` | lib/libasim/src/clockserver_threaded_dynamic.cpp:358-439 | a ReadyToRun or ReadyOrEarliest switch that changes the task lands on one that was observed ready or done while it was locked, and has been locked since |
| `TaskSearch.TakenIff` | lib/libasim/src/clockserver_threaded_dynamic.cpp:358-411 | a task that is locked and looked at is taken if and only if the scheduler is the simple one or the task is ready or done |
| `TaskSearch.RoundTriesAll` | lib/libasim/src/clockserver_threaded_dynamic.cpp:336-424 | a round without success has found every task locked, or neither ready nor done while it had it locked, unless the counter wraps around as in `RoundCoversIff` |
| `TaskSearch.RoundEnds` | lib/libasim/src/clockserver_threaded_dynamic.cpp:389-437 | only the ReadyOrEarliest scheduler goes on after a round without success, exactly if some observed task was earlier than the current one and ten rounds are not over; the next round starts at the earliest of them, the first one if there are several, provided that the two readings of each time agree |
| `TaskSearch.LateReading` | lib/libasim/src/clockserver_threaded_dynamic.cpp:413-420 | the time of a task is read twice; if the second reading is later, the search can go on from a task that is not earlier than the current one |
| `TaskSearch.SwitchStarts` | lib/libasim/src/clockserver_threaded_dynamic.cpp:336-339 | the first round of each switch starts one task further than that of the switch before, whichever pthreads make them |
| `TaskOwnership.TaskChanges` | lib/libasim/src/clockserver_threaded_dynamic.cpp:336-352 | the current task changes only at the end of an exchange, to the accepted task, and when the main thread lets it go |
| `TaskOwnership.SwitchNeverWaits` | lib/libasim/src/clockserver_threaded_dynamic.cpp:300-304 | a pthread inside a switch can always make its next step, whatever the others do |
| `TaskOwnership.GetsCloser` | lib/libasim/src/clockserver_threaded_dynamic.cpp:389-439 | every step of a switch brings it closer to its end, in all three schedulers |
| `TaskOwnership.StepKeeps` | lib/libasim/src/clockserver_threaded_dynamic.cpp:287-325 | every step of a switch or of the main thread's release keeps the ownership invariant |
| `TaskOwnership.RoundCoversIff` | lib/libasim/src/clockserver_threaded_dynamic.cpp:338-342 | a round looks at every task if and only if the 32-bit counter does not wrap around in it or 2^32 is a multiple of the number of tasks |
| `TaskOwnership.RoundSkips` | lib/libasim/src/clockserver_threaded_dynamic.cpp:338-342 | with three tasks and the counter at its maximum a round never looks at task 2 |
| `PortWiring.InsertionSort` | lib/libasim/src/port.cpp:127-147 | sorts the ports in place, names in ascending order of their first different characters, instances of one name in ascending order, write ports before read ports; the ports of each key stay in the order of their creation |
| `PortWiring.SameByKeyPermutes` | lib/libasim/src/port.cpp:119-147 | a stable rearrangement is a permutation |
| `PortWiring.OrderLaws` | lib/libasim/include/asim/port.h:932-944 | the comparison of ports is a total order that keeps the ports of one name and instance together |
| `PortWiring.ArrangedIff` | lib/libasim/include/asim/port.h:932-944 | ports are sorted by the comparison if and only if they are in this order |
| `PortWiring.ConnectAll` | lib/libasim/src/port.cpp:231-475 | succeeds exactly if every name and instance has a read port and its write ports have positive fan-outs that add up to its read ports; then every write port, in creation order, has its block |
| `PortWiring.ConnectGroup` | lib/libasim/src/port.cpp:376-470 | accepts a group exactly if its fan-outs are positive and add up, and wires it as the specification says |
| `PortWiring.ConnectBlocks` | lib/libasim/src/port.cpp:376-452 | without the final count a group is accepted exactly if its fan-outs are positive and as many read ports follow, of whatever name, and is wired to them |
| `PortWiring.GroupResult` | lib/libasim/src/port.cpp:379-452 | every write port of a group is connected to the consecutive block of read ports that starts at the sum of the earlier fan-outs, with buffers 0 to fan-out - 1 and no others, in both directions; other ports stay as they were |
| `PortWiring.ReaderHasWriter` | lib/libasim/src/port.cpp:406-408 | in an accepted group every read port is connected exactly once, to the write port whose block it is in |
| `PortWiring.GroupIsWhole` | lib/libasim/src/port.cpp:312-346 | a group found by scanning the sorted ports is all ports of its name and instance, write ports first |
| `PortWiring.PortChecksCrossGroups` | lib/libasim/src/port.cpp:393-400 | a group with too large a fan-out that passes all checks on single ports and connects a read port of another name |
| `PortWiring.StaysInGroupIff` | lib/libasim/src/port.cpp:376-452 | what is wired without the final count is all of the group's own name if and only if the fan-outs do not exceed its read ports |
| `TraceReplay.Tracing.SetTraceableName` | lib/libasim/src/trace.cpp:112-132 | a named object gets the status that the saved rules give its name |
| `TraceReplay.Tracing.EnableTraceByRegex` | lib/libasim/src/trace.cpp:144-187 | a rule is saved and applied to every object; an invalid expression changes nothing |
| `TraceReplay.Tracing.Delay` | lib/libasim/src/trace.cpp:218-235 | takes back all saved rules and switches the matching objects to level zero |
| `TraceReplay.Tracing.Go` | lib/libasim/src/trace.cpp:248-258 | applies the rules again and saves them behind those added meanwhile |
| `TraceReplay.Tracing.Copy` | lib/libasim/src/trace.cpp:81-96 | a copy of an object keeps the agreement of status and rules |
| `TraceReplay.Tracing.Destroy` | lib/libasim/src/trace.cpp:98-110 | a destroyed object leaves the list and no other does |
| `TraceReplay.Tracing.NewTraceable` | lib/libasim/src/trace.cpp:57-79 | a new object joins the list untraced and without a name |
| `TraceReplay.Tracing.OrderDoesNotMatter` | lib/libasim/src/trace.cpp:112-187 | for every named object what is traced is the left-to-right fold of the saved rules, in whatever order objects were named, rules added and delays started and ended; flag and level are too, exactly unless no saved rule matches and one that did was taken back after the object was named |
| `TraceReplay.LastMatchDecides` | lib/libasim/src/trace.cpp:134-142 | the fold is decided by the last rule that matches |
| `TraceReplay.FoldTraces` | lib/libasim/src/trace.cpp:112-142 | a name without a matching rule is not traced and at level 1; otherwise the levels of the last matching rule are traced |
| `TraceReplay.CaptureExpected` | lib/libasim/src/trace.cpp:218-235 | taking back all rules leaves every named object with the status that its history calls for |
| `TraceReplay.GoExpected` | lib/libasim/src/trace.cpp:248-258 | so does applying any rules again |
| `TraceReplay.RulesKept` | lib/libasim/src/trace.cpp:218-258 | every rule ever taken back is saved again or belongs to a pending action |
| `TraceReplay.ExactOutsideDelay` | lib/libasim/src/trace.cpp:218-258 | flag and level differ from the fold exactly for objects that were named before a matching rule was taken back and that no saved rule matches, and then an action with a matching rule is pending |
| `ColumnShadows.Shadows.ShadeColumn` | lib/libagt/src/ColumnShadows.cpp:76-84 | membership of exactly one column changes, and none for a column that does not exist, including the negative ones that address the first byte |
| `ColumnShadows.Shadows.Resize` | lib/libagt/src/ColumnShadows.cpp:56-73 | keeps exactly the shaded columns below the new size |
| `ColumnShadows.Shadows.Clear` | lib/libagt/src/ColumnShadows.cpp:91-95 | no column is shaded afterwards |
| `ColumnShadows.Shadows.CountShadowedColumns` | lib/libagt/src/ColumnShadows.cpp:98-106 | the count is the size of the set |
| `ColumnShadows.Shadows.SaveShadows` | lib/libagt/src/ColumnShadows.cpp:109-126 | writes the magic number, the count, and the shaded columns in ascending order |
| `ColumnShadows.Shadows.LoadShadows` | lib/libagt/src/ColumnShadows.cpp:129-154 | adds the listed columns that exist, whatever reading behind the end gives; another format is refused and changes nothing |
| `ColumnShadows.RoundTrip` | lib/libagt/src/ColumnShadows.cpp:108-154 | saving and loading into a cleared vector of the same width gives back the same set |
| `ColumnShadows.SaveThenLoad` | lib/libagt/src/ColumnShadows.cpp:108-154 | loading into any vector adds exactly the saved columns that it has |
| `StripChart.SeesIff` | lib/libasim/src/stripchart.cpp:264-265 | a sampling period sees every cycle that is a multiple of a requested period if and only if it divides the general period, so no longer one does; periods of zero request nothing |
| `StripChart.Charts.RequestedIsDue` | lib/libasim/src/stripchart.cpp:311-311 | with dumping enabled every cycle that is a multiple of a requested period gets a record |
| `StripChart.Charts.RegisterStripChart` | lib/libasim/src/stripchart.cpp:244-283 | keeps the general period the greatest common divisor of all periods and the counters those of the table, and writes the chart's header with its description and processor number; it ends exactly if they have room |
| `StripChart.Charts.Dump` | lib/libasim/src/stripchart.cpp:299-325 | adds a record with the cycle and all values if and only if the cycle is sampled, and resets the values; charts may share a data array |
| `StripChart.Charts.DumpRAWString` | lib/libasim/src/stripchart.cpp:329-349 | ends exactly if the text fits and fewer than 2^32 spaces are missing, and then adds a marker record that is padded to the common length |
| `StripChart.Charts.FileLayout` | lib/libasim/src/stripchart.cpp:218-232 | since the last registration the file has `lines` more records, all of one length, and each reads back as what was written |
| `StripChart.EncodeRoundTrip` | lib/libasim/src/stripchart.cpp:312-318 | every record has the common length, begins with 0 for data and 1 for a marker, and reads back, a marker with its padding |
| `StripChart.CountersLayout` | lib/libasim/src/stripchart.cpp:218-232 | the six counters stand in the file in this order and read back |
| `StripChart.HeaderLayout` | lib/libasim/src/stripchart.cpp:271-277 | position, name and parameters of a chart stand in its header at fixed places and read back |
| `StripChart.Charts.PositionFindsValue` | lib/libasim/src/stripchart.cpp:271-318 | the position in a chart's header is the word of every record from which its values stand |
| `StripChart.PaddingEndsIff` | lib/libasim/src/stripchart.cpp:344-344 | the padding loop with its 32-bit counter ends if and only if the text fits and fewer than 2^32 spaces are missing, or the difference wraps around to so few |
| `StripChart.RoundsArePadding` | lib/libasim/src/stripchart.cpp:344-344 | if it ends it has written exactly the difference |
| `StripChart.LongTextNeverEnds` | lib/libasim/src/stripchart.cpp:344-344 | a text of 17 characters where there is room for 16 makes it run for ever |
| `StripChart.FieldReadsBack` | lib/libasim/src/stripchart.cpp:117-129 | a stored description has no spaces, so reading it up to the first space of the padding gives it back |
| `StripChart.NamesApart` | lib/libasim/src/stripchart.cpp:109-129 | charts with one description and different processor numbers have different stored names |

## Left out

- Widths: cycles, counters and the times of long runs are unbounded; the 64-bit width is modelled for the base frequency, the steps, the first times and the padding of texts.
- Floating point: frequencies start as integers, and the lookahead as a number of base units; the conversion and its rounding are not modelled.
- Refused requests: a failed check ends the simulation; here the method reports it, and a refused frequency change of a callback has no effect, so that runs up to that point are covered.
- The choice between the variants at the head of `Clock`, the choice of another reference domain, `UnregisterAll`, and the assignment of threads to modules.
- ClockServer.ClockServer.RegisterClock: clock numbers are 16 bits wide and assigned only while DRAL events run; here every new clock number is new, and events run.
- FuzzyBarrier.RefinesSequential: callbacks do not change frequencies in the threaded protocols, because the check of the lookahead is made only once, at the start.
- PhaseBarrier.RefinesSequentialIff: the same holds here, and the loop that takes the due registries off the list has the emptiness test that the sequential clock has; the source's loop reads the front of an empty list when all registries are due at once.
- The older variant of the basic barrier with one flag for each worker, thread creation, forced exit, condition variables, yield and retry counts, and weak memory.
- The lock-free variant and the ring of event instances: whether a dynamic task is ready or done and its time are readings of the environment.
- The AlwaysEarliest scheduler, whose exit path takes a task without taking it off the queue, and the scheduler of a main thread that is no worker, which does nothing.
- DRAL events except for the sharing of clock numbers, profiling, statistics, and messages.
- PortWiring.ConnectAll: peek ports, phase ports, data types, bandwidth and latency are not modelled, so the checks that concern them are taken as passed; the assertion on the final count of read ports is taken as compiled in.
- Regular expressions: matching and validity are arbitrary predicates.
- Objects whose flag or name is set directly, and the unconditional traceable, are not covered by the statements on named objects.
- ColumnShadows.Shadows.ShadeColumn: a column of -8 or less, which would address memory in front of the vector, is not modelled; neither is it in ColumnShadows.Shadows.LoadShadows.
- StripChart.Charts.Dump: a general period of zero, by which the source would divide, and arrays that overlap in part are not modelled.
- StripChart.Charts.RegisterStripChart: a full table, which fails an assertion, and a string of 2^63 characters are excluded.
