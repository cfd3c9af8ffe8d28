# A verified model of the Petri-net scheduler core

This project models the core of a FreeBSD scheduler that drives its scheduling decisions through a
two-level Petri net, together with the load-adaptive CPU controller and the telemetry that feeds it.

- **The local net** (`LocalNet`, `src/kern/sched_petri.c`). Every thread carries a marking over five
  places: INACTIVE, CAN_RUN, RUNQ, RUNNING and INHIBITED. Seven transitions share one incidence
  matrix and there are no inhibitor arcs. Every column moves one token, so an initialised thread
  always holds exactly one token, and the place holding it is the thread's state.
- **The resource net** (`GlobalNetSpec` for the definitions, `GlobalNet.ResourceNet` for the kernel
  state, `src/kern/petri_global_net.c`). There are 5N+3 places and 10N+3 transitions for N CPUs.
  - Each CPU owns a copy of a 5×10 template block. The global queue and the two SMP bring-up places
    come after the per-CPU blocks.
  - SMP_NOT_READY inhibits queueing and execution until START_SMP fires once.
  - Firing a resource transition may fire a hierarchical transition of the acting thread's local net.
  - The module picks the transition that queues a thread: the CPU pinned to its process, else its
    last CPU, else the first CPU that can take it, else the global queue.
  - It keeps a pin table (`monopolized_cpus_per_proc`) and suspends or wakes CPUs.
- **The controller** (`ToggleActiveCpu`, `src/sys/stats/toggle_active_cpu.c`). Four timer callbacks:
  - one blends a user-load bucket and a process-need bucket into `stats_score`;
  - one suspends the idlest CPU after a run of low readings;
  - one wakes a suspended CPU when load or a CPU request appears;
  - one releases pins whose owner is no longer ranked and grants free CPUs to ranked requesters.
- **The telemetry** (`CpuStats`, `src/sys/stats/cpu_stats.c`; `ThreadStats`,
  `src/sys/stats/thread_stats.c`):
  - per-CPU tick counters and their deltas;
  - process and thread activity counters;
  - per-class process counts;
  - the table of CPU monopolization requests, in which a requester takes the first free slot or
    evicts the least prioritized one.

State that the C code updates in place is modelled as classes with array fields and `modifies`
clauses: the resource net, a thread's marking, the CPU-stats table, the thread sampler and the
controller. Every method is proved against a specification function. The properties the code
relies on are proved about those functions as lemmas.

- Header constants that are not part of this model are declared in the order of the name tables
  that list them. This covers the local places and transitions, the need classes, the CPU modes and
  the load buckets (ordered by `calc_load_score`). NOCPU is -1.
- C's truncating division is modelled by `CArith.CDiv`.
- Kernel inputs become parameters:
  - `curthread`, `smp_started` and `curthread->td_priority`;
  - the process list, as a sequence of `Proc` values whose ELF metadata is already decoded;
  - each thread's `sched_estcpu`/`sched_pctcpu`;
  - each CPU's `cp_time`;
  - every sysctl read, as an `Option` where `None` is a failed read.

## Model

| member | source | states |
|---|---|---|
| SchedPetriH.TransitionDecompose | src/sys/sched_petri.h:13-16 | TRANSITION(cpu, t) splits back into cpu (by `/ 10`) and t (by `% 10`) for every kind t in 0..9 |
| SchedPetriH.PlaceLayout | src/sys/sched_petri.h:14-20 | PLACE(c, p) for p in 0..4 lies below 5N, and two (cpu, place) pairs give the same index iff they are equal |
| SchedPetriH.TransitionLayout | src/sys/sched_petri.h:13-21 | TRANSITION(c, t) for t in 0..9 lies below 10N, and two (cpu, kind) pairs give the same index iff they are equal |
| LocalNet.ColumnSumsZero | src/kern/sched_petri.c:9-15 | every column of the local incidence matrix sums to zero |
| LocalNet.Sensitized | src/kern/sched_petri.c:51-62 | on a marking without negative places, a transition is sensitized iff adding its column leaves no place negative |
| LocalNet.Fire | src/kern/sched_petri.c:64-74 | only a sensitized transition changes the marking, and firing never makes a place negative |
| LocalNet.FirePreservesTotal | src/kern/sched_petri.c:64-74 | firing, sensitized or not, never changes the number of tokens |
| LocalNet.FireKeepsNonNegative | src/kern/sched_petri.c:51-69 | firing a sensitized transition keeps every place non-negative |
| LocalNet.OneTokenInvariant | src/kern/sched_petri.c:9-18 | a marking with exactly one token keeps exactly one token whatever transition is fired |
| LocalNet.OneTokenIsAPlace | src/kern/sched_petri.c:9-18 | a one-token marking is the marking with its token in a single place |
| LocalNet.TransitionEffect | src/kern/sched_petri.c:9-26 | on a one-token thread each transition is sensitized iff the token is in its source place (INIT: INACTIVE, ON_QUEUE: CAN_RUN, …) and then moves it to its target place, a table stated independently of the matrix |
| LocalNet.Thread.InitPetriThread | src/kern/sched_petri.c:31-39 | the marking becomes the one-token marking in CAN_RUN and `td_frominh` is cleared |
| LocalNet.Thread.InitPetriThread0 | src/kern/sched_petri.c:41-49 | the marking becomes the one-token marking in RUNNING and `td_frominh` is cleared |
| LocalNet.Thread.TransitionIsSensitized | src/kern/sched_petri.c:51-62 | the place scan answers true iff no place with a negative arc would go negative |
| LocalNet.Thread.PetriFire | src/kern/sched_petri.c:64-74 | the marking gains column t when t is sensitized and is left unchanged when it is not |
| LocalNet.WakeupIfNeeded | src/kern/sched_petri.c:76-83 | without a thread, or with `td_frominh` ≠ 1, nothing changes; otherwise WAKEUP fires when sensitized and the flag is cleared in every case; the thread's last CPU and mask are never touched |
| GlobalNetSpec.GlobalLayout | src/kern/petri_global_net.c:94-108 | 5N+3 places and 10N+3 transitions; the global queue, SMP_NOT_READY and SMP_READY follow the CPU blocks, and REMOVE_GLOBAL_QUEUE = PER_CPU_LAST_TRANSITION = 10N, START_SMP and QUEUE_GLOBAL come next |
| GlobalNetSpec.Inc | src/kern/petri_global_net.c:131-169 | every arc weight of the built incidence matrix is -1, 0 or 1; a CPU's transitions have arcs only to that CPU's places and the global queue; START_SMP has arcs exactly to SMP_NOT_READY and SMP_READY |
| GlobalNetSpec.Inh | src/kern/petri_global_net.c:148-169 | every entry of the built inhibition matrix is 0 or 1; only per-CPU transitions are inhibited, by a place of their own CPU or by SMP_NOT_READY |
| GlobalNetSpec.InitialMarkShape | src/kern/petri_global_net.c:171-179 | the initial marking satisfies the net invariant: CPU 0 executing, every other CPU available, SMP not ready, empty global queue |
| GlobalNetSpec.CpuColumnSum | src/kern/petri_global_net.c:32-40 | the CPU, EXECUTING and TOEXEC rows of every CPU sum to zero in every column of the built matrix |
| GlobalNetSpec.FirePreservesMarkInv | src/kern/petri_global_net.c:260-288 | firing a sensitized transition keeps all places non-negative, one token per CPU among CPU/EXECUTING/TOEXEC, and one SMP token |
| GlobalNetSpec.FireRequested | src/kern/petri_global_net.c:241-251 | the requested firing, performed or dropped, keeps the net invariant |
| GlobalNetSpec.StartSmpIfDue | src/kern/petri_global_net.c:236-239 | once smp_set is clear and SMP has started, one token moves from SMP_NOT_READY to SMP_READY and no other place changes; otherwise the marking is untouched |
| GlobalNetSpec.StartSmpEffect | src/kern/petri_global_net.c:136-141 | with the token in SMP_NOT_READY, START_SMP is sensitized and moves it to SMP_READY, touching nothing else and keeping the invariant |
| GlobalNetSpec.SmpNotReadyInhibits | src/kern/petri_global_net.c:160-168 | while SMP_NOT_READY is marked no CPU's ADDTOQUEUE is sensitized, nor EXEC or FROM_GLOBAL_CPU of any CPU but 0 |
| GlobalNetSpec.AddToQueueSensitizedIff | src/kern/petri_global_net.c:274-288 | a CPU's ADDTOQUEUE is sensitized iff the CPU is not suspended and SMP is ready |
| GlobalNetSpec.SuspendWakeupSensitization | src/kern/petri_global_net.c:32-49 | SUSPEND is always sensitized; WAKEUP is sensitized iff SUSPENDED holds a token |
| GlobalNetSpec.SuspendTwiceNeedsTwoWakeups | src/kern/petri_global_net.c:339-366 | suspending a suspended CPU succeeds and leaves two tokens, so one wakeup leaves its queue closed |
| GlobalNetSpec.LocalTransitionFor | src/kern/petri_global_net.c:51-69 | the hierarchical map by transition kind yields 0 or a local transition |
| GlobalNetSpec.HierarchicalScan | src/kern/petri_global_net.c:209-220 | the first match of the table scan selects exactly the local transition that the kind map gives, and no match means 0 |
| GlobalNetSpec.HierarchicalConsistency | src/kern/petri_global_net.c:51-69 | a thread in CAN_RUN reaches RUNQ on ADDTOQUEUE or QUEUE_GLOBAL, a queued one RUNNING on EXEC, a running one INHIBITED on RETURN_VOL and CAN_RUN on RETURN_INVOL |
| GlobalNetSpec.OneTokenFire | src/kern/sched_petri.c:9-15 | a one-token thread fires a local transition from its source place to its target place |
| GlobalNetSpec.BlockEntry | src/kern/petri_global_net.c:148-157 | the entry init_cpu_matrix writes at (PLACE(c, p), TRANSITION(c, t)) is template entry (p, t) of both matrices |
| GlobalNetSpec.FirstPinnedBy | src/kern/petri_global_net.c:428-437 | the result is -1 iff no CPU from `from` is pinned to pid, else the lowest such CPU |
| GlobalNetSpec.FirstFit | src/kern/petri_global_net.c:314-323 | QUEUE_GLOBAL iff no CPU from `cpu` on can take the thread, else the ADDTOQUEUE of the lowest CPU that can |
| GlobalNetSpec.ChooseCpu | src/kern/petri_global_net.c:296-324 | the chosen transition is always some CPU's ADDTOQUEUE or QUEUE_GLOBAL |
| GlobalNetSpec.ChooseCpuPrecedence | src/kern/petri_global_net.c:296-324 | the answer is the lowest pinned CPU's ADDTOQUEUE, else the last CPU's when it is in the mask, sensitized and available, else the lowest such CPU's, else QUEUE_GLOBAL |
| GlobalNetSpec.ChooseCpuBeforeSmp | src/kern/petri_global_net.c:296-324 | before SMP is ready, a thread whose process pins no CPU is sent to the global queue |
| GlobalNetSpec.ChooseCpuRespectsPins | src/kern/petri_global_net.c:296-324 | the chosen CPU is free or pinned to the thread's own process |
| GlobalNetSpec.TogglePin | src/kern/petri_global_net.c:384-405 | the outcome changes only the entry of `cpu`, and a refusal changes nothing |
| GlobalNetSpec.TogglePinKeepsShape | src/kern/petri_global_net.c:384-405 | CPU 0 stays unpinned and every pin stays a valid pid (≥ 1) |
| GlobalNetSpec.PinExclusive | src/kern/petri_global_net.c:384-405 | after a successful pin the CPU is unavailable to every other process, their attempts fail, and the owner's repeated attempt succeeds without change |
| GlobalNetSpec.ReleaseFrees | src/kern/petri_global_net.c:392-399 | a release frees the CPU whoever held it; any valid pid can then pin it iff it is not suspended |
| GlobalNetSpec.PinnedProcessGoesToItsCpu | src/kern/petri_global_net.c:296-324 | after a process pins a CPU, with no lower CPU pinned to it, its threads are queued on that CPU |
| GlobalNetSpec.ReturnFreesCpu | src/kern/petri_global_net.c:326-337 | RETURN_VOL and RETURN_INVOL are sensitized iff the CPU is executing, and firing either makes it available again |
| GlobalNet.AddIncidenceColumn | src/kern/petri_global_net.c:265-267 | the place loop adds column t of the incidence matrix to the marking |
| GlobalNet.ResourceNet.constructor | src/kern/petri_global_net.c:191-201 | a valid net with the initial marking, built matrices, the extended hierarchical table, smp_set clear and the pin table all -1 |
| GlobalNet.ResourceNet.CopyTemplateRow | src/kern/petri_global_net.c:153-156 | one row of the template is copied onto CPU c's block of both matrices |
| GlobalNet.ResourceNet.AddCpuGlobalArcs | src/kern/petri_global_net.c:159-168 | after the block copy, the global-queue and SMP_NOT_READY arcs make the matrices correct for CPUs 0..c |
| GlobalNet.ResourceNet.InitCpuMatrix | src/kern/petri_global_net.c:148-169 | the matrices become correct for CPU c's transitions as well |
| GlobalNet.ResourceNet.InitCpuMark | src/kern/petri_global_net.c:171-179 | the marking is initial for CPU c's places as well |
| GlobalNet.ResourceNet.InitPerCpuResources | src/kern/petri_global_net.c:181-189 | every CPU's matrix block and marking are initialised |
| GlobalNet.ResourceNet.InitGlobalResources | src/kern/petri_global_net.c:122-146 | the global arcs, the hierarchical table and the SMP token complete the structure, and every pin is -1 |
| GlobalNet.ResourceNet.IsInhibited | src/kern/petri_global_net.c:203-207 | agrees with the inhibition rule on the built matrix |
| GlobalNet.ResourceNet.TransitionIsSensitized | src/kern/petri_global_net.c:274-288 | the place scan answers the sensitization rule over both matrices, changing nothing |
| GlobalNet.ResourceNet.IsHierarchical | src/kern/petri_global_net.c:209-220 | the table scan returns the local transition of the kind map |
| GlobalNet.ResourceNet.IsCpuSuspended | src/kern/petri_global_net.c:222-226 | a CPU is suspended iff its WAKEUP is sensitized |
| GlobalNet.ResourceNet.FireSingleTransition | src/kern/petri_global_net.c:260-272 | column t is added unconditionally, and the thread's hierarchical local transition fires when there is one |
| GlobalNet.ResourceNet.FireNet | src/kern/petri_global_net.c:232-253 | without a thread nothing changes; otherwise START_SMP fires once, when SMP is first seen started, then the request fires iff sensitized; the net invariant is kept |
| GlobalNet.ResourceNet.GetMonopolizedCpuByProcId | src/kern/petri_global_net.c:428-437 | the lowest CPU pinned to pid, or -1; never CPU 0 for a real pid |
| GlobalNet.ResourceNet.CpuAvailableForProc | src/kern/petri_global_net.c:421-426 | the CPU is free or pinned to pid |
| GlobalNet.ResourceNet.ResourceChooseCpu | src/kern/petri_global_net.c:296-324 | the returned transition is the one of the precedence proved in ChooseCpuPrecedence |
| GlobalNet.ResourceNet.FirstFitScan | src/kern/petri_global_net.c:314-321 | the loop over the ADDTOQUEUE transitions returns the first fit, else QUEUE_GLOBAL |
| GlobalNet.ResourceNet.ResourceExpulseThread | src/kern/petri_global_net.c:326-337 | RETURN_VOL with `td_frominh` = 1 on a voluntary switch, RETURN_INVOL with 0 otherwise, on the last CPU, fired as FireNet fires |
| GlobalNet.ResourceNet.ToggleActiveCpu | src/kern/petri_global_net.c:339-366 | refused for CPU ≤ 0, ≥ N or before SMP_READY; otherwise succeeds iff SUSPEND/WAKEUP is sensitized, and then fires it |
| GlobalNet.ResourceNet.TurnOffCpu | src/kern/petri_global_net.c:368-374 | the CPU is suspended when in 1..N-1 and SMP is ready; otherwise nothing changes |
| GlobalNet.ResourceNet.TurnOnCpu | src/kern/petri_global_net.c:376-382 | a suspended CPU in 1..N-1 is woken once SMP is ready; otherwise nothing changes |
| GlobalNet.ResourceNet.SuspendedForPin | src/kern/petri_global_net.c:222-226 | a CPU counts as suspended for pinning iff it is in 1..N-1 and its WAKEUP is sensitized |
| GlobalNet.ResourceNet.TogglePinCpuToProc | src/kern/petri_global_net.c:384-405 | the return value and the new pin table are TogglePin's, and the net stays valid |
| GlobalNet.ResourceNet.ReleaseCpu | src/kern/petri_global_net.c:407-412 | the release outcome of TogglePin |
| GlobalNet.ResourceNet.MonopolizeCpu | src/kern/petri_global_net.c:414-419 | the monopolize outcome of TogglePin |
| GlobalNet.ResourceNet.GetMonopolizedCpus | src/kern/petri_global_net.c:439-444 | the first N entries of dst become the pin table and the rest are untouched |
| CpuStats.SumMinus | src/sys/stats/cpu_stats.c:104-116 | the sum of the deltas is the new total minus the old one |
| CpuStats.RepeatedSampleHasNoDelta | src/sys/stats/cpu_stats.c:107-116 | sampling the same counters twice gives all-zero deltas and a zero delta total |
| CpuStats.CpuStatsTable.constructor | src/sys/stats/cpu_stats.c:41 | one zeroed entry per CPU |
| CpuStats.CpuStatsTable.CalcCpuStats | src/sys/stats/cpu_stats.c:101-117 | entry cpu gets the new ticks, the deltas against the old ticks, and both totals; delta_total equals the new sum minus the old; no other entry changes |
| CpuStats.CpuStatsTable.ReadCpuStats | src/sys/stats/cpu_stats.c:80-87 | every CPU's entry is recomputed from its own counters |
| ThreadStats.IsIdleProc | src/sys/stats/thread_stats.c:223-227 | true iff the name is exactly "idle" |
| ThreadStats.NeedClass | src/sys/stats/thread_stats.c:131-173 | none for the idle process; STANDARD without metadata; otherwise a class iff some class name prefixes the type, and then one that does |
| ThreadStats.NeedClassesExclusive | src/sys/stats/thread_stats.c:164-171 | at most one class name prefixes any type |
| ThreadStats.CountNeed | src/sys/stats/thread_stats.c:164-173 | no counter decreases, and the total grows by one exactly when the process has a need class |
| ThreadStats.NeedsOf | src/sys/stats/thread_stats.c:101-112 | the rebuilt counters are non-negative and count at most one class per process |
| ThreadStats.NoMetadataMeansStandard | src/sys/stats/thread_stats.c:172-173 | non-idle processes without metadata are all counted as STANDARD and nowhere else |
| ThreadStats.ThreadActivity | src/sys/stats/thread_stats.c:209-220 | a process has no active thread iff its summed estcpu and pctcpu are zero, iff no thread has CPU time |
| ThreadStats.Step | src/sys/stats/thread_stats.c:182-221 | each process counts once in procs_in_system and its threads in threads_in_system; it is active at most once; its estcpu is booked to idle or work only when it is active, and to idle only for the idle process |
| ThreadStats.Tally | src/sys/stats/thread_stats.c:84-98 | after a cycle procs_in_system is the list length, threads_in_system the number of threads, and the active counts are bounded by them |
| ThreadStats.NoIdleProcNoIdleEstcpu | src/sys/stats/thread_stats.c:186-190 | without an idle process, no CPU time is booked as idle |
| ThreadStats.ProcActiveIffThreadActive | src/sys/stats/thread_stats.c:182-221 | a process counts as active iff one of its threads had CPU time; it always counts in procs_in_system |
| ThreadStats.FirstFree | src/sys/stats/thread_stats.c:144-148 | the first unrequested slot from lo, or -1 when all are requested |
| ThreadStats.Scan | src/sys/stats/thread_stats.c:140-154 | the scan keeps the first slot with the largest priority number above -1000, or (-1, -1000) |
| ThreadStats.ChosenSlot | src/sys/stats/thread_stats.c:140-154 | as written, the slot index the scan ends with is -1 or in 1..N-1 |
| ThreadStats.SingleCpuChoosesNoSlot | src/sys/stats/thread_stats.c:140-157 | with one CPU the scan ends at index -1, the slot the source then reads and writes |
| ThreadStats.NoSlotIff | src/sys/stats/thread_stats.c:140-157 | the index is -1 iff every slot 1..N-1 is requested at priority ≤ -1000 |
| ThreadStats.ClaimSlot | src/sys/stats/thread_stats.c:156-161 | at most one slot changes, slot 0 never, and it changes only to (true, pid, priority) |
| ThreadStats.ClaimTakesFirstFree | src/sys/stats/thread_stats.c:140-161 | a free slot among 1..N-1 always goes to the requester: the first one |
| ThreadStats.ClaimEvictsLeastPrioritized | src/sys/stats/thread_stats.c:150-161 | with every slot taken, a request evicts iff some holder has a larger priority number, and then one with the largest |
| ThreadStats.ClaimStep | src/sys/stats/thread_stats.c:134-161 | a process that does not ask for a CPU leaves the table alone; a requester changes slots only to its own request, and never slot 0 |
| ThreadStats.ClaimAll | src/sys/stats/thread_stats.c:101-112 | over a whole rebuild slot 0 is never handed out and a requested slot stays requested |
| ThreadStats.ClaimAllOnlyGrantsRequesters | src/sys/stats/thread_stats.c:101-112 | after a rebuild every slot is as before or holds a requester from the list; slot 0 is never handed out |
| ThreadStats.LoadTable | src/sys/stats/thread_stats.c:49-55 | at load no slot is requested |
| ThreadStats.ClearedTable | src/sys/stats/thread_stats.c:102-107 | at the start of a rebuild no slot is requested |
| ThreadStats.FirstRequesterGetsSlotOne | src/sys/stats/thread_stats.c:140-161 | with two or more CPUs, the first requester of a rebuild gets slot 1 |
| ThreadStats.ClaimFillsNext | src/sys/stats/thread_stats.c:140-161 | while fewer than N-1 slots are held, the next request of a rebuild takes the next free slot |
| ThreadStats.ClaimFullKeepsTable | src/sys/stats/thread_stats.c:140-161 | with slots 1..N-1 all held at the requester's own priority, a request evicts nobody |
| ThreadStats.RebuildFillsSlotsInOrder | src/sys/stats/thread_stats.c:101-112 | all requests of a rebuild carry the sampler's priority, so the first N-1 requesters get slots 1.. in list order and later ones nothing |
| ThreadStats.Sampler.constructor | src/sys/stats/thread_stats.c:49-55 | the request table as loaded, zero counters, and no previous process count |
| ThreadStats.Sampler.GetThreadsInProcStats | src/sys/stats/thread_stats.c:204-221 | returns the process's summed estcpu and pctcpu over active threads, and adds its active and total threads to the counters |
| ThreadStats.Sampler.GetSysStatsFromProcs | src/sys/stats/thread_stats.c:182-195 | always counts the process; only when it had CPU time counts it active and books estcpu as idle or work |
| ThreadStats.Sampler.LeastPrioritizedSlot | src/sys/stats/thread_stats.c:140-154 | the scan loop ends with ChosenSlot's index and priority |
| ThreadStats.Sampler.GetProcMetadataSchedInfo | src/sys/stats/thread_stats.c:125-174 | the request table gets ClaimSlot's update for a requester (guarded against index -1), and the process is counted under its need class |
| ThreadStats.Sampler.CountProc | src/sys/stats/thread_stats.c:92-96 | one process's contribution to the activity counters |
| ThreadStats.Sampler.CountActivity | src/sys/stats/thread_stats.c:84-98 | the counters are reset and end as the tally of the whole list |
| ThreadStats.Sampler.Rebuild | src/sys/stats/thread_stats.c:101-112 | need counters and request table are rebuilt from scratch over the list |
| ThreadStats.Sampler.ReadThreadStats | src/sys/stats/thread_stats.c:76-123 | activity recounted every cycle; needs and requests rebuilt iff the process count changed, untouched otherwise; the count remembered; the published copy equal to the working one |
| ToggleActiveCpu.CalcLoadScore | src/sys/stats/toggle_active_cpu.c:214-229 | bucket r covers exactly the scores from threshold r-1 below threshold r |
| ToggleActiveCpu.BucketUnique | src/sys/stats/toggle_active_cpu.c:214-229 | every score lies in exactly one bucket |
| ToggleActiveCpu.CalcLoadScoreMonotone | src/sys/stats/toggle_active_cpu.c:214-229 | a higher score never gets a lower bucket |
| ToggleActiveCpu.ProcessesNeedScore | src/sys/stats/toggle_active_cpu.c:415-444 | -1 iff the class counts plus one sum to zero or less (no percentage can be taken), otherwise a load bucket |
| ToggleActiveCpu.LowperfOnlyIsIdle | src/sys/stats/toggle_active_cpu.c:418-443 | however many LOWPERF processes there are, the need score stays LOAD_IDLE |
| ToggleActiveCpu.ManyCriticalIsSevere | src/sys/stats/toggle_active_cpu.c:418-443 | from 49 CRITICAL processes on, the need score is LOAD_SEVERE |
| ToggleActiveCpu.StatsScore | src/sys/stats/toggle_active_cpu.c:150 | two equal readings blend to that same reading |
| ToggleActiveCpu.StatsScoreBetween | src/sys/stats/toggle_active_cpu.c:150 | the 80/20 blend of two buckets lies between them |
| ToggleActiveCpu.FirstMaxIdle | src/sys/stats/toggle_active_cpu.c:257-264 | the first CPU among 1..hi-1 with the largest idle percentage |
| ToggleActiveCpu.IdlestCpu | src/sys/stats/toggle_active_cpu.c:237-270 | a CPU in 1..N-1 with non-zero, largest idle percentage (first on ties), or -1 exactly when there are no stats, a CPU sampled no ticks, or every idle percentage is 0 |
| ToggleActiveCpu.IdlePcts | src/sys/stats/toggle_active_cpu.c:248-253 | None iff some CPU sampled no ticks, else every CPU's idle percentage |
| ToggleActiveCpu.GetIdlestCpu | src/sys/stats/toggle_active_cpu.c:237-270 | the answer of IdlestCpu |
| ToggleActiveCpu.UserPcts | src/sys/stats/toggle_active_cpu.c:358-361 | every CPU's user percentage, 0 when it sampled no ticks |
| ToggleActiveCpu.LoadSum | src/sys/stats/toggle_active_cpu.c:366-367 | the sum of buckets lies between 0 and 5 per CPU |
| ToggleActiveCpu.SumLoads | src/sys/stats/toggle_active_cpu.c:365-370 | the loop yields the sum of the CPUs' buckets and the number of CPUs not marked off |
| ToggleActiveCpu.UserLoad | src/sys/stats/toggle_active_cpu.c:347-373 | always a load bucket |
| ToggleActiveCpu.UniformUserLoad | src/sys/stats/toggle_active_cpu.c:365-372 | with every CPU on and in the same bucket, the user load is that bucket |
| ToggleActiveCpu.CountTrue | src/sys/stats/toggle_active_cpu.c:299-309 | the count reaches the length iff every entry is true |
| ToggleActiveCpu.CountTrueUpdate | src/sys/stats/toggle_active_cpu.c:299-309 | marking one CPU on or off changes the count by exactly that entry |
| ToggleActiveCpu.FirstTrue | src/sys/stats/toggle_active_cpu.c:311-321 | the lowest marked CPU from lo, or -1 when none is marked |
| ToggleActiveCpu.InsertByPrio | src/sys/stats/toggle_active_cpu.c:288 | inserting keeps every entry and adds one |
| ToggleActiveCpu.InsertByPrioSorted | src/sys/stats/toggle_active_cpu.c:231-235 | inserting into a ranked sequence keeps it ranked |
| ToggleActiveCpu.SortByPrio | src/sys/stats/toggle_active_cpu.c:288 | a permutation of the table ordered by non-increasing priority number |
| ToggleActiveCpu.RankedPids | src/sys/stats/toggle_active_cpu.c:287-292 | one pid per slot |
| ToggleActiveCpu.RankedPidsComeFromTable | src/sys/stats/toggle_active_cpu.c:287-292 | every ranked pid is the pid of some slot of the table |
| ToggleActiveCpu.CountRequested | src/sys/stats/toggle_active_cpu.c:282-285 | at most one per slot |
| ToggleActiveCpu.CountPinnedUpdate | src/sys/stats/toggle_active_cpu.c:99-130 | changing one pin changes the count of pinned CPUs by exactly that entry |
| ToggleActiveCpu.AfterRelease | src/sys/stats/toggle_active_cpu.c:99-117 | the release loop keeps the table's length |
| ToggleActiveCpu.GrantFrom | src/sys/stats/toggle_active_cpu.c:119-130 | the grant loop keeps the table's length |
| ToggleActiveCpu.GrantFromFrame | src/sys/stats/toggle_active_cpu.c:122-128 | grants touch only CPUs free in the snapshot, never reduce the pins, and give such a CPU only to the pid ranked just before it while it runs |
| ToggleActiveCpu.GrantFromFills | src/sys/stats/toggle_active_cpu.c:122-128 | ending below MAX_TURNED_OFF, every running CPU free in the snapshot went to the real pid ranked before it |
| ToggleActiveCpu.MonopolizationRound | src/sys/stats/toggle_active_cpu.c:99-130 | a round keeps the table's length |
| ToggleActiveCpu.MonopolizationRoundPromise | src/sys/stats/toggle_active_cpu.c:86-136 | CPU 0 stays free; a running pinned CPU loses its owner iff the owner is unranked; a free CPU stays free or, with requests, goes to the pid ranked before it; below the limit every such CPU is granted |
| ToggleActiveCpu.CheckAfterOff | src/sys/stats/toggle_active_cpu.c:165-168 | the counter is untouched by a reading that is not low and stays within 0..3 |
| ToggleActiveCpu.OffActs | src/sys/stats/toggle_active_cpu.c:165-168 | a callback that goes on to suspend a CPU has reset the counter to 0 |
| ToggleActiveCpu.FourthLowReadingActs | src/sys/stats/toggle_active_cpu.c:165-168 | from a reset counter, low readings 1 to 3 only count and the fourth acts (`check++ >= 3`) |
| ToggleActiveCpu.GetMonopolizationInfo | src/sys/stats/toggle_active_cpu.c:272-297 | returns the number of requested slots among 1..N-1 and writes the ranked pids |
| ToggleActiveCpu.IsRanked | src/sys/stats/toggle_active_cpu.c:104-110 | true iff the owner is among the ranked pids |
| ToggleActiveCpu.Controller.constructor | src/sys/stats/toggle_active_cpu.c:41-48 | no CPU marked off, MAX_TURNED_OFF = N/2-1, counters zero |
| ToggleActiveCpu.Controller.GetNTurnedOff | src/sys/stats/toggle_active_cpu.c:299-309 | the number of CPUs marked off |
| ToggleActiveCpu.Controller.GetOffCpu | src/sys/stats/toggle_active_cpu.c:311-321 | the lowest CPU marked off, or -1 |
| ToggleActiveCpu.Controller.GetUserLoad | src/sys/stats/toggle_active_cpu.c:347-373 | LOAD_NORMAL without stats, otherwise the average bucket over CPUs not marked off, capped at LOAD_SEVERE |
| ToggleActiveCpu.Controller.GetProcsNeeds | src/sys/stats/toggle_active_cpu.c:323-340 | LOAD_NORMAL without stats, otherwise the need score of the class counts |
| ToggleActiveCpu.Controller.TimerStats | src/sys/stats/toggle_active_cpu.c:143-153 | stats_score becomes the truncated 80/20 blend of the two readings |
| ToggleActiveCpu.Controller.SuspendAndMark | src/sys/stats/toggle_active_cpu.c:174-175 | the CPU is suspended when SMP is ready and is marked off in any case; the running thread's local marking is untouched, SUSPEND having no hierarchical transition |
| ToggleActiveCpu.Controller.WakeAndUnmark | src/sys/stats/toggle_active_cpu.c:200-201 | the CPU is woken when suspended and SMP is ready, and is unmarked in any case; the running thread's local marking is untouched |
| ToggleActiveCpu.Controller.TimerTurnOff | src/sys/stats/toggle_active_cpu.c:161-184 | check counts low readings (score below LOAD_NORMAL, no request) and resets when it acts on the fourth; acting below MAX_TURNED_OFF, the idlest CPU, if any, is marked off and, once SMP is ready, suspended; CPU 0 is never marked off and at most N/2-1 CPUs are; the running thread's local marking is untouched |
| ToggleActiveCpu.Controller.TimerTurnOn | src/sys/stats/toggle_active_cpu.c:190-208 | on load or a request, check is reset and the lowest CPU marked off is unmarked, and woken when it is suspended and SMP is ready: one CPU per call; the running thread's local marking is untouched |
| ToggleActiveCpu.Controller.ReleaseStep | src/sys/stats/toggle_active_cpu.c:101-116 | a running CPU pinned to an unranked owner is released, and the pin count follows |
| ToggleActiveCpu.Controller.ReleaseUnranked | src/sys/stats/toggle_active_cpu.c:99-117 | the pin table becomes AfterRelease of the snapshot |
| ToggleActiveCpu.Controller.GrantStep | src/sys/stats/toggle_active_cpu.c:123-127 | a running CPU free in the snapshot is offered to the pid while fewer than MAX_TURNED_OFF CPUs are pinned |
| ToggleActiveCpu.Controller.GrantFree | src/sys/stats/toggle_active_cpu.c:119-130 | the pin table becomes GrantFrom of the released table and the snapshot |
| ToggleActiveCpu.Controller.RankRequests | src/sys/stats/toggle_active_cpu.c:92-94 | a fresh buffer of ranked pids and the requested count |
| ToggleActiveCpu.Controller.SnapshotPins | src/sys/stats/toggle_active_cpu.c:96-97 | a fresh copy of the pin table |
| ToggleActiveCpu.Controller.TimerMonopolization | src/sys/stats/toggle_active_cpu.c:86-136 | cpus_requested is the requested count and the pin table is the MonopolizationRound of the old one; the pin count stays at most MAX_TURNED_OFF |

## Left out

- Unloading the modules (`toggle_active_cpu.c:53-66`, the MOD_UNLOAD branches), the timers and `modlib.c`: they are kernel plumbing.
- Logging and printing (`print_resource_net`, `thread_print_net`, `log_*_stats`, `transitions_names`, the `log_count` counters): they have no effect on state.
- `obtain_stats`, `get_sys_load` and the sysctl handlers. Every telemetry read is an `Option` parameter. `get_sys_load` has no caller.
- The ELF metadata reader (`src/sys/kern/metadata_elf_reader.c`). Its decoded type string and monopolize flag are fields of `Proc`.
- Concurrency. The callouts run without locks; each callback and each firing is modelled as one atomic step.
- Integer widths. C `int`, `long` and `char` matrix cells are unbounded integers here, so overflow is not modelled. The counters involved are far from their limits.
- `qsort`'s order for equal priorities is unspecified. ToggleActiveCpu.SortByPrio fixes one admissible order, a stable insertion sort.
- ToggleActiveCpu.Controller.TimerMonopolization: `monopolized` is a static counter of this callback. The model keeps it equal to the number of pinned CPUs, which assumes no other code pins or releases CPUs.
- GlobalNet.ResourceNet.FireNet: START_SMP is never requested by a caller; the model requires a transition other than START_SMP.
- ToggleActiveCpu.GetIdlestCpu: the source reads CPU 1 unconditionally, so the model requires at least two CPUs. Its caller runs it with the turn-off limit N/2-1 > 0, i.e. four CPUs or more.
- GlobalNet.ResourceNet.ResourceExpulseThread requires the thread's last CPU to be a real CPU. The source uses `td_lastcpu` unchecked; with NOCPU it would name a transition index below 0. The model does not cover that case.
- `get_monopolization_info` reads the table through sysctl and does not check for a failed read. The model takes the table itself.

Behaviour of the code where its comments say otherwise, modelled as the code does it:

- The turn-off callback acts on the fourth consecutive low reading, not the third, because `check++ >= 3` compares the old value (FourthLowReadingActs).
- `get_idlest_cpu` does not skip CPUs that are already off, so it may pick one again; the callback then marks it off again.
- SUSPEND has neither a consuming nor an inhibiting arc, so a suspended CPU can be suspended again and then needs two wakeups (SuspendTwiceNeedsTwoWakeups).
- The grant loop reads the snapshot taken before the releases, so a CPU released in a round is not granted in the same round.
- `compareProcesses` sorts by non-increasing priority number, so index 0 holds the numerically largest priority. In the kernel a larger number is a lower priority, but the comment on the sort says index 0 holds the highest-priority process (SortByPrio, RankedPids).
- Every request of a rebuild carries `curthread`'s priority, the sampler's own, not the requesting process's. No request therefore evicts another (RebuildFillsSlotsInOrder).

## Findings

| source | as written | input that shows it | evidently intended | confidence | as-written member | corrected member |
|---|---|---|---|---|---|---|
| src/sys/stats/thread_stats.c:140-161 | `less_index` starts at -1 and stays -1 when the scan of slots 1..N-1 finds neither a free slot nor a priority above -1000; the code then reads and writes `cpu_monopolization_info[-1]` | CPU_NUMBER = 1 (the loop does not run), or every slot 1..N-1 requested at priority ≤ -1000 | leave the table unchanged when no slot was chosen | not executed | ThreadStats.SingleCpuChoosesNoSlot | ThreadStats.ClaimSlot |
