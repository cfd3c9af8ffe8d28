/**
 * Process and thread telemetry of src/sys/stats/thread_stats.c.
 *
 * Every sampling cycle walks the process list. It counts processes and
 * threads, and counts as active those that had CPU time lately. When the
 * number of processes changed since the previous cycle, it also rebuilds
 * the per-class need counters and the table of CPU monopolization requests.
 * That table has one slot per CPU. Slot 0 is never handed out. A process
 * asking for a CPU takes the first free slot, or else evicts the slot of
 * the least prioritized requester (the largest priority number) when it
 * is itself more urgent.
 *
 * The kernel's process list becomes a sequence of `Proc` values. The
 * metadata the ELF reader decodes becomes a field of `Proc`. The priority
 * of the thread running the sampler (curthread) becomes a parameter.
 */
module ThreadStats {
  import opened Wrappers

  // Process need classes, in the order of the PROC_NEEDS_TYPES names.
  const PROC_LOWPERF := 0
  const PROC_STANDARD := 1
  const PROC_HIGHPERF := 2
  const PROC_CRITICAL := 3
  const N_PROC_NEEDS := 4

  const PROC_NEEDS_TYPES: seq<string> := ["LOWPERF", "STANDARD", "HIGHPERF", "CRITICAL"]

  /** The priority of an empty slot at load, worse than any real one. */
  const UNREQUESTED_PRIO := 10000

  /** Starting value of the scan for the least prioritized requester. */
  const LESS_PRIO_START := -1000

  /** One thread's scheduler estimates (both unsigned in the kernel). */
  datatype ThreadSample = ThreadSample(estcpu: nat, pctcpu: nat)

  /** What the ELF metadata section of a process says about it. */
  datatype Metadata = Metadata(procType: string, monopolize: bool)

  /**
   * A process as the sampler sees it: its command name (without the
   * terminating NUL), pid, threads, and its metadata section. The
   * metadata only matters when `metadataFlag` is 1.
   */
  datatype Proc = Proc(name: string, pid: int, threads: seq<ThreadSample>, metadataFlag: int, metadata: Metadata)

  /** One slot of the monopolization request table. */
  datatype CpuMonopolization = CpuMonopolization(requested: bool, pid: int, prio: int)

  /** The activity counters of struct threads_stats. */
  datatype Activity = Activity(estcpuIdle: int, estcpuWork: int, procsActive: int, procsInSystem: int,
                               threadsActive: int, threadsInSystem: int)

  /** The whole struct threads_stats: activity counters plus need counters. */
  datatype ThreadsStats = ThreadsStats(activity: Activity, procNeeds: seq<int>)

  /** What one process's threads add up to. */
  datatype ProcActivity = ProcActivity(estcpu: int, pctcpu: int, activeThreads: int)

  /** The (slot, priority) pair the request scan ends with. */
  datatype Choice = Choice(index: int, prio: int)

  const NO_ACTIVITY := Activity(0, 0, 0, 0, 0, 0)

  // ---------------------------------------------------------------------
  // Names and need classes

  /** is_idle_proc: the name is "idle" followed directly by the terminator. */
  function IsIdleProc(name: string): (r: bool)
    ensures r <==> name == "idle"
  {
    |name| >= 4 && name[..4] == "idle" && |name| == 4
  }

  /** strncmp(s, pre, strlen(pre)) == 0: `pre` is a prefix of `s`. */
  predicate IsPrefix(pre: string, s: string)
  {
    |pre| <= |s| && s[..|pre|] == pre
  }

  /**
   * The need class a process is counted under: none for the idle process;
   * STANDARD without metadata; otherwise the first class whose name
   * prefixes the decoded type, or none.
   */
  function NeedClass(p: Proc): (r: Option<int>)
    ensures IsIdleProc(p.name) ==> r == None
    ensures !IsIdleProc(p.name) && p.metadataFlag != 1 ==> r == Some(PROC_STANDARD)
    ensures r.Some? ==> 0 <= r.value < N_PROC_NEEDS
    ensures !IsIdleProc(p.name) && p.metadataFlag == 1 ==>
      (r.Some? <==> exists k :: 0 <= k < N_PROC_NEEDS && IsPrefix(PROC_NEEDS_TYPES[k], p.metadata.procType))
    ensures !IsIdleProc(p.name) && p.metadataFlag == 1 && r.Some? ==>
      IsPrefix(PROC_NEEDS_TYPES[r.value], p.metadata.procType)
  {
    if IsIdleProc(p.name) then None
    else if p.metadataFlag != 1 then Some(PROC_STANDARD)
    else if IsPrefix(PROC_NEEDS_TYPES[PROC_LOWPERF], p.metadata.procType) then Some(PROC_LOWPERF)
    else if IsPrefix(PROC_NEEDS_TYPES[PROC_STANDARD], p.metadata.procType) then Some(PROC_STANDARD)
    else if IsPrefix(PROC_NEEDS_TYPES[PROC_HIGHPERF], p.metadata.procType) then Some(PROC_HIGHPERF)
    else if IsPrefix(PROC_NEEDS_TYPES[PROC_CRITICAL], p.metadata.procType) then Some(PROC_CRITICAL)
    else None
  }

  /** The class names start with different letters, so at most one prefixes a type. */
  lemma NeedClassesExclusive(s: string, j: int, k: int)
    requires 0 <= j < N_PROC_NEEDS && 0 <= k < N_PROC_NEEDS
    requires IsPrefix(PROC_NEEDS_TYPES[j], s) && IsPrefix(PROC_NEEDS_TYPES[k], s)
    ensures j == k
  {
    assert PROC_NEEDS_TYPES[j][0] == s[0] == PROC_NEEDS_TYPES[k][0];
  }

  /** The need counters after looking at one more process. */
  function CountNeed(needs: seq<int>, p: Proc): (r: seq<int>)
    requires |needs| == N_PROC_NEEDS
    ensures |r| == N_PROC_NEEDS
    ensures forall k :: 0 <= k < N_PROC_NEEDS ==> needs[k] <= r[k]
    ensures r[0] + r[1] + r[2] + r[3] == needs[0] + needs[1] + needs[2] + needs[3] + (if NeedClass(p).Some? then 1 else 0)
  {
    match NeedClass(p)
    case None => needs
    case Some(k) => needs[k := needs[k] + 1]
  }

  /** The need counters rebuilt from zero over a process list, in list order. */
  function NeedsOf(procs: seq<Proc>): (r: seq<int>)
    ensures |r| == N_PROC_NEEDS
    ensures forall k :: 0 <= k < N_PROC_NEEDS ==> r[k] >= 0
    ensures r[0] + r[1] + r[2] + r[3] <= |procs|
  {
    if procs == [] then [0, 0, 0, 0]
    else CountNeed(NeedsOf(procs[..|procs| - 1]), procs[|procs| - 1])
  }

  /** Processes without metadata all count as STANDARD, and only there. */
  lemma {:induction false} NoMetadataMeansStandard(procs: seq<Proc>)
    requires forall i :: 0 <= i < |procs| ==> !IsIdleProc(procs[i].name) && procs[i].metadataFlag != 1
    ensures NeedsOf(procs) == [0, |procs|, 0, 0]
  {
    if procs != [] {
      NoMetadataMeansStandard(procs[..|procs| - 1]);
    }
  }

  // ---------------------------------------------------------------------
  // Activity counters

  predicate ActiveThread(s: ThreadSample) { s.estcpu > 0 || s.pctcpu > 0 }

  /** What get_threads_in_proc_stats sums over a process's threads. */
  function ThreadActivity(ts: seq<ThreadSample>): (r: ProcActivity)
    ensures 0 <= r.activeThreads <= |ts| && r.estcpu >= 0 && r.pctcpu >= 0
    ensures r.activeThreads == 0 <==> r.estcpu == 0 && r.pctcpu == 0
    ensures r.activeThreads == 0 <==> forall i :: 0 <= i < |ts| ==> !ActiveThread(ts[i])
  {
    if ts == [] then ProcActivity(0, 0, 0)
    else
      var a := ThreadActivity(ts[..|ts| - 1]);
      var s := ts[|ts| - 1];
      if ActiveThread(s) then ProcActivity(a.estcpu + s.estcpu, a.pctcpu + s.pctcpu, a.activeThreads + 1)
      else a
  }

  /** One iteration of the process loop: the thread counters, then the process counters. */
  function Step(a: Activity, p: Proc): (r: Activity)
    ensures r.procsInSystem == a.procsInSystem + 1
    ensures r.threadsInSystem == a.threadsInSystem + |p.threads|
    ensures a.procsActive <= r.procsActive <= a.procsActive + 1
    ensures a.threadsActive <= r.threadsActive <= a.threadsActive + |p.threads|
    ensures r.estcpuIdle + r.estcpuWork
            == a.estcpuIdle + a.estcpuWork + (if r.procsActive > a.procsActive then ThreadActivity(p.threads).estcpu else 0)
    ensures !IsIdleProc(p.name) ==> r.estcpuIdle == a.estcpuIdle
  {
    var t := ThreadActivity(p.threads);
    var a' := a.(threadsActive := a.threadsActive + t.activeThreads,
                 threadsInSystem := a.threadsInSystem + |p.threads|);
    if t.estcpu > 0 || t.pctcpu > 0 then
      if IsIdleProc(p.name) then
        a'.(estcpuIdle := a'.estcpuIdle + t.estcpu, procsActive := a'.procsActive + 1,
            procsInSystem := a'.procsInSystem + 1)
      else
        a'.(estcpuWork := a'.estcpuWork + t.estcpu, procsActive := a'.procsActive + 1,
            procsInSystem := a'.procsInSystem + 1)
    else a'.(procsInSystem := a'.procsInSystem + 1)
  }

  /** Number of threads over a process list. */
  function TotalThreads(procs: seq<Proc>): nat
  {
    if procs == [] then 0 else TotalThreads(procs[..|procs| - 1]) + |procs[|procs| - 1].threads|
  }

  /** The activity counters of a whole cycle, from the reset values. */
  function Tally(procs: seq<Proc>): (r: Activity)
    ensures r.procsInSystem == |procs|
    ensures 0 <= r.procsActive <= r.procsInSystem
    ensures 0 <= r.threadsActive <= r.threadsInSystem == TotalThreads(procs)
    ensures r.estcpuIdle >= 0 && r.estcpuWork >= 0
  {
    if procs == [] then NO_ACTIVITY else Step(Tally(procs[..|procs| - 1]), procs[|procs| - 1])
  }

  /** Without an idle process in the list, no CPU time is booked as idle. */
  lemma {:induction false} NoIdleProcNoIdleEstcpu(procs: seq<Proc>)
    requires forall i :: 0 <= i < |procs| ==> !IsIdleProc(procs[i].name)
    ensures Tally(procs).estcpuIdle == 0
  {
    if procs != [] {
      NoIdleProcNoIdleEstcpu(procs[..|procs| - 1]);
    }
  }

  /** A process is active iff one of its threads is. */
  lemma ProcActiveIffThreadActive(a: Activity, p: Proc)
    ensures Step(a, p).procsActive == a.procsActive + 1 <==>
      exists i :: 0 <= i < |p.threads| && ActiveThread(p.threads[i])
    ensures Step(a, p).procsInSystem == a.procsInSystem + 1
  {
  }

  // ---------------------------------------------------------------------
  // The request slot rule

  /** First unrequested slot at or after `lo`, or -1. */
  function FirstFree(t: seq<CpuMonopolization>, lo: nat): (r: int)
    requires lo <= |t|
    ensures r == -1 ==> forall k :: lo <= k < |t| ==> t[k].requested
    ensures r != -1 ==> lo <= r < |t| && !t[r].requested && forall k :: lo <= k < r ==> t[k].requested
    decreases |t| - lo
  {
    if lo == |t| then -1 else if !t[lo].requested then lo else FirstFree(t, lo + 1)
  }

  /**
   * The scan over slots 1..hi-1 for the largest priority number, starting
   * from (-1, LESS_PRIO_START) and keeping the first slot on ties.
   */
  function Scan(t: seq<CpuMonopolization>, hi: int): (r: Choice)
    requires 1 <= hi <= |t|
    ensures r.index == -1 ==> r.prio == LESS_PRIO_START && forall k :: 1 <= k < hi ==> t[k].prio <= LESS_PRIO_START
    ensures r.index != -1 ==> 1 <= r.index < hi && r.prio == t[r.index].prio > LESS_PRIO_START
    ensures r.index != -1 ==> forall k :: 1 <= k < hi ==> t[k].prio <= r.prio
    ensures r.index != -1 ==> forall k :: 1 <= k < r.index ==> t[k].prio < r.prio
  {
    if hi == 1 then Choice(-1, LESS_PRIO_START)
    else
      var c := Scan(t, hi - 1);
      if t[hi - 1].prio > c.prio then Choice(hi - 1, t[hi - 1].prio) else c
  }

  /**
   * Where the request scan ends: the first free slot among 1..N-1 (with
   * the running maximum up to it), or else the least prioritized slot.
   * The index is -1 when neither exists, which always happens with a
   * single CPU.
   */
  function ChosenSlot(t: seq<CpuMonopolization>): (r: Choice)
    requires |t| >= 1
    ensures r.index == -1 || 1 <= r.index < |t|
  {
    var f := FirstFree(t, 1);
    if f != -1 then Choice(f, Scan(t, f).prio) else Scan(t, |t|)
  }

  /** With one CPU the scan finds no slot, and the source then indexes slot -1. */
  lemma SingleCpuChoosesNoSlot(t: seq<CpuMonopolization>)
    requires |t| == 1
    ensures ChosenSlot(t).index == -1
  {
  }

  /** The chosen index is -1 exactly when 1..N-1 has no free slot and no priority above the scan's start. */
  lemma NoSlotIff(t: seq<CpuMonopolization>)
    requires |t| >= 1
    ensures ChosenSlot(t).index == -1 <==>
      forall k :: 1 <= k < |t| ==> t[k].requested && t[k].prio <= LESS_PRIO_START
  {
  }

  /**
   * The request of process `pid` at priority `cur`, with the slot write
   * guarded against the index -1 the scan may return.
   */
  function ClaimSlot(t: seq<CpuMonopolization>, pid: int, cur: int): (r: seq<CpuMonopolization>)
    requires |t| >= 1
    ensures |r| == |t| && r[0] == t[0]
    ensures forall k :: 0 <= k < |t| ==> r[k] == t[k] || r[k] == CpuMonopolization(true, pid, cur)
    ensures forall j, k :: 0 <= j < k < |t| && r[j] != t[j] ==> r[k] == t[k]
  {
    var c := ChosenSlot(t);
    if c.index != -1 && (!t[c.index].requested || cur < c.prio) then
      t[c.index := CpuMonopolization(true, pid, cur)]
    else t
  }

  /** A free slot among 1..N-1 always goes to the requester: the first one. */
  lemma ClaimTakesFirstFree(t: seq<CpuMonopolization>, pid: int, cur: int)
    requires |t| >= 1 && FirstFree(t, 1) != -1
    ensures ClaimSlot(t, pid, cur) == t[FirstFree(t, 1) := CpuMonopolization(true, pid, cur)]
  {
  }

  /**
   * With slots 1..N-1 all requested, the request evicts someone iff some
   * requester has a larger priority number than `cur` (and than the scan's
   * start), and then the one evicted has the largest.
   */
  lemma ClaimEvictsLeastPrioritized(t: seq<CpuMonopolization>, pid: int, cur: int)
    requires |t| >= 1 && FirstFree(t, 1) == -1
    ensures ClaimSlot(t, pid, cur) != t <==>
      exists k :: 1 <= k < |t| && cur < t[k].prio && LESS_PRIO_START < t[k].prio
    ensures ClaimSlot(t, pid, cur) != t ==>
      exists j :: 1 <= j < |t| && ClaimSlot(t, pid, cur) == t[j := CpuMonopolization(true, pid, cur)]
        && forall k :: 1 <= k < |t| ==> t[k].prio <= t[j].prio
  {
    var c := Scan(t, |t|);
    if exists k :: 1 <= k < |t| && cur < t[k].prio && LESS_PRIO_START < t[k].prio {
      var k :| 1 <= k < |t| && cur < t[k].prio && LESS_PRIO_START < t[k].prio;
      assert c.index != -1;
      assert ClaimSlot(t, pid, cur)[c.index] != t[c.index];
    }
  }

  /** Only a process that asks for a CPU takes part in the arbitration. */
  predicate WantsCpu(p: Proc)
  {
    !IsIdleProc(p.name) && p.metadataFlag == 1 && p.metadata.monopolize
  }

  function ClaimStep(t: seq<CpuMonopolization>, p: Proc, cur: int): (r: seq<CpuMonopolization>)
    requires |t| >= 1
    ensures |r| == |t| && r[0] == t[0]
    ensures !WantsCpu(p) ==> r == t
    ensures forall k :: 0 <= k < |t| ==> r[k] == t[k] || r[k] == CpuMonopolization(true, p.pid, cur)
  {
    if WantsCpu(p) then ClaimSlot(t, p.pid, cur) else t
  }

  /** The request table after the rebuild loop has seen `procs`, in list order. */
  function ClaimAll(t: seq<CpuMonopolization>, procs: seq<Proc>, cur: int): (r: seq<CpuMonopolization>)
    requires |t| >= 1
    ensures |r| == |t| && r[0] == t[0]
    ensures forall k :: 0 <= k < |t| && t[k].requested ==> r[k].requested
  {
    if procs == [] then t else ClaimStep(ClaimAll(t, procs[..|procs| - 1], cur), procs[|procs| - 1], cur)
  }

  /**
   * After a rebuild every slot is either as it started or holds a request
   * of a process in the list that asked for a CPU, at priority `cur`; slot
   * 0 is never handed out.
   */
  lemma {:induction false} ClaimAllOnlyGrantsRequesters(t: seq<CpuMonopolization>, procs: seq<Proc>, cur: int)
    requires |t| >= 1
    ensures ClaimAll(t, procs, cur)[0] == t[0]
    ensures forall k :: 0 <= k < |t| ==> (ClaimAll(t, procs, cur)[k] == t[k] ||
      exists p :: p in procs && WantsCpu(p) && ClaimAll(t, procs, cur)[k] == CpuMonopolization(true, p.pid, cur))
  {
    if procs != [] {
      var init := procs[..|procs| - 1];
      var last := procs[|procs| - 1];
      ClaimAllOnlyGrantsRequesters(t, init, cur);
      var before := ClaimAll(t, init, cur);
      var after := ClaimAll(t, procs, cur);
      forall k | 0 <= k < |t|
        ensures after[k] == t[k] ||
          exists p :: p in procs && WantsCpu(p) && after[k] == CpuMonopolization(true, p.pid, cur)
      {
        if after[k] != before[k] {
          assert last in procs && WantsCpu(last);
        } else if before[k] != t[k] {
          var p :| p in init && WantsCpu(p) && before[k] == CpuMonopolization(true, p.pid, cur);
          assert p in procs;
        }
      }
    }
  }

  /** The table as allocated at module load: nothing requested, priority 10000. */
  function LoadTable(n: nat): (r: seq<CpuMonopolization>)
    ensures |r| == n && forall k :: 0 <= k < n ==> !r[k].requested
  {
    seq(n, _ => CpuMonopolization(false, -1, UNREQUESTED_PRIO))
  }

  /** The table at the start of a rebuild: all bytes set to 0xff, then every slot released. */
  function ClearedTable(n: nat): (r: seq<CpuMonopolization>)
    ensures |r| == n && forall k :: 0 <= k < n ==> !r[k].requested
  {
    seq(n, _ => CpuMonopolization(false, -1, -1))
  }

  /** On a rebuild with two or more CPUs, the first process asking for a CPU gets slot 1. */
  lemma FirstRequesterGetsSlotOne(n: nat, p: Proc, cur: int)
    requires n >= 2 && WantsCpu(p)
    ensures ClaimStep(ClearedTable(n), p, cur)[1] == CpuMonopolization(true, p.pid, cur)
  {
    ClaimTakesFirstFree(ClearedTable(n), p.pid, cur);
  }

  /** The pids of the processes in the list that ask for a CPU, in list order. */
  function RequesterPids(procs: seq<Proc>): seq<int>
  {
    if procs == [] then []
    else if WantsCpu(procs[|procs| - 1]) then RequesterPids(procs[..|procs| - 1]) + [procs[|procs| - 1].pid]
    else RequesterPids(procs[..|procs| - 1])
  }

  /** A table of `n` slots whose slots 1..|pids| hold `pids` in order at priority `cur`, the rest cleared. */
  function FilledTable(n: nat, pids: seq<int>, cur: int): (r: seq<CpuMonopolization>)
    requires |pids| < n
    ensures |r| == n
  {
    seq(n, i => if 1 <= i <= |pids| then CpuMonopolization(true, pids[i - 1], cur) else CpuMonopolization(false, -1, -1))
  }

  /** Below N-1 requests, the next request of a rebuild takes the next slot. */
  lemma ClaimFillsNext(n: nat, ws: seq<int>, pid: int, cur: int)
    requires |ws| < n - 1
    ensures ClaimSlot(FilledTable(n, ws, cur), pid, cur) == FilledTable(n, ws + [pid], cur)
  {
    FirstFreeAt(FilledTable(n, ws, cur), 1, |ws| + 1);
  }

  /** With slots 1..N-1 all held at the requester's own priority, nobody is evicted. */
  lemma ClaimFullKeepsTable(n: nat, ws: seq<int>, pid: int, cur: int)
    requires n >= 1 && |ws| == n - 1
    ensures ClaimSlot(FilledTable(n, ws, cur), pid, cur) == FilledTable(n, ws, cur)
  {
    var t := FilledTable(n, ws, cur);
    FirstFreeNone(t, 1);
    var c := ChosenSlot(t);
    if c.index != -1 {
      assert t[c.index].requested && c.prio == t[c.index].prio == cur;
    }
  }

  /**
   * Every request of a rebuild carries the same priority (the sampler's
   * own), so no request ever evicts another: the rebuilt table holds the
   * first N-1 requesters in list order in slots 1.., and later requesters
   * get nothing.
   */
  lemma {:induction false} RebuildFillsSlotsInOrder(n: nat, procs: seq<Proc>, cur: int)
    requires n >= 1
    ensures var w := RequesterPids(procs);
      ClaimAll(ClearedTable(n), procs, cur) == FilledTable(n, w[..if |w| < n - 1 then |w| else n - 1], cur)
  {
    if procs == [] {
      assert ClearedTable(n) == FilledTable(n, [], cur);
    } else {
      var init := procs[..|procs| - 1];
      var p := procs[|procs| - 1];
      RebuildFillsSlotsInOrder(n, init, cur);
      var w := RequesterPids(init);
      var k := if |w| < n - 1 then |w| else n - 1;
      assert ClaimAll(ClearedTable(n), procs, cur) == ClaimStep(ClaimAll(ClearedTable(n), init, cur), p, cur);
      if WantsCpu(p) {
        var w' := w + [p.pid];
        assert RequesterPids(procs) == w';
        if k < n - 1 {
          ClaimFillsNext(n, w[..k], p.pid, cur);
          assert w'[..k + 1] == w[..k] + [p.pid];
        } else {
          ClaimFullKeepsTable(n, w[..k], p.pid, cur);
          assert w'[..k] == w[..k];
        }
      } else {
        assert RequesterPids(procs) == w;
      }
    }
  }

  // ---------------------------------------------------------------------
  // The sampler's state

  /**
   * The module's globals: the working copy stats_aux (its activity
   * counters as fields, its need counters as an array), the published
   * copy threads_stats, the request table cpu_monopolization_info, and
   * the static process count of the previous cycle.
   */
  class Sampler {
    var estcpuIdle: int
    var estcpuWork: int
    var procsActive: int
    var procsInSystem: int
    var threadsActive: int
    var threadsInSystem: int
    const procNeeds: array<int>
    const info: array<CpuMonopolization>
    var numProcs: int
    var published: ThreadsStats

    ghost predicate Valid()
      reads this
    {
      procNeeds.Length == N_PROC_NEEDS && info.Length >= 1
    }

    function Aux(): Activity
      reads this
    {
      Activity(estcpuIdle, estcpuWork, procsActive, procsInSystem, threadsActive, threadsInSystem)
    }

    /** The state at module load, for `n` CPUs. */
    constructor (n: nat)
      requires n >= 1
      ensures Valid() && fresh(procNeeds) && fresh(info)
      ensures info[..] == LoadTable(n)
      ensures procNeeds[..] == [0, 0, 0, 0] && Aux() == NO_ACTIVITY
      ensures numProcs == -1 && published == ThreadsStats(NO_ACTIVITY, [0, 0, 0, 0])
    {
      estcpuIdle, estcpuWork, procsActive, procsInSystem, threadsActive, threadsInSystem := 0, 0, 0, 0, 0, 0;
      procNeeds := new int[N_PROC_NEEDS](_ => 0);
      info := new CpuMonopolization[n](_ => CpuMonopolization(false, -1, UNREQUESTED_PRIO));
      numProcs := -1;
      published := ThreadsStats(NO_ACTIVITY, [0, 0, 0, 0]);
    }

    /** get_threads_in_proc_stats: sum a process's active threads and count its threads. */
    method GetThreadsInProcStats(p: Proc) returns (estcpu: int, pctcpu: int)
      modifies this
      ensures estcpu == ThreadActivity(p.threads).estcpu && pctcpu == ThreadActivity(p.threads).pctcpu
      ensures Aux() == old(Aux()).(threadsActive := old(threadsActive) + ThreadActivity(p.threads).activeThreads,
                                   threadsInSystem := old(threadsInSystem) + |p.threads|)
      ensures numProcs == old(numProcs) && published == old(published)
    {
      estcpu, pctcpu := 0, 0;
      var i := 0;
      while i < |p.threads|
        invariant 0 <= i <= |p.threads|
        invariant estcpu == ThreadActivity(p.threads[..i]).estcpu
        invariant pctcpu == ThreadActivity(p.threads[..i]).pctcpu
        invariant Aux() == old(Aux()).(threadsActive := old(threadsActive) + ThreadActivity(p.threads[..i]).activeThreads,
                                       threadsInSystem := old(threadsInSystem) + i)
        invariant numProcs == old(numProcs) && published == old(published)
      {
        assert p.threads[..i + 1][..i] == p.threads[..i];
        var td := p.threads[i];
        if td.estcpu > 0 || td.pctcpu > 0 {
          estcpu := estcpu + td.estcpu;
          pctcpu := pctcpu + td.pctcpu;
          threadsActive := threadsActive + 1;
        }
        threadsInSystem := threadsInSystem + 1;
        i := i + 1;
      }
      assert p.threads[..i] == p.threads;
    }

    /** get_sys_stats_from_procs: count the process, and book its CPU time if it was active. */
    method GetSysStatsFromProcs(idleProc: bool, estcpu: int, pctcpu: int)
      modifies this
      ensures procsInSystem == old(procsInSystem) + 1
      ensures procsActive == old(procsActive) + (if estcpu > 0 || pctcpu > 0 then 1 else 0)
      ensures estcpuIdle == old(estcpuIdle) + (if (estcpu > 0 || pctcpu > 0) && idleProc then estcpu else 0)
      ensures estcpuWork == old(estcpuWork) + (if (estcpu > 0 || pctcpu > 0) && !idleProc then estcpu else 0)
      ensures threadsActive == old(threadsActive) && threadsInSystem == old(threadsInSystem)
      ensures numProcs == old(numProcs) && published == old(published)
    {
      if estcpu > 0 || pctcpu > 0 {
        if idleProc {
          estcpuIdle := estcpuIdle + estcpu;
        } else {
          estcpuWork := estcpuWork + estcpu;
        }
        procsActive := procsActive + 1;
      }
      procsInSystem := procsInSystem + 1;
    }

    /** The scan of get_proc_metadata_sched_info over slots 1..N-1; it changes nothing. */
    method LeastPrioritizedSlot() returns (lessIndex: int, lessPrio: int)
      requires Valid()
      ensures Choice(lessIndex, lessPrio) == ChosenSlot(info[..])
    {
      lessIndex, lessPrio := -1, LESS_PRIO_START;
      var i := 1;
      while i < info.Length
        invariant 1 <= i <= info.Length
        invariant Choice(lessIndex, lessPrio) == Scan(info[..], i)
        invariant forall k :: 1 <= k < i ==> info[k].requested
      {
        if !info[i].requested {
          lessIndex := i;
          assert FirstFree(info[..], 1) == i by {
            FirstFreeAt(info[..], 1, i);
          }
          return;
        }
        if info[i].prio > lessPrio {
          lessIndex, lessPrio := i, info[i].prio;
        }
        i := i + 1;
      }
      FirstFreeNone(info[..], 1);
    }

    /**
     * get_proc_metadata_sched_info, with the slot write guarded against
     * the index -1: a requester claims a slot, and the process is counted
     * under its need class.
     */
    method GetProcMetadataSchedInfo(p: Proc, curPriority: int)
      requires Valid()
      modifies info, procNeeds
      ensures info[..] == ClaimStep(old(info[..]), p, curPriority)
      ensures procNeeds[..] == CountNeed(old(procNeeds[..]), p)
    {
      if IsIdleProc(p.name) {
        return;
      }
      if p.metadataFlag == 1 {
        if p.metadata.monopolize {
          var lessIndex, lessPrio := LeastPrioritizedSlot();
          if lessIndex != -1 && (!info[lessIndex].requested || curPriority < lessPrio) {
            info[lessIndex] := CpuMonopolization(true, p.pid, curPriority);
          }
        }
        var str := p.metadata.procType;
        if IsPrefix("LOWPERF", str) {
          procNeeds[PROC_LOWPERF] := procNeeds[PROC_LOWPERF] + 1;
        } else if IsPrefix("STANDARD", str) {
          procNeeds[PROC_STANDARD] := procNeeds[PROC_STANDARD] + 1;
        } else if IsPrefix("HIGHPERF", str) {
          procNeeds[PROC_HIGHPERF] := procNeeds[PROC_HIGHPERF] + 1;
        } else if IsPrefix("CRITICAL", str) {
          procNeeds[PROC_CRITICAL] := procNeeds[PROC_CRITICAL] + 1;
        }
      } else {
        procNeeds[PROC_STANDARD] := procNeeds[PROC_STANDARD] + 1;
      }
    }

    /** The body of the process loop of read_thread_stats, for one process. */
    method CountProc(p: Proc)
      modifies this
      ensures Aux() == Step(old(Aux()), p)
      ensures numProcs == old(numProcs) && published == old(published)
    {
      var estcpuProc, pctcpuProc := GetThreadsInProcStats(p);
      GetSysStatsFromProcs(IsIdleProc(p.name), estcpuProc, pctcpuProc);
    }

    /** The process loop of read_thread_stats over the activity counters. */
    method CountActivity(procs: seq<Proc>)
      modifies this
      ensures Aux() == Tally(procs)
      ensures numProcs == old(numProcs) && published == old(published)
    {
      estcpuIdle, estcpuWork, procsActive, procsInSystem, threadsActive, threadsInSystem := 0, 0, 0, 0, 0, 0;
      var i := 0;
      while i < |procs|
        invariant 0 <= i <= |procs|
        invariant Aux() == Tally(procs[..i])
        invariant numProcs == old(numProcs) && published == old(published)
      {
        assert procs[..i + 1][..i] == procs[..i];
        CountProc(procs[i]);
        assert Tally(procs[..i + 1]) == Step(Tally(procs[..i]), procs[i]);
        i := i + 1;
      }
      assert procs[..i] == procs;
    }

    /** The rebuild branch of read_thread_stats: need counters and request table from scratch. */
    method Rebuild(procs: seq<Proc>, curPriority: int)
      requires Valid()
      modifies info, procNeeds
      ensures procNeeds[..] == NeedsOf(procs)
      ensures info[..] == ClaimAll(ClearedTable(info.Length), procs, curPriority)
    {
      forall k | 0 <= k < procNeeds.Length {
        procNeeds[k] := 0;
      }
      forall k | 0 <= k < info.Length {
        info[k] := CpuMonopolization(true, -1, -1);
      }
      var i := 0;
      while i < info.Length
        invariant 0 <= i <= info.Length
        invariant forall k :: 0 <= k < i ==> info[k] == CpuMonopolization(false, -1, -1)
        invariant forall k :: i <= k < info.Length ==> info[k] == CpuMonopolization(true, -1, -1)
        modifies info
      {
        info[i] := info[i].(requested := false);
        i := i + 1;
      }
      assert procNeeds[..] == NeedsOf(procs[..0]);
      assert info[..] == ClaimAll(ClearedTable(info.Length), procs[..0], curPriority);
      i := 0;
      while i < |procs|
        invariant 0 <= i <= |procs|
        invariant procNeeds[..] == NeedsOf(procs[..i])
        invariant info[..] == ClaimAll(ClearedTable(info.Length), procs[..i], curPriority)
      {
        assert procs[..i + 1][..i] == procs[..i];
        GetProcMetadataSchedInfo(procs[i], curPriority);
        i := i + 1;
      }
      assert procs[..i] == procs;
    }

    /**
     * read_thread_stats: recount activity every cycle, rebuild needs and
     * requests only when the process count changed, remember the count and
     * publish the working copy.
     */
    method ReadThreadStats(procs: seq<Proc>, curPriority: int)
      requires Valid()
      modifies this, info, procNeeds
      ensures Valid() && Aux() == Tally(procs)
      ensures old(numProcs) != |procs| ==>
        procNeeds[..] == NeedsOf(procs) && info[..] == ClaimAll(ClearedTable(info.Length), procs, curPriority)
      ensures old(numProcs) == |procs| ==>
        procNeeds[..] == old(procNeeds[..]) && info[..] == old(info[..])
      ensures numProcs == |procs|
      ensures published == ThreadsStats(Aux(), procNeeds[..])
    {
      CountActivity(procs);
      if numProcs != procsInSystem {
        Rebuild(procs, curPriority);
      }
      numProcs := procsInSystem;
      published := ThreadsStats(Aux(), procNeeds[..]);
    }
  }

  /** A slot index below which everything is requested and which is free is the first free one. */
  lemma {:induction false} FirstFreeAt(t: seq<CpuMonopolization>, lo: nat, i: int)
    requires lo <= i < |t| && !t[i].requested
    requires forall k :: lo <= k < i ==> t[k].requested
    ensures FirstFree(t, lo) == i
    decreases i - lo
  {
    if lo < i {
      FirstFreeAt(t, lo + 1, i);
    }
  }

  /** With every slot from `lo` on requested there is no free slot. */
  lemma {:induction false} FirstFreeNone(t: seq<CpuMonopolization>, lo: nat)
    requires lo <= |t|
    requires forall k :: lo <= k < |t| ==> t[k].requested
    ensures FirstFree(t, lo) == -1
    decreases |t| - lo
  {
    if lo < |t| {
      FirstFreeNone(t, lo + 1);
    }
  }
}
