/**
 * The resource net of src/kern/petri_global_net.c as the kernel keeps it:
 * a marking array and two place-by-transition matrices filled in by the
 * initialisation chain, the pin table, the hierarchical-transition table
 * and the one-shot SMP flag. Every operation is proved against the
 * definitions in GlobalNetSpec.
 */
module GlobalNet {
  import opened SchedPetriH
  import opened GlobalNetSpec
  import LocalNet

  /** The place loop of resource_fire_single_transition: column `t` of the incidence matrix added to the marking. */
  method AddIncidenceColumn(n: nat, mark: array<int>, incidence: array2<int>, t: int)
    requires mark.Length == NumPlaces(n) && IsTransition(n, t)
    requires incidence.Length0 == NumPlaces(n) && incidence.Length1 == NumTransitions(n)
    requires forall p :: 0 <= p < NumPlaces(n) ==> incidence[p, t] == Inc(n, p, t)
    modifies mark
    ensures mark[..] == AddColumn(n, old(mark[..]), t)
  {
    var p := 0;
    while p < NumPlaces(n)
      invariant 0 <= p <= NumPlaces(n)
      invariant forall q :: 0 <= q < p ==> mark[q] == old(mark[q]) + Inc(n, q, t)
      invariant forall q :: p <= q < NumPlaces(n) ==> mark[q] == old(mark[q])
    {
      mark[p] := mark[p] + incidence[p, t];
      p := p + 1;
    }
  }

  /** The kernel-global state struct petri_cpu_resource_net plus the globals next to it. */
  class ResourceNet {
    /** CPU_NUMBER, taken from mp_ncpus. */
    const cpuNumber: nat
    const mark: array<int>
    const incidence: array2<int>
    const inhibition: array2<int>
    /** monopolized_cpus_per_proc: -1 or the pid holding each CPU. */
    const pinned: array<int>
    /** hierarchical_transitions. */
    var hierarchical: seq<int>
    /** smp_set: START_SMP has been fired. */
    var smpSet: bool

    /** Sizes and distinctness of the buffers. */
    ghost predicate Shape()
      reads this
    {
      && cpuNumber >= 1
      && mark.Length == NumPlaces(cpuNumber)
      && incidence.Length0 == NumPlaces(cpuNumber) && incidence.Length1 == NumTransitions(cpuNumber)
      && inhibition.Length0 == NumPlaces(cpuNumber) && inhibition.Length1 == NumTransitions(cpuNumber)
      && pinned.Length == cpuNumber
      && mark != pinned && incidence != inhibition
    }

    /** The matrices the per-CPU initialisation has written for CPUs below `k`. */
    ghost predicate MatricesUpTo(k: int)
      reads this, incidence, inhibition
      requires Shape()
    {
      forall p, t :: 0 <= p < NumPlaces(cpuNumber) && 0 <= t < NumTransitions(cpuNumber) ==>
        && incidence[p, t] == (if t < CPU_BASE_TRANSITIONS * k then Inc(cpuNumber, p, t) else 0)
        && inhibition[p, t] == (if t < CPU_BASE_TRANSITIONS * k then Inh(cpuNumber, p, t) else 0)
    }

    /** The matrices are those of GlobalNetSpec. */
    ghost predicate Matrices()
      reads this, incidence, inhibition
      requires Shape()
    {
      forall p, t :: 0 <= p < NumPlaces(cpuNumber) && 0 <= t < NumTransitions(cpuNumber) ==>
        incidence[p, t] == Inc(cpuNumber, p, t) && inhibition[p, t] == Inh(cpuNumber, p, t)
    }

    /** The structure fixed by init_resource_net. */
    ghost predicate Layout()
      reads this, incidence, inhibition
    {
      Shape() && Matrices() && hierarchical == HierarchicalTransitions(cpuNumber)
    }

    /**
     * The state invariant: the structure, a reachable marking, smp_set
     * telling whether the SMP token has moved, and a well-shaped pin table.
     */
    ghost predicate Valid()
      reads this, mark, incidence, inhibition, pinned
    {
      && Layout()
      && MarkInv(cpuNumber, mark[..])
      && mark[PlaceSmpNotReady(cpuNumber)] == (if smpSet then 0 else 1)
      && PinTableShape(pinned[..])
    }

    /** The marking the per-CPU initialisation has written for CPUs below `k`. */
    ghost predicate MarkUpTo(k: int)
      reads this, mark
      requires Shape()
    {
      forall p :: 0 <= p < NumPlaces(cpuNumber) ==>
        mark[p] == (if p < CPU_BASE_PLACES * k then InitialMark(cpuNumber)[p] else 0)
    }

    /**
     * init_resource_net: init_global_variables and allocate_resource_net
     * (zeroed buffers), then the per-CPU and the global initialisation.
     */
    constructor (n: nat)
      requires n >= 1
      ensures Valid() && cpuNumber == n && !smpSet
      ensures fresh(mark) && fresh(incidence) && fresh(inhibition) && fresh(pinned)
      ensures mark[..] == InitialMark(n)
      ensures forall c :: 0 <= c < n ==> pinned[c] == -1
    {
      cpuNumber := n;
      mark := new int[NumPlaces(n)](_ => 0);
      incidence := new int[NumPlaces(n), NumTransitions(n)]((_, _) => 0);
      inhibition := new int[NumPlaces(n), NumTransitions(n)]((_, _) => 0);
      pinned := new int[n](_ => 0);
      hierarchical := STATIC_HIERARCHICAL_TRANSITIONS;
      smpSet := false;
      new;
      InitPerCpuResources();
      InitGlobalResources();
      InitialMarkShape(n);
    }

    /** Entries of CPU `c`'s block that init_cpu_matrix has reached at place kind `np`, transition kind `nt`. */
    ghost predicate InBlockPrefix(c: int, np: int, nt: int, p: int, t: int)
    {
      && Transition(c, 0) <= t < Transition(c, CPU_BASE_TRANSITIONS)
      && Place(c, 0) <= p
      && (p < Place(c, np) || (p == Place(c, np) && t < Transition(c, nt)))
    }

    ghost predicate BlockPrefix(c: int, np: int, nt: int)
      reads this, incidence, inhibition
      requires Shape()
    {
      forall p, t :: 0 <= p < NumPlaces(cpuNumber) && 0 <= t < NumTransitions(cpuNumber) ==>
        && incidence[p, t] == (if t < CPU_BASE_TRANSITIONS * c || InBlockPrefix(c, np, nt, p, t) then Inc(cpuNumber, p, t) else 0)
        && inhibition[p, t] == (if t < CPU_BASE_TRANSITIONS * c || InBlockPrefix(c, np, nt, p, t) then Inh(cpuNumber, p, t) else 0)
    }

    /** init_cpu_matrix's inner loop: row `np` of the template onto CPU `c`'s block. */
    method CopyTemplateRow(c: int, np: int)
      requires Shape() && 0 <= c < cpuNumber && 0 <= np < CPU_BASE_PLACES && BlockPrefix(c, np, 0)
      modifies incidence, inhibition
      ensures BlockPrefix(c, np + 1, 0)
    {
      var nt := 0;
      while nt < CPU_BASE_TRANSITIONS
        invariant 0 <= nt <= CPU_BASE_TRANSITIONS
        invariant BlockPrefix(c, np, nt)
      {
        BlockEntry(cpuNumber, c, np, nt);
        incidence[Place(c, np), Transition(c, nt)] := BASE_RESOURCE_MATRIX[np][nt];
        inhibition[Place(c, np), Transition(c, nt)] := BASE_RESOURCE_INHIBITION_MATRIX[np][nt];
        nt := nt + 1;
      }
    }

    /**
     * The arcs init_cpu_matrix adds after the block copy: CPU `c`'s
     * FROM_GLOBAL_CPU drains the global queue, and SMP_NOT_READY inhibits its
     * ADDTOQUEUE and, for every CPU but 0, its EXEC and FROM_GLOBAL_CPU.
     */
    method AddCpuGlobalArcs(c: int)
      requires Shape() && 0 <= c < cpuNumber && BlockPrefix(c, CPU_BASE_PLACES, 0)
      modifies incidence, inhibition
      ensures MatricesUpTo(c + 1)
    {
      var n := cpuNumber;
      TransitionLayout(n, c, TRAN_FROM_GLOBAL_CPU, c, TRAN_FROM_GLOBAL_CPU);
      TransitionLayout(n, c, TRAN_EXEC, c, TRAN_EXEC);
      TransitionLayout(n, c, TRAN_ADDTOQUEUE, c, TRAN_ADDTOQUEUE);
      TransitionDecompose(c, TRAN_FROM_GLOBAL_CPU);
      TransitionDecompose(c, TRAN_EXEC);
      TransitionDecompose(c, TRAN_ADDTOQUEUE);
      incidence[PlaceGlobalQueue(n), Transition(c, TRAN_FROM_GLOBAL_CPU)] := -1;
      if c != 0 {
        inhibition[PlaceSmpNotReady(n), Transition(c, TRAN_FROM_GLOBAL_CPU)] := 1;
        inhibition[PlaceSmpNotReady(n), Transition(c, TRAN_EXEC)] := 1;
      }
      inhibition[PlaceSmpNotReady(n), Transition(c, TRAN_ADDTOQUEUE)] := 1;
      forall p, t | 0 <= p < NumPlaces(n) && 0 <= t < NumTransitions(n)
        ensures incidence[p, t] == (if t < CPU_BASE_TRANSITIONS * (c + 1) then Inc(n, p, t) else 0)
        ensures inhibition[p, t] == (if t < CPU_BASE_TRANSITIONS * (c + 1) then Inh(n, p, t) else 0)
      {
        if CPU_BASE_TRANSITIONS * c <= t < CPU_BASE_TRANSITIONS * (c + 1) {
          assert t / CPU_BASE_TRANSITIONS == c;
          if p < CPU_BASE_PLACES * n && !(Place(c, 0) <= p < Place(c, CPU_BASE_PLACES)) {
            assert p / CPU_BASE_PLACES != c;
          }
        }
      }
    }

    /** init_cpu_matrix: the template block for CPU `c`, then its arcs to the global places. */
    method InitCpuMatrix(c: int)
      requires Shape() && 0 <= c < cpuNumber && MatricesUpTo(c)
      modifies incidence, inhibition
      ensures MatricesUpTo(c + 1)
    {
      assert BlockPrefix(c, 0, 0);
      var np := 0;
      while np < CPU_BASE_PLACES
        invariant 0 <= np <= CPU_BASE_PLACES
        invariant BlockPrefix(c, np, 0)
      {
        CopyTemplateRow(c, np);
        np := np + 1;
      }
      AddCpuGlobalArcs(c);
    }

    /** init_cpu_mark: CPU 0 starts executing, every other CPU starts available. */
    method InitCpuMark(c: int)
      requires Shape() && 0 <= c < cpuNumber && MarkUpTo(c)
      modifies mark
      ensures MarkUpTo(c + 1)
    {
      if c == 0 {
        mark[Place(c, PLACE_EXECUTING)] := 1;
      } else {
        mark[Place(c, PLACE_CPU)] := 1;
      }
    }

    /** init_per_cpu_resources: both initialisations for every CPU in turn. */
    method InitPerCpuResources()
      requires Shape() && MatricesUpTo(0) && MarkUpTo(0)
      modifies mark, incidence, inhibition
      ensures MatricesUpTo(cpuNumber) && MarkUpTo(cpuNumber)
    {
      var c := 0;
      while c < cpuNumber
        invariant 0 <= c <= cpuNumber
        invariant MatricesUpTo(c) && MarkUpTo(c)
      {
        InitCpuMatrix(c);
        InitCpuMark(c);
        c := c + 1;
      }
    }

    /**
     * init_global_resources: the two global hierarchical transitions, the
     * arcs of the global transitions, the SMP bring-up token, and the pin
     * table set to -1 throughout.
     */
    method InitGlobalResources()
      requires Shape() && MatricesUpTo(cpuNumber) && MarkUpTo(cpuNumber)
      requires hierarchical == STATIC_HIERARCHICAL_TRANSITIONS
      modifies this`hierarchical, incidence, mark, pinned
      ensures Layout() && mark[..] == InitialMark(cpuNumber)
      ensures forall c :: 0 <= c < cpuNumber ==> pinned[c] == -1
    {
      var n := cpuNumber;
      hierarchical := hierarchical[PER_CPU_HIER_TRANSITIONS := TranQueueGlobal(n)];
      hierarchical := hierarchical[PER_CPU_HIER_TRANSITIONS + 1 := TranRemoveGlobalQueue(n)];
      incidence[PlaceGlobalQueue(n), TranRemoveGlobalQueue(n)] := -1;
      incidence[PlaceGlobalQueue(n), TranQueueGlobal(n)] := 1;
      incidence[PlaceSmpNotReady(n), TranStartSmp(n)] := -1;
      incidence[PlaceSmpReady(n), TranStartSmp(n)] := 1;
      mark[PlaceSmpNotReady(n)] := 1;
      var i := 0;
      while i < n
        invariant 0 <= i <= n
        invariant forall c :: 0 <= c < i ==> pinned[c] == -1
        modifies pinned
      {
        pinned[i] := -1;
        i := i + 1;
      }
      forall p, t | 0 <= p < NumPlaces(n) && 0 <= t < NumTransitions(n)
        ensures incidence[p, t] == Inc(n, p, t) && inhibition[p, t] == Inh(n, p, t)
      {
        assert old(incidence[p, t]) == (if t < CPU_BASE_TRANSITIONS * n then Inc(n, p, t) else 0);
        assert old(inhibition[p, t]) == (if t < CPU_BASE_TRANSITIONS * n then Inh(n, p, t) else 0);
        if t >= CPU_BASE_TRANSITIONS * n && p < CPU_BASE_PLACES * n {
          assert !SameCpu(n, p, t);
        }
      }
      forall p | 0 <= p < NumPlaces(n)
        ensures mark[p] == InitialMark(n)[p]
      {
        assert old(mark[p]) == (if p < CPU_BASE_PLACES * n then InitialMark(n)[p] else 0);
        InitialMarkShape(n);
      }
      assert mark[..] == InitialMark(n);
    }

    /** is_inhibited: an inhibitor arc from a marked place. */
    function IsInhibited(p: int, t: int): (r: bool)
      reads this, mark, incidence, inhibition
      requires Layout() && IsPlace(cpuNumber, p) && IsTransition(cpuNumber, t)
      ensures r <==> GlobalNetSpec.IsInhibited(cpuNumber, mark[..], p, t)
    {
      inhibition[p, t] == 1 && mark[p] > 0
    }

    /** transition_is_sensitized: a read-only scan of every place. */
    method TransitionIsSensitized(t: int) returns (b: bool)
      requires Layout() && IsTransition(cpuNumber, t)
      ensures b == Sensitized(cpuNumber, mark[..], t)
    {
      var p := 0;
      while p < NumPlaces(cpuNumber)
        invariant 0 <= p <= NumPlaces(cpuNumber)
        invariant forall q :: 0 <= q < p ==> !Blocks(cpuNumber, mark[..], q, t)
      {
        if (incidence[p, t] < 0 && incidence[p, t] + mark[p] < 0) || IsInhibited(p, t) {
          assert Blocks(cpuNumber, mark[..], p, t);
          return false;
        }
        p := p + 1;
      }
      return true;
    }

    /**
     * is_hierarchical: the first table entry matching `t` gives the local
     * transition to fire; the result agrees with the map stated by
     * transition kind.
     */
    method IsHierarchical(t: int) returns (r: int)
      requires Layout() && IsTransition(cpuNumber, t)
      ensures r == LocalTransitionFor(cpuNumber, t)
    {
      var i := 0;
      while i < HIERARCHICAL_TRANSITIONS
        invariant 0 <= i <= HIERARCHICAL_TRANSITIONS
        invariant forall j :: 0 <= j < i ==> !HierMatches(cpuNumber, t, hierarchical[j])
      {
        if t == hierarchical[i] || (t < TranRemoveGlobalQueue(cpuNumber) && t % CPU_BASE_TRANSITIONS == hierarchical[i]) {
          HierarchicalScan(cpuNumber, t, i);
          return HIERARCHICAL_CORRESPONSE[i];
        }
        i := i + 1;
      }
      HierarchicalScan(cpuNumber, t, HIERARCHICAL_TRANSITIONS);
      return 0;
    }

    /** is_cpu_suspended: a CPU is suspended exactly when it can be woken. */
    function IsCpuSuspended(cpu: int): (r: bool)
      reads this, mark, incidence, inhibition, pinned
      requires Valid() && 0 <= cpu < cpuNumber
      ensures r <==> Sensitized(cpuNumber, mark[..], Transition(cpu, TRAN_WAKEUP_PROC))
    {
      SuspendWakeupSensitization(cpuNumber, mark[..], cpu);
      PlaceLayout(cpuNumber, cpu, PLACE_SUSPENDED, cpu, PLACE_SUSPENDED);
      mark[Place(cpu, PLACE_SUSPENDED)] > 0
    }

    /**
     * resource_fire_single_transition: add column `t` unconditionally, then
     * fire the hierarchical local transition of the thread, if any.
     */
    method FireSingleTransition(pt: LocalNet.Thread, t: int)
      requires Layout() && IsTransition(cpuNumber, t) && pt.Valid() && pt.mark != mark
      modifies mark, pt.mark
      ensures mark[..] == AddColumn(cpuNumber, old(mark[..]), t)
      ensures pt.mark[..] == (if LocalTransitionFor(cpuNumber, t) != 0
                              then LocalNet.Fire(old(pt.mark[..]), LocalTransitionFor(cpuNumber, t))
                              else old(pt.mark[..]))
    {
      AddIncidenceColumn(cpuNumber, mark, incidence, t);
      var local := IsHierarchical(t);
      if local != 0 {
        pt.PetriFire(local);
      }
    }

    /**
     * resource_fire_net: nothing happens without a thread; otherwise START_SMP
     * fires once, the first time SMP is seen started, and then the requested
     * transition fires when sensitized and is dropped (logged) when not.
     * START_SMP itself is never requested by a caller.
     */
    method FireNet(pt: LocalNet.Thread?, t: int, smpStarted: bool)
      requires Valid() && IsTransition(cpuNumber, t) && t != TranStartSmp(cpuNumber)
      requires pt != null ==> pt.Valid() && pt.mark != mark && pt.mark != pinned
      modifies this`smpSet, mark, if pt != null then {pt.mark} else {}
      ensures Valid()
      ensures pt == null ==> smpSet == old(smpSet) && mark[..] == old(mark[..])
      ensures pt != null ==>
        var m1 := StartSmpIfDue(cpuNumber, old(mark[..]), old(smpSet), smpStarted);
        && smpSet == (old(smpSet) || smpStarted)
        && mark[..] == FireRequested(cpuNumber, m1, t)
        && pt.mark[..] == (if Sensitized(cpuNumber, m1, t) && LocalTransitionFor(cpuNumber, t) != 0
                           then LocalNet.Fire(old(pt.mark[..]), LocalTransitionFor(cpuNumber, t))
                           else old(pt.mark[..]))
    {
      if pt != null {
        if !smpSet && smpStarted {
          StartSmpEffect(cpuNumber, mark[..]);
          smpSet := true;
          FireSingleTransition(pt, TranStartSmp(cpuNumber));
        }
        ghost var m1 := mark[..];
        var sensitized := TransitionIsSensitized(t);
        if sensitized {
          FirePreservesMarkInv(cpuNumber, m1, t);
          FireSingleTransition(pt, t);
        }
      }
    }

    /** get_monopolized_cpu_by_proc_id: the lowest CPU pinned to `pid`, or -1. */
    method GetMonopolizedCpuByProcId(pid: int) returns (r: int)
      requires Valid()
      ensures r == FirstPinnedBy(pinned[..], pid, 0)
      ensures r == -1 || (0 <= r < cpuNumber && pinned[r] == pid)
      ensures pid >= 0 ==> r != 0
    {
      var i := 0;
      while i < cpuNumber
        invariant 0 <= i <= cpuNumber
        invariant FirstPinnedBy(pinned[..], pid, i) == FirstPinnedBy(pinned[..], pid, 0)
      {
        if pinned[i] == pid {
          return i;
        }
        i := i + 1;
      }
      return -1;
    }

    /** cpu_available_for_proc. */
    function CpuAvailableForProc(pid: int, cpu: int): (r: bool)
      reads this, pinned
      requires pinned.Length == cpuNumber && 0 <= cpu < cpuNumber
      ensures r <==> GlobalNetSpec.CpuAvailableForProc(pinned[..], pid, cpu)
    {
      pinned[cpu] == pid || pinned[cpu] == -1
    }

    /**
     * resource_choose_cpu: the transition that queues thread `td`, by the
     * precedence proved in ChooseCpuPrecedence.
     */
    method ResourceChooseCpu(td: LocalNet.Thread) returns (r: int)
      requires Valid() && (td.lastCpu == NOCPU || 0 <= td.lastCpu < cpuNumber)
      ensures r == ChooseCpu(cpuNumber, mark[..], pinned[..], td.pid, td.lastCpu, td.cpuMask)
    {
      var monopolized := GetMonopolizedCpuByProcId(td.pid);
      if monopolized != -1 {
        return Transition(monopolized, TRAN_ADDTOQUEUE);
      }
      var last := td.lastCpu;
      if last != NOCPU && ThreadCanSched(td.cpuMask, last) {
        TransitionLayout(cpuNumber, last, TRAN_ADDTOQUEUE, last, TRAN_ADDTOQUEUE);
        var sensitized := TransitionIsSensitized(Transition(last, TRAN_ADDTOQUEUE));
        if sensitized && CpuAvailableForProc(td.pid, last) {
          return Transition(last, TRAN_ADDTOQUEUE);
        }
      }
      r := FirstFitScan(td);
    }

    /** The first-fit loop of resource_choose_cpu over the ADDTOQUEUE transitions. */
    method FirstFitScan(td: LocalNet.Thread) returns (r: int)
      requires Valid()
      ensures r == FirstFit(cpuNumber, mark[..], pinned[..], td.pid, td.cpuMask, 0)
    {
      ghost var m, pt := mark[..], pinned[..];
      ghost var k := 0;
      var ti := TRAN_ADDTOQUEUE;
      while ti < PerCpuLastTransition(cpuNumber)
        invariant 0 <= k <= cpuNumber && ti == 10 * k
        invariant FirstFit(cpuNumber, m, pt, td.pid, td.cpuMask, k) == FirstFit(cpuNumber, m, pt, td.pid, td.cpuMask, 0)
      {
        var cpu := ti / CPU_BASE_TRANSITIONS;
        assert cpu == k && ti == Transition(k, TRAN_ADDTOQUEUE);
        if ThreadCanSched(td.cpuMask, cpu) {
          var sensitized := TransitionIsSensitized(ti);
          if sensitized && CpuAvailableForProc(td.pid, cpu) {
            return ti;
          }
        }
        ti := ti + CPU_BASE_TRANSITIONS;
        k := k + 1;
      }
      return TranQueueGlobal(cpuNumber);
    }

    /**
     * resource_expulse_thread: RETURN_VOL for a voluntary switch (and mark the
     * thread for a local wakeup), RETURN_INVOL otherwise, on the thread's last CPU.
     */
    method ResourceExpulseThread(td: LocalNet.Thread, voluntary: bool, smpStarted: bool)
      requires Valid() && td.Valid() && 0 <= td.lastCpu < cpuNumber
      requires td.mark != mark && td.mark != pinned
      modifies td`fromInh, this`smpSet, mark, td.mark
      ensures Valid() && td.Valid()
      ensures td.fromInh == (if voluntary then 1 else 0)
      ensures var t := Transition(td.lastCpu, if voluntary then TRAN_RETURN_VOL else TRAN_RETURN_INVOL);
        var m1 := StartSmpIfDue(cpuNumber, old(mark[..]), old(smpSet), smpStarted);
        && mark[..] == FireRequested(cpuNumber, m1, t)
        && td.mark[..] == (if Sensitized(cpuNumber, m1, t)
                           then LocalNet.Fire(old(td.mark[..]), LocalTransitionFor(cpuNumber, t))
                           else old(td.mark[..]))
    {
      var kind := if voluntary then TRAN_RETURN_VOL else TRAN_RETURN_INVOL;
      TransitionLayout(cpuNumber, td.lastCpu, kind, td.lastCpu, kind);
      TransitionDecompose(td.lastCpu, kind);
      var t := Transition(td.lastCpu, kind);
      td.fromInh := if voluntary then 1 else 0;
      FireNet(td, t, smpStarted);
    }

    /**
     * toggle_active_cpu: CPU 0 and out-of-range CPUs are refused, nothing
     * changes before SMP is ready, and otherwise SUSPEND (turn off) or
     * WAKEUP (turn on) fires when sensitized.
     */
    method ToggleActiveCpu(cpu: int, turnOff: bool, cur: LocalNet.Thread, smpStarted: bool) returns (ok: bool)
      requires Valid() && cur.Valid() && cur.mark != mark && cur.mark != pinned
      modifies this`smpSet, mark, cur.mark
      ensures Valid() && smpSet == old(smpSet) && cur.mark[..] == old(cur.mark[..])
      ensures turnOff ==> (ok <==> 0 < cpu < cpuNumber && old(mark[PlaceSmpReady(cpuNumber)]) != 0)
      ensures !turnOff ==> (ok <==> 0 < cpu < cpuNumber && old(mark[PlaceSmpReady(cpuNumber)]) != 0
                                    && old(mark[Place(cpu, PLACE_SUSPENDED)]) >= 1)
      ensures ok ==> mark[..] == AddColumn(cpuNumber, old(mark[..]),
                                           Transition(cpu, if turnOff then TRAN_SUSPEND_PROC else TRAN_WAKEUP_PROC))
      ensures !ok ==> mark[..] == old(mark[..])
    {
      if cpu <= 0 || cpu >= cpuNumber {
        return false;
      }
      if mark[PlaceSmpReady(cpuNumber)] == 0 {
        return false;
      }
      var kind := if turnOff then TRAN_SUSPEND_PROC else TRAN_WAKEUP_PROC;
      TransitionLayout(cpuNumber, cpu, kind, cpu, kind);
      TransitionDecompose(cpu, kind);
      SuspendWakeupSensitization(cpuNumber, mark[..], cpu);
      var sensitized := TransitionIsSensitized(Transition(cpu, kind));
      if sensitized {
        FireNet(cur, Transition(cpu, kind), smpStarted);
        return true;
      }
      return false;
    }

    /** turn_off_cpu: suspend `cpu` once SMP is ready; CPU 0 is never suspended. */
    method TurnOffCpu(cpu: int, cur: LocalNet.Thread, smpStarted: bool)
      requires Valid() && cur.Valid() && cur.mark != mark && cur.mark != pinned
      modifies this`smpSet, mark, cur.mark
      ensures Valid() && cur.mark[..] == old(cur.mark[..])
      ensures mark[..] == if 0 < cpu < cpuNumber && old(mark[PlaceSmpReady(cpuNumber)]) != 0
                          then AddColumn(cpuNumber, old(mark[..]), Transition(cpu, TRAN_SUSPEND_PROC))
                          else old(mark[..])
    {
      var _ := ToggleActiveCpu(cpu, TURN_OFF, cur, smpStarted);
    }

    /** turn_on_cpu: wake a suspended `cpu` once SMP is ready. */
    method TurnOnCpu(cpu: int, cur: LocalNet.Thread, smpStarted: bool)
      requires Valid() && cur.Valid() && cur.mark != mark && cur.mark != pinned
      modifies this`smpSet, mark, cur.mark
      ensures Valid() && cur.mark[..] == old(cur.mark[..])
      ensures mark[..] == if 0 < cpu < cpuNumber && old(mark[PlaceSmpReady(cpuNumber)]) != 0
                             && old(mark[Place(cpu, PLACE_SUSPENDED)]) >= 1
                          then AddColumn(cpuNumber, old(mark[..]), Transition(cpu, TRAN_WAKEUP_PROC))
                          else old(mark[..])
    {
      var _ := ToggleActiveCpu(cpu, TURN_ON, cur, smpStarted);
    }

    /** Whether `cpu` is in range and suspended, as toggle_pin_cpu_to_proc sees it. */
    function SuspendedForPin(cpu: int): (r: bool)
      reads this, mark
      requires Shape()
      ensures r <==> 0 < cpu < cpuNumber && Sensitized(cpuNumber, mark[..], Transition(cpu, TRAN_WAKEUP_PROC))
    {
      if 0 < cpu < cpuNumber then
        SuspendWakeupSensitization(cpuNumber, mark[..], cpu);
        mark[Place(cpu, PLACE_SUSPENDED)] > 0
      else false
    }

    /** SuspendedForPin for every CPU. */
    ghost function Suspensions(): (r: seq<bool>)
      reads this, mark
      requires Shape()
      ensures |r| == cpuNumber && forall c :: 0 <= c < cpuNumber ==> r[c] == SuspendedForPin(c)
    {
      seq(cpuNumber, c requires 0 <= c < cpuNumber reads this, mark => SuspendedForPin(c))
    }

    /** toggle_pin_cpu_to_proc, as TogglePin states it. */
    method TogglePinCpuToProc(pid: int, cpu: int, release: bool) returns (ok: bool)
      requires Valid()
      modifies pinned
      ensures Valid()
      ensures PinOutcome(ok, pinned[..]) == TogglePin(old(pinned[..]), SuspendedForPin(cpu), pid, cpu, release)
    {
      TogglePinKeepsShape(pinned[..], SuspendedForPin(cpu), pid, cpu, release);
      if cpu >= cpuNumber || cpu <= 0 {
        return false;
      }
      if release {
        pinned[cpu] := -1;
        return true;
      }
      PlaceLayout(cpuNumber, cpu, PLACE_SUSPENDED, cpu, PLACE_SUSPENDED);
      if !CpuAvailableForProc(pid, cpu) || mark[Place(cpu, PLACE_SUSPENDED)] > 0 || pid < 1 {
        return false;
      }
      pinned[cpu] := pid;
      return true;
    }

    /** release_cpu. */
    method ReleaseCpu(pid: int, cpu: int) returns (ok: bool)
      requires Valid()
      modifies pinned
      ensures Valid()
      ensures PinOutcome(ok, pinned[..]) == TogglePin(old(pinned[..]), SuspendedForPin(cpu), pid, cpu, RELEASE)
    {
      ok := TogglePinCpuToProc(pid, cpu, RELEASE);
    }

    /** monopolize_cpu. */
    method MonopolizeCpu(pid: int, cpu: int) returns (ok: bool)
      requires Valid()
      modifies pinned
      ensures Valid()
      ensures PinOutcome(ok, pinned[..]) == TogglePin(old(pinned[..]), SuspendedForPin(cpu), pid, cpu, MONOPOLIZE)
    {
      ok := TogglePinCpuToProc(pid, cpu, MONOPOLIZE);
    }

    /** get_monopolized_cpus: copy the pin table into `dst`. */
    method GetMonopolizedCpus(dst: array<int>)
      requires Valid() && dst.Length >= cpuNumber && dst != pinned && dst != mark
      modifies dst
      ensures dst[..cpuNumber] == pinned[..] && dst[cpuNumber..] == old(dst[cpuNumber..])
    {
      var i := 0;
      while i < cpuNumber
        invariant 0 <= i <= cpuNumber
        invariant forall c :: 0 <= c < i ==> dst[c] == pinned[c]
        invariant dst[cpuNumber..] == old(dst[cpuNumber..])
      {
        dst[i] := pinned[i];
        i := i + 1;
      }
    }
  }
}
