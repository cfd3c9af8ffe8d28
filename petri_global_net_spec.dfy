/**
 * The resource (global) net of src/kern/petri_global_net.c, as functions
 * of the CPU count `n`: its layout, its incidence and inhibition matrices,
 * the sensitization rule, the firing rule, the hierarchical map into the
 * per-thread net, and the CPU-selection policy. The class in GlobalNet keeps
 * the same matrices in arrays and is proved against these definitions.
 */
module GlobalNetSpec {
  import opened SchedPetriH
  import LocalNet

  // The global indices that init_global_variables derives from the CPU count.

  function NumPlaces(n: int): int { CPU_BASE_PLACES * n + GLOBAL_PLACES }
  function NumTransitions(n: int): int { CPU_BASE_TRANSITIONS * n + GLOBAL_TRANSITIONS }
  function PerCpuLastTransition(n: int): int { NumTransitions(n) - GLOBAL_TRANSITIONS }
  function PlaceGlobalQueue(n: int): int { NumPlaces(n) - 3 }
  function PlaceSmpNotReady(n: int): int { NumPlaces(n) - 2 }
  function PlaceSmpReady(n: int): int { NumPlaces(n) - 1 }
  function TranRemoveGlobalQueue(n: int): int { NumTransitions(n) - 3 }
  function TranStartSmp(n: int): int { NumTransitions(n) - 2 }
  function TranQueueGlobal(n: int): int { NumTransitions(n) - 1 }

  /** The 5x10 block every CPU gets; rows CPU, EXECUTING, QUEUE, SUSPENDED, TOEXEC. */
  const BASE_RESOURCE_MATRIX: seq<seq<int>> := [
    [ 0,  0, -1, -1,  0,  1,  1,  0, -1,  0],
    [ 0,  1,  0,  0,  0, -1, -1,  0,  0,  0],
    [ 1,  0,  0,  0, -1,  0,  0,  0, -1,  0],
    [ 0,  0,  0,  0,  0,  0,  0,  1,  0, -1],
    [ 0, -1,  1,  1,  0,  0,  0,  0,  1,  0]
  ]

  const BASE_RESOURCE_INHIBITION_MATRIX: seq<seq<int>> := [
    [0, 0, 0, 0, 0, 0, 0, 0, 0, 0],
    [0, 0, 0, 0, 0, 0, 0, 0, 0, 0],
    [0, 0, 1, 0, 0, 0, 0, 0, 0, 0],
    [1, 0, 0, 1, 0, 0, 0, 0, 0, 0],
    [0, 0, 0, 0, 0, 0, 0, 0, 0, 0]
  ]

  predicate IsPlace(n: nat, p: int) { 0 <= p < NumPlaces(n) }
  predicate IsTransition(n: nat, t: int) { 0 <= t < NumTransitions(n) }
  predicate IsMarking(n: nat, m: seq<int>) { |m| == NumPlaces(n) }

  /** Place `p` and transition `t` belong to the same CPU's block. */
  predicate SameCpu(n: nat, p: int, t: int)
  {
    0 <= p < CPU_BASE_PLACES * n && 0 <= t < CPU_BASE_TRANSITIONS * n
    && p / CPU_BASE_PLACES == t / CPU_BASE_TRANSITIONS
  }

  /**
   * The incidence matrix after initialisation: the template on each CPU's
   * diagonal block, every CPU's FROM_GLOBAL_CPU draining the global queue,
   * and the three global transitions.
   */
  function Inc(n: nat, p: int, t: int): (r: int)
    requires IsPlace(n, p) && IsTransition(n, t)
    ensures -1 <= r <= 1
    ensures r != 0 && t < PerCpuLastTransition(n) && p != PlaceGlobalQueue(n) ==> SameCpu(n, p, t)
    ensures t == TranStartSmp(n) ==> (r != 0 <==> p == PlaceSmpNotReady(n) || p == PlaceSmpReady(n))
  {
    if p < CPU_BASE_PLACES * n then
      (if SameCpu(n, p, t)
       then BASE_RESOURCE_MATRIX[p % CPU_BASE_PLACES][t % CPU_BASE_TRANSITIONS] else 0)
    else if p == PlaceGlobalQueue(n) then
      (if t < CPU_BASE_TRANSITIONS * n then (if t % CPU_BASE_TRANSITIONS == TRAN_FROM_GLOBAL_CPU then -1 else 0)
       else if t == TranRemoveGlobalQueue(n) then -1
       else if t == TranQueueGlobal(n) then 1
       else 0)
    else if t == TranStartSmp(n) then
      (if p == PlaceSmpNotReady(n) then -1 else 1)
    else 0
  }

  /**
   * The inhibition matrix after initialisation: the template on each CPU's
   * diagonal block, and SMP_NOT_READY inhibiting every CPU's ADDTOQUEUE and
   * every CPU but 0's EXEC and FROM_GLOBAL_CPU.
   */
  function Inh(n: nat, p: int, t: int): (r: int)
    requires IsPlace(n, p) && IsTransition(n, t)
    ensures r == 0 || r == 1
    ensures r == 1 ==> t < PerCpuLastTransition(n)
    ensures r == 1 && p != PlaceSmpNotReady(n) ==> SameCpu(n, p, t)
  {
    if p < CPU_BASE_PLACES * n then
      (if SameCpu(n, p, t)
       then BASE_RESOURCE_INHIBITION_MATRIX[p % CPU_BASE_PLACES][t % CPU_BASE_TRANSITIONS] else 0)
    else if p == PlaceSmpNotReady(n) && t < CPU_BASE_TRANSITIONS * n then
      (if t % CPU_BASE_TRANSITIONS == TRAN_ADDTOQUEUE then 1
       else if t / CPU_BASE_TRANSITIONS != 0
               && (t % CPU_BASE_TRANSITIONS == TRAN_EXEC || t % CPU_BASE_TRANSITIONS == TRAN_FROM_GLOBAL_CPU) then 1
       else 0)
    else 0
  }

  /** is_inhibited: an inhibitor arc from a place that holds a token. */
  predicate IsInhibited(n: nat, m: seq<int>, p: int, t: int)
    requires IsMarking(n, m) && IsPlace(n, p) && IsTransition(n, t)
  {
    Inh(n, p, t) == 1 && m[p] > 0
  }

  /** Place `p` keeps `t` from firing. */
  predicate Blocks(n: nat, m: seq<int>, p: int, t: int)
    requires IsMarking(n, m) && IsPlace(n, p) && IsTransition(n, t)
  {
    (Inc(n, p, t) < 0 && Inc(n, p, t) + m[p] < 0) || IsInhibited(n, m, p, t)
  }

  /** transition_is_sensitized: no place would go negative and no inhibitor arc is active. */
  predicate Sensitized(n: nat, m: seq<int>, t: int)
    requires IsMarking(n, m) && IsTransition(n, t)
  {
    forall p :: 0 <= p < NumPlaces(n) ==> !Blocks(n, m, p, t)
  }

  /** The marking after adding column `t` (resource_fire_single_transition). */
  function AddColumn(n: nat, m: seq<int>, t: int): (r: seq<int>)
    requires IsMarking(n, m) && IsTransition(n, t)
    ensures IsMarking(n, r)
  {
    seq(|m|, p requires 0 <= p < |m| => m[p] + Inc(n, p, t))
  }

  /** The requested transition as resource_fire_net treats it: fired if sensitized, dropped otherwise. */
  function FireRequested(n: nat, m: seq<int>, t: int): (r: seq<int>)
    requires IsMarking(n, m) && IsTransition(n, t)
    ensures IsMarking(n, r)
    ensures MarkInv(n, m) ==> MarkInv(n, r)
  {
    if Sensitized(n, m, t) then
      assert MarkInv(n, m) ==> MarkInv(n, AddColumn(n, m, t)) by {
        if MarkInv(n, m) {
          FirePreservesMarkInv(n, m, t);
        }
      }
      AddColumn(n, m, t)
    else m
  }

  /** The one-shot START_SMP that resource_fire_net fires first once SMP has started. */
  function StartSmpIfDue(n: nat, m: seq<int>, smpSet: bool, smpStarted: bool): (r: seq<int>)
    requires IsMarking(n, m)
    ensures IsMarking(n, r)
    ensures smpSet || !smpStarted ==> r == m
    ensures !smpSet && smpStarted ==>
      r == m[PlaceSmpNotReady(n) := m[PlaceSmpNotReady(n)] - 1][PlaceSmpReady(n) := m[PlaceSmpReady(n)] + 1]
  {
    if !smpSet && smpStarted then
      var r := AddColumn(n, m, TranStartSmp(n));
      assert r == m[PlaceSmpNotReady(n) := m[PlaceSmpNotReady(n)] - 1][PlaceSmpReady(n) := m[PlaceSmpReady(n)] + 1];
      r
    else m
  }

  /** Tokens in CPU `c`'s CPU, EXECUTING and TOEXEC places. */
  function CpuTokens(n: nat, m: seq<int>, c: int): int
    requires IsMarking(n, m) && 0 <= c < n
  {
    m[Place(c, PLACE_CPU)] + m[Place(c, PLACE_EXECUTING)] + m[Place(c, PLACE_TOEXEC)]
  }

  /**
   * The invariant of every reachable marking: no place is negative, each
   * CPU is in exactly one of available, executing or about to execute, and
   * the SMP bring-up token is in exactly one of its two places.
   */
  predicate MarkInv(n: nat, m: seq<int>)
    requires IsMarking(n, m)
  {
    && (forall p :: 0 <= p < NumPlaces(n) ==> m[p] >= 0)
    && (forall c :: 0 <= c < n ==> CpuTokens(n, m, c) == 1)
    && m[PlaceSmpNotReady(n)] + m[PlaceSmpReady(n)] == 1
  }

  /** The marking set by init_cpu_mark for every CPU and by init_global_resources. */
  function InitialMark(n: nat): (r: seq<int>)
    ensures IsMarking(n, r)
  {
    seq(NumPlaces(n), p =>
      if p == Place(0, PLACE_EXECUTING) then 1
      else if CPU_BASE_PLACES <= p < CPU_BASE_PLACES * n && p % CPU_BASE_PLACES == PLACE_CPU then 1
      else if p == PlaceSmpNotReady(n) then 1
      else 0)
  }

  /** Layout of the global indices: after the per-CPU blocks, in a fixed order. */
  lemma GlobalLayout(n: nat)
    requires n >= 1
    ensures NumPlaces(n) == 5 * n + 3 && NumTransitions(n) == 10 * n + 3
    ensures PlaceGlobalQueue(n) == CPU_BASE_PLACES * n
    ensures PlaceSmpNotReady(n) == PlaceGlobalQueue(n) + 1 && PlaceSmpReady(n) == PlaceSmpNotReady(n) + 1
    ensures TranRemoveGlobalQueue(n) == PerCpuLastTransition(n) == CPU_BASE_TRANSITIONS * n
    ensures TranStartSmp(n) == TranRemoveGlobalQueue(n) + 1 && TranQueueGlobal(n) == TranStartSmp(n) + 1
  {
  }

  /** After initialisation, CPU 0 executes, every other CPU is available and SMP is not ready. */
  lemma InitialMarkShape(n: nat)
    requires n >= 1
    ensures MarkInv(n, InitialMark(n))
    ensures InitialMark(n)[Place(0, PLACE_EXECUTING)] == 1
    ensures forall c :: 1 <= c < n ==> InitialMark(n)[Place(c, PLACE_CPU)] == 1
    ensures InitialMark(n)[PlaceSmpNotReady(n)] == 1 && InitialMark(n)[PlaceSmpReady(n)] == 0
    ensures InitialMark(n)[PlaceGlobalQueue(n)] == 0
  {
    var m := InitialMark(n);
    forall c | 0 <= c < n
      ensures CpuTokens(n, m, c) == 1
    {
      if c == 0 {
        assert m[Place(c, PLACE_CPU)] == 0 && m[Place(c, PLACE_TOEXEC)] == 0;
      } else {
        assert m[Place(c, PLACE_EXECUTING)] == 0 && m[Place(c, PLACE_TOEXEC)] == 0;
      }
    }
  }

  /** Rows CPU, EXECUTING and TOEXEC of every CPU sum to zero in every column. */
  lemma CpuColumnSum(n: nat, c: int, t: int)
    requires 0 <= c < n && IsTransition(n, t)
    ensures Inc(n, Place(c, PLACE_CPU), t) + Inc(n, Place(c, PLACE_EXECUTING), t)
            + Inc(n, Place(c, PLACE_TOEXEC), t) == 0
  {
    PlaceLayout(n, c, PLACE_CPU, c, PLACE_CPU);
    PlaceLayout(n, c, PLACE_TOEXEC, c, PLACE_TOEXEC);
    if SameCpu(n, Place(c, PLACE_CPU), t) {
      var k := t % CPU_BASE_TRANSITIONS;
      assert 0 <= k < 10;
      assert Inc(n, Place(c, PLACE_CPU), t) == BASE_RESOURCE_MATRIX[0][k];
      assert Inc(n, Place(c, PLACE_EXECUTING), t) == BASE_RESOURCE_MATRIX[1][k];
      assert Inc(n, Place(c, PLACE_TOEXEC), t) == BASE_RESOURCE_MATRIX[4][k];
    }
  }

  /** Firing a sensitized transition keeps the marking invariant. */
  lemma FirePreservesMarkInv(n: nat, m: seq<int>, t: int)
    requires IsMarking(n, m) && IsTransition(n, t) && MarkInv(n, m) && Sensitized(n, m, t)
    ensures MarkInv(n, AddColumn(n, m, t))
  {
    var r := AddColumn(n, m, t);
    forall p | 0 <= p < NumPlaces(n)
      ensures r[p] >= 0
    {
      assert !Blocks(n, m, p, t);
    }
    forall c | 0 <= c < n
      ensures CpuTokens(n, r, c) == 1
    {
      CpuColumnSum(n, c, t);
      assert CpuTokens(n, m, c) == 1;
    }
  }

  /**
   * START_SMP moves the bring-up token from SMP_NOT_READY to SMP_READY and
   * touches no other place; with the token still in SMP_NOT_READY it is
   * sensitized and keeps the invariant.
   */
  lemma StartSmpEffect(n: nat, m: seq<int>)
    requires n >= 1 && IsMarking(n, m) && MarkInv(n, m) && m[PlaceSmpNotReady(n)] == 1
    ensures Sensitized(n, m, TranStartSmp(n))
    ensures MarkInv(n, AddColumn(n, m, TranStartSmp(n)))
    ensures AddColumn(n, m, TranStartSmp(n)) == m[PlaceSmpNotReady(n) := 0][PlaceSmpReady(n) := 1]
  {
    var t := TranStartSmp(n);
    forall p | 0 <= p < NumPlaces(n)
      ensures !Blocks(n, m, p, t)
    {
    }
    FirePreservesMarkInv(n, m, t);
    assert m[PlaceSmpReady(n)] == 0;
  }

  /**
   * While SMP_NOT_READY holds a token no CPU accepts work in its queue,
   * and no CPU but 0 may execute or take from the global queue.
   */
  lemma SmpNotReadyInhibits(n: nat, m: seq<int>, c: int)
    requires IsMarking(n, m) && 0 <= c < n && m[PlaceSmpNotReady(n)] > 0
    ensures !Sensitized(n, m, Transition(c, TRAN_ADDTOQUEUE))
    ensures c != 0 ==> !Sensitized(n, m, Transition(c, TRAN_EXEC))
    ensures c != 0 ==> !Sensitized(n, m, Transition(c, TRAN_FROM_GLOBAL_CPU))
  {
    var nr := PlaceSmpNotReady(n);
    TransitionDecompose(c, TRAN_ADDTOQUEUE);
    TransitionDecompose(c, TRAN_EXEC);
    TransitionDecompose(c, TRAN_FROM_GLOBAL_CPU);
    assert Blocks(n, m, nr, Transition(c, TRAN_ADDTOQUEUE));
    if c != 0 {
      assert Blocks(n, m, nr, Transition(c, TRAN_EXEC));
      assert Blocks(n, m, nr, Transition(c, TRAN_FROM_GLOBAL_CPU));
    }
  }

  /** ADDTOQUEUE of CPU `c` is sensitized iff the CPU is not suspended and SMP is ready. */
  lemma AddToQueueSensitizedIff(n: nat, m: seq<int>, c: int)
    requires IsMarking(n, m) && 0 <= c < n
    ensures Sensitized(n, m, Transition(c, TRAN_ADDTOQUEUE))
        <==> m[Place(c, PLACE_SUSPENDED)] <= 0 && m[PlaceSmpNotReady(n)] <= 0
  {
    var t := Transition(c, TRAN_ADDTOQUEUE);
    TransitionDecompose(c, TRAN_ADDTOQUEUE);
    PlaceLayout(n, c, PLACE_SUSPENDED, c, PLACE_SUSPENDED);
    assert Inh(n, Place(c, PLACE_SUSPENDED), t) == 1;
    if m[Place(c, PLACE_SUSPENDED)] <= 0 && m[PlaceSmpNotReady(n)] <= 0 {
      forall p | 0 <= p < NumPlaces(n)
        ensures !Blocks(n, m, p, t)
      {
        if SameCpu(n, p, t) {
          assert p / CPU_BASE_PLACES == c;
          assert p % CPU_BASE_PLACES == PLACE_SUSPENDED ==> p == Place(c, PLACE_SUSPENDED);
        }
      }
    } else if m[Place(c, PLACE_SUSPENDED)] > 0 {
      assert Blocks(n, m, Place(c, PLACE_SUSPENDED), t);
    } else {
      assert Blocks(n, m, PlaceSmpNotReady(n), t);
    }
  }

  /**
   * SUSPEND has neither a consuming nor an inhibiting arc, so it is always
   * sensitized; WAKEUP needs a token in the CPU's SUSPENDED place.
   */
  lemma SuspendWakeupSensitization(n: nat, m: seq<int>, c: int)
    requires IsMarking(n, m) && 0 <= c < n
    ensures Sensitized(n, m, Transition(c, TRAN_SUSPEND_PROC))
    ensures Sensitized(n, m, Transition(c, TRAN_WAKEUP_PROC)) <==> m[Place(c, PLACE_SUSPENDED)] >= 1
  {
    var s := Transition(c, TRAN_SUSPEND_PROC);
    var w := Transition(c, TRAN_WAKEUP_PROC);
    TransitionDecompose(c, TRAN_SUSPEND_PROC);
    TransitionDecompose(c, TRAN_WAKEUP_PROC);
    PlaceLayout(n, c, PLACE_SUSPENDED, c, PLACE_SUSPENDED);
    forall p | 0 <= p < NumPlaces(n)
      ensures !Blocks(n, m, p, s)
    {
      if SameCpu(n, p, s) {
        assert p / CPU_BASE_PLACES == c;
      }
    }
    if m[Place(c, PLACE_SUSPENDED)] >= 1 {
      forall p | 0 <= p < NumPlaces(n)
        ensures !Blocks(n, m, p, w)
      {
        if SameCpu(n, p, w) {
          assert p / CPU_BASE_PLACES == c;
          assert p % CPU_BASE_PLACES == PLACE_SUSPENDED ==> p == Place(c, PLACE_SUSPENDED);
        }
      }
    } else {
      assert Inc(n, Place(c, PLACE_SUSPENDED), w) == -1;
      assert Blocks(n, m, Place(c, PLACE_SUSPENDED), w);
    }
  }

  // ---------------------------------------------------------------------
  // Hierarchical transitions: which local-net transition a resource-net
  // transition drives for the acting thread (0: none).

  /** hierarchical_transitions as initialised statically, before init_global_resources. */
  const STATIC_HIERARCHICAL_TRANSITIONS: seq<int> := [
    TRAN_ADDTOQUEUE, TRAN_EXEC, TRAN_EXEC_IDLE, TRAN_RETURN_INVOL, TRAN_RETURN_VOL, TRAN_REMOVE_QUEUE, 0, 0
  ]

  const HIERARCHICAL_CORRESPONSE: seq<int> := [
    LocalNet.TRAN_ON_QUEUE, LocalNet.TRAN_SET_RUNNING, LocalNet.TRAN_ON_QUEUE, LocalNet.TRAN_SWITCH_OUT,
    LocalNet.TRAN_TO_WAIT_CHANNEL, LocalNet.TRAN_REMOVE, LocalNet.TRAN_ON_QUEUE, LocalNet.TRAN_REMOVE
  ]

  /** The table after init_global_resources adds the two global hierarchical transitions. */
  function HierarchicalTransitions(n: nat): seq<int>
  {
    STATIC_HIERARCHICAL_TRANSITIONS[..PER_CPU_HIER_TRANSITIONS] + [TranQueueGlobal(n), TranRemoveGlobalQueue(n)]
  }

  /** One entry of the table matches `t`, either exactly or, for per-CPU transitions, by kind. */
  predicate HierMatches(n: nat, t: int, h: int)
  {
    t == h || (t < TranRemoveGlobalQueue(n) && t % CPU_BASE_TRANSITIONS == h)
  }

  /** The hierarchical map stated by transition kind, independently of the table scan. */
  function LocalTransitionFor(n: nat, t: int): (r: int)
    requires n >= 1 && IsTransition(n, t)
    ensures r == 0 || LocalNet.IsTransition(r)
  {
    if t < CPU_BASE_TRANSITIONS * n then
      var k := t % CPU_BASE_TRANSITIONS;
      if k == TRAN_ADDTOQUEUE || k == TRAN_EXEC_IDLE then LocalNet.TRAN_ON_QUEUE
      else if k == TRAN_EXEC then LocalNet.TRAN_SET_RUNNING
      else if k == TRAN_RETURN_INVOL then LocalNet.TRAN_SWITCH_OUT
      else if k == TRAN_RETURN_VOL then LocalNet.TRAN_TO_WAIT_CHANNEL
      else if k == TRAN_REMOVE_QUEUE then LocalNet.TRAN_REMOVE
      else 0
    else if t == TranQueueGlobal(n) then LocalNet.TRAN_ON_QUEUE
    else if t == TranRemoveGlobalQueue(n) then LocalNet.TRAN_REMOVE
    else 0
  }

  /**
   * Hierarchical consistency: a thread waiting to run goes to its run queue
   * when an enqueue-class transition fires for it, a queued thread starts
   * running on EXEC, a running thread blocks on RETURN_VOL and goes back to
   * CAN_RUN on RETURN_INVOL.
   */
  lemma HierarchicalConsistency(n: nat, c: int)
    requires n >= 1 && 0 <= c < n
    ensures LocalNet.Fire(LocalNet.Token(LocalNet.CAN_RUN), LocalTransitionFor(n, Transition(c, TRAN_ADDTOQUEUE)))
            == LocalNet.Token(LocalNet.RUNQ)
    ensures LocalNet.Fire(LocalNet.Token(LocalNet.CAN_RUN), LocalTransitionFor(n, TranQueueGlobal(n)))
            == LocalNet.Token(LocalNet.RUNQ)
    ensures LocalNet.Fire(LocalNet.Token(LocalNet.RUNQ), LocalTransitionFor(n, Transition(c, TRAN_EXEC)))
            == LocalNet.Token(LocalNet.RUNNING)
    ensures LocalNet.Fire(LocalNet.Token(LocalNet.RUNNING), LocalTransitionFor(n, Transition(c, TRAN_RETURN_VOL)))
            == LocalNet.Token(LocalNet.INHIBITED)
    ensures LocalNet.Fire(LocalNet.Token(LocalNet.RUNNING), LocalTransitionFor(n, Transition(c, TRAN_RETURN_INVOL)))
            == LocalNet.Token(LocalNet.CAN_RUN)
  {
    TransitionLayout(n, c, TRAN_ADDTOQUEUE, c, TRAN_ADDTOQUEUE);
    TransitionLayout(n, c, TRAN_EXEC, c, TRAN_EXEC);
    TransitionLayout(n, c, TRAN_RETURN_VOL, c, TRAN_RETURN_VOL);
    TransitionLayout(n, c, TRAN_RETURN_INVOL, c, TRAN_RETURN_INVOL);
    TransitionDecompose(c, TRAN_ADDTOQUEUE);
    TransitionDecompose(c, TRAN_EXEC);
    TransitionDecompose(c, TRAN_RETURN_VOL);
    TransitionDecompose(c, TRAN_RETURN_INVOL);
    OneTokenFire(LocalNet.CAN_RUN, LocalNet.TRAN_ON_QUEUE);
    OneTokenFire(LocalNet.RUNQ, LocalNet.TRAN_SET_RUNNING);
    OneTokenFire(LocalNet.RUNNING, LocalNet.TRAN_TO_WAIT_CHANNEL);
    OneTokenFire(LocalNet.RUNNING, LocalNet.TRAN_SWITCH_OUT);
  }

  /** A single-token marking fires a local transition from its source place to its target place. */
  lemma OneTokenFire(p: int, t: int)
    requires LocalNet.IsPlace(p) && LocalNet.IsTransition(t) && LocalNet.Source(t) == p
    ensures LocalNet.Fire(LocalNet.Token(p), t) == LocalNet.Token(LocalNet.Target(t))
  {
    var m := LocalNet.Token(p);
    assert LocalNet.NonNegative(m) && LocalNet.Total(m) == 1;
    LocalNet.TransitionEffect(m, t);
  }

  // ---------------------------------------------------------------------
  // The pin table and the CPU-selection policy of resource_choose_cpu.

  /** get_monopolized_cpu_by_proc_id from index `from`: the lowest CPU pinned to `pid`, or -1. */
  function FirstPinnedBy(pinned: seq<int>, pid: int, from: nat): (r: int)
    decreases |pinned| - from
    ensures r == -1 || (from <= r < |pinned| && pinned[r] == pid)
    ensures r == -1 <==> forall i :: from <= i < |pinned| ==> pinned[i] != pid
    ensures r != -1 ==> forall i :: from <= i < r ==> pinned[i] != pid
  {
    if from >= |pinned| then -1
    else if pinned[from] == pid then from
    else FirstPinnedBy(pinned, pid, from + 1)
  }

  /** cpu_available_for_proc: the CPU is unpinned or pinned to this process. */
  predicate CpuAvailableForProc(pinned: seq<int>, pid: int, cpu: int)
    requires 0 <= cpu < |pinned|
  {
    pinned[cpu] == pid || pinned[cpu] == -1
  }

  /** Steps 2 and 3 of resource_choose_cpu accept a CPU under these three conditions. */
  predicate CanQueueOn(n: nat, m: seq<int>, pinned: seq<int>, pid: int, mask: set<int>, cpu: int)
    requires IsMarking(n, m) && |pinned| == n && 0 <= cpu < n
  {
    TransitionLayout(n, cpu, TRAN_ADDTOQUEUE, cpu, TRAN_ADDTOQUEUE);
    && ThreadCanSched(mask, cpu)
    && Sensitized(n, m, Transition(cpu, TRAN_ADDTOQUEUE))
    && CpuAvailableForProc(pinned, pid, cpu)
  }

  /** The first-fit scan from CPU `cpu` upwards, falling back to the global queue. */
  function FirstFit(n: nat, m: seq<int>, pinned: seq<int>, pid: int, mask: set<int>, cpu: nat): (r: int)
    requires IsMarking(n, m) && |pinned| == n
    decreases n - cpu
    ensures r == TranQueueGlobal(n) <==> forall c :: cpu <= c < n ==> !CanQueueOn(n, m, pinned, pid, mask, c)
    ensures r != TranQueueGlobal(n) ==>
      exists c :: cpu <= c < n && r == Transition(c, TRAN_ADDTOQUEUE) && CanQueueOn(n, m, pinned, pid, mask, c)
        && forall j :: cpu <= j < c ==> !CanQueueOn(n, m, pinned, pid, mask, j)
  {
    if cpu >= n then TranQueueGlobal(n)
    else if CanQueueOn(n, m, pinned, pid, mask, cpu) then
      TransitionLayout(n, cpu, TRAN_ADDTOQUEUE, cpu, TRAN_ADDTOQUEUE);
      Transition(cpu, TRAN_ADDTOQUEUE)
    else FirstFit(n, m, pinned, pid, mask, cpu + 1)
  }

  /** resource_choose_cpu: pinned CPU, else last CPU, else first fit, else the global queue. */
  function ChooseCpu(n: nat, m: seq<int>, pinned: seq<int>, pid: int, lastCpu: int, mask: set<int>): (r: int)
    requires IsMarking(n, m) && |pinned| == n
    requires lastCpu == NOCPU || 0 <= lastCpu < n
    ensures r == TranQueueGlobal(n) || exists c :: 0 <= c < n && r == Transition(c, TRAN_ADDTOQUEUE)
  {
    var pinnedCpu := FirstPinnedBy(pinned, pid, 0);
    if pinnedCpu != -1 then Transition(pinnedCpu, TRAN_ADDTOQUEUE)
    else if lastCpu != NOCPU && CanQueueOn(n, m, pinned, pid, mask, lastCpu) then Transition(lastCpu, TRAN_ADDTOQUEUE)
    else FirstFit(n, m, pinned, pid, mask, 0)
  }

  /**
   * The precedence of resource_choose_cpu, stated declaratively: the lowest
   * CPU pinned to the process (whether or not it can take work), else the
   * last CPU when it can take the thread, else the lowest CPU that can, else
   * the global queue; the answer is always some CPU's ADDTOQUEUE or
   * QUEUE_GLOBAL.
   */
  lemma {:induction false} ChooseCpuPrecedence(n: nat, m: seq<int>, pinned: seq<int>, pid: int, lastCpu: int, mask: set<int>)
    requires n >= 1 && IsMarking(n, m) && |pinned| == n
    requires lastCpu == NOCPU || 0 <= lastCpu < n
    ensures var r := ChooseCpu(n, m, pinned, pid, lastCpu, mask);
      && (r == TranQueueGlobal(n) || exists c :: 0 <= c < n && r == Transition(c, TRAN_ADDTOQUEUE))
      && (forall c :: 0 <= c < n && pinned[c] == pid && (forall j :: 0 <= j < c ==> pinned[j] != pid)
            ==> r == Transition(c, TRAN_ADDTOQUEUE))
      && (((forall c :: 0 <= c < n ==> pinned[c] != pid) && lastCpu != NOCPU
            && CanQueueOn(n, m, pinned, pid, mask, lastCpu)) ==> r == Transition(lastCpu, TRAN_ADDTOQUEUE))
      && (((forall c :: 0 <= c < n ==> pinned[c] != pid)
            && (lastCpu == NOCPU || !CanQueueOn(n, m, pinned, pid, mask, lastCpu))) ==>
            (forall c :: 0 <= c < n && CanQueueOn(n, m, pinned, pid, mask, c)
               && (forall j :: 0 <= j < c ==> !CanQueueOn(n, m, pinned, pid, mask, j))
               ==> r == Transition(c, TRAN_ADDTOQUEUE))
            && ((forall c :: 0 <= c < n ==> !CanQueueOn(n, m, pinned, pid, mask, c)) ==> r == TranQueueGlobal(n)))
  {
    var r := ChooseCpu(n, m, pinned, pid, lastCpu, mask);
    var pinnedCpu := FirstPinnedBy(pinned, pid, 0);
    if pinnedCpu == -1 && (lastCpu == NOCPU || !CanQueueOn(n, m, pinned, pid, mask, lastCpu)) {
      var f := FirstFit(n, m, pinned, pid, mask, 0);
      assert r == f;
      forall c | 0 <= c < n && CanQueueOn(n, m, pinned, pid, mask, c)
               && (forall j :: 0 <= j < c ==> !CanQueueOn(n, m, pinned, pid, mask, j))
        ensures r == Transition(c, TRAN_ADDTOQUEUE)
      {
        assert f != TranQueueGlobal(n);
        var c' :| 0 <= c' < n && f == Transition(c', TRAN_ADDTOQUEUE) && CanQueueOn(n, m, pinned, pid, mask, c')
          && forall j :: 0 <= j < c' ==> !CanQueueOn(n, m, pinned, pid, mask, j);
        assert c' == c;
      }
    }
  }

  /** While SMP is not ready, a thread that pins no CPU goes to the global queue. */
  lemma ChooseCpuBeforeSmp(n: nat, m: seq<int>, pinned: seq<int>, pid: int, lastCpu: int, mask: set<int>)
    requires n >= 1 && IsMarking(n, m) && |pinned| == n
    requires lastCpu == NOCPU || 0 <= lastCpu < n
    requires m[PlaceSmpNotReady(n)] > 0
    requires forall c :: 0 <= c < n ==> pinned[c] != pid
    ensures ChooseCpu(n, m, pinned, pid, lastCpu, mask) == TranQueueGlobal(n)
  {
    forall c | 0 <= c < n
      ensures !CanQueueOn(n, m, pinned, pid, mask, c)
    {
      SmpNotReadyInhibits(n, m, c);
    }
    ChooseCpuPrecedence(n, m, pinned, pid, lastCpu, mask);
  }

  /**
   * A process can only be sent to a CPU it may use: the chosen ADDTOQUEUE
   * belongs to a CPU that is unpinned or pinned to the thread's process.
   */
  lemma ChooseCpuRespectsPins(n: nat, m: seq<int>, pinned: seq<int>, pid: int, lastCpu: int, mask: set<int>)
    requires n >= 1 && IsMarking(n, m) && |pinned| == n
    requires lastCpu == NOCPU || 0 <= lastCpu < n
    ensures var r := ChooseCpu(n, m, pinned, pid, lastCpu, mask);
      r == TranQueueGlobal(n)
      || exists c :: 0 <= c < n && r == Transition(c, TRAN_ADDTOQUEUE) && CpuAvailableForProc(pinned, pid, c)
  {
    var r := ChooseCpu(n, m, pinned, pid, lastCpu, mask);
    var pinnedCpu := FirstPinnedBy(pinned, pid, 0);
    if pinnedCpu != -1 {
      assert CpuAvailableForProc(pinned, pid, pinnedCpu);
    } else if lastCpu != NOCPU && CanQueueOn(n, m, pinned, pid, mask, lastCpu) {
      assert CpuAvailableForProc(pinned, pid, lastCpu);
    } else if r != TranQueueGlobal(n) {
      var c :| 0 <= c < n && r == Transition(c, TRAN_ADDTOQUEUE) && CanQueueOn(n, m, pinned, pid, mask, c)
        && forall j :: 0 <= j < c ==> !CanQueueOn(n, m, pinned, pid, mask, j);
      assert CpuAvailableForProc(pinned, pid, c);
    }
  }

  /**
   * SUSPEND is always sensitized, so suspending a CPU that is already
   * suspended succeeds and leaves two tokens in SUSPENDED: one WAKEUP then
   * leaves the CPU suspended and its queue still closed.
   */
  lemma SuspendTwiceNeedsTwoWakeups(n: nat, m: seq<int>, c: int)
    requires IsMarking(n, m) && 0 <= c < n && m[Place(c, PLACE_SUSPENDED)] == 1
    ensures var s := Transition(c, TRAN_SUSPEND_PROC);
      var w := Transition(c, TRAN_WAKEUP_PROC);
      && Sensitized(n, m, s)
      && AddColumn(n, m, s)[Place(c, PLACE_SUSPENDED)] == 2
      && Sensitized(n, AddColumn(n, m, s), w)
      && AddColumn(n, AddColumn(n, m, s), w)[Place(c, PLACE_SUSPENDED)] == 1
      && !Sensitized(n, AddColumn(n, AddColumn(n, m, s), w), Transition(c, TRAN_ADDTOQUEUE))
  {
    var s := Transition(c, TRAN_SUSPEND_PROC);
    var w := Transition(c, TRAN_WAKEUP_PROC);
    TransitionDecompose(c, TRAN_SUSPEND_PROC);
    TransitionDecompose(c, TRAN_WAKEUP_PROC);
    PlaceLayout(n, c, PLACE_SUSPENDED, c, PLACE_SUSPENDED);
    SuspendWakeupSensitization(n, m, c);
    var m1 := AddColumn(n, m, s);
    assert Inc(n, Place(c, PLACE_SUSPENDED), s) == 1;
    SuspendWakeupSensitization(n, m1, c);
    var m2 := AddColumn(n, m1, w);
    assert Inc(n, Place(c, PLACE_SUSPENDED), w) == -1;
    AddToQueueSensitizedIff(n, m2, c);
  }

  // ---------------------------------------------------------------------
  // The pin table monopolized_cpus_per_proc: -1 for a free CPU, else the
  // pid of the process that monopolizes it.

  /** The shape the table keeps: CPU 0 is never pinned and pins hold valid pids. */
  predicate PinTableShape(table: seq<int>)
  {
    |table| >= 1 && table[0] == -1 && forall c :: 0 <= c < |table| ==> table[c] == -1 || table[c] >= 1
  }

  /** The outcome of toggle_pin_cpu_to_proc: its return value and the new table. */
  datatype PinOutcome = PinOutcome(ok: bool, table: seq<int>)

  /**
   * toggle_pin_cpu_to_proc: CPU 0 and out-of-range CPUs are refused; a
   * release always frees the CPU, whoever holds it; a monopolization
   * succeeds only for a valid pid on a CPU that is free or already its own
   * and not suspended.
   */
  function TogglePin(table: seq<int>, suspended: bool, pid: int, cpu: int, release: bool): (r: PinOutcome)
    ensures |r.table| == |table|
    ensures !r.ok ==> r.table == table
    ensures forall c :: 0 <= c < |table| && c != cpu ==> r.table[c] == table[c]
  {
    if cpu >= |table| || cpu <= 0 then PinOutcome(false, table)
    else if release then PinOutcome(true, table[cpu := -1])
    else if !CpuAvailableForProc(table, pid, cpu) || suspended || pid < 1 then PinOutcome(false, table)
    else PinOutcome(true, table[cpu := pid])
  }

  /** Every pin operation keeps the table's shape. */
  lemma TogglePinKeepsShape(table: seq<int>, suspended: bool, pid: int, cpu: int, release: bool)
    requires PinTableShape(table)
    ensures PinTableShape(TogglePin(table, suspended, pid, cpu, release).table)
  {
  }

  /**
   * Exclusivity: once a process holds a CPU, the CPU is no longer available
   * to any other process and their monopolization attempts fail, while the
   * holder's own repeated attempt succeeds and changes nothing.
   */
  lemma PinExclusive(table: seq<int>, suspended: bool, pid: int, cpu: int, other: int)
    requires TogglePin(table, suspended, pid, cpu, false).ok && other != pid
    ensures var t := TogglePin(table, suspended, pid, cpu, false).table;
      && t[cpu] == pid
      && !CpuAvailableForProc(t, other, cpu)
      && !TogglePin(t, suspended, other, cpu, false).ok
      && TogglePin(t, suspended, pid, cpu, false) == PinOutcome(true, t)
  {
  }

  /** A release frees the CPU, so any valid process may then take it while it is not suspended. */
  lemma ReleaseFrees(table: seq<int>, suspended: bool, pid: int, cpu: int, other: int)
    requires 0 < cpu < |table|
    ensures var t := TogglePin(table, suspended, pid, cpu, true).table;
      && t[cpu] == -1
      && (TogglePin(t, suspended, other, cpu, false).ok <==> other >= 1 && !suspended)
  {
  }

  /**
   * A process that holds a CPU gets its threads queued there: when it pins
   * `cpu` and no lower CPU, resource_choose_cpu returns that CPU's
   * ADDTOQUEUE, suspended or not.
   */
  lemma PinnedProcessGoesToItsCpu(n: nat, m: seq<int>, table: seq<int>, suspended: bool, pid: int, cpu: int,
                                  lastCpu: int, mask: set<int>)
    requires n >= 1 && IsMarking(n, m) && |table| == n
    requires lastCpu == NOCPU || 0 <= lastCpu < n
    requires forall j :: 0 <= j < cpu && j < n ==> table[j] != pid
    requires TogglePin(table, suspended, pid, cpu, false).ok
    ensures ChooseCpu(n, m, TogglePin(table, suspended, pid, cpu, false).table, pid, lastCpu, mask)
            == Transition(cpu, TRAN_ADDTOQUEUE)
  {
    var t := TogglePin(table, suspended, pid, cpu, false).table;
    ChooseCpuPrecedence(n, m, t, pid, lastCpu, mask);
  }

  /**
   * Expelling a thread: RETURN_VOL and RETURN_INVOL of CPU `c` are
   * sensitized exactly when the CPU is executing, and firing either hands
   * the CPU back to its available place.
   */
  lemma ReturnFreesCpu(n: nat, m: seq<int>, c: int, kind: int)
    requires IsMarking(n, m) && MarkInv(n, m) && 0 <= c < n
    requires kind == TRAN_RETURN_VOL || kind == TRAN_RETURN_INVOL
    ensures Sensitized(n, m, Transition(c, kind)) <==> m[Place(c, PLACE_EXECUTING)] == 1
    ensures m[Place(c, PLACE_EXECUTING)] == 1 ==>
      var r := AddColumn(n, m, Transition(c, kind));
      r[Place(c, PLACE_EXECUTING)] == 0 && r[Place(c, PLACE_CPU)] == 1 && r[Place(c, PLACE_TOEXEC)] == 0
  {
    var t := Transition(c, kind);
    TransitionDecompose(c, kind);
    PlaceLayout(n, c, PLACE_EXECUTING, c, PLACE_EXECUTING);
    PlaceLayout(n, c, PLACE_CPU, c, PLACE_CPU);
    PlaceLayout(n, c, PLACE_TOEXEC, c, PLACE_TOEXEC);
    assert CpuTokens(n, m, c) == 1;
    if m[Place(c, PLACE_EXECUTING)] == 1 {
      forall p | 0 <= p < NumPlaces(n)
        ensures !Blocks(n, m, p, t)
      {
        if SameCpu(n, p, t) {
          assert p / CPU_BASE_PLACES == c;
          assert p % CPU_BASE_PLACES == PLACE_EXECUTING ==> p == Place(c, PLACE_EXECUTING);
        }
      }
    } else {
      assert Inc(n, Place(c, PLACE_EXECUTING), t) == -1;
      assert Blocks(n, m, Place(c, PLACE_EXECUTING), t);
    }
  }

  /** The entry init_cpu_matrix copies to place kind `np`, transition kind `nt` of CPU `c`. */
  lemma BlockEntry(n: nat, c: int, np: int, nt: int)
    requires 0 <= c < n && 0 <= np < CPU_BASE_PLACES && 0 <= nt < CPU_BASE_TRANSITIONS
    ensures IsPlace(n, Place(c, np)) && IsTransition(n, Transition(c, nt))
    ensures Inc(n, Place(c, np), Transition(c, nt)) == BASE_RESOURCE_MATRIX[np][nt]
    ensures Inh(n, Place(c, np), Transition(c, nt)) == BASE_RESOURCE_INHIBITION_MATRIX[np][nt]
  {
    PlaceLayout(n, c, np, c, np);
    TransitionLayout(n, c, nt, c, nt);
    TransitionDecompose(c, nt);
    assert Place(c, np) / CPU_BASE_PLACES == c && Place(c, np) % CPU_BASE_PLACES == np;
  }

  /**
   * The first-match scan of is_hierarchical over the table computes the map
   * stated by kind: a first match at `i` yields entry `i` of
   * hierarchical_corresponse, and no match at all (i == 8) yields 0.
   */
  lemma HierarchicalScan(n: nat, t: int, i: int)
    requires n >= 1 && IsTransition(n, t) && 0 <= i <= HIERARCHICAL_TRANSITIONS
    requires forall j :: 0 <= j < i ==> !HierMatches(n, t, HierarchicalTransitions(n)[j])
    requires i < HIERARCHICAL_TRANSITIONS ==> HierMatches(n, t, HierarchicalTransitions(n)[i])
    ensures i < HIERARCHICAL_TRANSITIONS ==> HIERARCHICAL_CORRESPONSE[i] == LocalTransitionFor(n, t)
    ensures i == HIERARCHICAL_TRANSITIONS ==> LocalTransitionFor(n, t) == 0
  {
    var h := HierarchicalTransitions(n);
    assert h == [0, 1, 2, 5, 6, 4, TranQueueGlobal(n), TranRemoveGlobalQueue(n)];
    if t < CPU_BASE_TRANSITIONS * n {
      var k := t % CPU_BASE_TRANSITIONS;
      if k == 0 { assert HierMatches(n, t, h[0]); }
      else if k == 1 { assert HierMatches(n, t, h[1]); }
      else if k == 2 { assert HierMatches(n, t, h[2]); }
      else if k == 5 { assert HierMatches(n, t, h[3]); }
      else if k == 6 { assert HierMatches(n, t, h[4]); }
      else if k == 4 { assert HierMatches(n, t, h[5]); }
    } else if t == TranQueueGlobal(n) {
      assert HierMatches(n, t, h[6]);
    } else if t == TranRemoveGlobalQueue(n) {
      assert HierMatches(n, t, h[7]);
    }
  }
}
