/**
 * Constants and index arithmetic shared by the resource net and the
 * per-thread net (src/sys/sched_petri.h).
 *
 * The resource net lays its places and transitions out CPU by CPU: CPU `c`
 * owns places `5c .. 5c+4` and transitions `10c .. 10c+9`, and the global
 * places and transitions come after every CPU's block.
 */
module SchedPetriH {

  const CPU_BASE_PLACES := 5
  const CPU_BASE_TRANSITIONS := 10

  const PER_CPU_HIER_TRANSITIONS := 6
  const GLOBAL_HIER_TRANSITIONS := 2
  const HIERARCHICAL_TRANSITIONS := PER_CPU_HIER_TRANSITIONS + GLOBAL_HIER_TRANSITIONS

  // Places of one CPU's block.
  const PLACE_CPU := 0
  const PLACE_EXECUTING := 1
  const PLACE_QUEUE := 2
  const PLACE_SUSPENDED := 3
  const PLACE_TOEXEC := 4

  const GLOBAL_PLACES := 3

  // Transitions of one CPU's block.
  const TRAN_ADDTOQUEUE := 0
  const TRAN_EXEC := 1
  const TRAN_EXEC_IDLE := 2
  const TRAN_FROM_GLOBAL_CPU := 3
  const TRAN_REMOVE_QUEUE := 4
  const TRAN_RETURN_INVOL := 5
  const TRAN_RETURN_VOL := 6
  const TRAN_SUSPEND_PROC := 7
  const TRAN_UNQUEUE := 8
  const TRAN_WAKEUP_PROC := 9

  const GLOBAL_TRANSITIONS := 3

  // Flags of toggle_active_cpu and toggle_pin_cpu_to_proc.
  const TURN_OFF := true
  const TURN_ON := false
  const RELEASE := true
  const MONOPOLIZE := false

  /** The kernel's "no CPU" value for td_lastcpu. */
  const NOCPU := -1

  function CpuBaseTransition(cpu: int): int { cpu * CPU_BASE_TRANSITIONS }
  function CpuBasePlace(cpu: int): int { cpu * CPU_BASE_PLACES }

  /** TRANSITION(cpu, t); the macro does not parenthesise `cpu`, every call site passes a plain name. */
  function Transition(cpu: int, t: int): int { CpuBaseTransition(cpu) + t }

  /** PLACE(cpu, p). */
  function Place(cpu: int, p: int): int { CpuBasePlace(cpu) + p }

  /** THREAD_CAN_SCHED(td, cpu): `cpu` is in the thread's cpuset mask. */
  predicate ThreadCanSched(mask: set<int>, cpu: int) { cpu in mask }

  /** A per-CPU transition index splits back into its CPU and its kind. */
  lemma TransitionDecompose(cpu: int, t: int)
    requires 0 <= t < CPU_BASE_TRANSITIONS
    ensures Transition(cpu, t) / CPU_BASE_TRANSITIONS == cpu
    ensures Transition(cpu, t) % CPU_BASE_TRANSITIONS == t
  {
  }

  /** Distinct (cpu, place) pairs give distinct place indices, all inside the per-CPU block. */
  lemma PlaceLayout(n: int, c1: int, p1: int, c2: int, p2: int)
    requires 0 <= c1 < n && 0 <= c2 < n
    requires 0 <= p1 < CPU_BASE_PLACES && 0 <= p2 < CPU_BASE_PLACES
    ensures 0 <= Place(c1, p1) < CPU_BASE_PLACES * n
    ensures Place(c1, p1) == Place(c2, p2) <==> c1 == c2 && p1 == p2
  {
  }

  /** Distinct (cpu, kind) pairs give distinct transition indices, all inside the per-CPU block. */
  lemma TransitionLayout(n: int, c1: int, t1: int, c2: int, t2: int)
    requires 0 <= c1 < n && 0 <= c2 < n
    requires 0 <= t1 < CPU_BASE_TRANSITIONS && 0 <= t2 < CPU_BASE_TRANSITIONS
    ensures 0 <= Transition(c1, t1) < CPU_BASE_TRANSITIONS * n
    ensures Transition(c1, t1) == Transition(c2, t2) <==> c1 == c2 && t1 == t2
  {
  }
}
