/**
 * The per-thread (local) Petri net of src/kern/sched_petri.c.
 *
 * Every thread carries a marking over five places; the seven transitions
 * share one fixed incidence matrix and there are no inhibitor arcs. Each
 * column of the matrix moves exactly one token from one place to another,
 * so a thread initialised by either initial marking holds exactly one token
 * forever: the place holding it is the thread's scheduling state.
 */
module LocalNet {

  const THREADS_PLACES_SIZE := 5
  const THREADS_TRANSITIONS_SIZE := 7

  // Places, in the order of the place-name table.
  const INACTIVE := 0
  const CAN_RUN := 1
  const RUNQ := 2
  const RUNNING := 3
  const INHIBITED := 4

  // Transitions, in the order of the transition-name table.
  const TRAN_INIT := 0
  const TRAN_ON_QUEUE := 1
  const TRAN_SET_RUNNING := 2
  const TRAN_SWITCH_OUT := 3
  const TRAN_TO_WAIT_CHANNEL := 4
  const TRAN_WAKEUP := 5
  const TRAN_REMOVE := 6

  /** Rows are places, columns are transitions. */
  const INCIDENCE_MATRIX: seq<seq<int>> := [
    [-1,  0,  0,  0,  0,  0,  0],
    [ 1, -1,  0,  1,  0,  1,  1],
    [ 0,  1, -1,  0,  0,  0, -1],
    [ 0,  0,  1, -1, -1,  0,  0],
    [ 0,  0,  0,  0,  1, -1,  0]
  ]

  /** The generic initial marking: one token in CAN_RUN. */
  const INITIAL_MARK: seq<int> := [0, 1, 0, 0, 0]

  /** The marking of the bootstrap thread, which starts out running. */
  const INITIAL_MARK0: seq<int> := [0, 0, 0, 1, 0]

  predicate IsPlace(p: int) { 0 <= p < THREADS_PLACES_SIZE }
  predicate IsTransition(t: int) { 0 <= t < THREADS_TRANSITIONS_SIZE }
  predicate IsMarking(m: seq<int>) { |m| == THREADS_PLACES_SIZE }

  function Incidence(p: int, t: int): int
    requires IsPlace(p) && IsTransition(t)
  {
    INCIDENCE_MATRIX[p][t]
  }

  /** Place `p` forbids `t` when `t` consumes from it more than it holds. */
  predicate Blocks(m: seq<int>, p: int, t: int)
    requires IsMarking(m) && IsPlace(p) && IsTransition(t)
  {
    Incidence(p, t) < 0 && Incidence(p, t) + m[p] < 0
  }

  /**
   * `t` may fire: no place would go negative. On a marking without negative
   * places that is exactly when adding column `t` leaves none negative.
   */
  predicate Sensitized(m: seq<int>, t: int)
    requires IsMarking(m) && IsTransition(t)
    ensures NonNegative(m) ==> (Sensitized(m, t) <==> NonNegative(AddColumn(m, t)))
  {
    var ok := forall p :: 0 <= p < THREADS_PLACES_SIZE ==> !Blocks(m, p, t);
    assert NonNegative(m) ==> (ok <==> NonNegative(AddColumn(m, t))) by {
      var r := AddColumn(m, t);
      assert forall p :: 0 <= p < THREADS_PLACES_SIZE ==> r[p] == m[p] + Incidence(p, t);
      if NonNegative(m) && ok {
        forall p | 0 <= p < THREADS_PLACES_SIZE ensures r[p] >= 0 {
          assert !Blocks(m, p, t);
        }
      }
      if NonNegative(r) {
        forall p | 0 <= p < THREADS_PLACES_SIZE ensures !Blocks(m, p, t) {
          assert r[p] >= 0;
        }
      }
    }
    ok
  }

  /** The marking after adding column `t` of the incidence matrix. */
  function AddColumn(m: seq<int>, t: int): (r: seq<int>)
    requires IsMarking(m) && IsTransition(t)
    ensures IsMarking(r)
  {
    seq(THREADS_PLACES_SIZE, p requires IsPlace(p) => m[p] + Incidence(p, t))
  }

  /** thread_petri_fire: a transition that is not sensitized leaves the marking as it was. */
  function Fire(m: seq<int>, t: int): (r: seq<int>)
    requires IsMarking(m) && IsTransition(t)
    ensures IsMarking(r)
    ensures r != m ==> Sensitized(m, t)
    ensures NonNegative(m) ==> NonNegative(r)
  {
    if Sensitized(m, t) then AddColumn(m, t) else m
  }

  function Total(m: seq<int>): int
    requires IsMarking(m)
  {
    m[0] + m[1] + m[2] + m[3] + m[4]
  }

  predicate NonNegative(m: seq<int>)
    requires IsMarking(m)
  {
    forall p :: 0 <= p < THREADS_PLACES_SIZE ==> m[p] >= 0
  }

  /** The invariant of every initialised thread: exactly one token. */
  predicate OneToken(m: seq<int>)
    requires IsMarking(m)
  {
    NonNegative(m) && Total(m) == 1
  }

  /** The marking with its single token in place `p`. */
  function Token(p: int): (r: seq<int>)
    requires IsPlace(p)
    ensures IsMarking(r)
  {
    seq(THREADS_PLACES_SIZE, q => if q == p then 1 else 0)
  }

  /** The place each transition takes its token from (reference table, independent of the matrix). */
  function Source(t: int): int
    requires IsTransition(t)
  {
    [INACTIVE, CAN_RUN, RUNQ, RUNNING, RUNNING, INHIBITED, RUNQ][t]
  }

  /** The place each transition puts its token in. */
  function Target(t: int): int
    requires IsTransition(t)
  {
    [CAN_RUN, RUNQ, RUNNING, CAN_RUN, INHIBITED, CAN_RUN, CAN_RUN][t]
  }

  /** Every column of the incidence matrix sums to zero. */
  lemma ColumnSumsZero(t: int)
    requires IsTransition(t)
    ensures Incidence(0, t) + Incidence(1, t) + Incidence(2, t) + Incidence(3, t) + Incidence(4, t) == 0
  {
  }

  /** Firing never changes the number of tokens. */
  lemma FirePreservesTotal(m: seq<int>, t: int)
    requires IsMarking(m) && IsTransition(t)
    ensures Total(Fire(m, t)) == Total(m)
  {
    if Sensitized(m, t) {
      ColumnSumsZero(t);
    }
  }

  /** Firing a sensitized transition keeps every place non-negative. */
  lemma FireKeepsNonNegative(m: seq<int>, t: int)
    requires IsMarking(m) && IsTransition(t) && NonNegative(m)
    ensures NonNegative(Fire(m, t))
  {
    if Sensitized(m, t) {
      forall p | IsPlace(p)
        ensures Fire(m, t)[p] >= 0
      {
        assert !Blocks(m, p, t);
      }
    }
  }

  /** A thread keeps exactly one token whatever is fired on it. */
  lemma OneTokenInvariant(m: seq<int>, t: int)
    requires IsMarking(m) && IsTransition(t) && OneToken(m)
    ensures OneToken(Fire(m, t))
  {
    FirePreservesTotal(m, t);
    FireKeepsNonNegative(m, t);
  }

  /** One token means the marking is `Token(p)` for a single place `p`. */
  lemma OneTokenIsAPlace(m: seq<int>) returns (p: int)
    requires IsMarking(m) && OneToken(m)
    ensures IsPlace(p) && m == Token(p)
  {
    p := if m[0] == 1 then 0 else if m[1] == 1 then 1 else if m[2] == 1 then 2 else if m[3] == 1 then 3 else 4;
    assert forall q :: IsPlace(q) ==> m[q] >= 0;
    assert m[0] >= 0 && m[1] >= 0 && m[2] >= 0 && m[3] >= 0 && m[4] >= 0;
  }

  /**
   * The effect of each transition on a thread: it is sensitized exactly when
   * the token sits in its source place, and it then moves the token to its
   * target place.
   */
  lemma TransitionEffect(m: seq<int>, t: int)
    requires IsMarking(m) && IsTransition(t) && OneToken(m)
    ensures Sensitized(m, t) <==> m[Source(t)] == 1
    ensures Sensitized(m, t) ==> Fire(m, t) == Token(Target(t))
  {
    var p := OneTokenIsAPlace(m);
    if m[Source(t)] == 1 {
      assert p == Source(t);
      forall q | IsPlace(q) ensures !Blocks(m, q, t) { }
      assert AddColumn(m, t) == Token(Target(t));
    } else {
      assert !Blocks(m, Source(t), t) ==> false;
    }
  }

  /** The thread fields the scheduler core reads and writes. */
  class Thread {
    /** The thread's local-net marking. */
    const mark: array<int>
    /** Set when the thread left the CPU voluntarily and must be woken in its local net. */
    var fromInh: int
    /** td_lastcpu. */
    var lastCpu: int
    /** The cpuset mask: the CPUs the thread may run on. */
    var cpuMask: set<int>
    /** td_tid and the pid of the owning process. */
    const tid: int
    const pid: int

    ghost predicate Valid()
      reads this
    {
      mark.Length == THREADS_PLACES_SIZE
    }

    constructor (tid: int, pid: int, lastCpu: int, cpuMask: set<int>)
      ensures Valid() && fresh(mark)
      ensures mark[..] == [0, 0, 0, 0, 0] && fromInh == 0
      ensures this.tid == tid && this.pid == pid && this.lastCpu == lastCpu && this.cpuMask == cpuMask
    {
      this.mark := new int[THREADS_PLACES_SIZE](_ => 0);
      this.tid := tid;
      this.pid := pid;
      this.lastCpu := lastCpu;
      this.cpuMask := cpuMask;
      this.fromInh := 0;
    }

    /** init_petri_thread: one token in CAN_RUN, td_frominh cleared. */
    method InitPetriThread()
      requires Valid()
      modifies mark, this`fromInh
      ensures Valid() && mark[..] == INITIAL_MARK && fromInh == 0
      ensures OneToken(mark[..]) && mark[CAN_RUN] == 1
    {
      var i := 0;
      while i < THREADS_PLACES_SIZE
        invariant 0 <= i <= THREADS_PLACES_SIZE
        invariant forall q :: 0 <= q < i ==> mark[q] == INITIAL_MARK[q]
      {
        mark[i] := INITIAL_MARK[i];
        i := i + 1;
      }
      fromInh := 0;
      assert mark[..] == INITIAL_MARK;
    }

    /** init_petri_thread0: one token in RUNNING, td_frominh cleared. */
    method InitPetriThread0()
      requires Valid()
      modifies mark, this`fromInh
      ensures Valid() && mark[..] == INITIAL_MARK0 && fromInh == 0
      ensures OneToken(mark[..]) && mark[RUNNING] == 1
    {
      var i := 0;
      while i < THREADS_PLACES_SIZE
        invariant 0 <= i <= THREADS_PLACES_SIZE
        invariant forall q :: 0 <= q < i ==> mark[q] == INITIAL_MARK0[q]
      {
        mark[i] := INITIAL_MARK0[i];
        i := i + 1;
      }
      fromInh := 0;
      assert mark[..] == INITIAL_MARK0;
    }

    /** thread_transition_is_sensitized: a read-only scan of the places. */
    method TransitionIsSensitized(t: int) returns (b: bool)
      requires Valid() && IsTransition(t)
      ensures b == Sensitized(mark[..], t)
    {
      var p := 0;
      while p < THREADS_PLACES_SIZE
        invariant 0 <= p <= THREADS_PLACES_SIZE
        invariant forall q :: 0 <= q < p ==> !Blocks(mark[..], q, t)
      {
        if Incidence(p, t) < 0 && Incidence(p, t) + mark[p] < 0 {
          assert Blocks(mark[..], p, t);
          return false;
        }
        p := p + 1;
      }
      return true;
    }

    /**
     * thread_petri_fire: adds column `t` when it is sensitized; otherwise the
     * violation is only logged and the marking is left untouched.
     */
    method PetriFire(t: int)
      requires Valid() && IsTransition(t)
      modifies mark
      ensures Valid()
      ensures mark[..] == Fire(old(mark[..]), t)
    {
      var sensitized := TransitionIsSensitized(t);
      if sensitized {
        var i := 0;
        while i < THREADS_PLACES_SIZE
          invariant 0 <= i <= THREADS_PLACES_SIZE
          invariant forall q :: 0 <= q < i ==> mark[q] == old(mark[q]) + Incidence(q, t)
          invariant forall q :: i <= q < THREADS_PLACES_SIZE ==> mark[q] == old(mark[q])
        {
          mark[i] := mark[i] + Incidence(i, t);
          i := i + 1;
        }
        assert mark[..] == AddColumn(old(mark[..]), t);
      }
    }
  }

  /**
   * wakeup_if_needed: for a thread that left voluntarily, fire WAKEUP and
   * clear the flag; the flag is cleared even when WAKEUP was not sensitized.
   */
  method WakeupIfNeeded(td: Thread?)
    requires td != null ==> td.Valid()
    modifies if td != null then {td, td.mark} else {}
    ensures td != null ==> td.Valid() && td.lastCpu == old(td.lastCpu) && td.cpuMask == old(td.cpuMask)
    ensures td == null || old(td.fromInh) != 1 ==>
      td == null || (td.mark[..] == old(td.mark[..]) && td.fromInh == old(td.fromInh))
    ensures td != null && old(td.fromInh) == 1 ==>
      td.mark[..] == Fire(old(td.mark[..]), TRAN_WAKEUP) && td.fromInh == 0
  {
    if td != null && td.fromInh == 1 {
      td.PetriFire(TRAN_WAKEUP);
      td.fromInh := 0;
    }
  }
}
