/**
 * The load-adaptive CPU controller of src/sys/stats/toggle_active_cpu.c.
 *
 * Four periodic callbacks share a few globals:
 * - the stats callback blends a user-load bucket and a process-need bucket
 *   into `stats_score`;
 * - the turn-off callback suspends the idlest CPU after a run of low
 *   readings (the `check` counter), never more than N/2-1 CPUs;
 * - the turn-on callback wakes the lowest suspended CPU as soon as load or
 *   a CPU request shows up;
 * - the monopolization callback releases pins whose owner fell out of the
 *   ranking of requests and grants free CPUs to ranked requesters.
 *
 * The telemetry the callbacks read through sysctl becomes an optional
 * parameter (None for a failed read). Each callback is one atomic step.
 */
module ToggleActiveCpu {
  import opened CArith
  import opened Wrappers
  import opened SchedPetriH
  import opened GlobalNetSpec
  import CS = CpuStats
  import TS = ThreadStats
  import LocalNet
  import GlobalNet

  // Load buckets, in the order calc_load_score returns them.
  const LOAD_IDLE := 0
  const LOAD_LOW := 1
  const LOAD_NORMAL := 2
  const LOAD_HIGH := 3
  const LOAD_INTENSE := 4
  const LOAD_SEVERE := 5

  /** Lower bounds of the buckets above LOAD_IDLE. */
  const LOAD_THRESHOLDS: seq<int> := [30, 45, 75, 85, 98]

  /** MAX_SCORE_BY_TYPE of processes_need_score, by need class. */
  const MAX_SCORE_BY_TYPE: seq<int> := [30, 50, 94, 100]

  /** The value of `check` from which a low reading acts. */
  const LOW_READINGS_BEFORE_OFF := 3

  // ---------------------------------------------------------------------
  // Scores

  /** calc_load_score: bucket `r` is the score range [LOAD_THRESHOLDS[r-1], LOAD_THRESHOLDS[r]). */
  function CalcLoadScore(score: int): (r: int)
    ensures LOAD_IDLE <= r <= LOAD_SEVERE
    ensures r > LOAD_IDLE ==> LOAD_THRESHOLDS[r - 1] <= score
    ensures r < LOAD_SEVERE ==> score < LOAD_THRESHOLDS[r]
  {
    if score < 30 then LOAD_IDLE
    else if score < 45 then LOAD_LOW
    else if score < 75 then LOAD_NORMAL
    else if score < 85 then LOAD_HIGH
    else if score < 98 then LOAD_INTENSE
    else LOAD_SEVERE
  }

  /** Every score lies in exactly one bucket. */
  lemma BucketUnique(score: int, k: int)
    requires LOAD_IDLE <= k <= LOAD_SEVERE
    requires k > LOAD_IDLE ==> LOAD_THRESHOLDS[k - 1] <= score
    requires k < LOAD_SEVERE ==> score < LOAD_THRESHOLDS[k]
    ensures CalcLoadScore(score) == k
  {
  }

  /** A higher score never lands in a lower bucket. */
  lemma CalcLoadScoreMonotone(a: int, b: int)
    requires a <= b
    ensures CalcLoadScore(a) <= CalcLoadScore(b)
  {
  }

  /** The number of processes the need score divides by: the counted ones plus the idle process. */
  function NeedTotal(counts: seq<int>): int
    requires |counts| == TS.N_PROC_NEEDS
  {
    counts[TS.PROC_LOWPERF] + counts[TS.PROC_STANDARD] + counts[TS.PROC_HIGHPERF] + counts[TS.PROC_CRITICAL] + 1
  }

  /** The truncated percentage of the processes in class `k`. */
  function NeedPercent(counts: seq<int>, k: int): int
    requires |counts| == TS.N_PROC_NEEDS && 0 <= k < TS.N_PROC_NEEDS && NeedTotal(counts) > 0
  {
    CDiv(counts[k] * 100, NeedTotal(counts))
  }

  /** The percentages weighted by MAX_SCORE_BY_TYPE, back on a 0..100 scale. */
  function NeedWeightedScore(counts: seq<int>): int
    requires |counts| == TS.N_PROC_NEEDS && NeedTotal(counts) > 0
  {
    CDiv(NeedPercent(counts, 0) * MAX_SCORE_BY_TYPE[0] + NeedPercent(counts, 1) * MAX_SCORE_BY_TYPE[1]
         + NeedPercent(counts, 2) * MAX_SCORE_BY_TYPE[2] + NeedPercent(counts, 3) * MAX_SCORE_BY_TYPE[3], 100)
  }

  /** processes_need_score: -1 for a non-positive total, otherwise a load bucket. */
  function ProcessesNeedScore(counts: seq<int>): (r: int)
    requires |counts| == TS.N_PROC_NEEDS
    ensures r == -1 <==> NeedTotal(counts) <= 0
    ensures r != -1 ==> LOAD_IDLE <= r <= LOAD_SEVERE
  {
    if NeedTotal(counts) <= 0 then -1 else CalcLoadScore(NeedWeightedScore(counts))
  }

  /** `q * b <= a` for the quotient of non-negative `a` by positive `b`, and `a < (q + 1) * b`. */
  lemma DivBounds(a: int, b: int)
    requires 0 <= a && 0 < b
    ensures (a / b) * b <= a < (a / b + 1) * b
  {
  }

  /** A product with a positive factor keeps the order of the other factors. */
  lemma MulCancel(x: int, y: int, c: int)
    requires c > 0 && x * c < y * c
    ensures x < y
  {
  }

  /** Only LOWPERF processes can never raise the need score above LOAD_IDLE. */
  lemma LowperfOnlyIsIdle(k: int)
    requires k >= 0
    ensures ProcessesNeedScore([k, 0, 0, 0]) == LOAD_IDLE
  {
    var counts := [k, 0, 0, 0];
    var pct := NeedPercent(counts, 0);
    DivBounds(k * 100, k + 1);
    MulCancel(pct, 100, k + 1);
    assert NeedWeightedScore(counts) == (pct * 30) / 100;
  }

  /** From 49 CRITICAL processes on, the need score is LOAD_SEVERE. */
  lemma ManyCriticalIsSevere(k: int)
    requires k >= 49
    ensures ProcessesNeedScore([0, 0, 0, k]) == LOAD_SEVERE
  {
    var counts := [0, 0, 0, k];
    var pct := NeedPercent(counts, 3);
    DivBounds(k * 100, k + 1);
    assert 97 * (k + 1) < k * 100;
    MulCancel(97, pct + 1, k + 1);
    assert NeedWeightedScore(counts) == (pct * 100) / 100 == pct;
  }

  /** timer_callback_stats: 80% user load, 20% process needs, truncated. */
  function StatsScore(userLoad: int, procsNeeds: int): (r: int)
    ensures userLoad == procsNeeds ==> r == userLoad
  {
    var s := userLoad * 80 + procsNeeds * 20;
    assert userLoad == procsNeeds ==> CDiv(s, 100) == userLoad by {
      if userLoad == procsNeeds {
        if userLoad >= 0 {
          MulDivCancel(userLoad, 100);
        } else {
          MulDivCancel(-userLoad, 100);
        }
      }
    }
    CDiv(s, 100)
  }

  /** The blend of two buckets is no bucket outside them. */
  lemma StatsScoreBetween(userLoad: int, procsNeeds: int)
    requires LOAD_IDLE <= userLoad <= LOAD_SEVERE && LOAD_IDLE <= procsNeeds <= LOAD_SEVERE
    ensures IMin(userLoad, procsNeeds) <= StatsScore(userLoad, procsNeeds)
    ensures StatsScore(userLoad, procsNeeds) <= if userLoad < procsNeeds then procsNeeds else userLoad
  {
    var s := userLoad * 80 + procsNeeds * 20;
    DivBounds(s, 100);
  }

  // ---------------------------------------------------------------------
  // CPU statistics

  /** Every entry has its five modes. */
  predicate WellFormedStats(s: seq<CS.CoreStats>)
  {
    forall i :: 0 <= i < |s| ==> CS.WellFormed(s[i])
  }

  /** A CPU whose last sample covered some ticks. */
  predicate Sampled(e: CS.CoreStats)
  {
    CS.WellFormed(e) && e.deltaTotal > 0
  }

  predicate AllSampled(s: seq<CS.CoreStats>)
  {
    forall i :: 0 <= i < |s| ==> Sampled(s[i])
  }

  /** The truncated idle percentage of a sampled CPU. */
  function IdlePct(e: CS.CoreStats): int
    requires Sampled(e)
  {
    CDiv(e.delta[CS.CP_IDLE] * 100, e.deltaTotal)
  }

  /** Among CPUs 1..hi-1, the first with the largest idle percentage. */
  function FirstMaxIdle(s: seq<CS.CoreStats>, hi: int): (r: int)
    requires 2 <= hi <= |s| && AllSampled(s)
    ensures 1 <= r < hi
    ensures forall i :: 1 <= i < hi ==> IdlePct(s[i]) <= IdlePct(s[r])
    ensures forall i :: 1 <= i < r ==> IdlePct(s[i]) < IdlePct(s[r])
  {
    if hi == 2 then 1
    else
      var j := FirstMaxIdle(s, hi - 1);
      if IdlePct(s[hi - 1]) > IdlePct(s[j]) then hi - 1 else j
  }

  /** The first loop of get_user_load: each CPU's user share of its last interval, in percent. */
  method UserPcts(s: seq<CS.CoreStats>) returns (pcts: array<int>)
    requires WellFormedStats(s)
    ensures fresh(pcts) && pcts.Length == |s|
    ensures forall k :: 0 <= k < |s| ==> pcts[k] == UserPct(s[k])
  {
    pcts := new int[|s|];
    var i := 0;
    while i < |s|
      invariant 0 <= i <= |s|
      invariant forall k :: 0 <= k < i ==> pcts[k] == UserPct(s[k])
    {
      pcts[i] := if s[i].deltaTotal <= 0 then 0 else CDiv(s[i].delta[CS.CP_USER] * 100, s[i].deltaTotal);
      i := i + 1;
    }
  }

  /**
   * get_idlest_cpu: -1 without statistics, when some CPU sampled no
   * ticks, or when the largest idle percentage among CPUs 1..N-1 is 0;
   * otherwise the first CPU among 1..N-1 with the largest idle percentage.
   * CPU 0 is never chosen.
   */
  function IdlestCpu(stats: Option<seq<CS.CoreStats>>): (r: int)
    requires stats.Some? ==> |stats.value| >= 2 && WellFormedStats(stats.value)
    ensures r != -1 ==> (stats.Some? && AllSampled(stats.value) && 1 <= r < |stats.value|
      && IdlePct(stats.value[r]) != 0
      && (forall i :: 1 <= i < |stats.value| ==> IdlePct(stats.value[i]) <= IdlePct(stats.value[r]))
      && (forall i :: 1 <= i < r ==> IdlePct(stats.value[i]) < IdlePct(stats.value[r])))
    ensures r == -1 && stats.Some? && AllSampled(stats.value) ==>
      exists j :: 1 <= j < |stats.value| && IdlePct(stats.value[j]) == 0
        && forall i :: 1 <= i < |stats.value| ==> IdlePct(stats.value[i]) <= 0
  {
    match stats
    case None => -1
    case Some(s) =>
      if !AllSampled(s) then -1
      else
        var j := FirstMaxIdle(s, |s|);
        if IdlePct(s[j]) == 0 then -1 else j
  }

  /** The user percentage of a CPU; 0 when its last sample covered no ticks. */
  function UserPct(e: CS.CoreStats): int
    requires CS.WellFormed(e)
  {
    if e.deltaTotal <= 0 then 0 else CDiv(e.delta[CS.CP_USER] * 100, e.deltaTotal)
  }

  /** The sum of the CPUs' user-load buckets. */
  function LoadSum(s: seq<CS.CoreStats>): (r: int)
    requires WellFormedStats(s)
    ensures 0 <= r <= 5 * |s|
  {
    if s == [] then 0 else LoadSum(s[..|s| - 1]) + CalcLoadScore(UserPct(s[|s| - 1]))
  }

  /** Extending a prefix by one CPU adds that CPU's bucket. */
  lemma LoadSumPrefix(s: seq<CS.CoreStats>, i: int)
    requires WellFormedStats(s) && 0 <= i < |s|
    ensures LoadSum(s[..i + 1]) == LoadSum(s[..i]) + CalcLoadScore(UserPct(s[i]))
  {
    assert s[..i + 1][..i] == s[..i];
  }

  /** Number of true entries. */
  function CountTrue(s: seq<bool>): (r: nat)
    ensures r <= |s|
    ensures r == |s| <==> forall i :: 0 <= i < |s| ==> s[i]
  {
    if s == [] then 0 else CountTrue(s[..|s| - 1]) + (if s[|s| - 1] then 1 else 0)
  }

  /** Extending a prefix by one entry counts that entry. */
  lemma CountTruePrefix(s: seq<bool>, i: int)
    requires 0 <= i < |s|
    ensures CountTrue(s[..i + 1]) == CountTrue(s[..i]) + (if s[i] then 1 else 0)
  {
    assert s[..i + 1][..i] == s[..i];
  }

  /** Changing one entry changes the count by the difference of that entry. */
  lemma {:induction false} CountTrueUpdate(s: seq<bool>, i: int, v: bool)
    requires 0 <= i < |s|
    ensures CountTrue(s[i := v]) + (if s[i] then 1 else 0) == CountTrue(s) + (if v then 1 else 0)
  {
    var k := |s| - 1;
    if i < k {
      assert s[i := v][..k] == s[..k][i := v];
      CountTrueUpdate(s[..k], i, v);
    } else {
      assert s[i := v][..k] == s[..k];
    }
  }

  /** The first true entry, or -1. */
  function FirstTrue(s: seq<bool>, lo: nat): (r: int)
    requires lo <= |s|
    ensures r == -1 ==> forall i :: lo <= i < |s| ==> !s[i]
    ensures r != -1 ==> lo <= r < |s| && s[r] && forall i :: lo <= i < r ==> !s[i]
    decreases |s| - lo
  {
    if lo == |s| then -1 else if s[lo] then lo else FirstTrue(s, lo + 1)
  }

  /**
   * get_user_load: LOAD_NORMAL without statistics, otherwise the average
   * of the CPUs' user-load buckets over the CPUs not marked off, capped at
   * LOAD_SEVERE.
   */
  function UserLoad(stats: Option<seq<CS.CoreStats>>, off: seq<bool>): (r: int)
    requires stats.Some? ==> |stats.value| == |off| && WellFormedStats(stats.value)
    requires CountTrue(off) < |off|
    ensures LOAD_IDLE <= r <= LOAD_SEVERE
  {
    match stats
    case None => LOAD_NORMAL
    case Some(s) => IMin(CDiv(LoadSum(s), |off| - CountTrue(off)), LOAD_SEVERE)
  }

  /** Load sum of CPUs that are all in the same bucket. */
  lemma {:induction false} LoadSumUniform(s: seq<CS.CoreStats>, b: int)
    requires WellFormedStats(s)
    requires forall i :: 0 <= i < |s| ==> CalcLoadScore(UserPct(s[i])) == b
    ensures LoadSum(s) == b * |s|
  {
    if s != [] {
      LoadSumUniform(s[..|s| - 1], b);
    }
  }

  /** With every CPU on and in the same bucket, the user load is that bucket. */
  lemma UniformUserLoad(s: seq<CS.CoreStats>, off: seq<bool>, b: int)
    requires |s| == |off| >= 1 && WellFormedStats(s)
    requires forall i :: 0 <= i < |off| ==> !off[i]
    requires forall i :: 0 <= i < |s| ==> CalcLoadScore(UserPct(s[i])) == b
    ensures UserLoad(Some(s), off) == b
  {
    LoadSumUniform(s, b);
    assert CountTrue(off) == 0 by {
      CountTrueNone(off);
    }
    assert 0 <= b <= LOAD_SEVERE by {
      assert b == CalcLoadScore(UserPct(s[0]));
    }
    MulDivCancel(b, |s|);
  }

  /** Dividing a multiple of `n` by `n` gives the factor back. */
  lemma MulDivCancel(b: int, n: int)
    requires b >= 0 && n >= 1
    ensures (b * n) / n == b
  {
    DivBounds(b * n, n);
    MulCancel((b * n) / n, b + 1, n);
    MulCancel(b - 1, (b * n) / n, n);
  }

  /** No true entry, count zero. */
  lemma {:induction false} CountTrueNone(s: seq<bool>)
    requires forall i :: 0 <= i < |s| ==> !s[i]
    ensures CountTrue(s) == 0
  {
    if s != [] {
      CountTrueNone(s[..|s| - 1]);
    }
  }

  /** get_procs_needs: LOAD_NORMAL without statistics, otherwise the need score of the class counts. */
  function ProcsNeeds(ts: Option<TS.ThreadsStats>): (r: int)
    requires ts.Some? ==> |ts.value.procNeeds| == TS.N_PROC_NEEDS
  {
    match ts
    case None => LOAD_NORMAL
    case Some(t) => ProcessesNeedScore(t.procNeeds)
  }

  // ---------------------------------------------------------------------
  // The ranking of CPU requests

  /** compareProcesses: positive when `b` has the larger priority number. */
  function CompareProcesses(a: TS.CpuMonopolization, b: TS.CpuMonopolization): int
  {
    b.prio - a.prio
  }

  /** Ordered as qsort with compareProcesses leaves it: by non-increasing priority number. */
  predicate SortedByPrio(s: seq<TS.CpuMonopolization>)
  {
    forall i, j :: 0 <= i < j < |s| ==> CompareProcesses(s[i], s[j]) <= 0
  }

  /** Insert `x` before the first entry it does not rank below. */
  function InsertByPrio(x: TS.CpuMonopolization, s: seq<TS.CpuMonopolization>): (r: seq<TS.CpuMonopolization>)
    ensures |r| == |s| + 1 && multiset(r) == multiset(s) + multiset{x}
  {
    if s == [] then [x]
    else if CompareProcesses(x, s[0]) <= 0 then [x] + s
    else
      assert s == [s[0]] + s[1..];
      [s[0]] + InsertByPrio(x, s[1..])
  }

  /** Inserting an entry under a priority bound into entries under it stays under it. */
  lemma {:induction false} InsertByPrioBounded(x: TS.CpuMonopolization, s: seq<TS.CpuMonopolization>, b: int)
    requires x.prio <= b && forall i :: 0 <= i < |s| ==> s[i].prio <= b
    ensures forall i :: 0 <= i < |InsertByPrio(x, s)| ==> InsertByPrio(x, s)[i].prio <= b
  {
    if s != [] && CompareProcesses(x, s[0]) > 0 {
      InsertByPrioBounded(x, s[1..], b);
    }
  }

  /** Inserting into a ranked sequence keeps it ranked. */
  lemma {:induction false} InsertByPrioSorted(x: TS.CpuMonopolization, s: seq<TS.CpuMonopolization>)
    requires SortedByPrio(s)
    ensures SortedByPrio(InsertByPrio(x, s))
  {
    var r := InsertByPrio(x, s);
    if s == [] {
    } else if CompareProcesses(x, s[0]) <= 0 {
      assert r == [x] + s;
      forall i, j | 0 <= i < j < |r|
        ensures CompareProcesses(r[i], r[j]) <= 0
      {
        if i > 0 {
          assert r[i] == s[i - 1] && r[j] == s[j - 1];
        } else if j > 1 {
          assert CompareProcesses(s[0], s[j - 1]) <= 0;
        }
      }
    } else {
      var rest := InsertByPrio(x, s[1..]);
      InsertByPrioSorted(x, s[1..]);
      InsertByPrioBounded(x, s[1..], s[0].prio);
      assert r == [s[0]] + rest;
      forall i, j | 0 <= i < j < |r|
        ensures CompareProcesses(r[i], r[j]) <= 0
      {
        assert r[j] == rest[j - 1];
        if i > 0 {
          assert r[i] == rest[i - 1];
        }
      }
    }
  }

  /**
   * The sort of get_monopolization_info: the same entries ordered by
   * non-increasing priority number. qsort leaves the order of equal
   * priorities unspecified; this is one admissible order.
   */
  function SortByPrio(s: seq<TS.CpuMonopolization>): (r: seq<TS.CpuMonopolization>)
    ensures |r| == |s| && multiset(r) == multiset(s) && SortedByPrio(r)
  {
    if s == [] then []
    else
      assert s == [s[0]] + s[1..];
      InsertByPrioSorted(s[0], SortByPrio(s[1..]));
      InsertByPrio(s[0], SortByPrio(s[1..]))
  }

  /** The pids of the table, ranked. */
  function RankedPids(info: seq<TS.CpuMonopolization>): (r: seq<int>)
    ensures |r| == |info|
  {
    var sorted := SortByPrio(info);
    seq(|info|, i requires 0 <= i < |info| => sorted[i].pid)
  }

  /** Every ranked pid is the pid of some slot of the table. */
  lemma RankedPidsComeFromTable(info: seq<TS.CpuMonopolization>, i: int)
    requires 0 <= i < |info|
    ensures exists k :: 0 <= k < |info| && info[k].pid == RankedPids(info)[i]
  {
    var sorted := SortByPrio(info);
    assert sorted[i] in multiset(info);
  }

  /** Number of requested slots. */
  function CountRequested(s: seq<TS.CpuMonopolization>): (r: nat)
    ensures r <= |s|
  {
    if s == [] then 0 else CountRequested(s[..|s| - 1]) + (if s[|s| - 1].requested then 1 else 0)
  }

  /** Number of pinned CPUs in a pin table. */
  function CountPinned(t: seq<int>): (r: nat)
    ensures r <= |t|
  {
    if t == [] then 0 else CountPinned(t[..|t| - 1]) + (if t[|t| - 1] != -1 then 1 else 0)
  }

  /** Changing one entry changes the count by the difference of that entry. */
  lemma {:induction false} CountPinnedUpdate(t: seq<int>, i: int, v: int)
    requires 0 <= i < |t|
    ensures CountPinned(t[i := v]) + (if t[i] != -1 then 1 else 0) == CountPinned(t) + (if v != -1 then 1 else 0)
  {
    var k := |t| - 1;
    if i < k {
      assert t[i := v][..k] == t[..k][i := v];
      CountPinnedUpdate(t[..k], i, v);
    } else {
      assert t[i := v][..k] == t[..k];
    }
  }

  /** A table with no pins. */
  lemma {:induction false} CountPinnedNone(t: seq<int>)
    requires forall i :: 0 <= i < |t| ==> t[i] == -1
    ensures CountPinned(t) == 0
  {
    if t != [] {
      CountPinnedNone(t[..|t| - 1]);
    }
  }

  /**
   * The pin table after the release loop of timer_callback_monopolization:
   * from CPU 1 on, a pin on a CPU that is not suspended is dropped when its
   * owner is not among `ranked`.
   */
  function AfterRelease(table: seq<int>, suspended: seq<bool>, ranked: seq<int>): (r: seq<int>)
    requires |suspended| == |table|
    ensures |r| == |table|
  {
    seq(|table|, c requires 0 <= c < |table| =>
      if c >= 1 && table[c] != -1 && !suspended[c] && table[c] !in ranked then -1 else table[c])
  }

  /**
   * The grant loop of timer_callback_monopolization from CPU `c` on: a CPU
   * free in the `snapshot` and not suspended, while fewer than `limit` CPUs
   * are pinned, is offered to the pid ranked just before it, and
   * monopolize_cpu decides.
   */
  function GrantFrom(table: seq<int>, snapshot: seq<int>, suspended: seq<bool>, ranked: seq<int>,
                     limit: int, c: nat): (r: seq<int>)
    requires |snapshot| == |table| && |suspended| == |table| && |ranked| == |table| && c >= 1
    ensures |r| == |table|
    decreases |table| - c
  {
    if c >= |table| then table
    else if snapshot[c] == -1 && !suspended[c] && CountPinned(table) < limit then
      GrantFrom(TogglePin(table, suspended[c], ranked[c - 1], c, MONOPOLIZE).table,
                snapshot, suspended, ranked, limit, c + 1)
    else
      GrantFrom(table, snapshot, suspended, ranked, limit, c + 1)
  }

  /**
   * The grant loop leaves CPUs below `c` and CPUs taken in the snapshot
   * alone, never lowers the number of pins, and gives a CPU free on both
   * sides only to the pid ranked just before it, and only when it runs.
   */
  lemma {:induction false} GrantFromFrame(table: seq<int>, snapshot: seq<int>, suspended: seq<bool>,
                                          ranked: seq<int>, limit: int, c: nat)
    requires |snapshot| == |table| && |suspended| == |table| && |ranked| == |table| && c >= 1
    ensures var r := GrantFrom(table, snapshot, suspended, ranked, limit, c);
      && CountPinned(r) >= CountPinned(table)
      && (forall k :: 0 <= k < |table| && (k < c || snapshot[k] != -1) ==> r[k] == table[k])
      && (forall k :: c <= k < |table| && snapshot[k] == -1 && table[k] == -1 ==>
            r[k] == -1 || (r[k] == ranked[k - 1] >= 1 && !suspended[k]))
    decreases |table| - c
  {
    if c < |table| {
      if snapshot[c] == -1 && !suspended[c] && CountPinned(table) < limit {
        var o := TogglePin(table, suspended[c], ranked[c - 1], c, MONOPOLIZE);
        if o.ok {
          CountPinnedUpdate(table, c, ranked[c - 1]);
          assert o.table == table[c := ranked[c - 1]];
        }
        GrantFromFrame(o.table, snapshot, suspended, ranked, limit, c + 1);
      } else {
        GrantFromFrame(table, snapshot, suspended, ranked, limit, c + 1);
      }
    }
  }

  /**
   * When the grant loop ends below the limit, every CPU from `c` on that is
   * free in the snapshot and running went to the pid ranked before it,
   * whenever that pid is a real one.
   */
  lemma {:induction false} GrantFromFills(table: seq<int>, snapshot: seq<int>, suspended: seq<bool>,
                                          ranked: seq<int>, limit: int, c: nat)
    requires |snapshot| == |table| && |suspended| == |table| && |ranked| == |table| && c >= 1
    requires forall k :: c <= k < |table| && snapshot[k] == -1 ==> table[k] == -1
    ensures var r := GrantFrom(table, snapshot, suspended, ranked, limit, c);
      CountPinned(r) < limit ==>
        forall k :: c <= k < |table| && snapshot[k] == -1 && !suspended[k] && ranked[k - 1] >= 1 ==>
          r[k] == ranked[k - 1]
    decreases |table| - c
  {
    if c < |table| {
      if snapshot[c] == -1 && !suspended[c] && CountPinned(table) < limit {
        var o := TogglePin(table, suspended[c], ranked[c - 1], c, MONOPOLIZE);
        GrantFromFrame(o.table, snapshot, suspended, ranked, limit, c + 1);
        GrantFromFills(o.table, snapshot, suspended, ranked, limit, c + 1);
      } else {
        GrantFromFrame(table, snapshot, suspended, ranked, limit, c + 1);
        GrantFromFills(table, snapshot, suspended, ranked, limit, c + 1);
      }
    }
  }

  /** The pin table after one timer_callback_monopolization. */
  function MonopolizationRound(table: seq<int>, suspended: seq<bool>, ranked: seq<int>,
                               requested: int, limit: int): (r: seq<int>)
    requires |suspended| == |table| && |ranked| == |table|
    ensures |r| == |table|
  {
    var released := AfterRelease(table, suspended, ranked);
    if requested > 0 then GrantFrom(released, table, suspended, ranked, limit, 1) else released
  }

  /**
   * What one monopolization round promises, CPU by CPU: a pinned CPU keeps
   * its owner unless it runs and the owner fell out of the ranking; a free
   * CPU stays free or, when some CPU was requested, goes to the pid ranked
   * just before it while it runs; below the limit every such CPU is
   * granted; CPU 0 stays unpinned.
   */
  lemma MonopolizationRoundPromise(table: seq<int>, suspended: seq<bool>, ranked: seq<int>,
                                   requested: int, limit: int)
    requires PinTableShape(table) && |suspended| == |table| && |ranked| == |table|
    ensures var r := MonopolizationRound(table, suspended, ranked, requested, limit);
      && PinTableShape(r)
      && (forall c :: 1 <= c < |table| && table[c] != -1 ==>
            r[c] == (if !suspended[c] && table[c] !in ranked then -1 else table[c]))
      && (forall c :: 1 <= c < |table| && table[c] == -1 ==>
            r[c] == -1 || (requested > 0 && r[c] == ranked[c - 1] >= 1 && !suspended[c]))
      && (requested > 0 && CountPinned(r) < limit ==>
            forall c :: 1 <= c < |table| && table[c] == -1 && !suspended[c] && ranked[c - 1] >= 1 ==>
              r[c] == ranked[c - 1])
  {
    var released := AfterRelease(table, suspended, ranked);
    GrantFromFrame(released, table, suspended, ranked, limit, 1);
    GrantFromFills(released, table, suspended, ranked, limit, 1);
  }

  // ---------------------------------------------------------------------
  // The hysteresis counter of the turn-off callback

  /** `check` after one turn-off callback, given whether the reading was low. */
  function CheckAfterOff(check: int, low: bool): (r: int)
    ensures 0 <= check <= LOW_READINGS_BEFORE_OFF ==> 0 <= r <= LOW_READINGS_BEFORE_OFF
    ensures !low ==> r == check
  {
    if !low then check else if check >= LOW_READINGS_BEFORE_OFF then 0 else check + 1
  }

  /** Whether a turn-off callback goes on to look for a CPU to suspend. */
  predicate OffActs(check: int, low: bool)
    ensures OffActs(check, low) ==> CheckAfterOff(check, low) == 0
  {
    low && check >= LOW_READINGS_BEFORE_OFF
  }

  /** `check` after `k` consecutive low readings. */
  function CheckAfterLowReadings(check: int, k: nat): int
  {
    if k == 0 then check else CheckAfterOff(CheckAfterLowReadings(check, k - 1), true)
  }

  /**
   * From a reset counter the first three low readings only count, and the
   * fourth acts (the post-increment compares the old value with 3).
   */
  lemma {:induction false} FourthLowReadingActs(k: nat)
    requires k <= LOW_READINGS_BEFORE_OFF
    ensures CheckAfterLowReadings(0, k) == k
    ensures OffActs(CheckAfterLowReadings(0, k), true) <==> k == LOW_READINGS_BEFORE_OFF
  {
    if k > 0 {
      FourthLowReadingActs(k - 1);
    }
  }

  // ---------------------------------------------------------------------
  // Loops over the ranking

  /**
   * get_monopolization_info: count the requested slots among 1..N-1,
   * then write the pids of the table ranked by non-increasing priority.
   */
  method GetMonopolizationInfo(monoInfo: seq<TS.CpuMonopolization>, pids: array<int>) returns (nRequested: int)
    requires |monoInfo| == pids.Length >= 1
    modifies pids
    ensures nRequested == CountRequested(monoInfo[1..])
    ensures pids[..] == RankedPids(monoInfo)
  {
    nRequested := 0;
    var i := 1;
    while i < |monoInfo|
      invariant 1 <= i <= |monoInfo|
      invariant nRequested == CountRequested(monoInfo[1..i])
      modifies {}
    {
      assert monoInfo[1..i + 1][..i - 1] == monoInfo[1..i] && monoInfo[1..i + 1][i - 1] == monoInfo[i];
      if monoInfo[i].requested {
        nRequested := nRequested + 1;
      }
      i := i + 1;
    }
    assert monoInfo[1..i] == monoInfo[1..];
    var sorted := SortByPrio(monoInfo);
    i := 0;
    while i < |monoInfo|
      invariant 0 <= i <= |monoInfo|
      invariant forall k :: 0 <= k < i ==> pids[k] == sorted[k].pid
    {
      pids[i] := sorted[i].pid;
      i := i + 1;
    }
  }

  /** The inner loop of the release step: is `v` among the ranked pids? */
  method IsRanked(pids: array<int>, v: int) returns (keep: bool)
    ensures keep <==> v in pids[..]
  {
    keep := false;
    var j := 0;
    while j < pids.Length
      invariant 0 <= j <= pids.Length
      invariant forall k :: 0 <= k < j ==> pids[k] != v
    {
      if v == pids[j] {
        return true;
      }
      j := j + 1;
    }
  }

  /**
   * The second loop of get_user_load: the sum of the CPUs' user-load
   * buckets, and the number of CPUs not marked off.
   */
  method SumLoads(s: seq<CS.CoreStats>, pcts: array<int>, off: array<bool>) returns (systemLoad: int, onCpus: int)
    requires WellFormedStats(s) && pcts.Length == |s| == off.Length
    requires forall k :: 0 <= k < |s| ==> pcts[k] == UserPct(s[k])
    ensures systemLoad == LoadSum(s) && onCpus == |s| - CountTrue(off[..])
  {
    systemLoad, onCpus := 0, |s|;
    var i := 0;
    while i < |s|
      invariant 0 <= i <= |s|
      invariant systemLoad == LoadSum(s[..i])
      invariant onCpus == |s| - CountTrue(off[..i])
    {
      LoadSumPrefix(s, i);
      CountTruePrefix(off[..], i);
      systemLoad := systemLoad + CalcLoadScore(pcts[i]);
      if off[i] {
        onCpus := onCpus - 1;
      }
      i := i + 1;
    }
    assert s[..i] == s && off[..i] == off[..];
  }

  /**
   * The first loop of get_idlest_cpu: each CPU's idle share of its last
   * interval, in percent, or None as soon as a CPU sampled no ticks.
   */
  method IdlePcts(s: seq<CS.CoreStats>) returns (r: Option<array<int>>)
    requires WellFormedStats(s)
    ensures r.None? <==> !AllSampled(s)
    ensures r.Some? ==> fresh(r.value) && r.value.Length == |s|
                        && forall k :: 0 <= k < |s| ==> r.value[k] == IdlePct(s[k])
  {
    var pcts := new int[|s|];
    var i := 0;
    while i < |s|
      invariant 0 <= i <= |s|
      invariant forall k :: 0 <= k < i ==> Sampled(s[k]) && pcts[k] == IdlePct(s[k])
    {
      if s[i].deltaTotal <= 0 {
        return None;
      }
      pcts[i] := CDiv(s[i].delta[CS.CP_IDLE] * 100, s[i].deltaTotal);
      i := i + 1;
    }
    return Some(pcts);
  }

  /**
   * get_idlest_cpu, with the telemetry read as a parameter. The source
   * reads CPU 1 unconditionally; its only caller runs it with at least
   * four CPUs.
   */
  method GetIdlestCpu(stats: Option<seq<CS.CoreStats>>, n: nat) returns (r: int)
    requires n >= 2
    requires stats.Some? ==> |stats.value| == n && WellFormedStats(stats.value)
    ensures r == IdlestCpu(stats)
  {
    if stats.None? {
      return -1;
    }
    var s := stats.value;
    var cpusIdlePct := IdlePcts(s);
    if cpusIdlePct.None? {
      return -1;
    }
    var pcts := cpusIdlePct.value;
    var maxIdle := pcts[1];
    var idlestCpuIndex := 1;
    var i := 2;
    while i < n
      invariant 2 <= i <= n
      invariant idlestCpuIndex == FirstMaxIdle(s, i) && maxIdle == pcts[idlestCpuIndex]
      modifies {}
    {
      if pcts[i] > maxIdle {
        idlestCpuIndex := i;
        maxIdle := pcts[i];
      }
      i := i + 1;
    }
    if maxIdle == 0 {
      return -1;
    }
    return idlestCpuIndex;
  }

  // ---------------------------------------------------------------------
  // The controller

  /**
   * The module's globals: turned_off_cpus, cpus_requested, check,
   * stats_score, MAX_TURNED_OFF and the static `monopolized` of the
   * monopolization callback, next to the resource net they act on.
   */
  class Controller {
    const net: GlobalNet.ResourceNet
    const turnedOff: array<bool>
    const maxTurnedOff: int
    var cpusRequested: int
    var check: int
    var statsScore: int
    var monopolized: int

    /** The number of CPUs that may be off or monopolized: MAX_TURNED_OFF, and 0 when it is negative. */
    function Limit(): int
      reads this
    {
      if maxTurnedOff > 0 then maxTurnedOff else 0
    }

    /** CPU 0 is never marked off and no more than MAX_TURNED_OFF CPUs are. */
    ghost predicate OffTable()
      reads this, turnedOff
    {
      && turnedOff.Length == net.cpuNumber >= 1
      && maxTurnedOff == net.cpuNumber / 2 - 1
      && !turnedOff[0]
      && CountTrue(turnedOff[..]) <= Limit()
    }

    /** `monopolized` counts the pins, and no more than MAX_TURNED_OFF CPUs are pinned. */
    ghost predicate PinCount()
      reads this, net, net.pinned
    {
      monopolized == CountPinned(net.pinned[..]) <= Limit()
    }

    ghost predicate Valid()
      reads this, turnedOff, net, net.mark, net.incidence, net.inhibition, net.pinned
    {
      net.Valid() && OffTable() && PinCount()
    }

    /** Module load, on a resource net without pins. */
    constructor (net: GlobalNet.ResourceNet)
      requires net.Valid() && forall c :: 0 <= c < net.cpuNumber ==> net.pinned[c] == -1
      ensures Valid() && this.net == net && fresh(turnedOff)
      ensures forall c :: 0 <= c < net.cpuNumber ==> !turnedOff[c]
      ensures cpusRequested == 0 && check == 0 && statsScore == 0 && monopolized == 0
    {
      this.net := net;
      turnedOff := new bool[net.cpuNumber](_ => false);
      maxTurnedOff := net.cpuNumber / 2 - 1;
      cpusRequested, check, statsScore, monopolized := 0, 0, 0, 0;
      new;
      CountTrueNone(turnedOff[..]);
      CountPinnedNone(net.pinned[..]);
    }

    /** get_n_turned_off. */
    method GetNTurnedOff() returns (r: int)
      ensures r == CountTrue(turnedOff[..])
    {
      r := 0;
      var i := 0;
      while i < turnedOff.Length
        invariant 0 <= i <= turnedOff.Length
        invariant r == CountTrue(turnedOff[..i])
      {
        assert turnedOff[..i + 1][..i] == turnedOff[..i];
        if turnedOff[i] {
          r := r + 1;
        }
        i := i + 1;
      }
      assert turnedOff[..i] == turnedOff[..];
    }

    /** get_off_cpu: the lowest CPU marked off, or -1. */
    method GetOffCpu() returns (r: int)
      ensures r == FirstTrue(turnedOff[..], 0)
    {
      var i := 0;
      while i < turnedOff.Length
        invariant 0 <= i <= turnedOff.Length
        invariant forall k :: 0 <= k < i ==> !turnedOff[k]
      {
        if turnedOff[i] {
          FirstTrueAt(turnedOff[..], 0, i);
          return i;
        }
        i := i + 1;
      }
      FirstTrueNone(turnedOff[..], 0);
      return -1;
    }

    /** get_user_load, with the telemetry read as a parameter. */
    method GetUserLoad(stats: Option<seq<CS.CoreStats>>) returns (r: int)
      requires OffTable()
      requires stats.Some? ==> |stats.value| == net.cpuNumber && WellFormedStats(stats.value)
      ensures r == UserLoad(stats, turnedOff[..])
    {
      if stats.None? {
        return LOAD_NORMAL;
      }
      var s := stats.value;
      var cpusUserPctLoad := UserPcts(s);
      var systemLoad, onCpus := SumLoads(s, cpusUserPctLoad, turnedOff);
      return IMin(CDiv(systemLoad, onCpus), LOAD_SEVERE);
    }

    /** get_procs_needs, with the telemetry read as a parameter. */
    method GetProcsNeeds(ts: Option<TS.ThreadsStats>) returns (r: int)
      requires ts.Some? ==> |ts.value.procNeeds| == TS.N_PROC_NEEDS
      ensures r == ProcsNeeds(ts)
    {
      if ts.None? {
        return LOAD_NORMAL;
      }
      var nProcsPerNeedType := new int[TS.N_PROC_NEEDS];
      var i := 0;
      while i < TS.N_PROC_NEEDS
        invariant 0 <= i <= TS.N_PROC_NEEDS
        invariant forall k :: 0 <= k < i ==> nProcsPerNeedType[k] == ts.value.procNeeds[k]
      {
        nProcsPerNeedType[i] := ts.value.procNeeds[i];
        i := i + 1;
      }
      assert nProcsPerNeedType[..] == ts.value.procNeeds;
      return ProcessesNeedScore(nProcsPerNeedType[..]);
    }

    /** timer_callback_stats: blend the two readings into stats_score. */
    method TimerStats(cpuStats: Option<seq<CS.CoreStats>>, threadsStats: Option<TS.ThreadsStats>)
      requires Valid()
      requires cpuStats.Some? ==> |cpuStats.value| == net.cpuNumber && WellFormedStats(cpuStats.value)
      requires threadsStats.Some? ==> |threadsStats.value.procNeeds| == TS.N_PROC_NEEDS
      modifies this`statsScore
      ensures Valid()
      ensures statsScore == StatsScore(UserLoad(cpuStats, turnedOff[..]), ProcsNeeds(threadsStats))
    {
      var userLoad := GetUserLoad(cpuStats);
      var procsNeeds := GetProcsNeeds(threadsStats);
      statsScore := CDiv(userLoad * 80 + procsNeeds * 20, 100);
    }

    /** turn_off_cpu on `cpu`, then its mark in turned_off_cpus. */
    method SuspendAndMark(cpu: int, cur: LocalNet.Thread, smpStarted: bool)
      requires Valid() && cur.Valid() && cur.mark != net.mark && cur.mark != net.pinned
      requires 0 < cpu < net.cpuNumber && CountTrue(turnedOff[..]) < maxTurnedOff
      modifies turnedOff, net`smpSet, net.mark, cur.mark
      ensures Valid() && cur.mark[..] == old(cur.mark[..])
      ensures turnedOff[..] == old(turnedOff[..])[cpu := true]
      ensures net.mark[..] == if old(net.mark[PlaceSmpReady(net.cpuNumber)]) != 0
                              then AddColumn(net.cpuNumber, old(net.mark[..]), Transition(cpu, TRAN_SUSPEND_PROC))
                              else old(net.mark[..])
    {
      net.TurnOffCpu(cpu, cur, smpStarted);
      CountTrueUpdate(turnedOff[..], cpu, true);
      turnedOff[cpu] := true;
    }

    /** turn_on_cpu on `cpu`, then its mark in turned_off_cpus cleared. */
    method WakeAndUnmark(cpu: int, cur: LocalNet.Thread, smpStarted: bool)
      requires Valid() && cur.Valid() && cur.mark != net.mark && cur.mark != net.pinned
      requires 0 < cpu < net.cpuNumber
      modifies turnedOff, net`smpSet, net.mark, cur.mark
      ensures Valid() && cur.mark[..] == old(cur.mark[..])
      ensures turnedOff[..] == old(turnedOff[..])[cpu := false]
      ensures net.mark[..] == if old(net.mark[PlaceSmpReady(net.cpuNumber)]) != 0
                                 && old(net.mark[Place(cpu, PLACE_SUSPENDED)]) >= 1
                              then AddColumn(net.cpuNumber, old(net.mark[..]), Transition(cpu, TRAN_WAKEUP_PROC))
                              else old(net.mark[..])
    {
      net.TurnOnCpu(cpu, cur, smpStarted);
      CountTrueUpdate(turnedOff[..], cpu, false);
      turnedOff[cpu] := false;
    }

    /**
     * timer_callback_turn_off: on a low reading with no CPU requested,
     * count it; on the reading where `check` already was 3, reset it and,
     * while fewer than MAX_TURNED_OFF CPUs are marked off, suspend the
     * idlest CPU and mark it off (even when the suspension is refused
     * because SMP is not ready).
     */
    method TimerTurnOff(cpuStats: Option<seq<CS.CoreStats>>, cur: LocalNet.Thread, smpStarted: bool)
      requires Valid() && cur.Valid() && cur.mark != net.mark && cur.mark != net.pinned
      requires cpuStats.Some? ==> |cpuStats.value| == net.cpuNumber && WellFormedStats(cpuStats.value)
      modifies this`check, turnedOff, net`smpSet, net.mark, cur.mark
      ensures Valid() && cur.mark[..] == old(cur.mark[..])
      ensures var low := old(statsScore) < LOAD_NORMAL && old(cpusRequested) < 1;
        check == CheckAfterOff(old(check), low)
      ensures var low := old(statsScore) < LOAD_NORMAL && old(cpusRequested) < 1;
        var idlest := if OffActs(old(check), low) && old(CountTrue(turnedOff[..])) < maxTurnedOff
                      then IdlestCpu(cpuStats) else -1;
        && turnedOff[..] == (if idlest > 0 then old(turnedOff[..])[idlest := true] else old(turnedOff[..]))
        && net.mark[..] == (if idlest > 0 && old(net.mark[PlaceSmpReady(net.cpuNumber)]) != 0
                            then AddColumn(net.cpuNumber, old(net.mark[..]), Transition(idlest, TRAN_SUSPEND_PROC))
                            else old(net.mark[..]))
    {
      if statsScore < LOAD_NORMAL && cpusRequested < 1 {
        var previous := check;
        check := check + 1;
        if previous >= LOW_READINGS_BEFORE_OFF {
          check := 0;
          var nOff := GetNTurnedOff();
          if nOff < maxTurnedOff {
            var idlestCpu := GetIdlestCpu(cpuStats, net.cpuNumber);
            if idlestCpu > 0 {
              SuspendAndMark(idlestCpu, cur, smpStarted);
            }
          }
        }
      }
    }

    /**
     * timer_callback_turn_on: on load or a CPU request, reset `check`
     * and wake the lowest CPU marked off, unmarking it.
     */
    method TimerTurnOn(cur: LocalNet.Thread, smpStarted: bool)
      requires Valid() && cur.Valid() && cur.mark != net.mark && cur.mark != net.pinned
      modifies this`check, turnedOff, net`smpSet, net.mark, cur.mark
      ensures Valid() && cur.mark[..] == old(cur.mark[..])
      ensures var acts := old(statsScore) >= LOAD_NORMAL || old(cpusRequested) > 0;
        var off := if acts then FirstTrue(old(turnedOff[..]), 0) else -1;
        && check == (if acts then 0 else old(check))
        && turnedOff[..] == (if off > 0 then old(turnedOff[..])[off := false] else old(turnedOff[..]))
        && net.mark[..] == (if off > 0 && old(net.mark[PlaceSmpReady(net.cpuNumber)]) != 0
                               && old(net.mark[Place(off, PLACE_SUSPENDED)]) >= 1
                            then AddColumn(net.cpuNumber, old(net.mark[..]), Transition(off, TRAN_WAKEUP_PROC))
                            else old(net.mark[..]))
    {
      if statsScore >= LOAD_NORMAL || cpusRequested > 0 {
        check := 0;
        var turnedOffCpu := GetOffCpu();
        if turnedOffCpu > 0 {
          WakeAndUnmark(turnedOffCpu, cur, smpStarted);
        }
      }
    }

    /** One pass of the release loop, over CPU `c` whose snapshot entry is `owner`. */
    method ReleaseStep(c: int, owner: int, pids: array<int>)
      requires Valid() && 1 <= c < net.cpuNumber && net.pinned[c] == owner && pids != net.pinned
      modifies this`monopolized, net.pinned
      ensures Valid()
      ensures net.pinned[..] == old(net.pinned[..])[c := if owner != -1 && !net.SuspendedForPin(c) && owner !in pids[..]
                                                         then -1 else owner]
    {
      if owner == -1 || net.IsCpuSuspended(c) {
        return;
      }
      var keep := IsRanked(pids, owner);
      if !keep {
        CountPinnedUpdate(net.pinned[..], c, -1);
        var _ := net.ReleaseCpu(owner, c);
        monopolized := monopolized - 1;
      }
    }

    /**
     * The release loop: a pinned CPU that is not suspended loses its pin
     * when its owner is not among the ranked pids.
     */
    method ReleaseUnranked(cpus: array<int>, pids: array<int>)
      requires Valid() && cpus.Length == net.cpuNumber && cpus[..] == net.pinned[..]
      requires cpus != net.pinned && pids != net.pinned
      modifies this`monopolized, net.pinned
      ensures Valid()
      ensures net.pinned[..] == AfterRelease(cpus[..], net.Suspensions(), pids[..])
    {
      var n := net.cpuNumber;
      ghost var target := AfterRelease(cpus[..], net.Suspensions(), pids[..]);
      var nCpu := 1;
      while nCpu < n
        invariant 1 <= nCpu <= n && Valid()
        invariant forall c :: nCpu <= c < n ==> net.pinned[c] == cpus[c]
        invariant forall c :: 0 <= c < nCpu ==> net.pinned[c] == target[c]
      {
        ReleaseStep(nCpu, cpus[nCpu], pids);
        nCpu := nCpu + 1;
      }
    }

    /** One pass of the grant loop, over CPU `c`, free in the snapshot when `free`. */
    method GrantStep(c: int, free: bool, pid: int)
      requires Valid() && 1 <= c < net.cpuNumber && (free ==> net.pinned[c] == -1)
      modifies this`monopolized, net.pinned
      ensures Valid()
      ensures net.pinned[..] == if free && !net.SuspendedForPin(c) && old(monopolized) < maxTurnedOff
                                then TogglePin(old(net.pinned[..]), net.SuspendedForPin(c), pid, c, MONOPOLIZE).table
                                else old(net.pinned[..])
    {
      if free && !net.IsCpuSuspended(c) && monopolized < maxTurnedOff {
        CountPinnedUpdate(net.pinned[..], c, pid);
        var ok := net.MonopolizeCpu(pid, c);
        if ok {
          monopolized := monopolized + 1;
        }
      }
    }

    /**
     * The grant loop: a CPU free in the snapshot and not suspended goes to
     * the pid ranked just before it, while fewer than MAX_TURNED_OFF CPUs
     * are monopolized.
     */
    method GrantFree(cpus: array<int>, pids: array<int>)
      requires Valid() && cpus.Length == net.cpuNumber && pids.Length == net.cpuNumber
      requires forall c :: 0 <= c < net.cpuNumber && cpus[c] == -1 ==> net.pinned[c] == -1
      requires cpus != net.pinned && pids != net.pinned
      modifies this`monopolized, net.pinned
      ensures Valid()
      ensures net.pinned[..] == GrantFrom(old(net.pinned[..]), cpus[..], net.Suspensions(), pids[..], maxTurnedOff, 1)
    {
      var n := net.cpuNumber;
      ghost var susp := net.Suspensions();
      ghost var target := GrantFrom(net.pinned[..], cpus[..], susp, pids[..], maxTurnedOff, 1);
      var nCpu := 1;
      while nCpu < n
        invariant 1 <= nCpu <= n && Valid()
        invariant forall c :: nCpu <= c < n && cpus[c] == -1 ==> net.pinned[c] == -1
        invariant GrantFrom(net.pinned[..], cpus[..], susp, pids[..], maxTurnedOff, nCpu) == target
      {
        GrantStep(nCpu, cpus[nCpu] == -1, pids[nCpu - 1]);
        nCpu := nCpu + 1;
      }
    }

    /** The buffer of ranked pids that get_monopolization_info fills, and the count it returns. */
    method RankRequests(monoInfo: seq<TS.CpuMonopolization>) returns (nRequested: int, pids: array<int>)
      requires |monoInfo| >= 1
      ensures fresh(pids) && nRequested == CountRequested(monoInfo[1..]) && pids[..] == RankedPids(monoInfo)
    {
      pids := new int[|monoInfo|](_ => 0);
      nRequested := GetMonopolizationInfo(monoInfo, pids);
    }

    /** The copy of the pin table that get_monopolized_cpus writes into a fresh buffer. */
    method SnapshotPins() returns (cpus: array<int>)
      requires Valid()
      ensures fresh(cpus) && cpus[..] == net.pinned[..]
    {
      cpus := new int[net.cpuNumber](_ => 0);
      net.GetMonopolizedCpus(cpus);
      assert cpus[..] == cpus[..net.cpuNumber];
    }

    /**
     * timer_callback_monopolization: rank the requests, release pins of
     * owners no longer ranked, then, when some CPU is requested, grant
     * free CPUs in order. MonopolizationRoundPromise states what that means
     * CPU by CPU.
     */
    method TimerMonopolization(monoInfo: seq<TS.CpuMonopolization>)
      requires Valid() && |monoInfo| == net.cpuNumber
      modifies this`cpusRequested, this`monopolized, net.pinned
      ensures Valid()
      ensures cpusRequested == CountRequested(monoInfo[1..])
      ensures net.pinned[..] == MonopolizationRound(old(net.pinned[..]), net.Suspensions(), RankedPids(monoInfo),
                                                    cpusRequested, maxTurnedOff)
    {
      ghost var table, susp := net.pinned[..], net.Suspensions();
      var monopolizationPids;
      cpusRequested, monopolizationPids := RankRequests(monoInfo);
      var cpus := SnapshotPins();
      ReleaseUnranked(cpus, monopolizationPids);
      assert net.Suspensions() == susp;
      if cpusRequested > 0 {
        GrantFree(cpus, monopolizationPids);
        assert net.Suspensions() == susp;
      }
    }
  }

  /** An index with only false before it and true there is the first true one. */
  lemma {:induction false} FirstTrueAt(s: seq<bool>, lo: nat, i: int)
    requires lo <= i < |s| && s[i]
    requires forall k :: lo <= k < i ==> !s[k]
    ensures FirstTrue(s, lo) == i
    decreases i - lo
  {
    if lo < i {
      FirstTrueAt(s, lo + 1, i);
    }
  }

  /** With no true entry from `lo` on there is none to find. */
  lemma {:induction false} FirstTrueNone(s: seq<bool>, lo: nat)
    requires lo <= |s|
    requires forall k :: lo <= k < |s| ==> !s[k]
    ensures FirstTrue(s, lo) == -1
    decreases |s| - lo
  {
    if lo < |s| {
      FirstTrueNone(s, lo + 1);
    }
  }
}
