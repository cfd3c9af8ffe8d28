/**
 * Per-CPU tick accounting of src/sys/stats/cpu_stats.c: for every CPU the
 * last cumulative tick counters of each execution mode, the change since
 * the previous sample, and the totals of both.
 */
module CpuStats {
  /** The CPU execution modes, in the order of the CPU_MODES names. */
  const CP_USER := 0
  const CP_NICE := 1
  const CP_SYS := 2
  const CP_INTR := 3
  const CP_IDLE := 4
  const CPUSTATES := 5

  /** One CPU's entry of the table, as a reader obtains a copy of it. */
  datatype CoreStats = CoreStats(ticks: seq<int>, delta: seq<int>, ticksTotal: int, deltaTotal: int)

  /** Sum of a sequence, from the left, as the accumulation loop adds. */
  function Sum(s: seq<int>): int
  {
    if s == [] then 0 else Sum(s[..|s| - 1]) + s[|s| - 1]
  }

  /** Extending a prefix by one element adds that element to the sum. */
  lemma SumPrefix(s: seq<int>, i: int)
    requires 0 <= i < |s|
    ensures Sum(s[..i + 1]) == Sum(s[..i]) + s[i]
  {
    assert s[..i + 1][..i] == s[..i];
  }

  /** Pointwise difference. */
  function Minus(a: seq<int>, b: seq<int>): (r: seq<int>)
    requires |a| == |b|
    ensures |r| == |a| && forall i :: 0 <= i < |a| ==> r[i] == a[i] - b[i]
  {
    seq(|a|, i requires 0 <= i < |a| => a[i] - b[i])
  }

  /** The sum of the differences is the difference of the sums. */
  lemma {:induction false} SumMinus(a: seq<int>, b: seq<int>)
    requires |a| == |b|
    ensures Sum(Minus(a, b)) == Sum(a) - Sum(b)
  {
    if a != [] {
      var k := |a| - 1;
      assert Minus(a, b)[..k] == Minus(a[..k], b[..k]);
      SumMinus(a[..k], b[..k]);
    }
  }

  /** A second sample with the same counters gives zero change everywhere. */
  lemma RepeatedSampleHasNoDelta(cp: seq<int>)
    ensures Minus(cp, cp) == seq(|cp|, _ => 0)
    ensures Sum(Minus(cp, cp)) == 0
  {
    SumMinus(cp, cp);
  }

  /** A row has one counter and one delta per execution mode. */
  predicate WellFormed(e: CoreStats)
  {
    |e.ticks| == CPUSTATES && |e.delta| == CPUSTATES
  }

  /** The module's table cpu_stats, one struct per CPU, updated field by field. */
  class CpuStatsTable {
    const stats: array<CoreStats>

    ghost predicate Valid()
      reads this, stats
    {
      forall c :: 0 <= c < stats.Length ==> WellFormed(stats[c])
    }

    /** The table as allocated when the module loads: every entry zero. */
    constructor (n: nat)
      ensures Valid() && stats.Length == n && fresh(stats)
      ensures forall c :: 0 <= c < n ==> stats[c] == CoreStats([0, 0, 0, 0, 0], [0, 0, 0, 0, 0], 0, 0)
    {
      stats := new CoreStats[n](_ => CoreStats([0, 0, 0, 0, 0], [0, 0, 0, 0, 0], 0, 0));
    }

    /**
     * calc_cpu_stats: store the new counters of `cpu`, the change against
     * the previous ones, and both totals; no other CPU's entry changes.
     */
    method CalcCpuStats(cpu: int, cp: seq<int>)
      requires Valid() && 0 <= cpu < stats.Length && |cp| == CPUSTATES
      modifies stats
      ensures Valid()
      ensures stats[cpu].ticks == cp
      ensures stats[cpu].delta == Minus(cp, old(stats[cpu].ticks))
      ensures stats[cpu].ticksTotal == Sum(cp)
      ensures stats[cpu].deltaTotal == Sum(stats[cpu].delta) == Sum(cp) - old(Sum(stats[cpu].ticks))
      ensures forall c :: 0 <= c < stats.Length && c != cpu ==> stats[c] == old(stats[c])
    {
      var e := stats[cpu];
      ghost var oldTicks := e.ticks;
      var deltaTotal := 0;
      var ticksTotal := 0;
      var i := 0;
      while i < CPUSTATES
        invariant 0 <= i <= CPUSTATES && WellFormed(e)
        modifies {}
        invariant forall j :: 0 <= j < i ==> e.ticks[j] == cp[j] && e.delta[j] == cp[j] - oldTicks[j]
        invariant forall j :: i <= j < CPUSTATES ==> e.ticks[j] == oldTicks[j]
        invariant ticksTotal == Sum(cp[..i])
        invariant deltaTotal == Sum(cp[..i]) - Sum(oldTicks[..i])
      {
        SumPrefix(cp, i);
        SumPrefix(oldTicks, i);
        e := e.(delta := e.delta[i := cp[i] - e.ticks[i]]);
        e := e.(ticks := e.ticks[i := cp[i]]);
        ticksTotal := ticksTotal + e.ticks[i];
        deltaTotal := deltaTotal + e.delta[i];
        i := i + 1;
      }
      e := e.(ticksTotal := ticksTotal, deltaTotal := deltaTotal);
      assert cp[..CPUSTATES] == cp && oldTicks[..CPUSTATES] == oldTicks;
      assert e.ticks == cp;
      assert e.delta == Minus(cp, oldTicks);
      SumMinus(cp, oldTicks);
      stats[cpu] := e;
    }

    /**
     * The per-CPU loop of read_cpu_stats: every CPU's entry is recomputed
     * from that CPU's own counters in `cpTimes`.
     */
    method ReadCpuStats(cpTimes: seq<seq<int>>)
      requires Valid() && |cpTimes| == stats.Length
      requires forall c :: 0 <= c < |cpTimes| ==> |cpTimes[c]| == CPUSTATES
      modifies stats
      ensures Valid()
      ensures forall c :: 0 <= c < stats.Length ==>
        && stats[c].ticks == cpTimes[c]
        && stats[c].delta == Minus(cpTimes[c], old(stats[c].ticks))
        && stats[c].ticksTotal == Sum(cpTimes[c])
        && stats[c].deltaTotal == Sum(cpTimes[c]) - old(Sum(stats[c].ticks))
    {
      var cpu := 0;
      while cpu < stats.Length
        invariant 0 <= cpu <= stats.Length && Valid()
        invariant forall c :: 0 <= c < cpu ==>
          && stats[c].ticks == cpTimes[c]
          && stats[c].delta == Minus(cpTimes[c], old(stats[c].ticks))
          && stats[c].ticksTotal == Sum(cpTimes[c])
          && stats[c].deltaTotal == Sum(cpTimes[c]) - old(Sum(stats[c].ticks))
        invariant forall c :: cpu <= c < stats.Length ==> stats[c] == old(stats[c])
      {
        CalcCpuStats(cpu, cpTimes[cpu]);
        cpu := cpu + 1;
      }
    }
  }
}
