/** breakin.c: get_cpu_usage accounts the time of each processor with wrapping 32-bit counters. */
module CpuUsage {
  import opened Bytes
  import opened Arithmetic

  const MAX_CPUS := 16
  const TWO32 := 0x1_0000_0000

  /** The true counters of one cpu line of /proc/stat. */
  datatype Sample = Sample(user: nat, nice: nat, sys: nat, idle: nat)
  {
    function Used(): nat {
      user + nice + sys
    }
  }

  /** struct cpu_usage_t. A percentage that is no number, or infinite, is None. */
  datatype Usage = Usage(cpuIdle: u32, cpuUsage: u32, lastIdle: u32, lastUsage: u32, percent: Option<real>)

  /** What an unsigned int keeps of a number. */
  function Low32(n: int): u32 {
    n % TWO32
  }

  /** The share of time_used in time_total, which is added up in 32 bits. */
  function Percent(idle: u32, used: u32): Option<real> {
    var total := Low32(idle as int + used as int);
    if total == 0 then None else Some(used as real / total as real * 100.0)
  }

  function IdleDelta(u: Usage, s: Sample): u32 {
    Low32(Low32(s.idle) as int - u.lastIdle as int)
  }

  function UsedDelta(u: Usage, s: Sample): u32 {
    Low32(Low32(s.Used()) as int - u.lastUsage as int)
  }

  /** One line of /proc/stat enters a processor's record. */
  function Updated(u: Usage, s: Sample): Usage {
    Usage(Low32(s.idle), Low32(s.Used()), Low32(s.idle), Low32(s.Used()), Percent(IdleDelta(u, s), UsedDelta(u, s)))
  }

  /** The record after a line, number by number: the counters modulo 2^32, and the percentage as used time times 100
      over the time that passed, both as 32-bit differences to what was remembered. */
  lemma UpdatedIs(u: Usage, s: Sample)
    ensures var v := Updated(u, s);
      var used, idle := (s.user + s.nice + s.sys) % 0x1_0000_0000, s.idle % 0x1_0000_0000;
      var total := ((used - u.lastUsage) % 0x1_0000_0000 + (idle - u.lastIdle) % 0x1_0000_0000) % 0x1_0000_0000;
      && v.cpuUsage == v.lastUsage == used && v.cpuIdle == v.lastIdle == idle
      && (v.percent.Some? <==> total != 0)
      && (v.percent.Some? ==>
        v.percent.value * total as real == 100.0 * ((used - u.lastUsage) % 0x1_0000_0000) as real)
  {
    var total := Low32(IdleDelta(u, s) as int + UsedDelta(u, s) as int);
    if total != 0 {
      hide Low32, IdleDelta, UsedDelta;
      QuotientTimes(UsedDelta(u, s) as real, total as real);
      Regroup(UsedDelta(u, s) as real / total as real, total as real);
    }
  }

  lemma Regroup(q: real, y: real)
    ensures q * 100.0 * y == 100.0 * (q * y)
  {
  }

  class Monitor {
    /** cpu_usage[MAX_CPUS] */
    const usage: array<Usage>
    /** cpu_qty */
    var qty: nat

    ghost predicate Valid()
      reads this
    {
      usage.Length == MAX_CPUS && qty <= MAX_CPUS
    }

    constructor ()
      ensures Valid() && fresh(usage) && qty == 0
      ensures forall i :: 0 <= i < MAX_CPUS ==> usage[i] == Usage(0, 0, 0, 0, Some(0.0))
    {
      usage := new Usage[MAX_CPUS](_ => Usage(0, 0, 0, 0, Some(0.0)));
      qty := 0;
    }

    /** get_cpu_usage: the first sixteen cpu lines update the records, the rest are passed over. None stands for
        a /proc/stat that cannot be opened. */
    method GetCpuUsage(lines: Option<seq<Sample>>)
      requires Valid()
      modifies this`qty, usage
      ensures Valid()
      ensures lines.None? ==> qty == old(qty) && usage[..] == old(usage[..])
      ensures lines.Some? ==> qty == if |lines.value| < 16 then |lines.value| else 16
      ensures lines.Some? ==> forall i :: 0 <= i < MAX_CPUS ==>
        usage[i] == if i < |lines.value| then Updated(old(usage[i]), lines.value[i]) else old(usage[i])
    {
      if lines.None? {
        return;
      }
      hide Updated;
      var count := 0;
      for k := 0 to |lines.value|
        invariant count == if k < MAX_CPUS then k else MAX_CPUS
        invariant forall i :: 0 <= i < MAX_CPUS ==>
          usage[i] == if i < count then Updated(old(usage[i]), lines.value[i]) else old(usage[i])
      {
        if count < MAX_CPUS {
          usage[count] := Account(usage[count], lines.value[k]);
          count := count + 1;
        }
      }
      qty := count;
    }
  }

  /** The arithmetic of get_cpu_usage for one processor, in 32 bits throughout. */
  method Account(u: Usage, s: Sample) returns (v: Usage)
    ensures v == Updated(u, s)
  {
    hide Low32, Percent;
    var cpuUsage := Low32(Low32(Low32(s.user) as int + Low32(s.nice) as int) as int + Low32(s.sys) as int);
    SumWraps(s.user, s.nice, s.sys);
    var cpuIdle := Low32(s.idle);
    var timeIdle := Low32(cpuIdle as int - u.lastIdle as int);
    var timeUsed := Low32(cpuUsage as int - u.lastUsage as int);
    v := u.(cpuUsage := cpuUsage, cpuIdle := cpuIdle);
    v := v.(lastIdle := cpuIdle, lastUsage := cpuUsage, percent := Percent(timeIdle, timeUsed));
  }

  /** Adding up in 32 bits is adding up and then keeping 32 bits. */
  lemma SumWraps(a: nat, b: nat, c: nat)
    ensures Low32(Low32(Low32(a) as int + Low32(b) as int) as int + Low32(c) as int) == Low32(a + b + c)
  {
  }

  /** A 32-bit difference of two counters is the true one, whether or not they have wrapped in between, exactly
      if the counter has advanced by less than 2^32. */
  lemma DeltaIsTrueIff(before: nat, now: nat)
    requires before <= now
    ensures Low32(Low32(now) as int - Low32(before) as int) == now - before <==> now - before < TWO32
  {
  }

  /** The samples of a run: monotone, and no counter advances by 2^32 or more between two of them. */
  ghost predicate IsRun(run: seq<Sample>) {
    forall i :: 0 < i < |run| ==> IsAdvance(run[i - 1], run[i])
  }

  predicate IsAdvance(s: Sample, t: Sample) {
    s.idle <= t.idle < s.idle + TWO32 && s.Used() <= t.Used() < s.Used() + TWO32
  }

  /** A record after a run, and the sums of the 32-bit differences on the way. */
  function Tracked(u: Usage, run: seq<Sample>): (r: (Usage, nat, nat))
    decreases |run|
  {
    if run == [] then (u, 0, 0)
    else
      var (v, idle, used) := Tracked(u, run[..|run| - 1]);
      var s := run[|run| - 1];
      (Updated(v, s), idle + IdleDelta(v, s), used + UsedDelta(v, s))
  }

  lemma LastIsRemembered(u: Usage, run: seq<Sample>)
    requires run != []
    ensures Tracked(u, run).0.lastIdle == Low32(run[|run| - 1].idle)
    ensures Tracked(u, run).0.lastUsage == Low32(run[|run| - 1].Used())
  {
  }

  /** The differences over a run behind its first sample add up to the last true counters minus the first. */
  lemma {:induction false} DeltasTelescope(u: Usage, run: seq<Sample>)
    requires run != [] && IsRun(run)
    ensures var (v, idle, used) := Tracked(u, run);
      var (v0, idle0, used0) := Tracked(u, run[..1]);
      && idle - idle0 == run[|run| - 1].idle - run[0].idle
      && used - used0 == run[|run| - 1].Used() - run[0].Used()
    decreases |run|
  {
    hide Low32, Percent, IsAdvance;
    if |run| == 1 {
      assert run[..1] == run;
    } else {
      var n := |run| - 1;
      var before := run[..n];
      DeltasTelescope(u, before);
      assert before[..1] == run[..1] && before[0] == run[0];
      LastIsRemembered(u, before);
      assert IsAdvance(run[n - 1], run[n]);
      TrueDeltas(Tracked(u, before).0, run[n - 1], run[n]);
    }
  }

  lemma TrueDeltas(u: Usage, s: Sample, t: Sample)
    requires IsAdvance(s, t) && u.lastIdle == Low32(s.idle) && u.lastUsage == Low32(s.Used())
    ensures IdleDelta(u, t) == t.idle - s.idle && UsedDelta(u, t) == t.Used() - s.Used()
  {
    DeltaIsTrueIff(s.idle, t.idle);
    DeltaIsTrueIff(s.Used(), t.Used());
  }

  /** The percentage is a number from 0 to 100 if and only if some time has passed and the two differences do
      not add up to 2^32 or more. */
  lemma PercentIff(idle: u32, used: u32)
    ensures (Percent(idle, used).Some? && 0.0 <= Percent(idle, used).value <= 100.0) <==> 0 < idle + used < TWO32
  {
    var total := Low32(idle as int + used as int);
    if total != 0 {
      Ratio(used, total);
      assert total < used <==> idle as int + used as int >= TWO32;
    }
  }

  lemma Ratio(used: nat, total: nat)
    requires total > 0
    ensures 0.0 <= used as real / total as real * 100.0
    ensures used as real / total as real * 100.0 <= 100.0 <==> used <= total
  {
    var q := used as real / total as real;
    QuotientTimes(used as real, total as real);
    AtMostWhole(q, used as real, total as real);
  }

  lemma QuotientTimes(x: real, y: real)
    requires y > 0.0
    ensures x / y * y == x
  {
  }

  lemma AtMostWhole(q: real, part: real, whole: real)
    requires whole > 0.0 && part >= 0.0 && q * whole == part
    ensures q >= 0.0 && (q <= 1.0 <==> part <= whole)
  {
    Scaled(0.0, q, whole);
    Scaled(q, 1.0, whole);
    assert 0.0 * whole == 0.0 && 1.0 * whole == whole;
  }
}
