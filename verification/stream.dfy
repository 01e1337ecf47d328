/** bench_stream.c: four array kernels, repeated, and the rates reported for them. */
module Stream {
  import opened Bytes
  import opened Arithmetic

  const NTIMES := 10
  const KERNELS := 4
  const SCALAR := 3.0
  /** FLT_MAX: (2^24 - 1) * 2^104 */
  const FLT_MAX := 340282346638528859811704183484516925440.0

  /** 15 to the power of k, the factor by which k rounds of the four kernels scale the arrays. */
  function Pow15(k: nat): real {
    if k == 0 then 1.0 else 15.0 * Pow15(k - 1)
  }

  predicate AllEqual(s: seq<real>, x: real) {
    forall j :: 0 <= j < |s| ==> s[j] == x
  }

  // ---- the kernels; each loop runs its iterations in an arbitrary order ----

  /** An order in which a parallel loop over n iterations may run them. */
  ghost predicate IsOrder(order: seq<nat>, n: nat) {
    |order| == n && (forall i :: 0 <= i < |order| ==> order[i] < n) && (forall j :: 0 <= j < n ==> j in order)
  }

  /** c[j] = a[j] */
  method Copy(a: array<real>, c: array<real>, order: seq<nat>)
    requires a != c && a.Length == c.Length
    requires IsOrder(order, c.Length)
    modifies c
    ensures forall j :: 0 <= j < c.Length ==> c[j] == a[j]
  {
    for i := 0 to |order|
      invariant forall j :: 0 <= j < c.Length && j in order[..i] ==> c[j] == a[j]
    {
      var j := order[i];
      c[j] := a[j];
    }
    assert order[..|order|] == order;
  }

  /** b[j] = scalar * c[j] */
  method Scale(b: array<real>, c: array<real>, order: seq<nat>)
    requires b != c && b.Length == c.Length
    requires IsOrder(order, b.Length)
    modifies b
    ensures forall j :: 0 <= j < b.Length ==> b[j] == SCALAR * c[j]
  {
    for i := 0 to |order|
      invariant forall j :: 0 <= j < b.Length && j in order[..i] ==> b[j] == SCALAR * c[j]
    {
      var j := order[i];
      b[j] := SCALAR * c[j];
    }
    assert order[..|order|] == order;
  }

  /** c[j] = a[j] + b[j] */
  method Add(a: array<real>, b: array<real>, c: array<real>, order: seq<nat>)
    requires a != c && b != c && a.Length == b.Length == c.Length
    requires IsOrder(order, c.Length)
    modifies c
    ensures forall j :: 0 <= j < c.Length ==> c[j] == a[j] + b[j]
  {
    for i := 0 to |order|
      invariant forall j :: 0 <= j < c.Length && j in order[..i] ==> c[j] == a[j] + b[j]
    {
      var j := order[i];
      c[j] := a[j] + b[j];
    }
    assert order[..|order|] == order;
  }

  /** a[j] = b[j] + scalar * c[j] */
  method Triad(a: array<real>, b: array<real>, c: array<real>, order: seq<nat>)
    requires a != b && a != c && a.Length == b.Length == c.Length
    requires IsOrder(order, a.Length)
    modifies a
    ensures forall j :: 0 <= j < a.Length ==> a[j] == b[j] + SCALAR * c[j]
  {
    for i := 0 to |order|
      invariant forall j :: 0 <= j < a.Length && j in order[..i] ==> a[j] == b[j] + SCALAR * c[j]
    {
      var j := order[i];
      a[j] := b[j] + SCALAR * c[j];
    }
    assert order[..|order|] == order;
  }

  /** The set-up loops and the rounds of the kernels. orders(k, i) is the order in which kernel i runs in round k;
      the result does not depend on it. */
  method Rounds(a: array<real>, b: array<real>, c: array<real>, rounds: nat, orders: (nat, nat) -> seq<nat>)
    requires a != b && a != c && b != c && a.Length == b.Length == c.Length
    requires forall k: nat, i: nat :: IsOrder(orders(k, i), a.Length)
    modifies a, b, c
    ensures AllEqual(a[..], 2.0 * Pow15(rounds))
    ensures rounds > 0 ==> AllEqual(b[..], 6.0 * Pow15(rounds - 1)) && AllEqual(c[..], 8.0 * Pow15(rounds - 1))
  {
    for j := 0 to a.Length
      invariant forall i :: 0 <= i < j ==> a[i] == 1.0 && b[i] == 2.0 && c[i] == 0.0
    {
      a[j], b[j], c[j] := 1.0, 2.0, 0.0;
    }
    for j := 0 to a.Length
      invariant forall i :: 0 <= i < a.Length ==> a[i] == if i < j then 2.0 else 1.0
    {
      a[j] := 2.0 * a[j];
    }
    for k := 0 to rounds
      invariant AllEqual(a[..], 2.0 * Pow15(k))
      invariant k > 0 ==> AllEqual(b[..], 6.0 * Pow15(k - 1)) && AllEqual(c[..], 8.0 * Pow15(k - 1))
    {
      Copy(a, c, orders(k, 0));
      Scale(b, c, orders(k, 1));
      Add(a, b, c, orders(k, 2));
      Triad(a, b, c, orders(k, 3));
    }
  }

  // ---- the summary ----

  /** Times by kernel and iteration. */
  type Times = t: seq<seq<real>> | |t| == KERNELS && forall j :: 0 <= j < |t| ==> |t[j]| == NTIMES
    witness seq(KERNELS, _ => seq(NTIMES, _ => 0.0))

  /** m is the least of FLT_MAX and the times of iterations 1 to n - 1. The first iteration is skipped. */
  ghost predicate IsLeast(m: real, times: seq<real>, n: nat)
    requires n <= |times|
  {
    && (m == FLT_MAX || exists k :: 1 <= k < n && m == times[k])
    && m <= FLT_MAX && (forall k :: 1 <= k < n ==> m <= times[k])
  }

  /** The same for the greatest; its start value is zero. */
  ghost predicate IsGreatest(m: real, times: seq<real>, n: nat)
    requires n <= |times|
  {
    && (m == 0.0 || exists k :: 1 <= k < n && m == times[k])
    && m >= 0.0 && (forall k :: 1 <= k < n ==> m >= times[k])
  }

  /** The summary loops over the kernels and iterations. */
  method Summary(times: Times) returns (mintime: seq<real>, maxtime: seq<real>)
    ensures |mintime| == |maxtime| == KERNELS
    ensures forall j :: 0 <= j < KERNELS ==>
      IsLeast(mintime[j], times[j], NTIMES) && IsGreatest(maxtime[j], times[j], NTIMES)
    ensures forall j, k :: 0 <= j < KERNELS && 1 <= k < 10 ==> mintime[j] <= times[j][k] <= maxtime[j]
    ensures forall j :: 0 <= j < KERNELS ==> mintime[j] == FLT_MAX || mintime[j] in times[j][1..10]
    ensures forall j :: 0 <= j < KERNELS ==> maxtime[j] == 0.0 || maxtime[j] in times[j][1..10]
  {
    mintime, maxtime := seq(KERNELS, _ => FLT_MAX), seq(KERNELS, _ => 0.0);
    for k := 1 to NTIMES
      invariant |mintime| == |maxtime| == KERNELS
      invariant forall j :: 0 <= j < KERNELS ==> IsLeast(mintime[j], times[j], k) && IsGreatest(maxtime[j], times[j], k)
    {
      for j := 0 to KERNELS
        invariant |mintime| == |maxtime| == KERNELS
        invariant forall i :: 0 <= i < KERNELS ==>
          var n := if i < j then k + 1 else k;
          IsLeast(mintime[i], times[i], n) && IsGreatest(maxtime[i], times[i], n)
      {
        mintime := mintime[j := if mintime[j] < times[j][k] then mintime[j] else times[j][k]];
        maxtime := maxtime[j := if maxtime[j] > times[j][k] then maxtime[j] else times[j][k]];
      }
    }
    forall j | 0 <= j < KERNELS
      ensures mintime[j] == FLT_MAX || mintime[j] in times[j][1..10]
      ensures maxtime[j] == 0.0 || maxtime[j] in times[j][1..10]
    {
      assert forall k :: 1 <= k < NTIMES ==> times[j][k] == times[j][1..10][k - 1];
    }
  }

  /** A rate in megabytes per second; division by zero gives none. */
  function Rate(bytes: real, time: real): Option<real> {
    if time == 0.0 then None else Some(0.000001 * bytes / time)
  }

  /** rate times time is the bytes moved, in millions; there is none where no time has passed. */
  ghost predicate IsRate(rate: Option<real>, time: real, bytes: real) {
    if time == 0.0 then rate == None else rate.Some? && rate.value * time * 1000000.0 == bytes
  }

  lemma RateIs(bytes: real, time: real)
    ensures IsRate(Rate(bytes, time), time, bytes)
  {
    if time != 0.0 {
      assert 0.000001 * bytes / time * time == 0.000001 * bytes;
    }
  }

  /** The reported rate is the best: none of the iterations that count was faster. */
  lemma RateIsBest(bytes: real, times: seq<real>, m: real, k: nat)
    requires |times| == NTIMES && IsLeast(m, times, NTIMES) && bytes >= 0.0
    requires forall i :: 1 <= i < NTIMES ==> times[i] > 0.0
    requires 1 <= k < NTIMES
    ensures Rate(bytes, m).Some? && Rate(bytes, times[k]).Some?
    ensures Rate(bytes, times[k]).value <= Rate(bytes, m).value
  {
    Faster(0.000001 * bytes, m, times[k]);
  }

  lemma Faster(work: real, less: real, more: real)
    requires work >= 0.0 && 0.0 < less <= more
    ensures work / more <= work / less
  {
    var x, y := work / more, work / less;
    assert x * more == work == y * less;
    assert x * less <= x * more;
    Scaled(x, y, less);
  }

  /** Bytes moved by kernel i over arrays of n doubles: two arrays for the first two kernels, three for the others. */
  function Moved(i: nat, n: nat): real {
    (8 * n * if i < 2 then 2 else 3) as real
  }

  /** The readings of the clock around kernel i in round k; two were taken before the rounds. */
  function TimeOf(clock: nat -> real, i: nat, k: nat): real {
    clock(2 + 8 * k + 2 * i + 1) - clock(2 + 8 * k + 2 * i)
  }

  /** bench_stream: the arrays end in their closed form, and each rate reported belongs to the least time. */
  method BenchStream(a: array<real>, b: array<real>, c: array<real>, orders: (nat, nat) -> seq<nat>, clock: nat -> real)
    returns (rates: seq<Option<real>>, ghost times: Times, ghost least: seq<real>)
    requires a != b && a != c && b != c && a.Length == b.Length == c.Length
    requires forall k: nat, i: nat :: IsOrder(orders(k, i), a.Length)
    modifies a, b, c
    ensures AllEqual(a[..], 2.0 * Pow15(NTIMES))
    ensures AllEqual(b[..], 6.0 * Pow15(NTIMES - 1)) && AllEqual(c[..], 8.0 * Pow15(NTIMES - 1))
    ensures forall i, k :: 0 <= i < KERNELS && 0 <= k < NTIMES ==>
      times[i][k] == TimeOf(clock, i, k) == clock(2 + 8 * k + 2 * i + 1) - clock(2 + 8 * k + 2 * i)
    ensures |rates| == |least| == KERNELS
    ensures forall i :: 0 <= i < KERNELS ==>
      IsLeast(least[i], times[i], NTIMES) && rates[i] == Rate(Moved(i, a.Length), least[i])
    ensures forall i :: 0 <= i < KERNELS ==>
      IsRate(rates[i], least[i], if i < 2 then (16 * a.Length) as real else (24 * a.Length) as real)
  {
    Rounds(a, b, c, NTIMES, orders);
    var measured := seq(KERNELS, i requires 0 <= i < KERNELS =>
      seq(NTIMES, k requires 0 <= k < NTIMES => TimeOf(clock, i, k)));
    var mintime, maxtime := Summary(measured);
    rates := seq(KERNELS, i requires 0 <= i < KERNELS => Rate(Moved(i, a.Length), mintime[i]));
    times, least := measured, mintime;
    forall i | 0 <= i < KERNELS
      ensures IsRate(rates[i], least[i], if i < 2 then (16 * a.Length) as real else (24 * a.Length) as real)
    {
      RateIs(Moved(i, a.Length), least[i]);
    }
  }
}
