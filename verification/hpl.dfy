/** hpl_calc_pq.c: the process grid for a number of cores. */
module HplGrid {

  /** ceil(sqrt(n)) without rounding: the least k with k * k >= n. */
  function CeilSqrt(n: nat): (k: nat)
    ensures IsCeilSqrt(n, k)
  {
    CeilSqrtFrom(n, 0)
  }

  predicate IsCeilSqrt(n: nat, k: nat) {
    Square(k) >= n && (k > 0 ==> Square(k - 1) < n)
  }

  function Square(k: nat): (s: nat)
    ensures s >= k
  {
    k * k
  }

  function CeilSqrtFrom(n: nat, k: nat): (r: nat)
    requires k > 0 ==> Square(k - 1) < n
    ensures IsCeilSqrt(n, r)
    decreases n - k
  {
    if Square(k) >= n then k else CeilSqrtFrom(n, k + 1)
  }

  /** p rows of q processes use all cores. */
  predicate IsGrid(cores: nat, p: nat, q: nat) {
    1 <= p <= q && p * q == cores
  }

  ghost predicate IsPrime(n: nat) {
    n > 1 && forall d :: 1 < d < n ==> !Divides(d, n)
  }

  predicate Divides(d: nat, n: nat) {
    d > 0 && n % d == 0
  }

  lemma Mul(x: nat, y: nat, z: nat, w: nat)
    requires x <= y && z <= w
    ensures x * z <= y * w
  {
    assert x * z <= y * z <= y * w;
  }

  lemma MulBelow(x: nat, y: nat, z: nat, w: nat)
    requires 1 <= x <= y && z < w
    ensures x * z < y * w
  {
    Mul(x, y, z, w - 1);
    assert y * w == y * (w - 1) + y;
  }

  /** The larger one factor of a product, the smaller the other. */
  lemma OtherFactor(a: nat, b: nat, p: nat, q: nat)
    requires a * b == p * q && 1 <= a <= p
    ensures q <= b
  {
    if b < q {
      MulBelow(a, p, b, q);
    }
  }

  /** No factor pair lies strictly on one side of the root. */
  lemma AroundRoot(cores: nat, a: nat, b: nat)
    requires IsGrid(cores, a, b)
    ensures a <= CeilSqrt(cores) <= b
  {
    var c := CeilSqrt(cores);
    hide CeilSqrt;
    if c < a {
      MulBelow(a, b, c, a);
      Mul(c, a, c, c);
    } else if b < c {
      Mul(a, c - 1, b, c - 1);
    }
  }

  lemma MulStep(a: nat, q: nat)
    ensures a * (q + 1) == a * q + a
  {
  }

  /** Division with remainder is unique. */
  lemma DivUnique(a: nat, q: nat, r: nat, q': nat, r': nat)
    requires r < a && r' < a && a * q + r == a * q' + r'
    ensures q == q' && r == r'
  {
    MulStep(a, q);
    MulStep(a, q');
    if q < q' {
      Mul(a, a, q + 1, q');
    } else if q' < q {
      Mul(a, a, q' + 1, q);
    }
  }

  lemma FactorDivides(a: nat, b: nat)
    requires a > 0
    ensures Divides(a, a * b)
  {
    DivUnique(a, b, 0, a * b / a, a * b % a);
  }

  /** main: go down from the root to the first divisor; when the search started above the root and stopped there,
      the pair comes out swapped. The grid printed is the one with the least difference, and it is a single row
      only for one core and for a prime number of them. */
  method Grid(cores: nat) returns (ps: nat, qs: nat)
    requires cores >= 1
    ensures IsGrid(cores, ps, qs) && 1 <= ps <= qs && ps * qs == cores
    ensures forall a: nat, b: nat :: IsGrid(cores, a, b) ==> qs - ps <= b - a
    ensures ps == 1 <==> cores == 1 || IsPrime(cores)
  {
    var p := CeilSqrt(cores);
    while p > 1
      invariant 1 <= p <= CeilSqrt(cores)
      invariant forall d :: p < d <= CeilSqrt(cores) ==> !Divides(d, cores)
    {
      if cores % p == 0 {
        break;
      }
      p := p - 1;
    }
    var q := cores / p;
    assert Divides(p, cores) && p * q == cores;
    forall a: nat, b: nat | IsGrid(cores, a, b)
      ensures a <= p && if p <= q then q - p <= b - a else p - q <= b - a
    {
      AroundRoot(cores, a, b);
      FactorDivides(a, b);
      if p <= q {
        OtherFactor(a, b, p, q);
      } else {
        AroundRoot(cores, q, p);
        OtherFactor(p, q, b, a);
      }
    }
    if p > q {
      ps, qs := q, p;
    } else {
      ps, qs := p, q;
    }
    SingleRow(cores, ps, qs);
  }

  /** A grid of least difference has one row exactly for one core or a prime number of them. */
  lemma SingleRow(cores: nat, ps: nat, qs: nat)
    requires IsGrid(cores, ps, qs) && forall a: nat, b: nat :: IsGrid(cores, a, b) ==> qs - ps <= b - a
    ensures ps == 1 <==> cores == 1 || IsPrime(cores)
  {
    FactorDivides(ps, qs);
    if ps > 1 {
      MulBelow(ps, ps, 1, qs);
    } else {
      forall d | 1 < d < cores
        ensures !Divides(d, cores)
      {
        if Divides(d, cores) {
          NotSingle(cores, d);
        }
      }
    }
  }

  /** A proper divisor gives a grid with less difference than a single row. */
  lemma NotSingle(cores: nat, d: nat)
    requires 1 < d < cores && Divides(d, cores)
    ensures exists a: nat, b: nat :: IsGrid(cores, a, b) && b - a < cores - 1
  {
    var e := cores / d;
    assert d * e == cores == e * d;
    if e <= 1 {
      Mul(d, d, e, 1);
    }
    MulBelow(e, e, 1, d);
    if d <= e {
      assert IsGrid(cores, d, e);
    } else {
      assert IsGrid(cores, e, d);
    }
  }
}

/** hpl_calc_n.c: the problem size for an amount of memory, in exact arithmetic. */
module HplSize {
  import opened Bytes

  /** Kilobytes left to the system. */
  const RESERVE := 786432
  const TWO64 := 0x1_0000_0000_0000_0000
  /** The problem size is a multiple of the block size. */
  const BLOCK := 192

  /** What is left of ram kilobytes, in bytes; both steps wrap like unsigned 64-bit arithmetic. */
  function UsableBytes(ram: u64): u64 {
    ((ram as int - RESERVE) % TWO64 * 1024) % TWO64
  }

  /** 94 percent of it, truncated. */
  function Target(ram: u64): int {
    (0.94 * UsableBytes(ram) as real).Floor
  }

  /** root is the exact square root of target / 8, the number of doubles that fit. */
  predicate IsRoot(root: real, target: int) {
    root >= 0.0 && root * root == target as real / 8.0
  }

  /** The number printed: the root, truncated, and rounded down to a multiple of the block size. */
  function ProblemSize(root: real): int {
    root.Floor / BLOCK * BLOCK
  }

  /** n is the largest multiple of the block size whose matrix of n * n doubles fits into the budget. */
  ghost predicate IsBestFit(n: int, budget: real) {
    n >= 0 && n % BLOCK == 0 && (8 * n * n) as real <= budget < (8 * (n + BLOCK) * (n + BLOCK)) as real
  }

  /** 94 percent of what is really left of ram kilobytes. */
  function Budget(ram: u64): real {
    0.94 * 1024.0 * (ram as int - RESERVE) as real
  }

  lemma SquareBelow(x: real, y: real)
    requires 0.0 <= x < y
    ensures x * x < y * y
  {
    var d := y - x;
    assert y * y == x * x + 2.0 * (x * d) + d * d;
    assert x * d >= 0.0;
    assert d * d > 0.0;
  }

  lemma SquareAtMost(x: real, y: real)
    requires 0.0 <= x <= y
    ensures x * x <= y * y
  {
    if x < y {
      SquareBelow(x, y);
    }
  }

  /** The two roundings down and the square root lose nothing: the size printed is the best fit for the target,
      because the matrix of the next size is too large. */
  lemma BestForTarget(target: nat, root: real)
    requires IsRoot(root, target)
    ensures IsBestFit(ProblemSize(root), target as real)
  {
    var n := ProblemSize(root);
    assert 0 <= n <= root.Floor < n + BLOCK;
    SquareAtMost(n as real, root);
    SquareBelow(root, (n + BLOCK) as real);
    assert (n as real) * (n as real) == (n * n) as real;
    assert ((n + BLOCK) as real) * ((n + BLOCK) as real) == ((n + BLOCK) * (n + BLOCK)) as real;
  }

  /** A best fit is at least as large as every other multiple of the block size that fits. */
  lemma BestIsLargest(n: int, k: int, budget: real)
    requires IsBestFit(n, budget) && k >= 0 && k % BLOCK == 0 && (8 * k * k) as real <= budget
    ensures k <= n
  {
    if k > n {
      MultiplesApart(n, k);
      IntSquare(n + BLOCK, k);
    }
  }

  lemma MultiplesApart(n: int, k: int)
    requires 0 <= n < k && n % BLOCK == 0 && k % BLOCK == 0
    ensures n + BLOCK <= k
  {
  }

  lemma IntSquare(n: nat, k: nat)
    requires n <= k
    ensures n * n <= k * k
  {
    assert n * n <= n * k <= k * k;
  }

  lemma LargeSquare(n: nat)
    ensures n >= 0x8000_0000 ==> n * n >= 0x4000_0000_0000_0000
  {
    if n >= 0x8000_0000 {
      IntSquare(0x8000_0000, n);
    }
  }

  lemma SizeMonotone(x: real, y: real)
    requires 0.0 <= x <= y
    ensures ProblemSize(x) <= ProblemSize(y)
  {
    assert x.Floor <= y.Floor;
  }

  lemma RootMonotone(x: real, target: int, y: real, target': int)
    requires IsRoot(x, target) && IsRoot(y, target') && target <= target'
    ensures 0.0 <= x <= y
  {
    if y < x {
      SquareBelow(y, x);
    }
  }

  /** The two steps that may wrap come down to one. */
  lemma UsableIs(ram: u64)
    ensures UsableBytes(ram) == 1024 * (ram as int - 786432) % 0x1_0000_0000_0000_0000
  {
    var x := ram as int - RESERVE;
    ModTimes(x, x / TWO64, x % TWO64);
  }

  lemma ModTimes(x: int, q: int, r: int)
    requires x == TWO64 * q + r && 0 <= r < TWO64
    ensures r * 1024 % TWO64 == 1024 * x % TWO64
  {
    assert 1024 * x == r * 1024 + TWO64 * (1024 * q);
    SameRemainder(r * 1024, 1024 * x, 1024 * q);
  }

  lemma SameRemainder(a: int, b: int, k: int)
    requires b == a + TWO64 * k
    ensures a % TWO64 == b % TWO64
  {
    assert a == TWO64 * (a / TWO64) + a % TWO64;
    assert b == TWO64 * (b / TWO64) + b % TWO64;
  }

  lemma NoWrap(ram: u64)
    requires RESERVE <= ram && (ram - RESERVE) * 1024 < TWO64
    ensures UsableBytes(ram) == (ram - RESERVE) * 1024
    ensures Target(ram) as real <= Budget(ram) < (Target(ram) + 1) as real
  {
  }

  /** More memory never makes for a smaller problem, as long as nothing wraps. */
  lemma Monotone(ram: u64, ram': u64, root: real, root': real)
    requires RESERVE <= ram <= ram' && (ram' - RESERVE) * 1024 < TWO64
    requires IsRoot(root, Target(ram)) && IsRoot(root', Target(ram'))
    ensures ProblemSize(root) <= ProblemSize(root')
  {
    hide UsableBytes, ProblemSize, IsRoot;
    NoWrap(ram);
    NoWrap(ram');
    assert Budget(ram) <= Budget(ram');
    RootMonotone(root, Target(ram), root', Target(ram'));
    SizeMonotone(root, root');
  }

  /** The problem size is the best fit for 94 percent of the memory behind the reserve if and only if there is
      that much memory and its size in bytes does not wrap. */
  lemma BestFitIff(ram: u64, root: real)
    requires IsRoot(root, Target(ram))
    ensures IsBestFit(ProblemSize(root), Budget(ram)) <==> RESERVE <= ram && (ram - RESERVE) * 1024 < TWO64
  {
    var n := ProblemSize(root);
    BestForTarget(Target(ram), root);
    hide IsBestFit, ProblemSize, Target, UsableBytes, IsRoot, Budget;
    if ram < RESERVE {
      NothingFits(ram, n);
    } else if (ram - RESERVE) * 1024 < TWO64 {
      BestForBudget(ram, n);
    } else {
      WrappedIsSmall(ram, n);
    }
  }

  /** In numbers: where nothing wraps, the size n printed is a multiple of 192, n * n doubles of eight bytes fit into 94
      percent of the memory behind the first 786432 kilobytes, and the next multiple does not. */
  lemma SizeInNumbers(ram: u64, root: real)
    requires 786432 <= ram && (ram - 786432) * 1024 < 0x1_0000_0000_0000_0000 && IsRoot(root, Target(ram))
    ensures var n := ProblemSize(root);
      && n >= 0 && n % 192 == 0
      && (8 * n * n) as real <= 0.94 * 1024.0 * (ram - 786432) as real < (8 * (n + 192) * (n + 192)) as real
  {
    BestFitIff(ram, root);
  }

  lemma NothingFits(ram: u64, n: int)
    requires ram < RESERVE
    ensures !IsBestFit(n, Budget(ram))
  {
    if n >= 0 {
      IntSquare(0, n);
    }
  }

  lemma BestForBudget(ram: u64, n: int)
    requires RESERVE <= ram && (ram - RESERVE) * 1024 < TWO64 && IsBestFit(n, Target(ram) as real)
    ensures IsBestFit(n, Budget(ram))
  {
    NoWrap(ram);
    hide Target, Budget;
    assert 8 * (n + BLOCK) * (n + BLOCK) >= Target(ram) + 1;
  }

  /** Where the size in bytes wraps, far larger problems would fit. */
  lemma WrappedIsSmall(ram: u64, n: int)
    requires RESERVE <= ram && (ram - RESERVE) * 1024 >= TWO64 && IsBestFit(n, Target(ram) as real)
    ensures !IsBestFit(n, Budget(ram))
  {
    hide Target, Budget, UsableBytes;
    WrappedBounds(ram);
    NextBlock(n);
    FarBelow(8 * n * n, 8 * (n + BLOCK) * (n + BLOCK), UsableBytes(ram), (ram - RESERVE) * 1024);
  }

  lemma WrappedBounds(ram: u64)
    requires RESERVE <= ram && (ram - RESERVE) * 1024 >= TWO64
    ensures UsableBytes(ram) <= (ram - RESERVE) * 1024 - TWO64
    ensures Budget(ram) == 0.94 * ((ram - RESERVE) * 1024) as real
    ensures Target(ram) < TWO64 && Target(ram) as real <= 0.94 * UsableBytes(ram) as real
  {
    assert UsableBytes(ram) == (ram - RESERVE) * 1024 % TWO64;
  }

  lemma FarBelow(square: nat, next: nat, usable: nat, bytes: nat)
    requires square as real <= 0.94 * usable as real && next <= square + 0x1000_0000_0000 && usable <= bytes - TWO64
    ensures next as real <= 0.94 * bytes as real
  {
    assert usable as real <= bytes as real - TWO64 as real;
    assert next as real <= square as real + 0x1000_0000_0000 as real;
  }

  lemma NextBlock(n: nat)
    requires 8 * n * n < TWO64
    ensures 8 * (n + BLOCK) * (n + BLOCK) <= 8 * n * n + 0x1000_0000_0000
  {
    LargeSquare(n);
    assert 8 * n * n == 8 * (n * n);
    assert 8 * (n + BLOCK) * (n + BLOCK) == 8 * n * n + 16 * BLOCK * n + 8 * BLOCK * BLOCK;
  }
}
