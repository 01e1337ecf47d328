/** The SMBIOS entry point (section 5.2.1 of DSP0134): its checksums and the scan for its anchor. */
module EntryPoint {
  import opened Bytes
  import opened Arithmetic

  /** The 64 KiB at 0xF0000 ... */
  const IMAGE_SIZE := 0x1_0000
  /** ... and how far behind them a checksum over a length byte of 0xFF may reach. */
  const BEHIND_IMAGE := 0xDF
  /** Paragraphs beyond this offset cannot hold an entry point. */
  const LAST_ENTRY := 0xFFE0

  /** The memory the scan reads: the image and whatever bytes lie behind it. */
  type Image = m: seq<u8> | |m| == IMAGE_SIZE + BEHIND_IMAGE witness seq(IMAGE_SIZE + BEHIND_IMAGE, _ => 0)

  /** dmidecode.c: the 8-bit sum of len bytes is zero. */
  method Checksum(m: seq<u8>, at: nat, len: nat) returns (ok: bool)
    requires at + len <= |m|
    ensures ok <==> Sum(m[at..at + len]) % 0x100 == 0
  {
    var sum: u8 := 0;
    var a := 0;
    while a < len
      invariant a <= len && sum == Sum(m[at..at + a]) % 0x100
    {
      hide Sum;
      SumStep(m, at, a);
      ModAdd(Sum(m[at..at + a]), m[at + a]);
      sum := (sum + m[at + a]) % 0x100;
      a := a + 1;
    }
    ok := sum == 0;
  }

  lemma SumStep(m: seq<u8>, at: nat, a: nat)
    requires at + a < |m|
    ensures Sum(m[at..at + a + 1]) == Sum(m[at..at + a]) + m[at + a]
  {
    assert m[at..at + a + 1][..a] == m[at..at + a];
  }

  lemma ModAdd(x: int, y: int)
    ensures (x % 0x100 + y) % 0x100 == (x + y) % 0x100
  {
  }

  /** WORD and DWORD read little-endian numbers. */
  function Word(m: seq<u8>, p: nat): u16
    requires p + 2 <= |m|
  {
    m[p] as int + 0x100 * (m[p + 1] as int)
  }

  function Dword(m: seq<u8>, p: nat): u32
    requires p + 4 <= |m|
  {
    m[p] as int + 0x100 * (m[p + 1] as int) + 0x1_0000 * (m[p + 2] as int) + 0x100_0000 * (m[p + 3] as int)
  }

  /** A number written low byte first reads back. */
  lemma WordReadsBack(m: seq<u8>, p: nat, n: u16)
    requires p + 2 <= |m| && m[p] == n % 0x100 && m[p + 1] == n / 0x100
    ensures Word(m, p) == n
  {
  }

  lemma DwordReadsBack(m: seq<u8>, p: nat, n: u32)
    requires p + 4 <= |m| && m[p] == n % 0x100 && m[p + 1] == n / 0x100 % 0x100
    requires m[p + 2] == n / 0x1_0000 % 0x100 && m[p + 3] == n / 0x100_0000
    ensures Dword(m, p) == n
  {
    assert n / 0x100 / 0x100 == n / 0x1_0000 && n / 0x1_0000 / 0x100 == n / 0x100_0000;
  }

  predicate IsAnchor(m: Image, fp: nat)
    requires fp + 16 <= IMAGE_SIZE
  {
    m[fp..fp + 4] == Ascii("_SM_")
  }

  /** What smbios_decode demands of an entry point: both checksums and the inner anchor. */
  predicate Accepts(m: Image, fp: nat)
    requires fp <= LAST_ENTRY
  {
    && Sum(m[fp..fp + m[fp + 0x05]]) % 0x100 == 0
    && m[fp + 0x10..fp + 0x15] == Ascii("_DMI_")
    && Sum(m[fp + 0x10..fp + 0x1F]) % 0x100 == 0
  }

  // ---- checksums ----

  lemma SumUpdate(s: seq<u8>, i: nat, v: u8)
    requires i < |s|
    ensures Sum(s[i := v]) == Sum(s) - s[i] + v
  {
    var low, high := s[..i], s[i + 1..];
    SumConcat(low, [s[i]]);
    SumConcat(low + [s[i]], high);
    SumConcat(low, [v]);
    SumConcat(low + [v], high);
    assert s == low + [s[i]] + high && s[i := v] == low + [v] + high;
    assert Sum([s[i]]) == s[i] && Sum([v]) == v;
  }

  /** With the standard length byte 0x1F both checksums together force the first half, bytes 0 to 0x0F,
      to sum to zero on its own. */
  lemma FirstHalfSumsToZero(m: Image, fp: nat)
    requires fp <= LAST_ENTRY && m[fp + 0x05] == 0x1F && Accepts(m, fp)
    ensures Sum(m[fp..fp + 0x10]) % 0x100 == 0
  {
    SumConcat(m[fp..fp + 0x10], m[fp + 0x10..fp + 0x1F]);
    assert m[fp..fp + 0x1F] == m[fp..fp + 0x10] + m[fp + 0x10..fp + 0x1F];
  }

  /** The bytes of an entry point that its checksums watch. */
  predicate IsCovered(m: Image, fp: nat, i: nat)
    requires fp <= LAST_ENTRY
  {
    i < m[fp + 0x05] || 0x10 <= i < 0x1F
  }

  lemma SliceUpdate(m: Image, lo: nat, hi: nat, j: nat, v: u8)
    requires lo <= hi <= |m| && j < |m|
    ensures Sum(m[j := v][lo..hi]) == if lo <= j < hi then Sum(m[lo..hi]) - m[j] + v else Sum(m[lo..hi])
  {
    if lo <= j < hi {
      assert m[j := v][lo..hi] == m[lo..hi][j - lo := v];
      SumUpdate(m[lo..hi], j - lo, v);
    } else {
      assert m[j := v][lo..hi] == m[lo..hi];
    }
  }

  /** Changing one byte other than the length byte of an accepted entry point makes it rejected if and only
      if a checksum covers that byte. */
  lemma OneByteChange(m: Image, fp: nat, i: nat, v: u8)
    requires fp <= LAST_ENTRY && Accepts(m, fp)
    requires i != 0x05 && fp + i < |m| && v != m[fp + i]
    ensures Accepts(m[fp + i := v], fp) <==> !IsCovered(m, fp, i)
  {
    hide Sum;
    var j := fp + i;
    SliceUpdate(m, fp, fp + m[fp + 0x05], j, v);
    SliceUpdate(m, fp + 0x10, fp + 0x1F, j, v);
    if !IsCovered(m, fp, i) {
      assert m[j := v][fp + 0x10..fp + 0x15] == m[fp + 0x10..fp + 0x15];
    } else if i < m[fp + 0x05] {
      NoMultiple(Sum(m[fp..fp + m[fp + 0x05]]), v - m[j]);
    } else {
      NoMultiple(Sum(m[fp + 0x10..fp + 0x1F]), v - m[j]);
    }
  }

  lemma NoMultiple(sum: int, delta: int)
    requires sum % 0x100 == 0 && delta != 0 && -0x100 < delta < 0x100
    ensures (sum + delta) % 0x100 != 0
  {
  }

  // ---- the scan ----

  const PARAGRAPHS := 0x1000

  /** Which of the 16-byte paragraphs of the image start with the anchor. */
  type Anchors = a: seq<bool> | |a| == PARAGRAPHS witness seq(PARAGRAPHS, _ => false)

  function AnchorsOf(m: Image): Anchors {
    seq(PARAGRAPHS, n requires 0 <= n < PARAGRAPHS => IsAnchor(m, 16 * n))
  }

  /** The paragraphs the scan tries from number n on: behind an anchor it steps over one. The last paragraph
      is too close to the end to be tried. */
  function Tried(a: Anchors, n: nat): (t: seq<nat>)
    ensures forall i :: 0 <= i < |t| ==> t[i] < PARAGRAPHS - 1
    decreases PARAGRAPHS - n
  {
    if n >= PARAGRAPHS then []
    else if a[n] && n < PARAGRAPHS - 1 then [n] + Tried(a, n + 2)
    else Tried(a, n + 1)
  }

  /** How many anchor paragraphs in a row end with number n. */
  function AnchorRun(a: Anchors, n: nat): nat
    requires n < PARAGRAPHS
  {
    if !a[n] then 0 else if n == 0 then 1 else 1 + AnchorRun(a, n - 1)
  }

  /** They are the paragraphs that start with the anchor. */
  lemma AnchorsAre(m: Image, n: nat)
    requires n < PARAGRAPHS
    ensures AnchorsOf(m)[n] <==> IsText(m[16 * n..16 * n + 4], "_SM_")
  {
    AsciiIsText("_SM_");
    assert IsAnchor(m, 16 * n) <==> IsText(m[16 * n..16 * n + 4], "_SM_");
  }

  /** A run is one of anchors, and as long as it can be. */
  lemma {:induction false} AnchorRunIs(a: Anchors, n: nat)
    requires n < PARAGRAPHS
    ensures var r := AnchorRun(a, n);
      r <= n + 1 && (forall k :: n + 1 - r <= k <= n ==> a[k]) && (r <= n ==> !a[n - r])
  {
    if a[n] && n > 0 {
      AnchorRunIs(a, n - 1);
    }
  }

  lemma TriedStep(a: Anchors, n: nat)
    ensures n >= PARAGRAPHS ==> Tried(a, n) == []
    ensures n < PARAGRAPHS - 1 && a[n] ==> Tried(a, n) == [n] + Tried(a, n + 2)
    ensures n < PARAGRAPHS && !(n < PARAGRAPHS - 1 && a[n]) ==> Tried(a, n) == Tried(a, n + 1)
  {
  }

  lemma RunStep(a: Anchors, n: nat)
    requires n < PARAGRAPHS
    ensures AnchorRun(a, n) == if !a[n] then 0 else 1 + if n == 0 then 0 else AnchorRun(a, n - 1)
  {
  }

  lemma {:induction false} TriedFrom(a: Anchors, start: nat, n: nat)
    requires n < PARAGRAPHS - 1
    requires 0 < start <= PARAGRAPHS ==> AnchorRun(a, start - 1) % 2 == 0
    ensures n in Tried(a, start) <==> start <= n && AnchorRun(a, n) % 2 == 1
    decreases PARAGRAPHS - start
  {
    hide Tried, AnchorRun;
    TriedStep(a, start);
    if start < PARAGRAPHS {
      RunStep(a, start);
      if start < PARAGRAPHS - 1 && a[start] {
        RunStep(a, start + 1);
        TriedFrom(a, start + 2, n);
      } else if start < PARAGRAPHS - 1 {
        TriedFrom(a, start + 1, n);
      } else {
        TriedStep(a, start + 1);
      }
    }
  }

  /** A paragraph is tried exactly if the run of anchor paragraphs that ends with it has odd length. In
      particular an anchor whose predecessor is none is always tried. */
  lemma TriedIff(a: Anchors, n: nat)
    requires n < PARAGRAPHS - 1
    ensures n in Tried(a, 0) <==> AnchorRun(a, n) % 2 == 1
    ensures a[n] && (n == 0 || !a[n - 1]) ==> n in Tried(a, 0)
  {
    TriedFrom(a, 0, n);
  }

  /** Only anchor paragraphs are tried, in ascending order, so none is tried twice. */
  lemma {:induction false} TriedOnce(a: Anchors, start: nat)
    ensures forall i :: 0 <= i < |Tried(a, start)| ==>
      start <= Tried(a, start)[i] < PARAGRAPHS - 1 && a[Tried(a, start)[i]]
    ensures forall i, j :: 0 <= i < j < |Tried(a, start)| ==> Tried(a, start)[i] < Tried(a, start)[j]
    decreases PARAGRAPHS - start
  {
    if start < PARAGRAPHS {
      TriedOnce(a, if a[start] && start < PARAGRAPHS - 1 then start + 2 else start + 1);
    }
  }

  // ---- a second anchor that is stepped over ----

  /** The image the program reads, without what lies behind it. */
  ghost predicate SameImage(m: Image, m': Image) {
    m[..IMAGE_SIZE] == m'[..IMAGE_SIZE]
  }

  lemma SameSlice(m: Image, m': Image, lo: nat, hi: nat)
    requires SameImage(m, m') && lo <= hi <= IMAGE_SIZE
    ensures m'[lo..hi] == m[lo..hi]
  {
    assert m'[..IMAGE_SIZE][lo..hi] == m'[lo..hi] && m[..IMAGE_SIZE][lo..hi] == m[lo..hi];
  }

  /** What an entry point that is accepted is judged by lies inside the image exactly if its offset and its length
      byte together do not exceed 64 KiB. */
  lemma StaysInImageIff(m: Image, fp: nat)
    requires fp <= LAST_ENTRY && Accepts(m, fp)
    ensures (forall m': Image :: SameImage(m, m') ==> Accepts(m', fp)) <==> fp + m[fp + 0x05] <= IMAGE_SIZE
  {
    var end := fp + m[fp + 0x05];
    if end <= IMAGE_SIZE {
      forall m': Image | SameImage(m, m')
        ensures Accepts(m', fp)
      {
        assert m'[fp + 0x05] == m'[..IMAGE_SIZE][fp + 0x05] == m[..IMAGE_SIZE][fp + 0x05];
        SameSlice(m, m', fp, end);
        SameSlice(m, m', fp + 0x10, fp + 0x15);
        SameSlice(m, m', fp + 0x10, fp + 0x1F);
      }
    } else {
      var v := if m[IMAGE_SIZE] == 0 then 1 else 0;
      var m': Image := m[IMAGE_SIZE := v];
      OneByteChange(m, fp, IMAGE_SIZE - fp, v);
      assert SameImage(m, m');
    }
  }

  /** The entry point of an empty table: both checksums are right. */
  function EmptyEntry(): (e: seq<u8>)
    ensures |e| == 0x20
  {
    Ascii("_SM_") + [131, 0x1F] + Zeros(10) + (Ascii("_DMI_") + [104] + Zeros(10))
  }

  function Zeros(n: nat): (z: seq<u8>)
    ensures |z| == n
  {
    seq(n, _ => 0)
  }

  lemma EmptyEntrySums()
    ensures Sum(EmptyEntry()[..0x10]) % 0x100 == 0 && Sum(EmptyEntry()[0x10..0x1F]) % 0x100 == 0
  {
    var first: seq<u8>, second: seq<u8> := [95, 83, 77, 95, 131, 0x1F], [95, 68, 77, 73, 95, 104];
    assert EmptyEntry()[..0x10] == first + Zeros(10) by {
      assert Ascii("_SM_") == [95, 83, 77, 95];
    }
    assert EmptyEntry()[0x10..0x1F] == second + Zeros(9) by {
      assert Ascii("_DMI_") == [95, 68, 77, 73, 95];
    }
    SumWithZeros(first, 10);
    SumWithZeros(second, 9);
    SumOfSix(95, 83, 77, 95, 131, 0x1F);
    SumOfSix(95, 68, 77, 73, 95, 104);
  }

  lemma SumWithZeros(s: seq<u8>, n: nat)
    ensures Sum(s + Zeros(n)) == Sum(s)
  {
    SumConcat(s, Zeros(n));
    SumOfZeros(Zeros(n));
  }

  lemma SumOfSix(a: u8, b: u8, c: u8, d: u8, e: u8, f: u8)
    ensures Sum([a, b, c, d, e, f]) == a as int + b as int + c as int + d as int + e as int + f as int
  {
    SumConcat([a, b, c], [d, e, f]);
    SumConcat([a, b], [c]);
    SumConcat([d, e], [f]);
    assert [a, b, c] + [d, e, f] == [a, b, c, d, e, f] && [a, b] + [c] == [a, b, c] && [d, e] + [f] == [d, e, f];
    SumConcat([a], [b]);
    SumConcat([d], [e]);
    assert [a] + [b] == [a, b] && [d] + [e] == [d, e];
  }

  /** An image with an anchor in its first paragraph and, in the second, that entry point. */
  function TwoAnchors(): (m: Image)
    ensures m[0..4] == Ascii("_SM_") && m[16..48] == EmptyEntry()
  {
    Ascii("_SM_") + Zeros(12) + EmptyEntry() + Zeros(IMAGE_SIZE + BEHIND_IMAGE - 48)
  }

  /** smbios_decode would accept the entry point in the second paragraph. */
  lemma SecondIsAcceptable()
    ensures IsAnchor(TwoAnchors(), 0) && IsAnchor(TwoAnchors(), 16) && Accepts(TwoAnchors(), 16)
  {
    EntryLiesAt(TwoAnchors(), EmptyEntry());
    EmptyEntrySums();
    EmptyEntryParts();
    var first, second := EmptyEntry()[..0x10], EmptyEntry()[0x10..0x1F];
    hide EmptyEntry, TwoAnchors, Sum;
    SumConcat(first, second);
  }

  lemma EmptyEntryParts()
    ensures EmptyEntry()[..4] == Ascii("_SM_") && EmptyEntry()[5] == 0x1F && EmptyEntry()[0x10..0x15] == Ascii("_DMI_")
  {
    var low, high := Ascii("_SM_") + [131, 0x1F] + Zeros(10), Ascii("_DMI_") + [104] + Zeros(10);
    assert EmptyEntry() == low + high && |low| == 0x10;
    assert EmptyEntry()[..4] == low[..4] == Ascii("_SM_");
    assert EmptyEntry()[0x10..0x15] == high[..5] == Ascii("_DMI_");
  }

  lemma EntryLiesAt(m: Image, e: seq<u8>)
    requires |e| == 0x20 && m[16..48] == e
    ensures m[16..20] == e[..4] && m[21] == e[5] && m[32..37] == e[0x10..0x15] && m[32..47] == e[0x10..0x1F]
    ensures m[16..47] == e[..0x10] + e[0x10..0x1F]
  {
    hide AnchorsOf;
    assert m[16..48][5] == m[21];
    SliceOfSlice(m, 16, 48, 0, 4);
    SliceOfSlice(m, 16, 48, 0x10, 0x15);
    SliceOfSlice(m, 16, 48, 0x10, 0x1F);
    SliceOfSlice(m, 16, 48, 0, 0x10);
    assert m[16..47] == m[16..32] + m[32..47];
  }

  lemma SliceOfSlice(s: seq<u8>, a: nat, b: nat, lo: nat, hi: nat)
    requires a <= b <= |s| && lo <= hi <= b - a
    ensures s[a..b][lo..hi] == s[a + lo..a + hi]
  {
    assert forall k :: 0 <= k < hi - lo ==> s[a..b][lo..hi][k] == s[a + lo..a + hi][k];
  }
}
