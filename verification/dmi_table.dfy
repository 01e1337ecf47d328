/** The SMBIOS structure table as dmidecode.c reads it: structures, their strings, and the walk over them. */
module DmiTable {
  import opened Bytes

  /** A structure as sections 6.1.2 and 6.1.3 of DSP0134 describe it: its type, its formatted area (header
      included) and the strings that follow. */
  datatype Structure = Structure(kind: u8, formatted: seq<u8>, strings: seq<seq<u8>>)

  ghost predicate DoubleNul(m: seq<u8>, d: nat) {
    d + 1 < |m| && m[d] == NUL && m[d + 1] == NUL
  }

  /** Where the search for a double NUL that starts at p stops: at one, or at the end of the table. */
  function AreaEnd(m: seq<u8>, p: nat): (e: nat)
    ensures p <= e && (e + 1 < |m| ==> DoubleNul(m, e))
    ensures forall k :: p <= k < e ==> !DoubleNul(m, k)
    decreases |m| - p
  {
    if p + 1 < |m| && (m[p] != NUL || m[p + 1] != NUL) then AreaEnd(m, p + 1) else p
  }

  /** A header lies at off and a double NUL follows its formatted area within the table. */
  predicate IsStructure(m: seq<u8>, off: nat) {
    off + 4 <= |m| && AreaEnd(m, off + m[off + 1]) + 2 <= |m|
  }

  /** Where the structure at off, or what is taken for one, ends. */
  function NextStructure(m: seq<u8>, off: nat): (next: nat)
    requires off + 4 <= |m|
    ensures off + m[off + 1] + 2 <= next
  {
    AreaEnd(m, off + m[off + 1]) + 2
  }

  /** The strings from p up to the double NUL at d. */
  function Strings(m: seq<u8>, p: nat, d: nat): (ss: seq<seq<u8>>)
    requires DoubleNul(m, d) && p <= d + 1
    ensures forall k :: 0 <= k < |ss| ==> ss[k] != [] && NulFree(ss[k])
    decreases d + 1 - p
  {
    if m[p] == NUL then [] else [CStr(m, p)] + Strings(m, p + StrLen(m, p) + 1, d)
  }

  function StructureAt(m: seq<u8>, off: nat): Structure
    requires IsStructure(m, off)
  {
    var p := off + m[off + 1];
    Structure(m[off], m[off..p], Strings(m, p, AreaEnd(m, p)))
  }

  /** The offsets of the structures that the walk hands to the decoder. */
  function Walk(m: seq<u8>, off: nat, num: nat): seq<nat>
    decreases num
  {
    if num == 0 || off + 4 > |m| then []
    else (if IsStructure(m, off) then [off] else []) + Walk(m, NextStructure(m, off), num - 1)
  }

  /** The structures at those offsets: the pure reading of a table. */
  function Parse(m: seq<u8>, off: nat, num: nat): seq<Structure>
    decreases num
  {
    if num == 0 || off + 4 > |m| then []
    else (if IsStructure(m, off) then [StructureAt(m, off)] else []) + Parse(m, NextStructure(m, off), num - 1)
  }

  lemma NoRounds(m: seq<u8>, off: nat)
    ensures Walk(m, off, 0) == [] && Parse(m, off, 0) == []
  {
  }

  /** Where there is a structure, the walk visits it and goes on behind it. */
  lemma WalkStep(m: seq<u8>, off: nat, num: nat)
    requires num > 0 && IsStructure(m, off)
    ensures Walk(m, off, num) == [off] + Walk(m, NextStructure(m, off), num - 1)
    ensures Parse(m, off, num) == [StructureAt(m, off)] + Parse(m, NextStructure(m, off), num - 1)
  {
  }

  /** Structure i of a parse is the one at offset i of the walk. */
  ghost predicate IsParsed(m: seq<u8>, w: seq<nat>, ps: seq<Structure>, i: nat) {
    i < |w| && i < |ps| && IsStructure(m, w[i]) && ps[i] == StructureAt(m, w[i])
  }

  lemma {:induction false} ParseIsWalk(m: seq<u8>, off: nat, num: nat)
    ensures |Parse(m, off, num)| == |Walk(m, off, num)|
    ensures forall i :: 0 <= i < |Walk(m, off, num)| ==> IsParsed(m, Walk(m, off, num), Parse(m, off, num), i)
    decreases num
  {
    hide StructureAt, AreaEnd;
    if num != 0 && off + 4 <= |m| {
      var next := NextStructure(m, off);
      var w, ps := Walk(m, off, num), Parse(m, off, num);
      ParseIsWalk(m, next, num - 1);
      if IsStructure(m, off) {
        assert w == [off] + Walk(m, next, num - 1) && ps == [StructureAt(m, off)] + Parse(m, next, num - 1);
        hide Walk, Parse;
        forall i | 1 <= i < |w|
          ensures IsParsed(m, w, ps, i)
        {
          assert IsParsed(m, Walk(m, next, num - 1), Parse(m, next, num - 1), i - 1);
        }
      }
    }
  }

  /** What comes behind a formatted area is a structure exactly if a double NUL at or after it fits. */
  lemma StructureIff(m: seq<u8>, off: nat)
    requires off + 4 <= |m|
    ensures IsStructure(m, off) <==> exists d: nat :: off + m[off + 1] <= d && DoubleNul(m, d)
  {
    var e := AreaEnd(m, off + m[off + 1]);
    if IsStructure(m, off) {
      assert DoubleNul(m, e);
    }
  }

  /** Element i of a walk from off: a structure that lies in the table, directly behind the one before. */
  ghost predicate IsStep(m: seq<u8>, off: nat, w: seq<nat>, i: nat) {
    && i < |w| && IsStructure(m, w[i]) && NextStructure(m, w[i]) <= |m|
    && if i == 0 then w[i] == off else IsStructure(m, w[i - 1]) && w[i] == NextStructure(m, w[i - 1])
  }

  /** The walk starts at off, goes from structure to structure and never past the end of the table. */
  lemma {:induction false} WalkVisits(m: seq<u8>, off: nat, num: nat)
    ensures forall i :: 0 <= i < |Walk(m, off, num)| ==> IsStep(m, off, Walk(m, off, num), i)
    decreases num
  {
    if num != 0 && off + 4 <= |m| {
      var next := NextStructure(m, off);
      WalkVisits(m, next, num - 1);
      var w, rest := Walk(m, off, num), Walk(m, next, num - 1);
      if IsStructure(m, off) {
        forall i | 0 < i < |w|
          ensures IsStep(m, off, w, i)
        {
          assert IsStep(m, next, rest, i - 1);
        }
      } else {
        assert w == rest == [];
      }
    }
  }

  /** It ends early only where there is no structure, and each of its steps takes at least two bytes. */
  lemma {:induction false} WalkStops(m: seq<u8>, off: nat, num: nat)
    ensures var w := Walk(m, off, num);
      && |w| <= num && (w != [] ==> w[|w| - 1] + 4 <= |m|)
      && (|w| < num ==> !IsStructure(m, if w == [] then off else NextStructure(m, w[|w| - 1])))
      && (off <= |m| ==> off + 2 * |w| <= |m|)
    decreases num
  {
    if num != 0 && off + 4 <= |m| {
      var next := NextStructure(m, off);
      WalkStops(m, next, num - 1);
      if !IsStructure(m, off) {
        assert Walk(m, next, num - 1) == [];
      }
    }
  }

  /** ASCII filtering of one byte. char is signed: a byte from 128 on is a negative char and below 32. */
  function FilterByte(b: u8): (r: u8)
    ensures 32 <= r < 127
    ensures 32 <= b < 127 ==> r == b
    ensures r != b ==> r == DOT
  {
    if b < 32 || b == 127 || b >= 128 then DOT else b
  }

  function Filtered(s: seq<u8>): (r: seq<u8>)
    ensures |r| == |s| && NulFree(r)
  {
    seq(|s|, i requires 0 <= i < |s| => FilterByte(s[i]))
  }

  /** What a string number of a structure stands for: no string, a string that is not there, or its bytes. */
  datatype DmiText = NotSpecified | BadIndex | Chars(bytes: seq<u8>)
  {
    /** The C string that dmi_string hands out for it. */
    function Rendered(): seq<u8> {
      match this
      case NotSpecified => Ascii("Not Specified")
      case BadIndex => Ascii("<bad index>")
      case Chars(s) => s
    }
  }

  /** The text that string number s of a structure stands for. */
  function StringText(st: Structure, s: u8): DmiText {
    if s == 0 then NotSpecified
    else if s <= |st.strings| then Chars(Filtered(st.strings[s - 1]))
    else BadIndex
  }

  /** m is m0 with some of its string bytes filtered. */
  ghost predicate FilteredFrom(m0: seq<u8>, m: seq<u8>) {
    |m| == |m0| && forall i :: 0 <= i < |m| ==> MaybeFiltered(m0[i], m[i])
  }

  predicate MaybeFiltered(b0: u8, b: u8) {
    b == b0 || (b0 != NUL && b == FilterByte(b0))
  }

  /** Filtering keeps the zero pattern, so strings keep their places and lengths. */
  lemma FilteredStrLen(m0: seq<u8>, m: seq<u8>, p: nat)
    requires FilteredFrom(m0, m) && p <= |m|
    ensures StrLen(m, p) == StrLen(m0, p)
    ensures Filtered(CStr(m, p)) == Filtered(CStr(m0, p))
  {
    var n := StrLen(m0, p);
    assert forall k :: p <= k < p + n ==> m[k] != NUL;
    if p + n < |m| {
      StrLenIs(m, p, n);
    }
    assert forall k :: 0 <= k < n ==> FilterByte(CStr(m, p)[k]) == FilterByte(CStr(m0, p)[k]);
  }

  /** What dmi_string returns: one of its literals or a pointer into the table. */
  datatype StringRef = NotSpecifiedLiteral | BadIndexLiteral | At(pos: nat)

  function Text(m: seq<u8>, r: StringRef): DmiText
    requires r.At? ==> r.pos <= |m|
  {
    match r
    case NotSpecifiedLiteral => NotSpecified
    case BadIndexLiteral => BadIndex
    case At(p) => Chars(CStr(m, p))
  }

  /** Where string number n + 1 of those that start at p begins, or the NUL behind the last of them. */
  function StringPos(m: seq<u8>, p: nat, d: nat, n: nat): (bp: nat)
    requires DoubleNul(m, d) && p <= d + 1
    ensures p <= bp <= d + 1
    decreases n
  {
    if n == 0 || m[p] == NUL then p else StringPos(m, p + StrLen(m, p) + 1, d, n - 1)
  }

  lemma {:induction false} StringPosIs(m: seq<u8>, p: nat, d: nat, n: nat)
    requires DoubleNul(m, d) && p <= d + 1
    ensures var bp, all := StringPos(m, p, d, n), Strings(m, p, d);
      if n < |all| then bp <= d && m[bp] != NUL && all[n] == CStr(m, bp) else m[bp] == NUL
    decreases n
  {
    hide StrLen, CStr, NulFree;
    if n > 0 && m[p] != NUL {
      StringPosIs(m, p + StrLen(m, p) + 1, d, n - 1);
    }
  }

  /** Whatever the string number, dmi_string reads nothing outside the strings of the structure. */
  lemma StringReadsStay(m: seq<u8>, off: nat, s: u8)
    requires IsStructure(m, off) && s > 0
    ensures var bp := StringPos(m, off + m[off + 1], AreaEnd(m, off + m[off + 1]), s - 1);
      off + m[off + 1] <= bp <= bp + StrLen(m, bp) < NextStructure(m, off) <= |m|
  {
    var d := AreaEnd(m, off + m[off + 1]);
    var bp := StringPos(m, off + m[off + 1], d, s - 1);
    assert m[d + 1] == NUL;
    assert bp + StrLen(m, bp) <= d + 1;
  }

  /** The text of string number s, told from where dmi_string finds it. */
  function TextFrom(m: seq<u8>, first: nat, d: nat, s: u8): DmiText
    requires DoubleNul(m, d) && first <= d + 1
  {
    if s == 0 then NotSpecified
    else
      var bp := StringPos(m, first, d, s - 1);
      if m[bp] == NUL then BadIndex else Chars(Filtered(CStr(m, bp)))
  }

  /** It is the text that the structure read there has for s. */
  lemma TextFromIs(m: seq<u8>, first: nat, d: nat, st: Structure, s: u8)
    requires DoubleNul(m, d) && first <= d + 1 && st.strings == Strings(m, first, d)
    ensures TextFrom(m, first, d, s) == StringText(st, s)
  {
    if s > 0 {
      StringPosIs(m, first, d, s - 1);
    }
  }

  /** The first loop of dmi_string: from the first string go on to number s, or to the NUL behind the last. */
  method SkipStrings(buf: array<u8>, first: nat, s: u8, ghost m0: seq<u8>, ghost d: nat) returns (bp: nat)
    requires FilteredFrom(m0, buf[..]) && DoubleNul(m0, d) && first <= d + 1 && s > 0
    ensures bp == StringPos(m0, first, d, s - 1)
  {
    bp := first;
    var left := s;
    hide StringPos, StrLen, FilteredFrom;
    SameZero(m0, buf[..], bp);
    while left > 1 && buf[bp] != NUL
      invariant 1 <= left && bp <= d + 1 && |m0| == buf.Length && (buf[bp] == NUL <==> m0[bp] == NUL)
      invariant StringPos(m0, bp, d, left - 1) == StringPos(m0, first, d, s - 1)
    {
      FilteredStrLen(m0, buf[..], bp);
      StringPosNext(m0, bp, d, left - 1);
      bp := bp + StrLen(buf[..], bp);
      bp := bp + 1;
      left := left - 1;
      SameZero(m0, buf[..], bp);
    }
    StringPosEnd(m0, bp, d, left - 1);
  }

  lemma SameZero(m0: seq<u8>, m: seq<u8>, p: nat)
    requires FilteredFrom(m0, m) && p < |m0|
    ensures |m| == |m0| && (m[p] == NUL <==> m0[p] == NUL)
  {
  }

  lemma StringPosNext(m: seq<u8>, p: nat, d: nat, n: nat)
    requires DoubleNul(m, d) && p <= d + 1 && n > 0 && m[p] != NUL
    ensures p + StrLen(m, p) <= d && StringPos(m, p, d, n) == StringPos(m, p + StrLen(m, p) + 1, d, n - 1)
  {
  }

  lemma StringPosEnd(m: seq<u8>, p: nat, d: nat, n: nat)
    requires DoubleNul(m, d) && p <= d + 1 && (n == 0 || m[p] == NUL)
    ensures StringPos(m, p, d, n) == p
  {
  }

  /** dmidecode.c: string number s of the structure at dm, filtered in place. The strings end with the
      double NUL at d. The table was m0, and any strings of it may have been filtered since. */
  method DmiString(buf: array<u8>, dm: nat, s: u8, ghost m0: seq<u8>, ghost d: nat) returns (r: StringRef)
    requires FilteredFrom(m0, buf[..]) && dm + 1 < buf.Length && DoubleNul(m0, d) && dm + buf[dm + 1] <= d + 1
    modifies buf
    ensures r.At? ==> dm + old(buf[dm + 1]) <= r.pos < d
    ensures Text(buf[..], r) == TextFrom(m0, dm + old(buf[dm + 1]), d, s)
    ensures FilteredFrom(m0, buf[..])
    ensures forall i :: 0 <= i < buf.Length && !(dm + old(buf[dm + 1]) <= i < d) ==> buf[i] == old(buf[i])
  {
    if s == 0 {
      return NotSpecifiedLiteral;
    }
    ghost var m1 := buf[..];
    var bp := SkipStrings(buf, dm + buf[dm + 1], s, m0, d);
    assert buf[..] == m1;
    if buf[bp] == NUL {
      return BadIndexLiteral;
    }
    FilterInPlace(buf, bp);
    FilteredInPlace(m0, m1, buf[..], bp);
    r := At(bp);
  }

  /** Filtering one more string of a partly filtered table. */
  lemma FilteredInPlace(m0: seq<u8>, m1: seq<u8>, m2: seq<u8>, bp: nat)
    requires FilteredFrom(m0, m1) && bp <= |m1| == |m2|
    requires forall k :: 0 <= k < |m1| ==>
      m2[k] == if bp <= k < bp + StrLen(m1, bp) then FilterByte(m1[k]) else m1[k]
    ensures FilteredFrom(m0, m2) && CStr(m2, bp) == Filtered(CStr(m0, bp))
    ensures forall k :: bp <= k < bp + StrLen(m0, bp) ==> m2[k] == FilterByte(m0[k])
    ensures forall k :: 0 <= k < |m2| && !(bp <= k < bp + StrLen(m0, bp)) ==> m2[k] == m1[k]
  {
    FilteredStrLen(m0, m1, bp);
    FilteredStrLen(m0, m2, bp);
  }

  /** The filtering loop of dmi_string, which asks for the length of the string in every round. */
  method FilterInPlace(buf: array<u8>, bp: nat)
    requires bp <= buf.Length
    modifies buf
    ensures StrLen(buf[..], bp) == StrLen(old(buf[..]), bp)
    ensures forall k :: 0 <= k < buf.Length ==>
      buf[k] == if bp <= k < bp + StrLen(old(buf[..]), bp) then FilterByte(old(buf[k])) else old(buf[k])
  {
    ghost var m := buf[..];
    ghost var n := StrLen(m, bp);
    var i := 0;
    while i < StrLen(buf[..], bp)
      invariant i <= n == StrLen(buf[..], bp)
      invariant forall k :: 0 <= k < buf.Length ==>
        buf[k] == if bp <= k < bp + i then FilterByte(m[k]) else m[k]
    {
      if buf[bp + i] < 32 || buf[bp + i] == 127 || buf[bp + i] >= 128 {
        buf[bp + i] := DOT;
      }
      i := i + 1;
      FilteredStrLen(m, buf[..], bp);
    }
  }
}
