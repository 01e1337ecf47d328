/** util.c: trim shifts a string over its leading blanks and then strips trailing blanks backwards. */
module Trimming {
  import opened Bytes

  /** The blanks trim drops in front ... */
  predicate IsIndent(b: u8) {
    b == SPACE || b == TAB
  }

  /** ... and the ones it drops behind. */
  predicate IsBlank(b: u8) {
    b == SPACE || b == NEWLINE || b == RETURN || b == TAB
  }

  /** How many blanks s starts with. */
  function Indent(s: seq<u8>): (n: nat)
    ensures n <= |s| && (n < |s| ==> !IsIndent(s[n]))
    ensures forall k :: 0 <= k < n ==> IsIndent(s[k])
  {
    if s != [] && IsIndent(s[0]) then 1 + Indent(s[1..]) else 0
  }

  /** How long s is without the blanks it ends with. */
  function Stem(s: seq<u8>): (n: nat)
    ensures n <= |s| && (n > 0 ==> !IsBlank(s[n - 1]))
    ensures forall k :: n <= k < |s| ==> IsBlank(s[k])
  {
    if s != [] && IsBlank(s[|s| - 1]) then Stem(s[..|s| - 1]) else |s|
  }

  /** What trim makes of a string: first the indent goes, then the blanks at the end. */
  function Trimmed(s: seq<u8>): (t: seq<u8>)
    ensures Indent(s) + |t| <= |s|
    ensures forall k :: 0 <= k < |t| ==> t[k] == s[Indent(s) + k]
  {
    var l := s[Indent(s)..];
    l[..Stem(l)]
  }

  /** A trimmed string is the stretch t of s = front + t + back where front is all spaces and tabs, back is all spaces,
      tabs, newlines and returns, and t neither begins with the one nor ends with the other. */
  lemma TrimmedIs(s: seq<u8>) returns (front: seq<u8>, back: seq<u8>)
    ensures var t := Trimmed(s);
      && s == front + t + back
      && (t != [] ==> t[0] as int != ' ' as int && t[0] as int != '\t' as int)
      && (t != [] ==>
        var last := t[|t| - 1] as int;
        last != ' ' as int && last != '\t' as int && last != '\n' as int && last != '\r' as int)
    ensures forall k :: 0 <= k < |front| ==> front[k] as int == ' ' as int || front[k] as int == '\t' as int
    ensures forall k :: 0 <= k < |back| ==>
      var b := back[k] as int;
      b == ' ' as int || b == '\t' as int || b == '\n' as int || b == '\r' as int
  {
    front, back := TrimmedParts(s);
    hide Trimmed;
  }

  lemma TrimmedParts(s: seq<u8>) returns (front: seq<u8>, back: seq<u8>)
    ensures var t := Trimmed(s);
      s == front + t + back && (t != [] ==> !IsIndent(t[0]) && !IsBlank(t[|t| - 1]))
    ensures forall k :: 0 <= k < |front| ==> IsIndent(front[k])
    ensures forall k :: 0 <= k < |back| ==> IsBlank(back[k])
  {
    hide Indent, Stem, IsIndent, IsBlank;
    TrimmedEnds(s);
    var i := Indent(s);
    var n := Stem(s[i..]);
    front, back := s[..i], s[i..][n..];
    Rejoined(s, i, n);
    hide Trimmed;
    BlankBehind(s[i..]);
  }

  lemma TrimmedEnds(s: seq<u8>)
    ensures var t := Trimmed(s); t == s[Indent(s)..][..Stem(s[Indent(s)..])]
    ensures var t := Trimmed(s); t != [] ==> !IsIndent(t[0]) && !IsBlank(t[|t| - 1])
  {
    TrimmedIdempotent(s);
  }

  lemma BlankBehind(l: seq<u8>)
    ensures forall k :: 0 <= k < |l[Stem(l)..]| ==> IsBlank(l[Stem(l)..][k])
  {
    hide Stem;
    assert forall k :: 0 <= k < |l[Stem(l)..]| ==> l[Stem(l)..][k] == l[Stem(l) + k];
  }

  lemma Rejoined(s: seq<u8>, i: nat, n: nat)
    requires i <= |s| && n <= |s| - i
    ensures s == s[..i] + s[i..][..n] + s[i..][n..]
  {
    assert s == s[..i] + s[i..] && s[i..] == s[i..][..n] + s[i..][n..];
  }

  /** Trimming a trimmed string changes nothing, and a trimmed string has no blank at either end. */
  lemma TrimmedIdempotent(s: seq<u8>)
    ensures Trimmed(Trimmed(s)) == Trimmed(s)
    ensures var t := Trimmed(s); t != [] ==> !IsIndent(t[0]) && !IsBlank(t[|t| - 1])
  {
    var t := Trimmed(s);
    if t != [] {
      assert t[0] == s[Indent(s)];
      assert Indent(t) == 0;
      assert t[0..] == t && Stem(t) == |t|;
    }
  }

  /** The end of the run of blanks that lies directly below off. */
  function BlanksBelow(m: seq<u8>, off: nat): (d: nat)
    requires off <= |m|
    ensures d <= off && (d > 0 ==> !IsBlank(m[d - 1]))
    ensures forall k :: d <= k < off ==> IsBlank(m[k])
  {
    if off > 0 && IsBlank(m[off - 1]) then BlanksBelow(m, off - 1) else off
  }

  /** The lowest byte trim zeroes: below off only when nothing of the string remains. */
  function ZeroedFrom(m: seq<u8>, off: nat): nat
    requires off <= |m|
  {
    var t := Trimmed(CStr(m, off));
    if t == [] then BlanksBelow(m, off) else off + |t|
  }

  /** Where the NUL lies once the indent is gone. */
  function ShiftedEnd(m: seq<u8>, off: nat): nat
    requires off <= |m|
  {
    off + StrLen(m, off) - Indent(CStr(m, off))
  }

  /** Memory after trim was called on the string at off: the string is shifted down over its indent
      and NULs fill what lies between the last byte that is kept and the end of the shifted string. */
  function TrimMemory(m: seq<u8>, off: nat): (r: seq<u8>)
    requires off <= |m| && off + StrLen(m, off) < |m|
    ensures |r| == |m|
    ensures forall k :: 0 <= k < |m| ==> r[k] == TrimmedByte(m, off, k)
  {
    seq(|m|, k requires 0 <= k < |m| => TrimmedByte(m, off, k))
  }

  function TrimmedByte(m: seq<u8>, off: nat, k: nat): u8
    requires off <= |m| && off + StrLen(m, off) < |m| && k < |m|
  {
    if ZeroedFrom(m, off) <= k <= ShiftedEnd(m, off) then NUL
    else ShiftedByte(m, off, k)
  }

  /** The string becomes the trimmed string. */
  lemma TrimMemoryText(m: seq<u8>, off: nat)
    requires off <= |m| && off + StrLen(m, off) < |m|
    ensures CStr(TrimMemory(m, off), off) == Trimmed(CStr(m, off))
  {
    hide StrLen, Indent, Stem, Trimmed, BlanksBelow, TrimMemory;
    var r, s := TrimMemory(m, off), CStr(m, off);
    var t := Trimmed(s);
    forall k | off <= k < off + |t|
      ensures r[k] == t[k - off] != NUL
    {
      assert t[k - off] == s[Indent(s) + (k - off)] == m[off + (Indent(s) + (k - off))];
    }
    assert r[off + |t|] == TrimmedByte(m, off, off + |t|) == NUL;
    StrLenIs(r, off, |t|);
    assert CStr(r, off) == t;
  }

  /** trim leaves every byte outside its own string alone if and only if some of the string remains
      or the byte before it is no blank. */
  lemma TrimStaysInsideIff(m: seq<u8>, off: nat)
    requires 0 < off <= |m| && off + StrLen(m, off) < |m|
    ensures (Trimmed(CStr(m, off)) != [] || !IsBlank(m[off - 1])) <==>
            (forall k :: 0 <= k < |m| && !(off <= k < off + StrLen(m, off)) ==> TrimMemory(m, off)[k] == m[k])
  {
    if Trimmed(CStr(m, off)) == [] && IsBlank(m[off - 1]) {
      assert TrimMemory(m, off)[off - 1] == NUL;
    } else {
      assert off <= ZeroedFrom(m, off) <= ShiftedEnd(m, off);
    }
  }

  /** The byte that lies at k once the string at off is shifted down over its indent. */
  function ShiftedByte(m: seq<u8>, off: nat, k: nat): u8
    requires off <= |m| && off + StrLen(m, off) < |m| && k < |m|
  {
    if off <= k < ShiftedEnd(m, off) then m[k + Indent(CStr(m, off))] else m[k]
  }

  /** Below the end of the shifted string, exactly the bytes from ZeroedFrom on are blank. */
  lemma ShiftedBlanks(m: seq<u8>, off: nat)
    requires off <= |m| && off + StrLen(m, off) < |m|
    ensures ZeroedFrom(m, off) <= ShiftedEnd(m, off)
    ensures forall k :: ZeroedFrom(m, off) <= k < ShiftedEnd(m, off) ==> IsBlank(ShiftedByte(m, off, k))
    ensures ZeroedFrom(m, off) > 0 ==> !IsBlank(ShiftedByte(m, off, ZeroedFrom(m, off) - 1))
  {
    hide StrLen, Indent, Stem, BlanksBelow;
    var s := CStr(m, off);
    var l := s[Indent(s)..];
    var low := ZeroedFrom(m, off);
    forall k | off <= k < ShiftedEnd(m, off)
      ensures ShiftedByte(m, off, k) == l[k - off]
    {
      assert l[k - off] == s[k - off + Indent(s)];
    }
  }

  lemma IndentIs(s: seq<u8>, n: nat)
    requires n <= |s| && (n < |s| ==> !IsIndent(s[n]))
    requires forall k :: 0 <= k < n ==> IsIndent(s[k])
    ensures Indent(s) == n
  {
  }

  /** The first half of trim: find the indent, move the string down over it, and end at its old NUL. */
  method ShiftOverIndent(a: array<u8>, off: nat) returns (start: nat, p: nat)
    requires off <= a.Length && off + StrLen(a[..], off) < a.Length
    modifies a
    ensures start == Indent(CStr(old(a[..]), off)) && p == off + StrLen(old(a[..]), off)
    ensures forall k :: 0 <= k < a.Length ==>
      a[k] == if k == p - start then NUL else ShiftedByte(old(a[..]), off, k)
  {
    hide StrLen, Indent;
    ghost var m := a[..];
    ghost var end := off + StrLen(m, off);
    assert m[end] == NUL && forall k :: off <= k < end ==> m[k] != NUL;
    start, p := 0, off;
    while a[p] == SPACE || a[p] == TAB
      invariant p == off + start <= end
      invariant forall k :: 0 <= k < start ==> IsIndent(CStr(m, off)[k])
      decreases end - p
    {
      start, p := start + 1, p + 1;
    }
    IndentIs(CStr(m, off), start);
    if start > 0 {
      p := MoveDown(a, off, start, end);
    } else {
      while a[p] != NUL
        invariant off <= p <= end
        decreases end - p
      {
        p := p + 1;
      }
      assert m[p] == a[p];
    }
  }

  /** Where there is an indent: what lies behind it up to the NUL at end moves down over it. */
  method MoveDown(a: array<u8>, off: nat, start: nat, ghost end: nat) returns (p: nat)
    requires 0 < start && off + start <= end < a.Length && a[end] == NUL
    requires forall k :: off + start <= k < end ==> a[k] != NUL
    modifies a
    ensures p == end
    ensures forall k :: 0 <= k < a.Length ==>
      a[k] == if k == end - start then NUL else if off <= k < end - start then old(a[k + start]) else old(a[k])
  {
    p := off + start;
    while a[p] != NUL
      invariant off + start <= p <= end
      invariant forall k :: 0 <= k < off || p - start <= k < a.Length ==> a[k] == old(a[k])
      invariant forall k :: off <= k < p - start ==> a[k] == old(a[k + start])
      decreases end - p
    {
      a[p - start] := a[p];
      p := p + 1;
    }
    a[p - start] := NUL;
  }

  /** The second half of trim: from end on downwards, blanks become NULs until a byte that is none. */
  method ZeroBlanksDown(a: array<u8>, end: nat, ghost low: nat)
    requires 0 < low <= end <= a.Length && !IsBlank(a[low - 1])
    requires forall k :: low <= k < end ==> IsBlank(a[k])
    modifies a
    ensures forall k :: 0 <= k < a.Length ==> a[k] == if low <= k < end then NUL else old(a[k])
  {
    var q := end - 1;
    while a[q] == SPACE || a[q] == NEWLINE || a[q] == RETURN || a[q] == TAB
      invariant low - 1 <= q < end
      invariant forall k :: 0 <= k < a.Length ==> a[k] == if q < k < end then NUL else old(a[k])
      decreases q
    {
      a[q] := NUL;
      q := q - 1;
    }
  }

  /** util.c: the string at off is trimmed where it lies. The backward scan must find a byte to stop
      at: a byte of the string, or a byte below it that is no blank. */
  method Trim(a: array<u8>, off: nat)
    requires off <= a.Length && off + StrLen(a[..], off) < a.Length
    requires ZeroedFrom(a[..], off) > 0
    modifies a
    ensures a[..] == TrimMemory(old(a[..]), off)
  {
    ghost var m := a[..];
    var start, p := ShiftOverIndent(a, off);
    ShiftedBlanks(m, off);
    ghost var low, high := ZeroedFrom(m, off), ShiftedEnd(m, off);
    assert p - start == high;
    hide ZeroedFrom, ShiftedEnd, ShiftedByte, StrLen, Indent, Stem, Trimmed, TrimMemory;
    ZeroBlanksDown(a, p - start, low);
    assert forall k :: 0 <= k < a.Length ==> a[k] == TrimmedByte(m, off, k);
  }
}
