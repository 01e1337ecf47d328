/** Bytes and NUL-terminated strings, the values every C component of the program works on. */
module Bytes {

  datatype Option<+T> = None | Some(value: T)

  type u8 = x: int | 0 <= x < 0x100
  type u16 = x: int | 0 <= x < 0x1_0000
  type u32 = x: int | 0 <= x < 0x1_0000_0000
  type u64 = x: int | 0 <= x < 0x1_0000_0000_0000_0000

  const NUL: u8 := 0
  const TAB: u8 := 9
  const NEWLINE: u8 := 10
  const RETURN: u8 := 13
  const SPACE: u8 := 32
  const COMMA: u8 := 44
  const DOT: u8 := 46

  /** strlen: the distance from p to the first NUL of m, or to the end of m. */
  function StrLen(m: seq<u8>, p: nat): (n: nat)
    requires p <= |m|
    ensures p + n <= |m|
    ensures forall k :: p <= k < p + n ==> m[k] != NUL
    ensures p + n < |m| ==> m[p + n] == NUL
    decreases |m| - p
  {
    if p == |m| || m[p] == NUL then 0 else 1 + StrLen(m, p + 1)
  }

  /** The C string that starts at p. */
  function CStr(m: seq<u8>, p: nat): (s: seq<u8>)
    requires p <= |m|
    ensures |s| == StrLen(m, p)
    ensures forall k :: 0 <= k < |s| ==> s[k] == m[p + k] != NUL
  {
    m[p..p + StrLen(m, p)]
  }

  /** The bytes of an ASCII literal. */
  function Ascii(s: string): (r: seq<u8>)
    ensures |r| == |s|
  {
    seq(|s|, i requires 0 <= i < |s| => if s[i] as int < 0x80 then s[i] as int else NUL)
  }

  /** r holds the characters of s, byte for byte. */
  ghost predicate IsText(r: seq<u8>, s: string) {
    |r| == |s| && forall i :: 0 <= i < |s| ==> r[i] as int == s[i] as int
  }

  lemma AsciiIsText(s: string)
    requires forall i :: 0 <= i < |s| ==> s[i] as int < 0x80
    ensures IsText(Ascii(s), s)
  {
  }

  /** The bytes that are named here. */
  lemma NamedBytes()
    ensures NUL == 0 && TAB as int == '\t' as int && NEWLINE as int == '\n' as int && RETURN as int == '\r' as int
    ensures SPACE as int == ' ' as int && COMMA as int == ',' as int && DOT as int == '.' as int
  {
  }

  ghost predicate NulFree(s: seq<u8>) {
    forall k :: 0 <= k < |s| ==> s[k] != NUL
  }

  /** A string of m is pinned down by its content and the NUL behind it. */
  lemma StrLenIs(m: seq<u8>, p: nat, n: nat)
    requires p + n < |m| && m[p + n] == NUL
    requires forall k :: p <= k < p + n ==> m[k] != NUL
    ensures StrLen(m, p) == n
  {
  }

  /** A string depends only on the bytes it spans, its NUL included. */
  lemma CStrSame(m: seq<u8>, m': seq<u8>, p: nat)
    requires |m| == |m'| && p <= |m| && p + StrLen(m, p) < |m|
    requires forall k :: p <= k <= p + StrLen(m, p) ==> m'[k] == m[k]
    ensures StrLen(m', p) == StrLen(m, p) && CStr(m', p) == CStr(m, p)
  {
    StrLenIs(m', p, StrLen(m, p));
  }
}
