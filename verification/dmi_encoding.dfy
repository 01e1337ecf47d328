/** The encoding of structures that sections 6.1.2 and 6.1.3 of DSP0134 prescribe, and the proof that
    reading it back returns the structures. */
module DmiEncoding {
  import opened Bytes
  import opened Trimming
  import opened DmiTable
  import opened DmiData

  /** A structure that can be encoded: a formatted area that starts with the type and its own length, and
      strings that are neither empty nor contain a NUL. */
  ghost predicate IsEncodable(st: Structure) {
    && 4 <= |st.formatted| < 0x100 && st.formatted[0] == st.kind && st.formatted[1] == |st.formatted|
    && AreStrings(st.strings)
  }

  ghost predicate AreEncodable(sts: seq<Structure>) {
    forall k :: 0 <= k < |sts| ==> IsEncodable(sts[k])
  }

  /** An encoded list that is not empty is an encoded structure and behind it an encoded list. */
  lemma FirstOfMany(m: seq<u8>, off: nat, sts: seq<Structure>)
    requires AreEncodable(sts) && sts != [] && LiesAt(m, off, EncodeAll(sts))
    ensures IsEncodable(sts[0]) && LiesAt(m, off, Encode(sts[0]))
    ensures AreEncodable(sts[1..]) && LiesAt(m, off + |Encode(sts[0])|, EncodeAll(sts[1..]))
  {
    hide IsEncodable, Encode, LiesAt;
    LiesAtParts(m, off, Encode(sts[0]), EncodeAll(sts[1..]));
  }

  ghost predicate AreStrings(ss: seq<seq<u8>>) {
    forall k :: 0 <= k < |ss| ==> ss[k] != [] && NulFree(ss[k])
  }

  /** Each string followed by a NUL, and one more NUL behind the last. */
  function EncodeStrings(ss: seq<seq<u8>>): (r: seq<u8>)
    ensures r != []
  {
    if ss == [] then [NUL] else ss[0] + [NUL] + EncodeStrings(ss[1..])
  }

  /** What follows a formatted area. Without strings it is two NULs as well. */
  function EncodeArea(ss: seq<seq<u8>>): seq<u8> {
    if ss == [] then [NUL, NUL] else EncodeStrings(ss)
  }

  function Encode(st: Structure): seq<u8> {
    st.formatted + EncodeArea(st.strings)
  }

  function EncodeAll(sts: seq<Structure>): seq<u8> {
    if sts == [] then [] else Encode(sts[0]) + EncodeAll(sts[1..])
  }

  /** The bytes of m at p are s. */
  ghost predicate LiesAt(m: seq<u8>, p: nat, s: seq<u8>) {
    p + |s| <= |m| && m[p..p + |s|] == s
  }

  lemma LiesAtParts(m: seq<u8>, p: nat, s: seq<u8>, t: seq<u8>)
    requires LiesAt(m, p, s + t)
    ensures LiesAt(m, p, s) && LiesAt(m, p + |s|, t)
  {
    var r := m[p..p + |s + t|];
    assert r[..|s|] == s && r[|s|..] == t;
    assert m[p..p + |s|] == r[..|s|] && m[p + |s|..p + |s| + |t|] == r[|s|..];
  }

  lemma LiesAtByte(m: seq<u8>, p: nat, s: seq<u8>, k: nat)
    requires LiesAt(m, p, s) && k < |s|
    ensures m[p + k] == s[k]
  {
    assert m[p..p + |s|][k] == m[p + k];
  }

  lemma AreaEndIs(m: seq<u8>, p: nat, e: nat)
    requires p <= e && DoubleNul(m, e)
    requires forall k :: p <= k < e ==> !DoubleNul(m, k)
    ensures AreaEnd(m, p) == e
  {
    assert AreaEnd(m, p) < e ==> DoubleNul(m, AreaEnd(m, p));
  }

  /** Encoded strings hold no double NUL but their last two bytes. */
  lemma {:induction false} NoDoubleNulInside(ss: seq<seq<u8>>)
    requires AreStrings(ss)
    ensures var r := EncodeStrings(ss);
      && r[|r| - 1] == NUL && (ss != [] ==> |r| >= 3 && r[0] != NUL && r[|r| - 2] == NUL)
      && forall k :: 0 <= k < |r| - 2 ==> !DoubleNul(r, k)
    decreases |ss|
  {
    if ss != [] {
      NoDoubleNulInside(ss[1..]);
      var r, rest := EncodeStrings(ss), EncodeStrings(ss[1..]);
      var n := |ss[0]|;
      assert r == ss[0] + [NUL] + rest;
      forall k | 0 <= k < |r| - 2
        ensures !DoubleNul(r, k)
      {
        if k < n {
          assert r[k] == ss[0][k];
        } else if k == n {
          assert r[n + 1] == rest[0];
        } else {
          assert r[k] == rest[k - n - 1] && r[k + 1] == rest[k - n];
          assert !DoubleNul(rest, k - n - 1);
        }
      }
    }
  }

  /** A string and its NUL are read back. */
  lemma StringReadsBack(m: seq<u8>, p: nat, s: seq<u8>)
    requires NulFree(s) && LiesAt(m, p, s + [NUL])
    ensures StrLen(m, p) == |s| && CStr(m, p) == s
  {
    LiesAtParts(m, p, s, [NUL]);
    LiesAtByte(m, p + |s|, [NUL], 0);
    forall k | p <= k < p + |s|
      ensures m[k] != NUL
    {
      LiesAtByte(m, p, s, k - p);
    }
    StrLenIs(m, p, |s|);
  }

  /** The strings read at an encoding of strings are those strings. */
  lemma {:induction false} StringsReadBack(m: seq<u8>, p: nat, d: nat, ss: seq<seq<u8>>)
    requires AreStrings(ss) && LiesAt(m, p, EncodeStrings(ss))
    requires DoubleNul(m, d) && p + |EncodeStrings(ss)| == d + 2
    ensures Strings(m, p, d) == ss
    decreases |ss|
  {
    hide LiesAt, StrLen, NulFree;
    LiesAtByte(m, p, EncodeStrings(ss), 0);
    if ss != [] {
      LiesAtParts(m, p, ss[0] + [NUL], EncodeStrings(ss[1..]));
      StringReadsBack(m, p, ss[0]);
      StringsReadBack(m, p + |ss[0]| + 1, d, ss[1..]);
      assert Strings(m, p, d) == [ss[0]] + ss[1..];
    }
  }

  /** The search for the end of encoded strings ends at their last two bytes. */
  lemma EndReadsBack(m: seq<u8>, p: nat, ss: seq<seq<u8>>)
    requires AreStrings(ss) && ss != [] && LiesAt(m, p, EncodeStrings(ss))
    ensures AreaEnd(m, p) + 2 == p + |EncodeStrings(ss)|
    ensures DoubleNul(m, AreaEnd(m, p))
  {
    var r := EncodeStrings(ss);
    NoDoubleNulInside(ss);
    LiesAtByte(m, p, r, |r| - 2);
    LiesAtByte(m, p, r, |r| - 1);
    forall k | p <= k < p + |r| - 2
      ensures !DoubleNul(m, k)
    {
      LiesAtByte(m, p, r, k - p);
      LiesAtByte(m, p, r, k - p + 1);
      assert !DoubleNul(r, k - p);
    }
    AreaEndIs(m, p, p + |r| - 2);
  }

  lemma AreaReadsBack(m: seq<u8>, p: nat, ss: seq<seq<u8>>)
    requires AreStrings(ss) && LiesAt(m, p, EncodeArea(ss))
    ensures AreaEnd(m, p) + 2 == p + |EncodeArea(ss)| <= |m|
    ensures DoubleNul(m, AreaEnd(m, p)) && Strings(m, p, AreaEnd(m, p)) == ss
  {
    if ss == [] {
      LiesAtByte(m, p, [NUL, NUL], 0);
      LiesAtByte(m, p, [NUL, NUL], 1);
      AreaEndIs(m, p, p);
    } else {
      hide EncodeStrings, AreaEnd, Strings;
      EndReadsBack(m, p, ss);
      StringsReadBack(m, p, AreaEnd(m, p), ss);
    }
  }

  /** An encoded structure is read back where it lies, and the next one is looked for right behind it. */
  lemma StructureReadsBack(m: seq<u8>, off: nat, st: Structure)
    requires IsEncodable(st) && LiesAt(m, off, Encode(st))
    ensures IsStructure(m, off) && StructureAt(m, off) == st && NextStructure(m, off) == off + |Encode(st)|
  {
    hide AreStrings, EncodeArea, Strings, AreaEnd;
    LiesAtParts(m, off, st.formatted, EncodeArea(st.strings));
    LiesAtByte(m, off, st.formatted, 0);
    LiesAtByte(m, off, st.formatted, 1);
    AreaReadsBack(m, off + |st.formatted|, st.strings);
  }

  /** Reading back a list of structures that is encoded somewhere in a table. */
  lemma {:induction false} ParseReadsBack(m: seq<u8>, off: nat, sts: seq<Structure>)
    requires AreEncodable(sts)
    requires LiesAt(m, off, EncodeAll(sts))
    ensures Parse(m, off, |sts|) == sts
    decreases |sts|
  {
    hide AreEncodable, LiesAt, IsEncodable, Encode, EncodeAll, IsStructure, StructureAt, NextStructure, Parse, Walk;
    NoRounds(m, off);
    if sts != [] {
      FirstOfMany(m, off, sts);
      StructureReadsBack(m, off, sts[0]);
      ParseReadsBack(m, off + |Encode(sts[0])|, sts[1..]);
      WalkStep(m, off, |sts|);
      assert Parse(m, off, |sts|) == [sts[0]] + sts[1..] == sts;
    }
  }

  /** Round trip: encoding structures and walking the result returns them, in order and nothing else. */
  lemma RoundTrip(sts: seq<Structure>)
    requires AreEncodable(sts)
    ensures Parse(EncodeAll(sts), 0, |sts|) == sts
  {
    ParseReadsBack(EncodeAll(sts), 0, sts);
  }

  /** Where structure i of an encoded list that lies at off starts. */
  function Boundary(off: nat, sts: seq<Structure>, i: nat): nat
    requires i <= |sts|
  {
    off + |EncodeAll(sts[..i])|
  }

  lemma FirstBoundary(off: nat, sts: seq<Structure>)
    ensures Boundary(off, sts, 0) == off
  {
  }

  lemma BoundaryStep(off: nat, sts: seq<Structure>, i: nat)
    requires 0 < i <= |sts|
    ensures Boundary(off, sts, i) == Boundary(off + |Encode(sts[0])|, sts[1..], i - 1)
  {
    assert sts[..i][1..] == sts[1..][..i - 1];
  }

  /** The offsets visited are exactly the boundaries of the encoded structures. */
  lemma {:induction false} WalkVisitsBoundaries(m: seq<u8>, off: nat, sts: seq<Structure>)
    requires AreEncodable(sts)
    requires LiesAt(m, off, EncodeAll(sts))
    ensures |Walk(m, off, |sts|)| == |sts|
    ensures forall i :: 0 <= i < |sts| ==> Walk(m, off, |sts|)[i] == Boundary(off, sts, i)
    decreases |sts|
  {
    hide AreEncodable, LiesAt, IsEncodable, Encode, EncodeAll, Boundary;
    hide IsStructure, StructureAt, NextStructure, Parse, Walk;
    NoRounds(m, off);
    if sts != [] {
      FirstOfMany(m, off, sts);
      StructureReadsBack(m, off, sts[0]);
      WalkVisitsBoundaries(m, off + |Encode(sts[0])|, sts[1..]);
      WalkStep(m, off, |sts|);
      FirstBoundary(off, sts);
      forall i | 0 < i < |sts|
        ensures Walk(m, off, |sts|)[i] == Boundary(off, sts, i)
      {
        BoundaryStep(off, sts, i);
      }
    }
  }

  /** What dmi_string finds for a string number of an encoded structure: the filtered string, the text for a
      bad index, or the text for no string. dmi_string gives this text whatever was filtered before. */
  lemma TextReadsBack(m: seq<u8>, off: nat, st: Structure, s: u8)
    requires IsEncodable(st) && LiesAt(m, off, Encode(st))
    ensures IsStructure(m, off)
    ensures TextFrom(m, off + m[off + 1], AreaEnd(m, off + m[off + 1]), s) ==
      if s == 0 then NotSpecified
      else if s <= |st.strings| then Chars(Filtered(st.strings[s - 1]))
      else BadIndex
  {
    StructureReadsBack(m, off, st);
    hide Strings, Encode, LiesAt, TextFrom, AreaEnd;
    TextFromIs(m, off + m[off + 1], AreaEnd(m, off + m[off + 1]), st, s);
  }

  /** Decoding an encoded table: every field ends up with the string of the last structure that provides it. */
  lemma DecodedFromEncoding(d: Fields, sts: seq<Structure>, f: Field)
    requires AreEncodable(sts)
    ensures Fold(d, Parse(EncodeAll(sts), 0, |sts|))[f] ==
      match LastProvider(sts, f)
      case Some(i) => Settled(f, Value(sts[i], f))
      case None => if sts == [] then d[f] else Settled(f, d[f])
  {
    hide Settled, Value, LastProvider;
    RoundTrip(sts);
    LastProviderWins(d, sts, f);
  }

  // ---- the fields of a decoded encoding, byte for byte ----

  /** What a field can show of a string: its first 49 bytes, with a dot for each that is not printable ASCII. */
  function Shown(s: seq<u8>): (r: seq<u8>) {
    seq(if |s| < 49 then |s| else 49, k requires 0 <= k < |s| => if 32 <= s[k] < 127 then s[k] else '.' as int)
  }

  /** Structure i is the last one of a list that has the type and the length a field asks for. */
  ghost predicate IsLastOf(sts: seq<Structure>, i: nat, kind: u8, least: nat) {
    && i < |sts| && sts[i].kind == kind && |sts[i].formatted| >= least
    && forall j :: i < j < |sts| ==> !(sts[j].kind == kind && |sts[j].formatted| >= least)
  }

  /** Decoding an encoded table, byte for byte. The eleven fields, in the order of struct dmi_data_t, are taken from
      the last structure of type 0, 1 or 2 that is long enough, by the string number at the offset listed. That string
      is shown, or one of two other texts; board vendor, board product and BIOS version are trimmed. */
  lemma FieldFromEncoding(d: Fields, sts: seq<Structure>, f: Field, i: nat)
    requires AreEncodable(sts)
    requires IsLastOf(sts, i, [0, 0, 0, 1, 1, 1, 1, 2, 2, 2, 2][f], if f < 3 then 0x12 else 0x08)
    ensures var field := Fold(d, Parse(EncodeAll(sts), 0, |sts|))[f];
      var n, strings := sts[i].formatted[[4, 5, 6, 4, 5, 6, 7, 4, 5, 6, 7][f]], sts[i].strings;
      && (n == 0 ==> IsText(field, "Not Specified"))
      && (n > |strings| ==> IsText(field, "<bad index>"))
      && (0 < n <= |strings| ==>
        field == if f in {1, 7, 8} then Trimmed(Shown(strings[n - 1])) else Shown(strings[n - 1]))
  {
    hide Fold, Parse, EncodeAll, AreEncodable, LastProvider, NumberAt, Owner, LeastLength, Trimmed, Shown, Cut,
      DmiText.Rendered, Settled;
    RowIs(f);
    LastIs(sts, f, i);
    DecodedFromEncoding(d, sts, f);
    ValueShown(StringText(sts[i], sts[i].formatted[NumberAt(f)]), f);
  }

  /** The rows of the table of fields. */
  lemma RowIs(f: Field)
    ensures Owner(f) == [0, 0, 0, 1, 1, 1, 1, 2, 2, 2, 2][f]
    ensures NumberAt(f) == [4, 5, 6, 4, 5, 6, 7, 4, 5, 6, 7][f]
    ensures LeastLength(Owner(f)) == if f < 3 then 0x12 else 0x08
  {
  }

  lemma LastIs(sts: seq<Structure>, f: Field, i: nat)
    requires IsLastOf(sts, i, Owner(f), LeastLength(Owner(f)))
    ensures LastProvider(sts, f) == Some(i) && Provides(sts[i], f)
  {
    hide Owner, LeastLength, LastProvider;
    assert forall j :: i < j < |sts| ==> !Provides(sts[j], f);
  }

  /** A string is shown, and the other texts are what they are, trimmed or not. */
  lemma ValueShown(t: DmiText, f: Field)
    ensures t.NotSpecified? ==> IsText(Settled(f, Cut(t.Rendered())), "Not Specified")
    ensures t.BadIndex? ==> IsText(Settled(f, Cut(t.Rendered())), "<bad index>")
    ensures forall s :: t == Chars(Filtered(s)) ==>
      Settled(f, Cut(t.Rendered())) == if f in {1, 7, 8} then Trimmed(Shown(s)) else Shown(s)
  {
    hide Trimmed;
    LiteralsStay();
    hide Ascii;
    forall s | t == Chars(Filtered(s))
      ensures Cut(t.Rendered()) == Shown(s)
    {
      CutIsShown(s);
    }
  }

  lemma CutIsShown(s: seq<u8>)
    ensures Cut(Filtered(s)) == Shown(s)
  {
    NamedBytes();
  }

  lemma LiteralsStay()
    ensures IsText(Ascii("Not Specified"), "Not Specified") && Trimmed(Ascii("Not Specified")) == Ascii("Not Specified")
    ensures IsText(Ascii("<bad index>"), "<bad index>") && Trimmed(Ascii("<bad index>")) == Ascii("<bad index>")
  {
    hide Trimmed;
    AsciiIsText("Not Specified");
    AsciiIsText("<bad index>");
    hide Ascii;
    TrimmedStays(Ascii("Not Specified"));
    TrimmedStays(Ascii("<bad index>"));
  }

  lemma TrimmedStays(t: seq<u8>)
    requires t != [] && !IsBlank(t[0]) && !IsBlank(t[|t| - 1])
    ensures Trimmed(t) == t
  {
    hide Stem;
    assert Indent(t) == 0 && t[0..] == t;
  }

  /** So a printable string that fits is held as it is, and a longer one as far as it fits. */
  lemma PrintableIsHeld(d: Fields, sts: seq<Structure>, f: Field, i: nat)
    requires AreEncodable(sts)
    requires IsLastOf(sts, i, [0, 0, 0, 1, 1, 1, 1, 2, 2, 2, 2][f], if f < 3 then 0x12 else 0x08)
    requires 0 < sts[i].formatted[[4, 5, 6, 4, 5, 6, 7, 4, 5, 6, 7][f]] <= |sts[i].strings|
    requires var s := sts[i].strings[sts[i].formatted[[4, 5, 6, 4, 5, 6, 7, 4, 5, 6, 7][f]] - 1];
      forall k :: 0 <= k < |s| ==> 32 <= s[k] < 127
    ensures var s := sts[i].strings[sts[i].formatted[[4, 5, 6, 4, 5, 6, 7, 4, 5, 6, 7][f]] - 1];
      var kept := if |s| <= 49 then s else s[..49];
      Fold(d, Parse(EncodeAll(sts), 0, |sts|))[f] == if f in {1, 7, 8} then Trimmed(kept) else kept
  {
    hide Fold, Parse, EncodeAll, Trimmed;
    FieldFromEncoding(d, sts, f, i);
    var s := sts[i].strings[sts[i].formatted[[4, 5, 6, 4, 5, 6, 7, 4, 5, 6, 7][f]] - 1];
    assert Shown(s) == if |s| <= 49 then s else s[..49];
  }
}
