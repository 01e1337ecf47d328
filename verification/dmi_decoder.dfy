/** dmidecode.c: the decoder that fills struct dmi_data_t, filtering strings in the table as it goes. */
module DmiDecoder {
  import opened Bytes
  import opened Trimming
  import opened DmiTable
  import opened DmiData
  import opened Arithmetic
  import opened EntryPoint

  /** mem_chunk: a copy of len bytes of physical memory at base, unless it cannot be mapped. */
  type Memory = f: (u32, u16) -> Option<seq<u8>> | IsMemory(f) witness ((base: u32, len: u16) => None)

  ghost predicate IsMemory(memory: (u32, u16) -> Option<seq<u8>>) {
    forall base: u32, len: u16 :: memory(base, len).Some? ==> |memory(base, len).value| == len
  }

  /** What decoding the table of an entry point makes of the fields. */
  function TableDecoded(d: Fields, chunk: Option<seq<u8>>, num: u16): Fields {
    match chunk
    case None => d
    case Some(t) => Fold(d, Parse(t, 0, num))
  }

  /** What trying the paragraph at fp makes of the fields. */
  function EntryDecoded(d: Fields, m: Image, fp: nat, memory: Memory): Fields
    requires fp <= LAST_ENTRY
  {
    if Accepts(m, fp) then
      TableDecoded(d, memory(Dword(m, fp + 0x18), Word(m, fp + 0x16)), Word(m, fp + 0x1C))
    else d
  }

  /** What trying the paragraphs ns makes of the fields. */
  function ScanDecoded(d: Fields, m: Image, ns: seq<nat>, memory: Memory): Fields
    requires forall i :: 0 <= i < |ns| ==> ns[i] < PARAGRAPHS - 1
    decreases |ns|
  {
    if ns == [] then d else ScanDecoded(EntryDecoded(d, m, 16 * ns[0], memory), m, ns[1..], memory)
  }

  /** The paragraphs are tried in their order, each on top of what those before it have left. */
  lemma {:induction false} ScanInOrder(d: Fields, m: Image, ns: seq<nat>, n: nat, memory: Memory)
    requires n < PARAGRAPHS - 1 && forall i :: 0 <= i < |ns| ==> ns[i] < PARAGRAPHS - 1
    ensures ScanDecoded(d, m, ns + [n], memory) == EntryDecoded(ScanDecoded(d, m, ns, memory), m, 16 * n, memory)
    decreases |ns|
  {
    hide EntryDecoded;
    if ns == [] {
      assert ([] + [n])[1..] == [] && ([] + [n])[0] == n;
      assert ScanDecoded(EntryDecoded(d, m, 16 * n, memory), m, [], memory) == EntryDecoded(d, m, 16 * n, memory);
    } else {
      assert (ns + [n])[1..] == ns[1..] + [n];
      ScanInOrder(EntryDecoded(d, m, 16 * ns[0], memory), m, ns[1..], n, memory);
    }
  }

  /** The table was m0 when its walk began, and the structure at dm is still as it was, but for its strings. */
  ghost predicate IsIntact(m0: seq<u8>, m: seq<u8>, dm: nat) {
    && FilteredFrom(m0, m) && IsStructure(m0, dm)
    && m[dm] == m0[dm] && m[dm + 1] == m0[dm + 1]
    && forall i :: dm <= i < dm + m0[dm + 1] ==> m[i] == m0[i]
  }

  /** From m to m' nothing has changed but string bytes of the structure at dm. */
  ghost predicate OnlyStringsChanged(m0: seq<u8>, m: seq<u8>, m': seq<u8>, dm: nat)
    requires IsStructure(m0, dm)
  {
    |m'| == |m| && forall i :: 0 <= i < |m| && !(dm + m0[dm + 1] <= i < NextStructure(m0, dm)) ==> m'[i] == m[i]
  }

  /** One round of the walk. */
  lemma ParseStep(d: Fields, m: seq<u8>, off: nat, num: nat)
    requires num > 0 && off + 4 <= |m|
    ensures Fold(d, Parse(m, off, num)) ==
      Fold(if IsStructure(m, off) then Absorb(d, StructureAt(m, off)) else d, Parse(m, NextStructure(m, off), num - 1))
  {
    if IsStructure(m, off) {
      assert Parse(m, off, num) == [StructureAt(m, off)] + Parse(m, NextStructure(m, off), num - 1);
    }
  }

  lemma ParseEnds(d: Fields, m: seq<u8>, off: nat, num: nat)
    requires num == 0 || off + 4 > |m|
    ensures Fold(d, Parse(m, off, num)) == d
  {
  }

  /** The fields the rest of the scan, from paragraph n on, leaves. */
  ghost function ScanFrom(d: Fields, m: Image, n: nat, memory: Memory): Fields {
    ScanDecoded(d, m, Tried(AnchorsOf(m), n), memory)
  }

  lemma ScanEnds(d: Fields, m: Image, memory: Memory)
    ensures forall n :: n >= PARAGRAPHS ==> ScanFrom(d, m, n, memory) == d
  {
  }

  /** A step of the scan that tries a paragraph, and one that does not. */
  lemma ScanTries(d: Fields, m: Image, n: nat, memory: Memory)
    requires n < PARAGRAPHS - 1 && IsAnchor(m, 16 * n)
    ensures ScanFrom(d, m, n, memory) == ScanFrom(EntryDecoded(d, m, 16 * n, memory), m, n + 2, memory)
  {
    assert Tried(AnchorsOf(m), n) == [n] + Tried(AnchorsOf(m), n + 2);
  }

  lemma ScanSkips(d: Fields, m: Image, n: nat, memory: Memory)
    requires n < PARAGRAPHS && !(n < PARAGRAPHS - 1 && IsAnchor(m, 16 * n))
    ensures ScanFrom(d, m, n, memory) == ScanFrom(d, m, n + 1, memory)
  {
  }

  /** With anchors in the first two paragraphs, the scan goes from the first to the third. The entry point in the
      second is not decoded, however acceptable it is; TwoAnchors gives an image where it is. */
  lemma SecondAnchorSkipped(d: Fields, m: Image, memory: Memory)
    requires IsAnchor(m, 0) && IsAnchor(m, 16)
    ensures 1 !in Tried(AnchorsOf(m), 0)
    ensures ScanFrom(d, m, 0, memory) == ScanFrom(EntryDecoded(d, m, 0, memory), m, 2, memory)
    ensures forall i :: 0 <= i < |Tried(AnchorsOf(m), 2)| ==> Tried(AnchorsOf(m), 2)[i] >= 2
  {
    TriedIff(AnchorsOf(m), 1);
    assert AnchorRun(AnchorsOf(m), 1) == 1 + AnchorRun(AnchorsOf(m), 0);
    ScanTries(d, m, 0, memory);
    TriedOnce(AnchorsOf(m), 2);
  }

  /** The fields after the copying part of dmi_decode: what the structure provides is replaced. */
  function Copied(d: Fields, st: Structure): Fields {
    seq(FIELD_COUNT, f requires 0 <= f < FIELD_COUNT => if Provides(st, f) then Value(st, f) else d[f])
  }

  class Decoder {
    /** struct dmi_data_t as the flat memory it is. */
    const dmiData: array<u8>

    ghost predicate Valid()
      reads this, dmiData
    {
      AllTerminated(dmiData[..])
    }

    ghost function Contents(): Fields
      reads this, dmiData
      requires Valid()
    {
      FieldsOf(dmiData[..])
    }

    /** The global starts out zeroed. */
    constructor ()
      ensures Valid() && fresh(dmiData)
      ensures forall f: Field :: Contents()[f] == []
    {
      dmiData := new u8[FIELD_SIZE * FIELD_COUNT](_ => NUL);
      new;
      assert forall f: Field :: Terminated(dmiData[..], f);
    }

    /** snprintf(field, 50, "%s", src): the string, cut to what fits, and a NUL. */
    method Snprintf(f: Field, src: seq<u8>)
      requires Valid() && NulFree(src)
      modifies dmiData
      ensures Valid() && Contents() == old(Contents())[f := Cut(src)]
      ensures Contents()[f] <= src && |Contents()[f]| == if |src| < 49 then |src| else 49
      ensures forall g: Field :: g != f ==> Contents()[g] == old(Contents())[g]
    {
      hide StrLen, FieldsOf;
      ghost var m := dmiData[..];
      var n := |Cut(src)|;
      forall k | 0 <= k < n {
        dmiData[Base(f) + k] := src[k];
      }
      dmiData[Base(f) + n] := NUL;
      assert forall k :: Base(f) <= k < Base(f) + n ==> dmiData[..][k] == src[k - Base(f)];
      StrLenIs(dmiData[..], Base(f), n);
      assert Terminated(m, f);
      FieldUpdate(m, dmiData[..], f, Cut(src));
    }

    /** One snprintf of dmi_decode: field f gets the string whose number lies at byte at of the structure. */
    method CopyString(buf: array<u8>, dm: nat, at: nat, f: Field, ghost m0: seq<u8>)
      requires Valid() && buf != dmiData && IsIntact(m0, buf[..], dm)
      requires Provides(StructureAt(m0, dm), f) && at == NumberAt(f)
      modifies buf, dmiData
      ensures Valid() && Contents() == old(Contents())[f := Value(StructureAt(m0, dm), f)]
      ensures IsIntact(m0, buf[..], dm) && OnlyStringsChanged(m0, old(buf[..]), buf[..], dm)
    {
      hide Value, DmiText.Rendered, TextFrom, Cut, FieldsOf, AllTerminated;
      ghost var d := AreaEnd(m0, dm + m0[dm + 1]);
      ValueIs(m0, dm, f);
      var r := DmiString(buf, dm, buf[dm + at], m0, d);
      Snprintf(f, Text(buf[..], r).Rendered());
    }

    /** trim called on a field behind the first one. */
    method TrimField(f: Field)
      requires Valid() && f > 0
      modifies dmiData
      ensures Valid() && Contents() == old(Contents())[f := Trimmed(old(Contents())[f])]
    {
      TrimStaysInField(dmiData[..], f);
      TrimUpdatesField(dmiData[..], f);
      Trim(dmiData, Base(f));
    }

    /** The cases of dmi_decode's switch. */
    method CopyBios(buf: array<u8>, dm: nat, ghost m0: seq<u8>)
      requires Valid() && buf != dmiData && IsIntact(m0, buf[..], dm)
      requires StructureAt(m0, dm).kind == 0 && m0[dm + 1] >= 0x12
      modifies buf, dmiData
      ensures Valid() && Contents() == Copied(old(Contents()), StructureAt(m0, dm))
      ensures IsIntact(m0, buf[..], dm) && OnlyStringsChanged(m0, old(buf[..]), buf[..], dm)
    {
      hide Value;
      CopyString(buf, dm, 0x04, BIOS_VENDOR, m0);
      CopyString(buf, dm, 0x05, BIOS_VERSION, m0);
      CopyString(buf, dm, 0x06, BIOS_DATE, m0);
    }

    method CopySystem(buf: array<u8>, dm: nat, ghost m0: seq<u8>)
      requires Valid() && buf != dmiData && IsIntact(m0, buf[..], dm)
      requires StructureAt(m0, dm).kind == 1 && m0[dm + 1] >= 0x08
      modifies buf, dmiData
      ensures Valid() && Contents() == Copied(old(Contents()), StructureAt(m0, dm))
      ensures IsIntact(m0, buf[..], dm) && OnlyStringsChanged(m0, old(buf[..]), buf[..], dm)
    {
      hide Value;
      CopyString(buf, dm, 0x04, SYS_VENDOR, m0);
      CopyString(buf, dm, 0x05, SYS_PRODUCT, m0);
      CopyString(buf, dm, 0x06, SYS_VERSION, m0);
      CopyString(buf, dm, 0x07, SYS_SERIAL, m0);
    }

    method CopyBoard(buf: array<u8>, dm: nat, ghost m0: seq<u8>)
      requires Valid() && buf != dmiData && IsIntact(m0, buf[..], dm)
      requires StructureAt(m0, dm).kind == 2 && m0[dm + 1] >= 0x08
      modifies buf, dmiData
      ensures Valid() && Contents() == Copied(old(Contents()), StructureAt(m0, dm))
      ensures IsIntact(m0, buf[..], dm) && OnlyStringsChanged(m0, old(buf[..]), buf[..], dm)
    {
      hide Value;
      CopyString(buf, dm, 0x04, BOARD_VENDOR, m0);
      CopyString(buf, dm, 0x05, BOARD_PRODUCT, m0);
      CopyString(buf, dm, 0x06, BOARD_VERSION, m0);
      CopyString(buf, dm, 0x07, BOARD_SERIAL, m0);
    }

    /** The three calls of trim behind the switch. */
    method TrimFields()
      requires Valid()
      modifies dmiData
      ensures Valid()
      ensures forall f: Field :: Contents()[f] == Settled(f, old(Contents())[f])
    {
      hide AllTerminated, FieldsOf, Trimmed;
      ghost var d := Contents();
      TrimField(BOARD_VENDOR);
      ghost var d1 := d[BOARD_VENDOR := Trimmed(d[BOARD_VENDOR])];
      assert Contents() == d1;
      TrimField(BOARD_PRODUCT);
      ghost var d2 := d1[BOARD_PRODUCT := Trimmed(d1[BOARD_PRODUCT])];
      assert Contents() == d2;
      TrimField(BIOS_VERSION);
      assert Contents() == d2[BIOS_VERSION := Trimmed(d2[BIOS_VERSION])];
    }

    /** dmi_decode: the structure at dm, which the table held when it was m0, enters the fields. Its strings
        may be filtered on the way; its formatted area and the rest of the table stay as they are. */
    method Decode(buf: array<u8>, dm: nat, ghost m0: seq<u8>)
      requires Valid() && buf != dmiData && IsIntact(m0, buf[..], dm)
      modifies buf, dmiData
      ensures Valid() && Contents() == Absorb(old(Contents()), StructureAt(m0, dm))
      ensures IsIntact(m0, buf[..], dm) && OnlyStringsChanged(m0, old(buf[..]), buf[..], dm)
    {
      hide Value;
      ghost var st := StructureAt(m0, dm);
      ghost var before := Contents();
      if buf[dm] == 0 {
        if buf[dm + 1] >= 0x12 {
          CopyBios(buf, dm, m0);
        }
      } else if buf[dm] == 1 {
        if buf[dm + 1] >= 0x08 {
          CopySystem(buf, dm, m0);
        }
      } else if buf[dm] == 2 {
        if buf[dm + 1] >= 0x08 {
          CopyBoard(buf, dm, m0);
        }
      }
      assert Contents() == Copied(before, st);
      TrimFields();
    }

    /** The inner loop of dmi_table: look for the next structure behind the one at data. */
    method FindNext(buf: array<u8>, data: nat, ghost m0: seq<u8>) returns (next: nat)
      requires |m0| == buf.Length && data + 4 <= buf.Length
      requires forall k :: data <= k < buf.Length ==> buf[k] == m0[k]
      ensures next == NextStructure(m0, data) >= data + 2
      ensures next <= buf.Length <==> IsStructure(m0, data)
    {
      next := data + buf[data + 1];
      while next + 1 < buf.Length && (buf[next] != NUL || buf[next + 1] != NUL)
        invariant data + m0[data + 1] <= next && AreaEnd(m0, next) == AreaEnd(m0, data + m0[data + 1])
        decreases buf.Length - next
      {
        next := next + 1;
      }
      next := next + 2;
    }

    /** dmi_table: walk the chunk and decode what is found. The walk goes on at least two bytes a round. */
    method Table(chunk: Option<seq<u8>>, num: u16)
      requires Valid()
      modifies dmiData
      ensures Valid() && Contents() == TableDecoded(old(Contents()), chunk, num)
      ensures chunk.None? ==> Contents() == old(Contents())
      ensures chunk.Some? ==> Contents() == Fold(old(Contents()), Parse(chunk.value, 0, num))
    {
      hide Fold, Parse, Absorb, StructureAt, FieldsOf, AllTerminated;
      if chunk.None? {
        return;
      }
      ghost var m0 := chunk.value;
      var buf := new u8[|chunk.value|](k requires 0 <= k < |chunk.value| => chunk.value[k]);
      assert buf[..] == m0;
      var data, i := 0, 0;
      while i < num && data + 4 <= buf.Length
        invariant i <= num && Valid() && FilteredFrom(m0, buf[..])
        invariant forall k :: data <= k < buf.Length ==> buf[k] == m0[k]
        invariant Fold(Contents(), Parse(m0, data, num - i)) == Fold(old(Contents()), Parse(m0, 0, num))
        decreases buf.Length - data
      {
        ParseStep(Contents(), m0, data, num - i);
        var next := FindNext(buf, data, m0);
        if next <= buf.Length {
          Decode(buf, data, m0);
        }
        data := next;
        i := i + 1;
      }
      ParseEnds(Contents(), m0, data, num - i);
    }

    /** smbios_decode: check an entry point and decode the table it names. */
    method SmbiosDecode(m: Image, fp: nat, memory: Memory) returns (ok: bool)
      requires Valid() && fp <= LAST_ENTRY
      modifies dmiData
      ensures Valid() && Contents() == EntryDecoded(old(Contents()), m, fp, memory)
      ensures ok <==> Accepts(m, fp)
      ensures ok <==>
        && Sum(m[fp..fp + m[fp + 0x05]]) % 0x100 == 0 && IsText(m[fp + 0x10..fp + 0x15], "_DMI_")
        && Sum(m[fp + 0x10..fp + 0x1F]) % 0x100 == 0
      ensures !ok ==> Contents() == old(Contents())
      ensures ok ==>
        var len := m[fp + 0x16] as int + 0x100 * (m[fp + 0x17] as int);
        var base := m[fp + 0x18] as int + 0x100 * (m[fp + 0x19] as int)
                    + 0x1_0000 * (m[fp + 0x1A] as int) + 0x100_0000 * (m[fp + 0x1B] as int);
        var num := m[fp + 0x1C] as int + 0x100 * (m[fp + 0x1D] as int);
        && (memory(base, len).None? ==> Contents() == old(Contents()))
        && (memory(base, len).Some? ==> Contents() == Fold(old(Contents()), Parse(memory(base, len).value, 0, num)))
    {
      hide TableDecoded, FieldsOf, AllTerminated, Fold, Parse, Sum;
      AsciiIsText("_DMI_");
      hide Ascii;
      ok := Checksum(m, fp, m[fp + 0x05]);
      if ok && m[fp + 0x10..fp + 0x15] == Ascii("_DMI_") {
        ok := Checksum(m, fp + 0x10, 0x0F);
      } else {
        ok := false;
      }
      if ok {
        Table(memory(Dword(m, fp + 0x18), Word(m, fp + 0x16)), Word(m, fp + 0x1C));
      }
    }

    /** do_dmi_decode: scan the image and decode the table of every entry point that is tried. */
    method DoDmiDecode(m: Image, memory: Memory)
      requires Valid()
      modifies dmiData
      ensures Valid()
      ensures Contents() == ScanFrom(old(Contents()), m, 0, memory)
    {
      hide ScanFrom, EntryDecoded, Accepts, IsAnchor, AllTerminated, FieldsOf;
      ghost var n := 0;
      ghost var goal := ScanFrom(Contents(), m, 0, memory);
      var found, fp := 0, 0;
      while fp <= 0xFFF0
        invariant fp == 16 * n && Valid()
        invariant ScanFrom(Contents(), m, n, memory) == goal
        decreases PARAGRAPHS - n
      {
        if IsAnchor(m, fp) && fp <= 0xFFE0 {
          ScanTries(Contents(), m, n, memory);
          var ok := SmbiosDecode(m, fp, memory);
          assert ScanFrom(Contents(), m, n + 2, memory) == goal;
          found := if ok then found + 1 else found;
          fp := fp + 16;
          n := n + 2;
        } else {
          ScanSkips(Contents(), m, n, memory);
          n := n + 1;
        }
        fp := fp + 16;
      }
      ScanEnds(Contents(), m, memory);
    }
  }

  /** The value a structure provides, told from the bytes of the table. */
  lemma ValueIs(m: seq<u8>, dm: nat, f: Field)
    requires IsStructure(m, dm) && Provides(StructureAt(m, dm), f)
    ensures dm + NumberAt(f) < dm + m[dm + 1] <= |m|
    ensures var t := TextFrom(m, dm + m[dm + 1], AreaEnd(m, dm + m[dm + 1]), m[dm + NumberAt(f)]);
      Value(StructureAt(m, dm), f) == Cut(t.Rendered()) && NulFree(t.Rendered())
  {
    var st := StructureAt(m, dm);
    assert st.formatted[NumberAt(f)] == m[dm + NumberAt(f)];
    hide DmiText.Rendered, Strings, AreaEnd, TextFrom;
    TextFromIs(m, dm + m[dm + 1], AreaEnd(m, dm + m[dm + 1]), st, m[dm + NumberAt(f)]);
    RenderedNulFree(StringText(st, m[dm + NumberAt(f)]));
  }

  lemma RenderedNulFree(t: DmiText)
    requires t.Chars? ==> NulFree(t.bytes)
    ensures NulFree(t.Rendered())
  {
  }
}
