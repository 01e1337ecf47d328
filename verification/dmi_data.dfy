/** struct dmi_data_t: eleven adjacent 50-byte fields, and what decoding a structure does to them. */
module DmiData {
  import opened Bytes
  import opened Trimming
  import opened DmiTable

  const FIELD_SIZE := 50
  const FIELD_COUNT := 11

  type Field = f: int | 0 <= f < FIELD_COUNT

  const BIOS_VENDOR: Field := 0
  const BIOS_VERSION: Field := 1
  const BIOS_DATE: Field := 2
  const SYS_VENDOR: Field := 3
  const SYS_PRODUCT: Field := 4
  const SYS_VERSION: Field := 5
  const SYS_SERIAL: Field := 6
  const BOARD_VENDOR: Field := 7
  const BOARD_PRODUCT: Field := 8
  const BOARD_VERSION: Field := 9
  const BOARD_SERIAL: Field := 10

  // ---- the fields as strings ----

  /** One string per field. */
  type Fields = d: seq<seq<u8>> | |d| == FIELD_COUNT witness seq(FIELD_COUNT, _ => [])

  /** The type of the structures a field is taken from ... */
  function Owner(f: Field): u8 {
    if f <= BIOS_DATE then 0 else if f <= SYS_SERIAL then 1 else 2
  }

  /** ... the least length they must have (tables of sections 7.1 to 7.3 of DSP0134) ... */
  function LeastLength(kind: u8): nat {
    if kind == 0 then 0x12 else 0x08
  }

  /** ... and where in their formatted area the number of its string lies. */
  function NumberAt(f: Field): (at: nat)
    ensures 4 <= at < LeastLength(Owner(f))
  {
    4 + if f <= BIOS_DATE then f else if f <= SYS_SERIAL then f - SYS_VENDOR else f - BOARD_VENDOR
  }

  predicate Provides(st: Structure, f: Field) {
    st.kind == Owner(f) && |st.formatted| >= LeastLength(st.kind)
  }

  /** What snprintf keeps of a string for a 50-byte field. */
  function Cut(s: seq<u8>): seq<u8> {
    if |s| < FIELD_SIZE then s else s[..FIELD_SIZE - 1]
  }

  function Value(st: Structure, f: Field): seq<u8>
    requires Provides(st, f)
  {
    Cut(StringText(st, st.formatted[NumberAt(f)]).Rendered())
  }

  /** The fields that every call of dmi_decode trims. */
  predicate IsTrimmedField(f: Field) {
    f == BOARD_VENDOR || f == BOARD_PRODUCT || f == BIOS_VERSION
  }

  function Settled(f: Field, s: seq<u8>): seq<u8> {
    if IsTrimmedField(f) then Trimmed(s) else s
  }

  /** The fields once a structure has been decoded. */
  function Absorb(d: Fields, st: Structure): (r: Fields) {
    seq(FIELD_COUNT, f requires 0 <= f < FIELD_COUNT => Settled(f, if Provides(st, f) then Value(st, f) else d[f]))
  }

  /** The fields once all structures of a table have been decoded, in order. */
  function Fold(d: Fields, sts: seq<Structure>): Fields
    decreases |sts|
  {
    if sts == [] then d else Fold(Absorb(d, sts[0]), sts[1..])
  }

  /** The index of the last structure that provides f, if any. */
  function LastProvider(sts: seq<Structure>, f: Field): (r: Option<nat>)
    ensures r.Some? ==> r.value < |sts| && Provides(sts[r.value], f)
    ensures forall i :: 0 <= i < |sts| && (r.Some? ==> r.value < i) ==> !Provides(sts[i], f)
  {
    if sts == [] then None
    else if Provides(sts[|sts| - 1], f) then Some(|sts| - 1)
    else LastProvider(sts[..|sts| - 1], f)
  }

  lemma {:induction false} FoldLast(d: Fields, sts: seq<Structure>, st: Structure)
    ensures Fold(d, sts + [st]) == Absorb(Fold(d, sts), st)
    decreases |sts|
  {
    if sts == [] {
      assert Fold(d, [] + [st]) == Fold(Absorb(d, st), [st][1..]);
    } else {
      assert (sts + [st])[1..] == sts[1..] + [st];
      FoldLast(Absorb(d, sts[0]), sts[1..], st);
    }
  }

  /** Last wins: a field holds the (cut, filtered and where due trimmed) string of the last structure that
      provides it, and without one it keeps its value, trimmed if any structure was decoded at all. */
  lemma {:induction false} LastProviderWins(d: Fields, sts: seq<Structure>, f: Field)
    ensures Fold(d, sts)[f] == match LastProvider(sts, f)
      case Some(i) => Settled(f, Value(sts[i], f))
      case None => if sts == [] then d[f] else Settled(f, d[f])
    decreases |sts|
  {
    if sts != [] {
      var n := |sts| - 1;
      var before, st := sts[..n], sts[n];
      assert sts == before + [st];
      FoldLast(d, before, st);
      if !Provides(st, f) {
        LastProviderWins(d, before, f);
        TrimmedIdempotent(d[f]);
        if i: nat :| LastProvider(before, f) == Some(i) {
          TrimmedIdempotent(Value(sts[i], f));
        }
      }
    }
  }

  // ---- the fields as bytes ----

  function Base(f: Field): nat {
    FIELD_SIZE * f
  }

  predicate Terminated(m: seq<u8>, f: Field)
    requires |m| == FIELD_SIZE * FIELD_COUNT
  {
    m[Base(f) + FIELD_SIZE - 1] == NUL
  }

  /** The last byte of every field is NUL. */
  ghost predicate AllTerminated(m: seq<u8>) {
    |m| == FIELD_SIZE * FIELD_COUNT && forall f: Field :: Terminated(m, f)
  }

  function FieldsOf(m: seq<u8>): Fields
    requires |m| == FIELD_SIZE * FIELD_COUNT
  {
    seq(FIELD_COUNT, f requires 0 <= f < FIELD_COUNT => CStr(m, Base(f)))
  }

  lemma FieldLength(m: seq<u8>, f: Field)
    requires AllTerminated(m)
    ensures Base(f) + StrLen(m, Base(f)) <= Base(f) + FIELD_SIZE - 1 < |m|
  {
    assert Terminated(m, f);
  }

  /** Writing a string inside one field changes that field only. */
  lemma FieldUpdate(m: seq<u8>, m': seq<u8>, f: Field, s: seq<u8>)
    requires AllTerminated(m) && |m'| == |m|
    requires forall k :: 0 <= k < |m| && !(Base(f) <= k < Base(f) + FIELD_SIZE - 1) ==> m'[k] == m[k]
    requires CStr(m', Base(f)) == s
    ensures AllTerminated(m') && FieldsOf(m') == FieldsOf(m)[f := s]
  {
    forall g: Field
      ensures Terminated(m', g) && FieldsOf(m')[g] == FieldsOf(m)[f := s][g]
    {
      assert Terminated(m, g);
      FieldLength(m, g);
      if g != f {
        assert Base(g) + FIELD_SIZE <= Base(f) || Base(f) + FIELD_SIZE <= Base(g);
        CStrSame(m, m', Base(g));
      }
    }
  }

  /** trim called on a field behind the first one stays inside that field, whatever it holds: the byte
      before it is the NUL of its neighbour. */
  lemma TrimStaysInField(m: seq<u8>, f: Field)
    requires AllTerminated(m) && f > 0
    ensures Base(f) + StrLen(m, Base(f)) < |m| && ZeroedFrom(m, Base(f)) >= Base(f)
    ensures forall k :: 0 <= k < |m| && !(Base(f) <= k < Base(f) + FIELD_SIZE - 1) ==> TrimMemory(m, Base(f))[k] == m[k]
  {
    hide ZeroedFrom, StrLen, Trimmed, Indent, Stem, TrimMemory, BlanksBelow;
    FieldLength(m, f);
    var g: Field := f - 1;
    assert Terminated(m, g) && Base(g) + FIELD_SIZE == Base(f);
    StopsBefore(m, Base(f));
    TrimStaysInsideIff(m, Base(f));
  }

  lemma StopsBefore(m: seq<u8>, off: nat)
    requires 0 < off <= |m| && !IsBlank(m[off - 1])
    ensures ZeroedFrom(m, off) >= off
  {
    hide StrLen, Trimmed;
  }

  lemma TrimUpdatesField(m: seq<u8>, f: Field)
    requires AllTerminated(m) && f > 0
    ensures Base(f) + StrLen(m, Base(f)) < |m|
    ensures AllTerminated(TrimMemory(m, Base(f)))
    ensures FieldsOf(TrimMemory(m, Base(f))) == FieldsOf(m)[f := Trimmed(FieldsOf(m)[f])]
  {
    TrimStaysInField(m, f);
    TrimMemoryText(m, Base(f));
    FieldUpdate(m, TrimMemory(m, Base(f)), f, Trimmed(CStr(m, Base(f))));
  }
}
