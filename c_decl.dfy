/** C struct declarations as data, and the offsets and size a C compiler
    gives them under the RISC-V LP64 calling convention (int: 4 bytes,
    uintptr_t: 8 bytes, bool: 1 byte, each aligned to its size). Types that
    come from headers outside this model are named but have no layout. */
module CDecl {

  datatype CType = Int | UIntPtr | Bool | Opaque(name: string)

  /** One member: `ty name[count]`, with count 1 for a scalar. */
  datatype Field = Field(name: string, ty: CType, count: nat)

  datatype StructDecl = StructDecl(tag: string, fields: seq<Field>)

  predicate HasLayout(t: CType)
  {
    !t.Opaque?
  }

  function TypeSize(t: CType): nat
    requires HasLayout(t)
  {
    match t
    case Int => 4
    case UIntPtr => 8
    case Bool => 1
  }

  /** Scalars are aligned to their own size. */
  function TypeAlign(t: CType): (a: nat)
    requires HasLayout(t)
    ensures IsAlignment(a)
  {
    TypeSize(t)
  }

  function FieldSize(f: Field): nat
    requires HasLayout(f.ty)
  {
    TypeSize(f.ty) * f.count
  }

  /** The alignments scalar types have here. */
  predicate IsAlignment(a: nat)
  {
    a == 1 || a == 4 || a == 8
  }

  /** The first multiple of `a` at or after `off`. */
  function AlignUp(off: nat, a: nat): (r: nat)
    requires IsAlignment(a)
    ensures r % a == 0
    ensures off <= r < off + a
  {
    if off % a == 0 then off else off + (a - off % a)
  }

  predicate AllLaidOut(fs: seq<Field>)
  {
    forall i :: 0 <= i < |fs| ==> HasLayout(fs[i].ty)
  }

  /** Offsets of the fields placed in order from offset `at`, each moved up
      to its alignment. */
  function Place(fs: seq<Field>, at: nat): seq<nat>
    requires AllLaidOut(fs)
    decreases |fs|
  {
    if fs == [] then []
    else
      var o := AlignUp(at, TypeAlign(fs[0].ty));
      [o] + Place(fs[1..], o + FieldSize(fs[0]))
  }

  /** The byte just past the last field placed from `at`. */
  function PlaceEnd(fs: seq<Field>, at: nat): nat
    requires AllLaidOut(fs)
    decreases |fs|
  {
    if fs == [] then at
    else PlaceEnd(fs[1..], AlignUp(at, TypeAlign(fs[0].ty)) + FieldSize(fs[0]))
  }

  function MaxAlign(fs: seq<Field>): (m: nat)
    requires AllLaidOut(fs)
    ensures IsAlignment(m)
    decreases |fs|
  {
    if fs == [] then 1
    else
      var rest := MaxAlign(fs[1..]);
      if TypeAlign(fs[0].ty) > rest then TypeAlign(fs[0].ty) else rest
  }

  /** `sizeof`: the end of the last field rounded up to the largest alignment. */
  function SizeOf(s: StructDecl): nat
    requires AllLaidOut(s.fields)
  {
    AlignUp(PlaceEnd(s.fields, 0), MaxAlign(s.fields))
  }

  /** Every field placed from `at` starts at or after `at`, on its own
      alignment, after the end of the field before it, and ends by
      PlaceEnd: the fields never overlap. */
  lemma {:induction false} PlaceSound(fs: seq<Field>, at: nat)
    requires AllLaidOut(fs)
    ensures |Place(fs, at)| == |fs|
    ensures forall i :: 0 <= i < |fs| ==> at <= Place(fs, at)[i]
    ensures forall i :: 0 <= i < |fs| ==> Place(fs, at)[i] % TypeAlign(fs[i].ty) == 0
    ensures forall i :: 0 <= i < |fs| ==> Place(fs, at)[i] + FieldSize(fs[i]) <= PlaceEnd(fs, at)
    ensures forall i :: 0 <= i < |fs| - 1 ==> Place(fs, at)[i] + FieldSize(fs[i]) <= Place(fs, at)[i + 1]
    decreases |fs|
  {
    if fs != [] {
      var o := AlignUp(at, TypeAlign(fs[0].ty));
      PlaceSound(fs[1..], o + FieldSize(fs[0]));
      var rest := Place(fs[1..], o + FieldSize(fs[0]));
      assert Place(fs, at) == [o] + rest;
      forall i | 1 <= i < |fs|
        ensures Place(fs, at)[i] == rest[i - 1] && fs[i] == fs[1..][i - 1]
      {
      }
    }
  }
}
