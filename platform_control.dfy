/** The speculation-control layer of platform_control_spec.h: the CSR
    numbers, the MSPEC bit masks, the Zicsr read/write/swap/set/clear
    semantics (chapter 9 of the RISC-V Unprivileged ISA, version 20191213)
    applied to CSR 0x802, and the six capability toggles built on them. */
module PlatformControl {

  // CSR numbers
  const CSR_MSPEC: nat := 0x7ca
  const CSR_SSPEC: nat := 0x190
  const CSR_SPEC: nat := 0x802

  // MSPEC configuration bits
  const MSPEC_ALL: bv64 := 0
  const MSPEC_NONMEM: bv64 := 1
  const MSPEC_NONE: bv64 := 3
  const MSPEC_NOTRAINPRED: bv64 := 4
  const MSPEC_NOUSEPRED: bv64 := 8
  const MSPEC_NOUSEL1: bv64 := 16

  /** The three capabilities that have a disable/enable pair. */
  datatype Capability = Speculation | Predictors | L1

  /** The bits a capability's toggles set and clear. */
  function Mask(c: Capability): bv64
  {
    match c
    case Speculation => MSPEC_NONE
    case Predictors => MSPEC_NOTRAINPRED | MSPEC_NOUSEPRED
    case L1 => MSPEC_NOUSEL1
  }

  /** The value CSRRS writes over `v`: `v | bits`. */
  function CsrSet(v: bv64, bits: bv64): bv64
  {
    v | bits
  }

  /** The value CSRRC writes over `v`: `v & ~bits`. */
  function CsrClear(v: bv64, bits: bv64): bv64
  {
    v & !bits
  }

  /** A capability is off when all of its mask bits are set. */
  predicate IsDisabled(c: Capability, v: bv64)
  {
    v & Mask(c) == Mask(c)
  }

  /** The register value after `platform_disable_<c>`. */
  function Disable(c: Capability, v: bv64): bv64
  {
    CsrSet(v, Mask(c))
  }

  /** The register value after `platform_enable_<c>`. */
  function Enable(c: Capability, v: bv64): bv64
  {
    CsrClear(v, Mask(c))
  }

  /** CSRRS sets every bit of `bits` and keeps every other bit. */
  lemma CsrSetBits(v: bv64, bits: bv64)
    ensures CsrSet(v, bits) & bits == bits
    ensures CsrSet(v, bits) & !bits == v & !bits
  {
  }

  /** CSRRC clears every bit of `bits` and keeps every other bit. */
  lemma CsrClearBits(v: bv64, bits: bv64)
    ensures CsrClear(v, bits) & bits == 0
    ensures CsrClear(v, bits) & !bits == v & !bits
  {
  }

  /** After a disable the capability is off; after an enable all of its
      bits are clear. */
  lemma ToggleEffect(c: Capability, v: bv64)
    ensures IsDisabled(c, Disable(c, v))
    ensures Enable(c, v) & Mask(c) == 0
  {
    CsrSetBits(v, Mask(c));
    CsrClearBits(v, Mask(c));
  }

  /** The masks 3, 12 and 16 share no bit. */
  lemma MasksDisjoint(a: Capability, b: Capability)
    requires a != b
    ensures Mask(a) & Mask(b) == 0
  {
  }

  /** Bits outside a mask survive both setting and clearing that mask. */
  lemma MaskFrame(v: bv64, m: bv64, n: bv64)
    requires m & n == 0
    ensures CsrSet(v, m) & n == v & n
    ensures CsrClear(v, m) & n == v & n
  {
  }

  /** Disabling one capability leaves the bits of every other capability
      as they were. */
  lemma DisableFrame(c: Capability, o: Capability, v: bv64)
    requires c != o
    ensures Disable(c, v) & Mask(o) == v & Mask(o)
  {
    var m, n := Mask(c), Mask(o);
    assert m & n == 0 by { MasksDisjoint(c, o); }
    MaskFrame(v, m, n);
  }

  /** Enabling one capability leaves the bits of every other capability as
      they were. */
  lemma EnableFrame(c: Capability, o: Capability, v: bv64)
    requires c != o
    ensures Enable(c, v) & Mask(o) == v & Mask(o)
  {
    var m, n := Mask(c), Mask(o);
    assert m & n == 0 by { MasksDisjoint(c, o); }
    MaskFrame(v, m, n);
  }

  /** Disabling twice is disabling once. */
  lemma DisableIdempotent(c: Capability, v: bv64)
    ensures Disable(c, Disable(c, v)) == Disable(c, v)
  {
  }

  /** An enable after a disable gives back the original value exactly when
      the capability's bits were clear beforehand. */
  lemma EnableAfterDisable(c: Capability, v: bv64)
    ensures Enable(c, Disable(c, v)) == v <==> v & Mask(c) == 0
    ensures Enable(c, Disable(c, v)) == Enable(c, v)
  {
  }

  /** CSR 0x802 (CSR_SPEC) of the hart: the only control register the core
      toggles. Each method is one of the source's CSR accesses. */
  class SpecRegister {
    var value: bv64

    constructor (init: bv64)
      ensures value == init
    {
      value := init;
    }

    /** `read_csr`: CSRR returns the register, which is not written. */
    method ReadCsr() returns (v: bv64)
      ensures v == value
    {
      v := value;
    }

    /** `write_csr`: CSRW replaces the register. */
    method WriteCsr(v: bv64)
      modifies this
      ensures value == v
    {
      value := v;
    }

    /** `swap_csr`: CSRRW returns the old value and writes `v`. */
    method SwapCsr(v: bv64) returns (prev: bv64)
      modifies this
      ensures prev == old(value)
      ensures value == v
    {
      prev := value;
      value := v;
    }

    /** `set_csr`: CSRRS returns the old value and writes `old | bits`. */
    method SetCsr(bits: bv64) returns (prev: bv64)
      modifies this
      ensures prev == old(value)
      ensures value == CsrSet(old(value), bits)
    {
      prev := value;
      value := value | bits;
    }

    /** `clear_csr`: CSRRC returns the old value and writes `old & ~bits`. */
    method ClearCsr(bits: bv64) returns (prev: bv64)
      modifies this
      ensures prev == old(value)
      ensures value == CsrClear(old(value), bits)
    {
      prev := value;
      value := value & !bits;
    }

    /** `platform_disable_speculation`: read, OR in MSPEC_NONE, write back. */
    method DisableSpeculation()
      modifies this
      ensures value == Disable(Speculation, old(value))
    {
      var mspec := ReadCsr();
      mspec := mspec | MSPEC_NONE;
      WriteCsr(mspec);
    }

    /** `platform_enable_speculation`: read, AND with ~MSPEC_NONE, write back. */
    method EnableSpeculation()
      modifies this
      ensures value == Enable(Speculation, old(value))
    {
      var mspec := ReadCsr();
      mspec := mspec & !MSPEC_NONE;
      WriteCsr(mspec);
    }

    /** `platform_disable_predictors`: one CSRRS of NOTRAINPRED|NOUSEPRED. */
    method DisablePredictors()
      modifies this
      ensures value == Disable(Predictors, old(value))
    {
      var _ := SetCsr(MSPEC_NOTRAINPRED | MSPEC_NOUSEPRED);
    }

    /** `platform_enable_predictors`: one CSRRC of NOTRAINPRED|NOUSEPRED. */
    method EnablePredictors()
      modifies this
      ensures value == Enable(Predictors, old(value))
    {
      var _ := ClearCsr(MSPEC_NOTRAINPRED | MSPEC_NOUSEPRED);
    }

    /** `platform_disable_L1`: read, OR in MSPEC_NOUSEL1, write back. */
    method DisableL1()
      modifies this
      ensures value == Disable(L1, old(value))
    {
      var mspec := ReadCsr();
      mspec := mspec | MSPEC_NOUSEL1;
      WriteCsr(mspec);
    }

    /** `platform_enable_L1`: read, AND with ~MSPEC_NOUSEL1, write back. */
    method EnableL1()
      modifies this
      ensures value == Enable(L1, old(value))
    {
      var mspec := ReadCsr();
      mspec := mspec & !MSPEC_NOUSEL1;
      WriteCsr(mspec);
    }
  }
}
