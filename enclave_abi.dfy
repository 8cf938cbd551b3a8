/** The boundary ABI as the enclave's ttp_enclave_util.h fixes it: the
    function codes, the call envelope `msg_t` (code, five pointer-sized
    argument words, result, completion flag), the key entry shape, where
    the two shared queues sit, and the header's own copy of the CSR
    constants and predictor toggles. */
module EnclaveAbi {
  import opened CDecl
  import HostAbi
  import PlatformControl

  const F_KEY_AGREEMENT: int := 0x0
  const F_ADD_1: int := 0x1
  const F_MNIST_INIT: int := 0x2
  const F_MNIST: int := 0x3
  const F_EXIT: int := 0x20

  /** The operations a call envelope can name. */
  datatype FunctionCode = KeyAgreement | Add1 | MnistInit | Mnist | Exit

  function Code(f: FunctionCode): int
  {
    match f
    case KeyAgreement => F_KEY_AGREEMENT
    case Add1 => F_ADD_1
    case MnistInit => F_MNIST_INIT
    case Mnist => F_MNIST
    case Exit => F_EXIT
  }

  /** The codes in declaration order. */
  function Codes(): seq<int>
  {
    [F_KEY_AGREEMENT, F_ADD_1, F_MNIST_INIT, F_MNIST, F_EXIT]
  }

  /** No two operations share a code. */
  lemma CodesDistinct(f: FunctionCode, g: FunctionCode)
    requires f != g
    ensures Code(f) != Code(g)
  {
  }

  const ARG_WORDS: nat := 5

  function MsgT(): StructDecl
  {
    StructDecl("msg_t", [
      Field("f", Int, 1),
      Field("args", UIntPtr, ARG_WORDS),
      Field("ret", Int, 1),
      Field("done", Bool, 1)])
  }

  function KeyEntryT(): StructDecl
  {
    StructDecl("key_entry_t", [
      Field("public_key", Opaque("public_key_t"), 1),
      Field("shared_key", Opaque("symmetric_key_t"), 1),
      Field("stream_key", Opaque("stream_key_t"), 1),
      Field("nonce", Opaque("stream_nonce_t"), 1)])
  }

  /** `msg_t` is laid out as f at 0, args at 8 (after 4 bytes of padding),
      ret at 48 and done at 52, in 56 bytes; the completion flag is the
      last field. */
  lemma MsgTLayout()
    ensures AllLaidOut(MsgT().fields)
    ensures Place(MsgT().fields, 0) == [0, 8, 48, 52]
    ensures SizeOf(MsgT()) == 56
  {
    MsgTLaidOut();
    MsgTOffsets();
    MsgTSize();
  }

  /** The fields after the leading code. */
  function MsgTRest(): seq<Field> {
    [Field("args", UIntPtr, ARG_WORDS), Field("ret", Int, 1), Field("done", Bool, 1)]
  }

  lemma MsgTLaidOut()
    ensures AllLaidOut(MsgT().fields) && MsgT().fields[1..] == MsgTRest()
  {
    var fs := MsgT().fields;
    assert fs[1..] == MsgTRest();
    forall i | 0 <= i < |fs| ensures HasLayout(fs[i].ty) {
      if i > 0 {
        assert fs[i] == MsgTRest()[i - 1];
      }
    }
  }

  lemma MsgTOffsets()
    ensures AllLaidOut(MsgT().fields) && Place(MsgT().fields, 0) == [0, 8, 48, 52]
  {
    MsgTLaidOut();
    ArgsRetDoneLayout();
    var fs := MsgT().fields;
    assert AlignUp(0, TypeAlign(fs[0].ty)) + FieldSize(fs[0]) == 4;
    assert Place(fs, 0) == [0] + Place(MsgTRest(), 4);
    assert [0] + [8, 48, 52] == [0, 8, 48, 52];
  }

  lemma MsgTSize()
    ensures AllLaidOut(MsgT().fields) && SizeOf(MsgT()) == 56
  {
    MsgTLaidOut();
    ArgsRetDoneLayout();
    var fs := MsgT().fields;
    assert AlignUp(0, TypeAlign(fs[0].ty)) + FieldSize(fs[0]) == 4;
    assert PlaceEnd(fs, 0) == 53;
    assert MaxAlign(fs) == 8;
  }

  /** `args`, `ret` and `done` placed after the 4-byte code. */
  lemma ArgsRetDoneLayout()
    ensures var fs := MsgTRest();
            AllLaidOut(fs) && Place(fs, 4) == [8, 48, 52] && PlaceEnd(fs, 4) == 53 && MaxAlign(fs) == 8
  {
    var fs := MsgTRest();
    assert fs[1..] == [Field("ret", Int, 1), Field("done", Bool, 1)];
    RetDoneLayout();
  }

  lemma RetDoneLayout()
    ensures var fs := [Field("ret", Int, 1), Field("done", Bool, 1)];
            AllLaidOut(fs) && Place(fs, 48) == [48, 52] && PlaceEnd(fs, 48) == 53 && MaxAlign(fs) == 4
  {
    var fs := [Field("ret", Int, 1), Field("done", Bool, 1)];
    assert fs[1..] == [Field("done", Bool, 1)];
    var last := [Field("done", Bool, 1)];
    assert last[1..] == [];
    assert Place(last, 52) == [52] && PlaceEnd(last, 52) == 53 && MaxAlign(last) == 1;
  }

  /** The host header declares the same codes, in the same order, and the
      same envelope and key entry shapes. */
  lemma HeadersAgree()
    ensures Codes() == HostAbi.Codes()
    ensures MsgT() == HostAbi.MsgT()
    ensures KeyEntryT() == HostAbi.KeyEntryT()
  {
  }

  /** Base of the shared transport region. */
  const SHARED_MEM_REG: nat := 0x8a000000

  /** `SHARED_REQU_QUEUE`: the request queue opens the region. */
  function RequestQueue(): nat
  {
    SHARED_MEM_REG
  }

  /** `SHARED_RESP_QUEUE`: the response queue follows after one
      `sizeof(queue_t)`; the size comes from a header outside this model. */
  function ResponseQueue(queueSize: nat): nat
  {
    SHARED_MEM_REG + queueSize
  }

  predicate InQueue(addr: nat, base: nat, queueSize: nat)
  {
    base <= addr < base + queueSize
  }

  /** The two queues are back to back and, for a positive size, share no
      byte. */
  lemma QueuesBackToBack(queueSize: nat)
    ensures ResponseQueue(queueSize) == RequestQueue() + queueSize
    ensures forall a :: !(InQueue(a, RequestQueue(), queueSize) && InQueue(a, ResponseQueue(queueSize), queueSize))
  {
  }

  // The header's own copy of the CSR numbers and MSPEC bits.
  const CSR_MSPEC: nat := 0x7ca
  const CSR_SSPEC: nat := 0x190
  const CSR_SPEC: nat := 0x802
  const MSPEC_ALL: bv64 := 0
  const MSPEC_NONMEM: bv64 := 1
  const MSPEC_NONE: bv64 := 3
  const MSPEC_NOTRAINPRED: bv64 := 4
  const MSPEC_NOUSEPRED: bv64 := 8
  const MSPEC_NOUSEL1: bv64 := 16

  /** The copy agrees with platform_control_spec.h. */
  lemma ControlConstantsAgree()
    ensures CSR_MSPEC == PlatformControl.CSR_MSPEC && CSR_SSPEC == PlatformControl.CSR_SSPEC
    ensures CSR_SPEC == PlatformControl.CSR_SPEC
    ensures MSPEC_ALL == PlatformControl.MSPEC_ALL && MSPEC_NONMEM == PlatformControl.MSPEC_NONMEM
    ensures MSPEC_NONE == PlatformControl.MSPEC_NONE
    ensures MSPEC_NOTRAINPRED == PlatformControl.MSPEC_NOTRAINPRED
    ensures MSPEC_NOUSEPRED == PlatformControl.MSPEC_NOUSEPRED
    ensures MSPEC_NOUSEL1 == PlatformControl.MSPEC_NOUSEL1
  {
  }

  /** The header's `platform_disable_predictors`: a CSRRS of its own
      NOTRAINPRED|NOUSEPRED, which is the platform layer's disable. */
  method DisablePredictors(spec: PlatformControl.SpecRegister)
    modifies spec
    ensures spec.value == PlatformControl.Disable(PlatformControl.Predictors, old(spec.value))
  {
    var _ := spec.SetCsr(MSPEC_NOTRAINPRED | MSPEC_NOUSEPRED);
  }

  /** The header's `platform_enable_predictors`: a CSRRC of the same bits. */
  method EnablePredictors(spec: PlatformControl.SpecRegister)
    modifies spec
    ensures spec.value == PlatformControl.Enable(PlatformControl.Predictors, old(spec.value))
  {
    var _ := spec.ClearCsr(MSPEC_NOTRAINPRED | MSPEC_NOUSEPRED);
  }
}
