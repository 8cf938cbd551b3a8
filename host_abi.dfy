/** The declarations the host side's ttp_api.h makes for the boundary:
    its copy of the function codes and of the `msg_t` and `key_entry_t`
    shapes. The request functions are declared there without bodies and
    are not part of this model. */
module HostAbi {
  import opened CDecl

  const F_KEY_AGREEMENT: int := 0x0
  const F_ADD_1: int := 0x1
  const F_MNIST_INIT: int := 0x2
  const F_MNIST: int := 0x3
  const F_EXIT: int := 0x20

  /** The codes in declaration order. */
  function Codes(): seq<int>
  {
    [F_KEY_AGREEMENT, F_ADD_1, F_MNIST_INIT, F_MNIST, F_EXIT]
  }

  function MsgT(): StructDecl
  {
    StructDecl("msg_t", [
      Field("f", Int, 1),
      Field("args", UIntPtr, 5),
      Field("ret", Int, 1),
      Field("done", Bool, 1)])
  }

  function KeyEntryT(): StructDecl
  {
    StructDecl("key_entry_t", [
      Field("public_key", Opaque("public_key_t"), 1),
      Field("shared_key", Opaque("symmetric_key_t"), 1),
      Field("stream_key", Opaque("stream_key_t"), 1),
      Field("nonce", Opaque("stream_nonce_t"), 1)])
  }
}
