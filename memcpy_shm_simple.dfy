/** The simple `memcpy_shm` of memcpy_shm_simple.c: nothing happens when
    the 64-bit end pointer `src + len` is not after `src`; otherwise the predictors are disabled
    once, every byte is copied while `s < end` with `end = src + len`, and
    the predictors are re-enabled. The loop advances `s` and `d` together,
    so the bytes written are exactly `dest[0..len)`. */
module MemcpyShmSimple {
  import opened PlatformControl
  import opened MemcpyShm

  /** `while (s < end) *d++ = *s++;` with `end = src + len`, entered with the
      first `from` bytes of the copy of `m0` done. */
  method CopyToEnd(mem: array<bv8>, spec: SpecRegister, ghost m0: seq<bv8>,
                   dest: nat, src: nat, from: nat, len: nat)
    returns (ghost stores: seq<Store>)
    requires from <= len && dest + len <= |m0| && src + len <= |m0|
    requires Disjoint(dest, src, len)
    requires mem[..] == Copied(m0, dest, src, from)
    modifies mem
    ensures mem[..] == Copied(m0, dest, src, len)
    ensures |stores| == len - from
    ensures forall k :: 0 <= k < len - from ==>
              stores[k] == Store(dest + from + k, PredictorsOff(spec.value))
  {
    var end := src + len;
    var s, d := src + from, dest + from;
    stores := [];
    while s < end
      invariant src + from <= s <= end
      invariant d == dest + (s - src)
      invariant mem[..] == Copied(m0, dest, src, s - src)
      invariant |stores| == s - src - from
      invariant forall k :: 0 <= k < |stores| ==>
                  stores[k] == Store(dest + from + k, PredictorsOff(spec.value))
    {
      ghost var before := mem[..];
      mem[d] := mem[s];
      CopiedExtend(m0, before, mem[..], dest, src, s - src, 1, len);
      stores := stores + [Store(d, PredictorsOff(spec.value))];
      d, s := d + 1, s + 1;
    }
  }

  /** The source region ends strictly after it starts: `len` is not zero
      and `src + len` stays below 2^64. */
  predicate EndIsAfterSource(src: nat, len: nat) {
    len != 0 && src + len < POINTER_LIMIT
  }

  /** `end = src + len` as a 64-bit pointer is after `src` exactly when the
      region is non-empty and does not reach 2^64, where the sum wraps. */
  lemma {:induction false} EndAfterSource(src: nat, len: nat)
    requires src < POINTER_LIMIT && len < POINTER_LIMIT
    ensures src < (src + len) % POINTER_LIMIT <==> EndIsAfterSource(src, len)
  {
    if src + len < POINTER_LIMIT {
      assert (src + len) % POINTER_LIMIT == src + len;
    } else {
      assert (src + len) % POINTER_LIMIT == src + len - POINTER_LIMIT;
    }
  }

  /** `memcpy_shm` (simple variant). Returns `dest`. Where the end pointer
      `src + len` is not after `src` (a zero length, or a source region
      whose end wraps past 2^64) neither memory nor the register is
      touched. Otherwise `dest[0..len)` holds `src[0..len)` afterwards, no
      other byte changed, every store runs with the predictors off and they
      are cleared on return. */
  method MemcpyShmSimple(mem: array<bv8>, spec: SpecRegister, dest: nat, src: nat, len: nat)
    returns (r: nat, ghost stores: seq<Store>)
    requires dest < POINTER_LIMIT && src < POINTER_LIMIT && len < POINTER_LIMIT
    requires EndIsAfterSource(src, len) ==>
               && dest + len <= POINTER_LIMIT && dest + len <= mem.Length && src + len <= mem.Length
               && Disjoint(dest, src, len)
    modifies mem, spec
    ensures r == dest
    ensures !EndIsAfterSource(src, len) ==>
              mem[..] == old(mem[..]) && spec.value == old(spec.value) && stores == []
    ensures EndIsAfterSource(src, len) ==>
              && mem[..] == Copied(old(mem[..]), dest, src, len)
              && spec.value == Enable(Predictors, Disable(Predictors, old(spec.value)))
              && |stores| == len
    ensures forall k :: 0 <= k < |stores| ==> stores[k] == Store(dest + k, true)
  {
    var s, end := src, (src + len) % POINTER_LIMIT;
    EndAfterSource(src, len);
    if s >= end {
      stores := [];
      return dest, stores;
    }
    ghost var m0 := mem[..];
    assert Copied(m0, dest, src, 0) == m0;
    spec.DisablePredictors();
    ToggleEffect(Predictors, old(spec.value));
    stores := CopyToEnd(mem, spec, m0, dest, src, 0, len);
    spec.EnablePredictors();
    r := dest;
  }

  /** Both variants leave the same bytes behind for the same non-overlapping
      arguments whose regions end below 2^64: run on two memories with equal
      contents, the results are equal. */
  method VariantsAgree(m1: array<bv8>, m2: array<bv8>, spec: SpecRegister,
                       dest: nat, src: nat, len: nat)
    requires m1 != m2 && m1[..] == m2[..]
    requires dest + len < POINTER_LIMIT && src + len < POINTER_LIMIT
    requires dest + len <= m1.Length && src + len <= m1.Length
    requires Disjoint(dest, src, len)
    modifies m1, m2, spec
    ensures m1[..] == m2[..] == Copied(old(m1[..]), dest, src, len)
  {
    assert len == 0 ==> Copied(m1[..], dest, src, len) == m1[..];
    var r1, _ := MemcpyShm.MemcpyShm(m1, spec, dest, src, len);
    var r2, _ := MemcpyShmSimple(m2, spec, dest, src, len);
  }
}
