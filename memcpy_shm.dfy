/** The aligned-bulk `memcpy_shm` of memcpy_shm.c. Memory is one byte
    array indexed by address. When both pointers are word aligned the
    routine disables the predictors, copies whole `uintptr_t` words while
    a full word still fits, and re-enables them; the remaining bytes are
    copied one at a time with the predictors back on.

    Each store is recorded in a ghost trace together with whether the
    predictors were off (CSR 0x802 bits 2-3 set) at that moment, read from
    the register itself: the trace says which stores the bracket covers. */
module MemcpyShm {
  import opened PlatformControl

  /** `sizeof(uintptr_t)` on RV64. */
  const WORD: nat := 8

  /** Pointer values are 64-bit. */
  const POINTER_LIMIT: nat := 0x1_0000_0000_0000_0000

  /** One byte store: its address and whether the predictors were off. */
  datatype Store = Store(addr: nat, predictorsOff: bool)

  predicate PredictorsOff(v: bv64)
  {
    IsDisabled(Predictors, v)
  }

  // C's `|` and `&` on pointer values, written on naturals.

  function BitOr(a: nat, b: nat): nat
    decreases a + b
  {
    if a == 0 && b == 0 then 0
    else 2 * BitOr(a / 2, b / 2) + (if a % 2 == 1 || b % 2 == 1 then 1 else 0)
  }

  function BitAnd(a: nat, b: nat): nat
    decreases a + b
  {
    if a == 0 || b == 0 then 0
    else 2 * BitAnd(a / 2, b / 2) + (if a % 2 == 1 && b % 2 == 1 then 1 else 0)
  }

  /** The test `((uintptr_t)dest | (uintptr_t)src) & (sizeof(uintptr_t)-1)) == 0`. */
  predicate AlignedPair(dest: nat, src: nat)
  {
    BitAnd(BitOr(dest, src), WORD - 1) == 0
  }

  lemma OrStep(a: nat, b: nat)
    ensures BitOr(a, b) % 2 == (if a % 2 == 1 || b % 2 == 1 then 1 else 0)
    ensures BitOr(a, b) / 2 == BitOr(a / 2, b / 2)
  {
  }

  /** Masking with 7 keeps the remainder modulo 8. */
  lemma {:induction false} AndSeven(x: nat)
    ensures BitAnd(x, WORD - 1) == x % WORD
  {
    var y, z := x / 2, x / 4;
    assert BitAnd(z / 2, 0) == 0;
    assert BitAnd(z, 1) == z % 2;
    assert BitAnd(y, 3) == 2 * BitAnd(y / 2, 1) + y % 2;
    assert y / 2 == z;
    assert BitAnd(x, 7) == 4 * (z % 2) + 2 * (y % 2) + x % 2;
  }

  /** A natural is a multiple of 8 exactly when its three low bits are 0. */
  lemma ZeroLowBits(x: nat)
    ensures x % 8 == 0 <==> x % 2 == 0 && (x / 2) % 2 == 0 && (x / 4) % 2 == 0
    ensures x / 2 / 2 == x / 4
  {
    var q, r := x / 8, x % 8;
    assert x == 8 * q + r;
    assert x / 2 == 4 * q + r / 2;
    assert x / 4 == 2 * q + r / 4;
    assert x % 2 == r % 2;
  }

  /** The OR-and-mask test holds exactly when both addresses are multiples of
      the word size. */
  lemma {:induction false} AlignedPairIff(dest: nat, src: nat)
    ensures AlignedPair(dest, src) <==> dest % WORD == 0 && src % WORD == 0
  {
    var o := BitOr(dest, src);
    AndSeven(o);
    OrStep(dest, src);
    OrStep(dest / 2, src / 2);
    OrStep(dest / 4, src / 4);
    ZeroLowBits(o);
    ZeroLowBits(dest);
    ZeroLowBits(src);
    ZeroLowBits(dest / 2);
    ZeroLowBits(src / 2);
    assert o / 2 == BitOr(dest / 2, src / 2);
    assert o / 4 == BitOr(dest / 4, src / 4);
  }

  predicate Disjoint(dest: nat, src: nat, len: nat)
  {
    dest + len <= src || src + len <= dest
  }

  /** Memory after `dest[0..len)` has received `src[0..len)`. */
  function Copied(m: seq<bv8>, dest: nat, src: nat, len: nat): seq<bv8>
    requires dest + len <= |m| && src + len <= |m|
  {
    seq(|m|, i requires 0 <= i < |m| => if dest <= i < dest + len then m[src + (i - dest)] else m[i])
  }

  /** While the copy is under way the source bytes still hold their
      original values. */
  lemma CopiedSource(m: seq<bv8>, dest: nat, src: nat, n: nat, len: nat, j: nat)
    requires n <= len && dest + len <= |m| && src + len <= |m| && Disjoint(dest, src, len)
    requires j < len
    ensures Copied(m, dest, src, n)[src + j] == m[src + j]
  {
  }

  /** Storing the next `w` source bytes extends a copy of `n` bytes to one of
      `n + w` bytes. */
  lemma CopiedExtend(m: seq<bv8>, cur: seq<bv8>, next: seq<bv8>, dest: nat, src: nat, n: nat, w: nat, len: nat)
    requires n + w <= len && dest + len <= |m| && src + len <= |m| && Disjoint(dest, src, len)
    requires cur == Copied(m, dest, src, n) && |next| == |m|
    requires forall i :: 0 <= i < |m| && dest + n <= i < dest + n + w ==> next[i] == cur[src + (i - dest)]
    requires forall i :: 0 <= i < |m| && !(dest + n <= i < dest + n + w) ==> next[i] == cur[i]
    ensures next == Copied(m, dest, src, n + w)
  {
    var want := Copied(m, dest, src, n + w);
    var have := Copied(m, dest, src, n);
    forall i | 0 <= i < |m|
      ensures next[i] == want[i]
    {
      if dest + n <= i < dest + n + w {
        CopiedSource(m, dest, src, n, len, i - dest);
        assert next[i] == m[src + (i - dest)];
      } else if dest <= i < dest + n {
        assert next[i] == cur[i];
        assert have[i] == m[src + (i - dest)];
      } else {
        assert next[i] == cur[i];
        assert have[i] == m[i];
      }
    }
  }

  /** The number of bytes the word loop moves: the whole words in `len`. */
  function BulkBytes(len: nat): (b: nat)
    ensures b % WORD == 0 && b <= len < b + WORD
  {
    len - len % WORD
  }

  /** The word loop's guard `d < dest + len - (sizeof(uintptr_t)-1)`, with
      the pointer subtraction wrapping at 2^64 as the compiled code does. */
  predicate WordLoopGuardAsWritten(d: nat, dest: nat, len: nat)
  {
    d < (dest + len - (WORD - 1)) % POINTER_LIMIT
  }

  /** The guard as intended: a whole word still fits before `dest + len`. */
  predicate WordLoopGuard(d: nat, dest: nat, len: nat)
  {
    d + (WORD - 1) < dest + len
  }

  /** With a null destination and fewer than 7 bytes the subtraction wraps
      to 2^64 - 4: the written guard admits a word store past `dest + len`,
      and it holds at every word-aligned value of `d`, so the loop, which
      steps `d` by 8 and wraps at 2^64, never exits. */
  lemma WordLoopGuardWraps()
    ensures (0 + 3 - (WORD - 1)) % POINTER_LIMIT == POINTER_LIMIT - 4
    ensures WordLoopGuardAsWritten(0, 0, 3)
    ensures !WordLoopGuard(0, 0, 3) && 0 + WORD > 0 + 3
    ensures forall d: nat :: d < POINTER_LIMIT && d % WORD == 0 ==> WordLoopGuardAsWritten(d, 0, 3)
  {
    forall d: nat | d < POINTER_LIMIT && d % WORD == 0
      ensures WordLoopGuardAsWritten(d, 0, 3)
    {
      assert d <= POINTER_LIMIT - WORD;
    }
  }

  /** Whenever `dest + len` is at least 7 the two guards agree, and the
      intended guard only ever admits a store that ends by `dest + len`. */
  lemma WordLoopGuardAgrees(d: nat, dest: nat, len: nat)
    requires WORD - 1 <= dest + len < POINTER_LIMIT
    ensures WordLoopGuardAsWritten(d, dest, len) <==> WordLoopGuard(d, dest, len)
    ensures WordLoopGuard(d, dest, len) ==> d + WORD <= dest + len
  {
  }

  /** The eight byte stores of one word store at `d`. */
  function WordStores(d: nat, off: bool): (w: seq<Store>)
    ensures |w| == WORD
    ensures forall k :: 0 <= k < WORD ==> w[k] == Store(d + k, off)
  {
    seq(WORD, (k: int) requires 0 <= k => Store(d + k, off))
  }

  /** One `uintptr_t` store `*(uintptr_t*)d = *(const uintptr_t*)s`: the
      eight bytes at `d` receive the eight bytes at `s`. */
  method StoreWord(mem: array<bv8>, d: nat, s: nat)
    requires d + WORD <= mem.Length && s + WORD <= mem.Length
    modifies mem
    ensures forall i :: 0 <= i < mem.Length && d <= i < d + WORD ==> mem[..][i] == old(mem[..])[s + (i - d)]
    ensures forall i :: 0 <= i < mem.Length && !(d <= i < d + WORD) ==> mem[..][i] == old(mem[..])[i]
  {
    forall k | 0 <= k < WORD {
      mem[d + k] := mem[s + k];
    }
  }

  /** The word loop of memcpy.c: `*(uintptr_t*)d = *(const uintptr_t*)s`
      while a whole word still fits. It copies the whole words of `len`,
      each store with the predictors as the register says (here: off). */
  method CopyWords(mem: array<bv8>, spec: SpecRegister, dest: nat, src: nat, len: nat)
    returns (n: nat, ghost stores: seq<Store>)
    requires dest + len <= mem.Length && src + len <= mem.Length
    requires Disjoint(dest, src, len)
    requires PredictorsOff(spec.value)
    modifies mem
    ensures n == BulkBytes(len)
    ensures mem[..] == Copied(old(mem[..]), dest, src, n)
    ensures |stores| == n
    ensures forall k :: 0 <= k < n ==> stores[k] == Store(dest + k, true)
  {
    ghost var m0 := mem[..];
    var d, s := dest, src;
    stores := [];
    while WordLoopGuard(d, dest, len)
      invariant dest <= d <= dest + len && (d - dest) % WORD == 0
      invariant s == src + (d - dest)
      invariant mem[..] == Copied(m0, dest, src, d - dest)
      invariant |stores| == d - dest
      invariant forall k :: 0 <= k < |stores| ==> stores[k] == Store(dest + k, true)
      decreases dest + len - d
    {
      ghost var before := mem[..];
      StoreWord(mem, d, s);
      CopiedExtend(m0, before, mem[..], dest, src, d - dest, WORD, len);
      stores := stores + WordStores(d, PredictorsOff(spec.value));
      d, s := d + WORD, s + WORD;
    }
    n := d - dest;
  }

  /** The byte loop `while (d < (char*)(dest + len)) *d++ = *s++;`, entered
      with the first `from` bytes of the copy of `m0` done; each store is
      recorded with the predictor state the register holds. */
  method CopyBytes(mem: array<bv8>, spec: SpecRegister, ghost m0: seq<bv8>,
                   dest: nat, src: nat, from: nat, len: nat)
    returns (ghost stores: seq<Store>)
    requires from <= len && dest + len <= |m0| && src + len <= |m0|
    requires Disjoint(dest, src, len)
    requires mem[..] == Copied(m0, dest, src, from)
    modifies mem
    ensures mem[..] == Copied(m0, dest, src, len)
    ensures |stores| == len - from
    ensures forall k :: 0 <= k < len - from ==>
              stores[k] == Store(dest + from + k, PredictorsOff(spec.value))
  {
    var d, s := dest + from, src + from;
    stores := [];
    while d < dest + len
      invariant dest + from <= d <= dest + len
      invariant s == src + (d - dest)
      invariant mem[..] == Copied(m0, dest, src, d - dest)
      invariant |stores| == d - dest - from
      invariant forall k :: 0 <= k < |stores| ==>
                  stores[k] == Store(dest + from + k, PredictorsOff(spec.value))
    {
      ghost var before := mem[..];
      mem[d] := mem[s];
      CopiedExtend(m0, before, mem[..], dest, src, d - dest, 1, len);
      stores := stores + [Store(d, PredictorsOff(spec.value))];
      d, s := d + 1, s + 1;
    }
  }

  /** `memcpy_shm` (aligned-bulk variant), for a destination region that
      ends below 2^64 so that the end pointer `dest + len` does not wrap.
      Returns `dest`; afterwards
      `dest[0..len)` holds `src[0..len)` and no other byte changed. In the
      aligned case the predictor bits are set for every store of the word
      loop, clear for every tail store, and cleared in the register on
      return; in the unaligned case the register is untouched and every
      store runs with the predictors as the caller left them. */
  method MemcpyShm(mem: array<bv8>, spec: SpecRegister, dest: nat, src: nat, len: nat)
    returns (r: nat, ghost stores: seq<Store>)
    requires dest + len < POINTER_LIMIT && src < POINTER_LIMIT && src + len <= POINTER_LIMIT
    requires dest + len <= mem.Length && src + len <= mem.Length
    requires Disjoint(dest, src, len)
    modifies mem, spec
    ensures r == dest
    ensures mem[..] == Copied(old(mem[..]), dest, src, len)
    ensures spec.value == if dest % WORD == 0 && src % WORD == 0
                          then Enable(Predictors, Disable(Predictors, old(spec.value)))
                          else old(spec.value)
    ensures |stores| == len
    ensures forall k :: 0 <= k < len ==> stores[k].addr == dest + k
    ensures forall k :: 0 <= k < len ==>
              stores[k].predictorsOff == if dest % WORD == 0 && src % WORD == 0
                                         then k < BulkBytes(len)
                                         else PredictorsOff(old(spec.value))
  {
    ghost var m0 := mem[..];
    ghost var v0 := spec.value;
    assert Copied(m0, dest, src, 0) == m0;
    AlignedPairIff(dest, src);
    var bulk := 0;
    ghost var protected: seq<Store> := [];
    if AlignedPair(dest, src) {
      spec.DisablePredictors();
      ToggleEffect(Predictors, v0);
      bulk, protected := CopyWords(mem, spec, dest, src, len);
      spec.EnablePredictors();
      ToggleEffect(Predictors, Disable(Predictors, v0));
      assert !PredictorsOff(spec.value);
    }
    ghost var tail := CopyBytes(mem, spec, m0, dest, src, bulk, len);
    stores := protected + tail;
    r := dest;
  }
}
