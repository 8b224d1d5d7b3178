/** Live ART memory, seen the way the repair code sees it: 32-bit words
    at byte addresses, read as `uint32_t`, `uint64_t`, pointers or bytes,
    and written by plain stores and `memcpy`. Memory nobody wrote reads 0. */
module ArtMemory {
  import opened Base

  /** The architectures the native library is built for. */
  datatype Arch = Arm64 | Arm | X86 | X86_64 | RiscV64

  /** `sizeof(void*)`, which is also `sizeof(size_t)` and `sizeof(uintptr_t)`. */
  function PtrSize(arch: Arch): nat
  {
    if arch == Arm || arch == X86 then 4 else 8
  }

  /** The modulus of a pointer-sized unsigned integer. */
  function PtrModulus(arch: Arch): (n: nat)
    ensures n == TWO32 || n == TWO64
  {
    if PtrSize(arch) == 8 then TWO64 else TWO32
  }

  type Words = map<int, u32>

  /** The 32-bit word stored at byte address `a`. */
  function Word(m: Words, a: int): u32
  {
    if a in m then m[a] else 0
  }

  /** A little-endian 64-bit load: the word at `a` is the low half. */
  function Word64(m: Words, a: int): (v: u64)
    ensures v % TWO32 == Word(m, a) && v / TWO32 == Word(m, a + 4)
  {
    Word(m, a) + Word(m, a + 4) * TWO32
  }

  /** A load of a pointer-sized value (`uintptr_t`, `size_t`, `void*`). */
  function Ptr(m: Words, a: int, arch: Arch): (v: nat)
    ensures v < PtrModulus(arch)
    ensures PtrSize(arch) == 4 ==> v == Word(m, a)
    ensures PtrSize(arch) == 8 ==> v % TWO32 == Word(m, a) && v / TWO32 == Word(m, a + 4)
  {
    if PtrSize(arch) == 8 then Word64(m, a) else Word(m, a)
  }

  /** Byte `k` (0 = least significant) of the word `w`. */
  function ByteOf(w: u32, k: nat): (b: u8)
    requires k < 4
  {
    if k == 0 then w % 0x100
    else if k == 1 then (w / 0x100) % 0x100
    else if k == 2 then (w / 0x1_0000) % 0x100
    else w / 0x100_0000
  }

  /** The byte at address `a`, taken little-endian from the aligned word
      that holds it. */
  function Byte(m: Words, a: int): (b: u8)
  {
    ByteOf(Word(m, a - a % 4), a % 4)
  }

  /** Four bytes read little-endian from `a` (an unaligned 32-bit load). */
  function Load32LE(m: Words, a: int): (v: u32)
  {
    Byte(m, a) + 0x100 * Byte(m, a + 1) + 0x1_0000 * Byte(m, a + 2) + 0x100_0000 * Byte(m, a + 3)
  }

  /** Eight bytes read little-endian from `a` (an unaligned 64-bit load). */
  function Load64LE(m: Words, a: int): (v: u64)
  {
    Load32LE(m, a) + TWO32 * Load32LE(m, a + 4)
  }

  // ---------------------------------------------------------------
  // memcpy

  /** Whether `a` is the address of one of the `n` words starting at `dst`. */
  predicate InBlock(a: int, dst: int, n: nat)
  {
    dst <= a < dst + 4 * n && (a - dst) % 4 == 0
  }

  /** `m` with the first `n` words at `dst` replaced by the words of
      `src` starting at `s`. */
  function CopyFrom(m: Words, src: Words, dst: int, s: int, n: nat): Words
    decreases n
  {
    if n == 0 then m
    else CopyFrom(m, src, dst, s, n - 1)[dst + 4 * (n - 1) := Word(src, s + 4 * (n - 1))]
  }

  /** `memcpy(dst, s, 4 * n)`: the source is read as it was before the copy. */
  function Copied(m: Words, dst: int, s: int, n: nat): Words
  {
    CopyFrom(m, m, dst, s, n)
  }

  lemma {:induction false} CopyFromSpec(m: Words, src: Words, dst: int, s: int, n: nat, a: int)
    ensures Word(CopyFrom(m, src, dst, s, n), a)
         == if InBlock(a, dst, n) then Word(src, s + (a - dst)) else Word(m, a)
    decreases n
  {
    if n > 0 {
      CopyFromSpec(m, src, dst, s, n - 1, a);
      if a == dst + 4 * (n - 1) {
        assert InBlock(a, dst, n);
      } else if InBlock(a, dst, n) {
        assert InBlock(a, dst, n - 1);
      }
    }
  }

  /** After the copy each word of the block holds the matching source word
      and every other address keeps its word. */
  lemma {:induction false} CopiedSpec(m: Words, dst: int, s: int, n: nat)
    ensures forall a :: InBlock(a, dst, n) ==> Word(Copied(m, dst, s, n), a) == Word(m, s + (a - dst))
    ensures forall a :: !InBlock(a, dst, n) ==> Word(Copied(m, dst, s, n), a) == Word(m, a)
  {
    forall a
      ensures InBlock(a, dst, n) ==> Word(Copied(m, dst, s, n), a) == Word(m, s + (a - dst))
      ensures !InBlock(a, dst, n) ==> Word(Copied(m, dst, s, n), a) == Word(m, a)
    {
      CopyFromSpec(m, m, dst, s, n, a);
    }
  }

  /** The process's memory, changed in place by stores and copies. */
  class Memory {
    var words: Words

    constructor (contents: Words)
      ensures words == contents
    {
      words := contents;
    }

    /** `*reinterpret_cast<uint32_t*>(a) = v`. */
    method Store(a: int, v: u32)
      modifies this
      ensures words == old(words)[a := v]
      ensures Word(words, a) == v
      ensures forall b :: b != a ==> Word(words, b) == Word(old(words), b)
    {
      words := words[a := v];
    }

    /** `memcpy(dst, s, 4 * n)`. */
    method Copy(dst: int, s: int, n: nat)
      modifies this
      ensures words == Copied(old(words), dst, s, n)
    {
      words := Copied(words, dst, s, n);
    }
  }
}
