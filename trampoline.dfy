/** GetLSPEntryMethod (app/src/main/cpp/main.cc): recognise the stub an
    LSPlant hook installs as a method's entry point and fetch the hooker's
    ArtMethod pointer that the stub loads. The stub is searched for at
    the first 8 instruction words (ARM, AArch64, RISC-V) or the first 32
    bytes (x86, x86-64) of the entry point. */
module Trampoline {
  import opened Base
  import opened ArtMemory

  /** How many start positions the architecture's loop tries. */
  function Window(arch: Arch): nat
  {
    if arch == X86 || arch == X86_64 then 32 else 8
  }

  /** The `k`-th 32-bit instruction word after `entry`. */
  function Insn(m: Words, entry: int, k: nat): u32
  {
    Word(m, entry + 4 * k)
  }

  /** The `k`-th code byte after `entry`. */
  function CodeByte(m: Words, entry: int, k: nat): u8
  {
    Byte(m, entry + k)
  }

  /** ldr x0, #12; ldr x16, [x0, #...]; br x16. The mask 0xFFF00FFF on
      the middle word keeps bits 31-20 and 11-0, so `(w1 & 0xFFF00FFF) ==
      0xF8400010` says those bit ranges hold 0xF84 and 0x010. */
  predicate Arm64Stub(w0: u32, w1: u32, w2: u32)
  {
    w0 == 0x5800_0060 && w1 / 0x10_0000 == 0xF84 && w1 % 0x1000 == 0x010 && w2 == 0xD61F_0200
  }

  /** ldr r0, [pc]; ldr pc, [r0, #...]. The mask 0xFFFFFF00 keeps bits
      31-8, so `(w1 & 0xFFFFFF00) == 0xE590FF00` says they hold 0xE590FF. */
  predicate ArmStub(w0: u32, w1: u32)
  {
    w0 == 0xE59F_0000 && w1 / 0x100 == 0xE5_90FF
  }

  /** auipc a0, 0; ld a0, 16(a0); ld t6, ...(a0); jr t6. The mask
      0xF00FFFFF keeps bits 31-28 and 19-0, so `(w2 & 0xF00FFFFF) ==
      0x00053F83` says they hold 0 and 0x53F83. */
  predicate RiscVStub(w0: u32, w1: u32, w2: u32, w3: u32)
  {
    w0 == 0x0000_0517 && w1 == 0x0105_3503 && w2 / 0x1000_0000 == 0 && w2 % 0x10_0000 == 0x5_3F83
    && w3 == 0x000F_8067
  }

  /** mov eax, imm32; push [eax + disp8]; ret */
  predicate X86Stub(b0: u8, b5: u8, b6: u8, b8: u8)
  {
    b0 == 0xB8 && b5 == 0xFF && b6 == 0x70 && b8 == 0xC3
  }

  /** movabs rdi, imm64; push [rdi + disp8]; ret */
  predicate X86_64Stub(b0: u8, b1: u8, b10: u8, b11: u8, b13: u8)
  {
    b0 == 0x48 && b1 == 0xBF && b10 == 0xFF && b11 == 0x77 && b13 == 0xC3
  }

  /** Whether the stub starts at position `i`. */
  predicate MatchAt(m: Words, entry: int, arch: Arch, i: nat)
  {
    match arch
    case Arm64 => Arm64Stub(Insn(m, entry, i), Insn(m, entry, i + 1), Insn(m, entry, i + 2))
    case Arm => ArmStub(Insn(m, entry, i), Insn(m, entry, i + 1))
    case X86 =>
      X86Stub(CodeByte(m, entry, i), CodeByte(m, entry, i + 5), CodeByte(m, entry, i + 6), CodeByte(m, entry, i + 8))
    case X86_64 =>
      X86_64Stub(CodeByte(m, entry, i), CodeByte(m, entry, i + 1), CodeByte(m, entry, i + 10),
                 CodeByte(m, entry, i + 11), CodeByte(m, entry, i + 13))
    case RiscV64 =>
      RiscVStub(Insn(m, entry, i), Insn(m, entry, i + 1), Insn(m, entry, i + 2), Insn(m, entry, i + 3))
  }

  /** The pointer the stub at `i` loads: the literal right after the
      matched instructions (an unaligned immediate on x86). */
  function StoredPointer(m: Words, entry: int, arch: Arch, i: nat): (p: nat)
    ensures p < PtrModulus(arch)
  {
    match arch
    case Arm64 => Ptr(m, entry + 4 * (i + 3), arch)
    case Arm => Ptr(m, entry + 4 * (i + 2), arch)
    case X86 => Load32LE(m, entry + i + 1)
    case X86_64 => Load64LE(m, entry + i + 2)
    case RiscV64 => Ptr(m, entry + 4 * (i + 4), arch)
  }

  /** The first position from `i` on where the stub starts. */
  function FirstMatch(m: Words, entry: int, arch: Arch, i: nat): (r: Option<nat>)
    requires i <= Window(arch)
    ensures r.Some? ==> i <= r.value < Window(arch) && MatchAt(m, entry, arch, r.value)
    ensures r.Some? ==> forall j :: i <= j < r.value ==> !MatchAt(m, entry, arch, j)
    ensures r.None? ==> forall j :: i <= j < Window(arch) ==> !MatchAt(m, entry, arch, j)
    decreases Window(arch) - i
  {
    if i == Window(arch) then None
    else if MatchAt(m, entry, arch, i) then Some(i)
    else FirstMatch(m, entry, arch, i + 1)
  }

  /** GetLSPEntryMethod: the hooker ArtMethod of the first stub found, or
      null when the entry point is not a stub. */
  function GetLSPEntryMethod(m: Words, entry: int, arch: Arch): (p: nat)
    ensures p < PtrModulus(arch)
    ensures (forall j :: 0 <= j < Window(arch) ==> !MatchAt(m, entry, arch, j)) ==> p == 0
  {
    match FirstMatch(m, entry, arch, 0)
    case None => 0
    case Some(i) => StoredPointer(m, entry, arch, i)
  }

  /** The pointer returned is the one stored after the first position
      where the stub matches. */
  lemma GetLSPEntryMethodSpec(m: Words, entry: int, arch: Arch, i: nat)
    requires i < Window(arch) && MatchAt(m, entry, arch, i)
    requires forall j :: 0 <= j < i ==> !MatchAt(m, entry, arch, j)
    ensures GetLSPEntryMethod(m, entry, arch) == StoredPointer(m, entry, arch, i)
  {
    var r := FirstMatch(m, entry, arch, 0);
    assert r.Some?;
  }

  /** GetLSPEntryMethod's `for` loop over the start positions, returning
      at the first one where every instruction check passes. */
  method FindLSPEntryMethod(mem: Memory, entry: int, arch: Arch) returns (p: nat)
    ensures p == GetLSPEntryMethod(mem.words, entry, arch)
  {
    for i := 0 to Window(arch)
      invariant FirstMatch(mem.words, entry, arch, i) == FirstMatch(mem.words, entry, arch, 0)
    {
      if MatchAt(mem.words, entry, arch, i) {
        return StoredPointer(mem.words, entry, arch, i);
      }
    }
    return 0;
  }

  /** The stub's first fixed instruction word (its first byte on x86
      and x86-64) at position `i`. */
  predicate OpensStub(m: Words, entry: int, arch: Arch, i: nat)
  {
    match arch
    case Arm64 => Insn(m, entry, i) == 0x5800_0060
    case Arm => Insn(m, entry, i) == 0xE59F_0000
    case X86 => CodeByte(m, entry, i) == 0xB8
    case X86_64 => CodeByte(m, entry, i) == 0x48
    case RiscV64 => Insn(m, entry, i) == 0x0000_0517
  }

  /** An entry point none of whose window positions starts with the
      stub's first instruction is not a stub: ordinary compiled code gives
      null. */
  lemma NoOpeningNoStub(m: Words, entry: int, arch: Arch)
    requires forall i :: 0 <= i < Window(arch) ==> !OpensStub(m, entry, arch, i)
    ensures GetLSPEntryMethod(m, entry, arch) == 0
  {
    forall j | 0 <= j < Window(arch) ensures !MatchAt(m, entry, arch, j) {
      assert !OpensStub(m, entry, arch, j);
    }
  }
}
