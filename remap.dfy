/** Mapping the runtime library's code afresh from its file, which throws
    away any instructions patched into the loaded copy:
    RemapExecutableSegmentsForArt (app/src/main/cpp/main.cc) and the same
    steps at the end of the older JNI_OnLoad
    (app/src/main/cpp/disable_lsposed.cc). The system calls are inputs:
    `elf` is what the first `mmap` of the whole file returned, and `mmap`
    says what each segment mapping returns. */
module Remap {
  import opened Base
  import opened ArtMemory
  import NativeState

  /** ELF `PT_LOAD`, and the segment permission bits. */
  const PT_LOAD: u32 := 1
  const PF_X: u32 := 1
  const PF_W: u32 := 2
  const PF_R: u32 := 4

  /** Linux `mmap` protection bits. */
  const PROT_READ: nat := 1
  const PROT_EXEC: nat := 4

  /** The largest error code a raw system call returns, negated. */
  const MAX_ERRNO: nat := 4095

  /** The fields of a program header the loop reads. */
  datatype Phdr = Phdr(pType: u32, pFlags: u32, pOffset: u64, pVaddr: u64, pMemsz: u64, pAlign: u64)

  /** `p_flags & PF_X`, `p_flags & PF_W` and `p_flags & PF_R` are
      non-zero: bits 0, 1 and 2. */
  predicate Executable(p: Phdr) { p.pFlags % 2 == 1 }
  predicate Writable(p: Phdr) { (p.pFlags / 2) % 2 == 1 }
  predicate Readable(p: Phdr) { (p.pFlags / 4) % 2 == 1 }

  /** A loadable segment that is executable and not writable: code. */
  predicate Selected(p: Phdr)
  {
    p.pType == PT_LOAD && Executable(p) && !Writable(p)
  }

  /** `x & ~(a - 1)`: for a power-of-two `a`, the largest multiple of `a`
      not above `x`; an alignment of 0 masks everything away. */
  function AlignDown(x: nat, a: nat): nat
  {
    if a == 0 then 0 else x - x % a
  }

  /** `(x + a - 1) & ~(a - 1)`: for a power-of-two `a`, the least multiple
      of `a` not below `x`. */
  function AlignUp(x: nat, a: nat): nat
  {
    if a == 0 then 0 else AlignDown(x + a - 1, a)
  }

  lemma MulAtLeast(a: int, k: int)
    requires a > 0 && k >= 1
    ensures a * k >= a
  {
  }

  /** Euclidean division has one quotient and one remainder. */
  lemma DivModUnique(x: int, a: int, q: int, r: int)
    requires a > 0 && 0 <= r < a && x == a * q + r
    ensures x / a == q && x % a == r
  {
    var q' := x / a;
    if q > q' {
      MulAtLeast(a, q - q');
    } else if q < q' {
      MulAtLeast(a, q' - q);
    }
  }

  lemma AlignDownSpec(x: nat, a: nat)
    requires a > 0
    ensures AlignDown(x, a) <= x && AlignDown(x, a) % a == 0 && x - AlignDown(x, a) < a
  {
    DivModUnique(x - x % a, a, x / a, 0);
  }

  lemma AlignUpSpec(x: nat, a: nat)
    requires a > 0
    ensures x <= AlignUp(x, a) && AlignUp(x, a) % a == 0 && AlignUp(x, a) - x < a
  {
    AlignDownSpec(x + a - 1, a);
  }

  /** A raw system call's result is an error when it lies in the top 4095
      values of the pointer range (`>= -4095UL`). */
  predicate IsError(r: nat, arch: Arch)
  {
    r >= PtrModulus(arch) - MAX_ERRNO
  }

  /** A segment mapping: address, length, protection and file offset;
      the flags are always `MAP_PRIVATE | MAP_FIXED`. */
  datatype Request = Request(addr: nat, size: nat, prot: nat, offset: nat)

  /** The newer engine's protection: executable, readable when the
      segment is. */
  function MainProt(p: Phdr): nat
  {
    if Readable(p) then PROT_EXEC + PROT_READ else PROT_EXEC
  }

  /** The older engine always asks for `PROT_READ | PROT_EXEC`. */
  const LEGACY_PROT: nat := PROT_READ + PROT_EXEC

  /** The mapping asked for a segment of the library loaded at `base`. */
  function SegmentRequest(base: nat, p: Phdr, pageSize: nat, prot: nat, arch: Arch): Request
  {
    Request(AlignDown((base + p.pVaddr) % PtrModulus(arch), p.pAlign), AlignUp(p.pMemsz, pageSize), prot,
            AlignDown(p.pOffset, p.pAlign))
  }

  /** The request is aligned and covers the segment: its address and
      offset are the segment's rounded down to `p_align`, and its length is
      the memory size rounded up to whole pages. */
  lemma SegmentRequestCovers(base: nat, p: Phdr, pageSize: nat, prot: nat, arch: Arch)
    requires p.pAlign > 0 && pageSize > 0
    ensures
      var r := SegmentRequest(base, p, pageSize, prot, arch);
      && r.addr % p.pAlign == 0 && r.addr <= (base + p.pVaddr) % PtrModulus(arch)
      && (base + p.pVaddr) % PtrModulus(arch) - r.addr < p.pAlign
      && r.offset % p.pAlign == 0 && r.offset <= p.pOffset && p.pOffset - r.offset < p.pAlign
      && r.size % pageSize == 0 && p.pMemsz <= r.size < p.pMemsz + pageSize
  {
    AlignDownSpec((base + p.pVaddr) % PtrModulus(arch), p.pAlign);
    AlignDownSpec(p.pOffset, p.pAlign);
    AlignUpSpec(p.pMemsz, pageSize);
  }

  /** The requests the segment loop makes over the first `n` headers, in
      order, with the protection the engine chooses. */
  function Requests(phdrs: seq<Phdr>, base: nat, pageSize: nat, legacy: bool, arch: Arch, n: nat): (rs: seq<Request>)
    requires n <= |phdrs|
    ensures |rs| <= n
  {
    if n == 0 then []
    else
      var p := phdrs[n - 1];
      var prev := Requests(phdrs, base, pageSize, legacy, arch, n - 1);
      if !Selected(p) then prev
      else prev + [SegmentRequest(base, p, pageSize, if legacy then LEGACY_PROT else MainProt(p), arch)]
  }

  /** A request is made for a header exactly when it is selected. */
  lemma {:induction false} RequestsSpec(phdrs: seq<Phdr>, base: nat, pageSize: nat, legacy: bool, arch: Arch, n: nat, r: Request)
    requires n <= |phdrs|
    ensures r in Requests(phdrs, base, pageSize, legacy, arch, n) <==>
              exists i :: 0 <= i < n && Selected(phdrs[i])
                && r == SegmentRequest(base, phdrs[i], pageSize, if legacy then LEGACY_PROT else MainProt(phdrs[i]), arch)
  {
    if n > 0 {
      RequestsSpec(phdrs, base, pageSize, legacy, arch, n - 1, r);
      var prev := Requests(phdrs, base, pageSize, legacy, arch, n - 1);
      var p := phdrs[n - 1];
      if Selected(p) {
        var x := SegmentRequest(base, p, pageSize, if legacy then LEGACY_PROT else MainProt(p), arch);
        assert r in prev + [x] <==> r in prev || r == x;
      }
    }
  }

  /** Neither engine ever asks for a writable mapping. */
  lemma RequestsNotWritable(phdrs: seq<Phdr>, base: nat, pageSize: nat, legacy: bool, arch: Arch, n: nat, r: Request)
    requires n <= |phdrs| && r in Requests(phdrs, base, pageSize, legacy, arch, n)
    ensures (r.prot / 2) % 2 == 0
  {
    RequestsSpec(phdrs, base, pageSize, legacy, arch, n, r);
  }

  /** Whether some request succeeded. */
  predicate AnyMapped(rs: seq<Request>, mmap: Request -> nat, arch: Arch)
  {
    exists i :: 0 <= i < |rs| && !IsError(mmap(rs[i]), arch)
  }

  /** One more request succeeds overall iff it or an earlier one does. */
  lemma AnyMappedSnoc(rs: seq<Request>, x: Request, mmap: Request -> nat, arch: Arch)
    ensures AnyMapped(rs + [x], mmap, arch) <==> AnyMapped(rs, mmap, arch) || !IsError(mmap(x), arch)
  {
    var ext := rs + [x];
    if AnyMapped(ext, mmap, arch) {
      var i :| 0 <= i < |ext| && !IsError(mmap(ext[i]), arch);
      if i < |rs| {
        assert ext[i] == rs[i];
      }
    }
    if AnyMapped(rs, mmap, arch) {
      var i :| 0 <= i < |rs| && !IsError(mmap(rs[i]), arch);
      assert ext[i] == rs[i];
    }
    assert ext[|rs|] == x;
  }

  /** The requests a whole run makes: none when `dladdr` fails (`base` is
      None), the file does not open, or the file cannot be mapped. */
  function RunRequests(base: Option<nat>, fileOpen: bool, elf: nat, phdrs: seq<Phdr>, pageSize: nat, legacy: bool, arch: Arch): seq<Request>
  {
    if base.None? || !fileOpen || IsError(elf, arch) then []
    else Requests(phdrs, base.value, pageSize, legacy, arch, |phdrs|)
  }

  /** The segment loop: each selected header is mapped, and a mapping that
      succeeds sets `is_art_restored_`; `check` is the value the success
      test looks at, the segment mapping's own result when `checkElf` is
      false and the whole-file mapping's when it is true. */
  method MapSegments(globals: NativeState.Globals, base: nat, elf: nat, phdrs: seq<Phdr>, pageSize: nat,
                     legacy: bool, checkElf: bool, mmap: Request -> nat, arch: Arch)
    returns (calls: seq<Request>)
    modifies globals
    ensures calls == Requests(phdrs, base, pageSize, legacy, arch, |phdrs|)
    ensures !checkElf ==> globals.isArtRestored == (old(globals.isArtRestored) || AnyMapped(calls, mmap, arch))
    ensures checkElf ==> globals.isArtRestored == (old(globals.isArtRestored) || (calls != [] && !IsError(elf, arch)))
    ensures globals.unhookedMethods == old(globals.unhookedMethods)
    ensures globals.clearedCallbacks == old(globals.clearedCallbacks)
    ensures globals.frameworkName == old(globals.frameworkName)
    ensures globals.isLsposedDisabled == old(globals.isLsposedDisabled)
  {
    calls := [];
    for k := 0 to |phdrs|
      invariant calls == Requests(phdrs, base, pageSize, legacy, arch, k)
      invariant !checkElf ==> globals.isArtRestored == (old(globals.isArtRestored) || AnyMapped(calls, mmap, arch))
      invariant checkElf ==> globals.isArtRestored == (old(globals.isArtRestored) || (calls != [] && !IsError(elf, arch)))
      invariant globals.unhookedMethods == old(globals.unhookedMethods)
      invariant globals.clearedCallbacks == old(globals.clearedCallbacks)
      invariant globals.frameworkName == old(globals.frameworkName)
      invariant globals.isLsposedDisabled == old(globals.isLsposedDisabled)
    {
      var p := phdrs[k];
      if Selected(p) {
        var prot := if legacy then LEGACY_PROT else MainProt(p);
        var request := SegmentRequest(base, p, pageSize, prot, arch);
        var mapped := mmap(request);
        AnyMappedSnoc(calls, request, mmap, arch);
        calls := calls + [request];
        var ok := if checkElf then !IsError(elf, arch) else !IsError(mapped, arch);
        if ok {
          globals.isArtRestored := true;
        }
      }
    }
  }

  /** RemapExecutableSegmentsForArt: `is_art_restored_` ends set iff it
      was set or some segment mapping succeeded. */
  method RemapExecutableSegmentsForArt(globals: NativeState.Globals, base: Option<nat>, fileOpen: bool, elf: nat,
                                       phdrs: seq<Phdr>, pageSize: nat, mmap: Request -> nat, arch: Arch)
    returns (calls: seq<Request>)
    modifies globals
    ensures calls == RunRequests(base, fileOpen, elf, phdrs, pageSize, false, arch)
    ensures globals.isArtRestored == (old(globals.isArtRestored) || AnyMapped(calls, mmap, arch))
    ensures globals.unhookedMethods == old(globals.unhookedMethods)
    ensures globals.clearedCallbacks == old(globals.clearedCallbacks)
    ensures globals.frameworkName == old(globals.frameworkName)
    ensures globals.isLsposedDisabled == old(globals.isLsposedDisabled)
  {
    if base.None? || !fileOpen || IsError(elf, arch) {
      return [];
    }
    calls := MapSegments(globals, base.value, elf, phdrs, pageSize, false, false, mmap, arch);
  }

  // ---------------------------------------------------------------
  // The older engine

  /** Whether the older engine, as written, sets `is_art_restored_`: its
      test looks at the whole-file mapping, which has already passed, so
      any selected segment sets it whatever its own mapping returned. */
  predicate LegacyRestoresAsWritten(base: Option<nat>, fileOpen: bool, elf: nat, phdrs: seq<Phdr>, pageSize: nat, arch: Arch)
  {
    RunRequests(base, fileOpen, elf, phdrs, pageSize, true, arch) != []
  }

  /** The older engine's remap with the success test on the segment
      mapping, as in the newer engine: the flag is set iff a mapping
      succeeded. */
  method LegacyRemap(globals: NativeState.Globals, base: Option<nat>, fileOpen: bool, elf: nat,
                     phdrs: seq<Phdr>, pageSize: nat, mmap: Request -> nat, arch: Arch)
    returns (calls: seq<Request>)
    modifies globals
    ensures calls == RunRequests(base, fileOpen, elf, phdrs, pageSize, true, arch)
    ensures globals.isArtRestored == (old(globals.isArtRestored) || AnyMapped(calls, mmap, arch))
    ensures globals.unhookedMethods == old(globals.unhookedMethods)
    ensures globals.clearedCallbacks == old(globals.clearedCallbacks)
    ensures globals.frameworkName == old(globals.frameworkName)
    ensures globals.isLsposedDisabled == old(globals.isLsposedDisabled)
  {
    if base.None? || !fileOpen || IsError(elf, arch) {
      return [];
    }
    calls := MapSegments(globals, base.value, elf, phdrs, pageSize, true, false, mmap, arch);
  }

  /** The loop as written, with the test on `elf`: the flag follows
      LegacyRestoresAsWritten. */
  method LegacyRemapAsWritten(globals: NativeState.Globals, base: Option<nat>, fileOpen: bool, elf: nat,
                              phdrs: seq<Phdr>, pageSize: nat, mmap: Request -> nat, arch: Arch)
    returns (calls: seq<Request>)
    modifies globals
    ensures calls == RunRequests(base, fileOpen, elf, phdrs, pageSize, true, arch)
    ensures globals.isArtRestored
         == (old(globals.isArtRestored) || LegacyRestoresAsWritten(base, fileOpen, elf, phdrs, pageSize, arch))
    ensures globals.unhookedMethods == old(globals.unhookedMethods)
    ensures globals.clearedCallbacks == old(globals.clearedCallbacks)
    ensures globals.frameworkName == old(globals.frameworkName)
    ensures globals.isLsposedDisabled == old(globals.isLsposedDisabled)
  {
    if base.None? || !fileOpen || IsError(elf, arch) {
      return [];
    }
    calls := MapSegments(globals, base.value, elf, phdrs, pageSize, true, true, mmap, arch);
  }

  /** The corrected test claims success exactly when a mapping succeeded,
      the test as written whenever a mapping was attempted; so the two
      differ exactly when every attempted mapping failed. */
  lemma LegacyTestsDiffer(base: Option<nat>, fileOpen: bool, elf: nat, phdrs: seq<Phdr>, pageSize: nat,
                          mmap: Request -> nat, arch: Arch)
    ensures
      var calls := RunRequests(base, fileOpen, elf, phdrs, pageSize, true, arch);
      AnyMapped(calls, mmap, arch) ==> LegacyRestoresAsWritten(base, fileOpen, elf, phdrs, pageSize, arch)
    ensures
      var calls := RunRequests(base, fileOpen, elf, phdrs, pageSize, true, arch);
      (LegacyRestoresAsWritten(base, fileOpen, elf, phdrs, pageSize, arch) && !AnyMapped(calls, mmap, arch))
      <==> (calls != [] && forall i :: 0 <= i < |calls| ==> IsError(mmap(calls[i]), arch))
  {
  }

  /** A library with one code segment whose mapping fails with `-EPERM`:
      the test as written reports the code restored, the corrected test
      does not. */
  lemma FailedRemapReportedRestored()
    ensures
      var p := Phdr(PT_LOAD, PF_R + PF_X, 0, 0, 0x1000, 0x1000);
      var fail := (r: Request) => TWO64 - 1;
      && LegacyRestoresAsWritten(Some(0x7000_0000), true, 0x7100_0000, [p], 0x1000, Arm64)
      && !AnyMapped(RunRequests(Some(0x7000_0000), true, 0x7100_0000, [p], 0x1000, true, Arm64), fail, Arm64)
  {
    var p := Phdr(PT_LOAD, PF_R + PF_X, 0, 0, 0x1000, 0x1000);
    assert Selected(p);
    assert Requests([p], 0x7000_0000, 0x1000, true, Arm64, 1) != [];
  }

  /** Both engines ask for the same segments, at the same places; only
      the protection may differ. */
  lemma {:induction false} EnginesAskAlike(phdrs: seq<Phdr>, base: nat, pageSize: nat, arch: Arch, n: nat)
    requires n <= |phdrs|
    ensures |Requests(phdrs, base, pageSize, true, arch, n)| == |Requests(phdrs, base, pageSize, false, arch, n)|
    ensures forall i :: 0 <= i < |Requests(phdrs, base, pageSize, true, arch, n)| ==>
              Requests(phdrs, base, pageSize, true, arch, n)[i].(prot := 0)
              == Requests(phdrs, base, pageSize, false, arch, n)[i].(prot := 0)
  {
    if n > 0 {
      EnginesAskAlike(phdrs, base, pageSize, arch, n - 1);
    }
  }
}
