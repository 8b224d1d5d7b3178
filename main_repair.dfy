/** The repair half of JNI_OnLoad in app/src/main/cpp/main.cc: the
    ArtMethod size probe, the visitor that copies a hooked method's live
    ArtMethod back over the original in its class's method table, and
    VisitJNIGlobalReferences, which hands the visitor every JNI global
    reference. */
module MainRepair {
  import opened Base
  import opened ArtMemory
  import opened ArtMethods
  import Trampoline
  import NativeState
  import RefTables
  import MapsEntry
  import ObjectReference

  /** `kAccSynthetic`. */
  const ACC_SYNTHETIC: u32 := 0x1000

  /** `access_flags |= 0x1000`, written arithmetically: bit 12 is added
      when it is clear. */
  function WithSynthetic(flags: u32): (r: u32)
    ensures (r / ACC_SYNTHETIC) % 2 == 1
    ensures r % ACC_SYNTHETIC == flags % ACC_SYNTHETIC
    ensures r / (2 * ACC_SYNTHETIC) == flags / (2 * ACC_SYNTHETIC)
    ensures (flags / ACC_SYNTHETIC) % 2 == 1 ==> r == flags
  {
    if (flags / ACC_SYNTHETIC) % 2 == 1 then flags else flags + ACC_SYNTHETIC
  }

  /** The hooked method's entry point: the last pointer of its ArtMethod. */
  function EntryPoint(m: Words, l: Layout, t: Target): nat
  {
    Ptr(m, UPtr(t.artMethod + l.methodSize - PtrSize(l.arch), l.arch), l.arch)
  }

  /** Whether the entry point still runs an LSPlant trampoline. */
  predicate StillHooked(m: Words, l: Layout, t: Target)
  {
    Trampoline.GetLSPEntryMethod(m, EntryPoint(m, l, t), l.arch) != 0
  }

  /** The `memcpy` of the live ArtMethod over the original at `orig`,
      followed by the store of the original's access flags. */
  function Restored(m: Words, l: Layout, t: Target, orig: nat): Words
  {
    Copied(m, orig, t.artMethod, l.methodSize / 4)[orig + 4 := Word(m, orig + 4)]
  }

  /** The visitor's work once the original at `orig` is found, given
      whether the trampoline is still in place: the memory afterwards and
      the record. */
  function RepairAt(m: Words, l: Layout, t: Target, orig: nat, hooked: bool): (Words, Unhooked)
  {
    if hooked then (m, Unhooked(t.targetClass, orig, WithSynthetic(Word(m, orig + 4))))
    else (Restored(m, l, t, orig), Unhooked(t.targetClass, orig, Word(m, orig + 4)))
  }

  /** One call of the visitor on the global reference `ref`: the memory
      afterwards and the record pushed, if any. */
  function Repair(m: Words, l: Layout, ref: u32): (Words, Option<Unhooked>)
  {
    match Resolve(m, l, ref)
    case None => (m, None)
    case Some(t) =>
      match FirstOriginal(m, l, t, 0)
      case None => (m, None)
      case Some(j) =>
        var r := RepairAt(m, l, t, MethodAt(l, t.methods, j), StillHooked(m, l, t));
        (r.0, Some(r.1))
  }

  /** The visitor does nothing exactly when the reference does not resolve
      or no method of the owning class has the hooked method's index. */
  lemma RepairSkips(m: Words, l: Layout, ref: u32)
    ensures Repair(m, l, ref).1.None? <==>
              Resolve(m, l, ref).None? || FirstOriginal(m, l, Resolve(m, l, ref).value, 0).None?
    ensures Repair(m, l, ref).1.None? ==> Repair(m, l, ref).0 == m
  {
  }

  /** After the copy and the flag store, the original reads word for word
      like the live ArtMethod except for its access-flags word, which it
      keeps, and every other word is unchanged. */
  lemma RestoredSpec(m: Words, l: Layout, t: Target, orig: nat, a: int)
    ensures Word(Restored(m, l, t, orig), a)
         == if a == orig + 4 then Word(m, a)
            else if InBlock(a, orig, l.methodSize / 4) then Word(m, t.artMethod + (a - orig))
            else Word(m, a)
  {
    CopyFromSpec(m, m, orig, t.artMethod, l.methodSize / 4, a);
  }

  /** When the original is found the record names the owning class and the
      original's address, and carries the original's access flags, with
      the synthetic bit added when a trampoline is still in place. */
  lemma RepairFoundRecord(m: Words, l: Layout, ref: u32)
    requires Resolve(m, l, ref).Some?
    requires FirstOriginal(m, l, Resolve(m, l, ref).value, 0).Some?
    ensures
      var t := Resolve(m, l, ref).value;
      var orig := MethodAt(l, t.methods, FirstOriginal(m, l, t, 0).value);
      Repair(m, l, ref).1 == Some(Unhooked(t.targetClass, orig,
        if StillHooked(m, l, t) then WithSynthetic(Word(m, orig + 4)) else Word(m, orig + 4)))
  {
  }

  /** With a trampoline still in place nothing is written; otherwise the
      original is restored. */
  lemma RepairFoundMemory(m: Words, l: Layout, ref: u32)
    requires Resolve(m, l, ref).Some?
    requires FirstOriginal(m, l, Resolve(m, l, ref).value, 0).Some?
    ensures
      var t := Resolve(m, l, ref).value;
      var orig := MethodAt(l, t.methods, FirstOriginal(m, l, t, 0).value);
      Repair(m, l, ref).0 == if StillHooked(m, l, t) then m else Restored(m, l, t, orig)
  {
  }

  /** The visitor from the point where the original is found. */
  method RepairFound(mem: Memory, globals: NativeState.Globals, l: Layout, t: Target, orig: nat)
    modifies mem, globals
    ensures mem.words == RepairAt(old(mem.words), l, t, orig, StillHooked(old(mem.words), l, t)).0
    ensures globals.unhookedMethods
         == old(globals.unhookedMethods) + [RepairAt(old(mem.words), l, t, orig, StillHooked(old(mem.words), l, t)).1]
    ensures globals.OnlyUnhookedChanged()
  {
    var flags := Word(mem.words, orig + 4);
    var hooker := Trampoline.FindLSPEntryMethod(mem, EntryPoint(mem.words, l, t), l.arch);
    if hooker == 0 {
      mem.Copy(orig, t.artMethod, l.methodSize / 4);
      mem.Store(orig + 4, flags);
      globals.unhookedMethods := globals.unhookedMethods + [Unhooked(t.targetClass, orig, flags)];
    } else {
      globals.unhookedMethods := globals.unhookedMethods + [Unhooked(t.targetClass, orig, WithSynthetic(flags))];
    }
  }

  /** The visitor: RepairReference reads, writes and records exactly as
      `Repair` says. */
  method RepairReference(mem: Memory, globals: NativeState.Globals, l: Layout, ref: u32)
    modifies mem, globals
    ensures mem.words == Repair(old(mem.words), l, ref).0
    ensures globals.unhookedMethods == old(globals.unhookedMethods) + AsSeq(Repair(old(mem.words), l, ref).1)
    ensures globals.OnlyUnhookedChanged()
  {
    var t := Resolve(mem.words, l, ref);
    if t.None? {
      return;
    }
    var j := FindOriginal(mem, l, t.value);
    if j.None? {
      return;
    }
    RepairFound(mem, globals, l, t.value, MethodAt(l, t.value.methods, j.value));
  }

  /** An optional record as the zero or one elements it pushes. */
  function AsSeq(r: Option<Unhooked>): seq<Unhooked>
  {
    if r.Some? then [r.value] else []
  }

  // ---------------------------------------------------------------
  // Visiting every global reference

  /** Memory and the records after a run of visits. */
  datatype Outcome = Outcome(words: Words, unhooked: seq<Unhooked>)

  /** One visit on top of an outcome. */
  function Then(o: Outcome, l: Layout, ref: u32): (r: Outcome)
    ensures o.unhooked <= r.unhooked && |r.unhooked| <= |o.unhooked| + 1
  {
    var step := Repair(o.words, l, ref);
    Outcome(step.0, o.unhooked + AsSeq(step.1))
  }

  /** The runtime's own VisitRoots: the visitor sees each root in turn,
      cut to its low 32 bits. */
  function VisitRoots(o: Outcome, l: Layout, roots: seq<nat>, n: nat): (r: Outcome)
    requires n <= |roots|
    ensures o.unhooked <= r.unhooked && |r.unhooked| <= |o.unhooked| + n
  {
    if n == 0 then o else Then(VisitRoots(o, l, roots, n - 1), l, ObjectReference.Truncate(roots[n - 1]))
  }

  /** The fallback: the `k`-th slot of the table is read after the visits
      of the slots before it, and a null slot is skipped. */
  function VisitTable(o: Outcome, l: Layout, table: nat, n: nat): (r: Outcome)
    ensures o.unhooked <= r.unhooked && |r.unhooked| <= |o.unhooked| + n
  {
    if n == 0 then o
    else
      var prev := VisitTable(o, l, table, n - 1);
      var ref := Word(prev.words, RefTables.GlobalRefSlot(table, n - 1));
      if ref == 0 then prev else Then(prev, l, ref)
  }

  /** VisitJNIGlobalReferences with the repair visitor: `roots` is what
      the runtime's VisitRoots walks when its symbol resolves, and
      `entries` the read-write mappings the fallback reads. */
  function VisitAll(o: Outcome, l: Layout, roots: Option<seq<nat>>, entries: seq<MapsEntry.VmaEntry>, vm: nat): Outcome
  {
    if roots.Some? then VisitRoots(o, l, roots.value, |roots.value|)
    else
      match RefTables.FindGlobalRefTable(o.words, RefTables.Collect(entries, |entries|), vm, l.arch)
      case None => o
      case Some((table, count)) => VisitTable(o, l, table, count)
  }

  /** A reference that does not resolve changes nothing. */
  lemma ThenQuiet(o: Outcome, l: Layout, ref: u32)
    requires Resolve(o.words, l, ref).None?
    ensures Then(o, l, ref) == o
  {
    assert Repair(o.words, l, ref) == (o.words, None);
    assert o.unhooked + AsSeq(None) == o.unhooked;
  }

  /** A run of references none of which resolves changes nothing. */
  lemma {:induction false} VisitRootsQuiet(o: Outcome, l: Layout, roots: seq<nat>, n: nat)
    requires n <= |roots|
    requires forall i :: 0 <= i < n ==> Resolve(o.words, l, ObjectReference.Truncate(roots[i])).None?
    ensures VisitRoots(o, l, roots, n) == o
  {
    if n > 0 {
      VisitRootsQuiet(o, l, roots, n - 1);
      ThenQuiet(o, l, ObjectReference.Truncate(roots[n - 1]));
    }
  }

  /** Each visit pushes at most one record, so there are never more
      records than references, and the earlier records stay in place. */
  lemma VisitAllBound(o: Outcome, l: Layout, roots: Option<seq<nat>>, entries: seq<MapsEntry.VmaEntry>, vm: nat)
    ensures o.unhooked <= VisitAll(o, l, roots, entries, vm).unhooked
    ensures roots.Some? ==> |VisitAll(o, l, roots, entries, vm).unhooked| <= |o.unhooked| + |roots.value|
    ensures roots.None? && RefTables.Collect(entries, |entries|) == map[] ==> VisitAll(o, l, roots, entries, vm) == o
  {
  }

  /** The state the visitor changes, as an outcome. */
  function Snap(mem: Memory, globals: NativeState.Globals): Outcome
    reads mem, globals
  {
    Outcome(mem.words, globals.unhookedMethods)
  }

  /** The runtime's VisitRoots path: the visitor on each root in turn. */
  method VisitRuntimeRoots(mem: Memory, globals: NativeState.Globals, l: Layout, roots: seq<nat>)
    modifies mem, globals
    ensures Snap(mem, globals) == VisitRoots(old(Snap(mem, globals)), l, roots, |roots|)
    ensures globals.OnlyUnhookedChanged()
  {
    ghost var o := Snap(mem, globals);
    for i := 0 to |roots|
      invariant Snap(mem, globals) == VisitRoots(o, l, roots, i)
      invariant globals.OnlyUnhookedChanged()
    {
      VisitRoot(mem, globals, l, roots, i, o);
    }
  }

  /** The visitor on root `i`, after the roots before it. */
  method VisitRoot(mem: Memory, globals: NativeState.Globals, l: Layout, roots: seq<nat>, i: nat, ghost o: Outcome)
    requires i < |roots| && Snap(mem, globals) == VisitRoots(o, l, roots, i)
    modifies mem, globals
    ensures Snap(mem, globals) == VisitRoots(o, l, roots, i + 1)
    ensures globals.OnlyUnhookedChanged()
  {
    VisitOne(mem, globals, l, ObjectReference.Truncate(roots[i]));
  }

  /** The fallback's `for (i = 0; i < size; ++i)` over the table's slots. */
  method VisitGlobalRefTable(mem: Memory, globals: NativeState.Globals, l: Layout, table: nat, count: nat)
    modifies mem, globals
    ensures Snap(mem, globals) == VisitTable(old(Snap(mem, globals)), l, table, count)
    ensures globals.OnlyUnhookedChanged()
  {
    ghost var o := Snap(mem, globals);
    for i := 0 to count
      invariant Snap(mem, globals) == VisitTable(o, l, table, i)
      invariant globals.OnlyUnhookedChanged()
    {
      VisitSlot(mem, globals, l, table, i, o);
    }
  }

  /** One slot of the table loop: a null slot is skipped. */
  method VisitSlot(mem: Memory, globals: NativeState.Globals, l: Layout, table: nat, i: nat, ghost o: Outcome)
    requires Snap(mem, globals) == VisitTable(o, l, table, i)
    modifies mem, globals
    ensures Snap(mem, globals) == VisitTable(o, l, table, i + 1)
    ensures globals.OnlyUnhookedChanged()
  {
    var ref := Word(mem.words, RefTables.GlobalRefSlot(table, i));
    if ref != 0 {
      VisitOne(mem, globals, l, ref);
    }
  }

  /** VisitJNIGlobalReferences with the repair visitor. */
  method VisitJNIGlobalReferences(mem: Memory, globals: NativeState.Globals, l: Layout,
                                  roots: Option<seq<nat>>, entries: seq<MapsEntry.VmaEntry>, vm: nat)
    modifies mem, globals
    ensures Snap(mem, globals) == VisitAll(old(Snap(mem, globals)), l, roots, entries, vm)
    ensures globals.OnlyUnhookedChanged()
  {
    if roots.Some? {
      VisitRuntimeRoots(mem, globals, l, roots.value);
      return;
    }
    var tables := RefTables.CollectIndirectRefTables(entries);
    var found := RefTables.FindGlobalRefTableLoop(mem, tables, vm, l.arch);
    if found.Some? {
      VisitGlobalRefTable(mem, globals, l, found.value.0, found.value.1);
    }
  }

  /** One visit, stated on outcomes. */
  method VisitOne(mem: Memory, globals: NativeState.Globals, l: Layout, ref: u32)
    modifies mem, globals
    ensures Snap(mem, globals) == Then(old(Snap(mem, globals)), l, ref)
    ensures globals.OnlyUnhookedChanged()
  {
    RepairReference(mem, globals, l, ref);
  }

  // ---------------------------------------------------------------
  // JNI_OnLoad's repair section

  /** The layout JNI_OnLoad builds: the probe starts at word 5. */
  method Unhook(mem: Memory, globals: NativeState.Globals, arch: Arch, methodClass: u32,
                artMethodOff: int, declaringClassOff: int, methodsOff: int,
                roots: Option<seq<nat>>, entries: seq<MapsEntry.VmaEntry>, vm: nat)
    returns (l: Layout)
    modifies mem, globals
    ensures l.arch == arch && l.methodClass == methodClass && l.artMethodOff == artMethodOff
    ensures l.declaringClassOff == declaringClassOff && l.methodsOff == methodsOff
    ensures l.methodSize == 0 <==> forall i :: 5 <= i < 32 ==> !ProbeHit(old(mem.words), arch, methodClass, methodsOff, i)
    ensures l.methodSize != 0 ==>
              && l.methodSize % 4 == 0 && 20 <= l.methodSize < 128
              && ProbeHit(old(mem.words), arch, methodClass, methodsOff, l.methodSize / 4)
              && forall j :: 5 <= j < l.methodSize / 4 ==> !ProbeHit(old(mem.words), arch, methodClass, methodsOff, j)
    ensures Snap(mem, globals) == VisitAll(old(Snap(mem, globals)), l, roots, entries, vm)
    ensures globals.clearedCallbacks == old(globals.clearedCallbacks)
    ensures globals.isLsposedDisabled == old(globals.isLsposedDisabled)
    ensures globals.isArtRestored == old(globals.isArtRestored)
  {
    var size := ProbeDescriptorSize(mem, arch, methodClass, methodsOff, 5);
    l := Layout(arch, methodClass, artMethodOff, declaringClassOff, methodsOff, size);
    VisitJNIGlobalReferences(mem, globals, l, roots, entries, vm);
  }
}
