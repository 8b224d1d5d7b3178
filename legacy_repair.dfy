/** The repair half of the older JNI_OnLoad in
    app/src/main/cpp/disable_lsposed.cc: it finds the global reference
    table from `/proc/self/maps` and a scan of the JavaVM, probes the
    ArtMethod size from word 1, and copies every hooked method's live
    ArtMethod back over the original without looking for a trampoline. */
module LegacyRepair {
  import opened Base
  import opened ArtMemory
  import opened ArtMethods
  import NativeState
  import RefTables
  import MainRepair

  /** One pass of the loop body on the reference `ref`: the newer
      visitor's work with the trampoline check taken as failing, so the
      original, once found, is always overwritten and reported with its
      own flags. */
  function Repair(m: Words, l: Layout, ref: u32): (Words, Option<Unhooked>)
  {
    match Resolve(m, l, ref)
    case None => (m, None)
    case Some(t) =>
      match FirstOriginal(m, l, t, 0)
      case None => (m, None)
      case Some(j) =>
        var r := MainRepair.RepairAt(m, l, t, MethodAt(l, t.methods, j), false);
        (r.0, Some(r.1))
  }

  /** The reference resolves, its original is found, and the hooked
      method's entry point still runs a trampoline. */
  predicate HookedAt(m: Words, l: Layout, ref: u32)
  {
    && Resolve(m, l, ref).Some?
    && FirstOriginal(m, l, Resolve(m, l, ref).value, 0).Some?
    && MainRepair.StillHooked(m, l, Resolve(m, l, ref).value)
  }

  /** The two engines do the same on every reference except one whose
      method still runs a trampoline. */
  lemma AgreesUnlessHooked(m: Words, l: Layout, ref: u32)
    requires !HookedAt(m, l, ref)
    ensures Repair(m, l, ref) == MainRepair.Repair(m, l, ref)
  {
    match Resolve(m, l, ref)
    case None =>
    case Some(t) =>
      match FirstOriginal(m, l, t, 0)
      case None =>
      case Some(j) =>
        assert !MainRepair.StillHooked(m, l, t);
  }

  /** On such a reference the older engine overwrites the original while
      the newer one leaves memory alone, and both report the same method,
      the newer one with the synthetic bit added to its flags. */
  lemma DiffersWhenHooked(m: Words, l: Layout, ref: u32)
    requires HookedAt(m, l, ref)
    ensures MainRepair.Repair(m, l, ref).0 == m
    ensures Repair(m, l, ref).1.Some? && MainRepair.Repair(m, l, ref).1.Some?
    ensures MainRepair.Repair(m, l, ref).1.value
         == Repair(m, l, ref).1.value.(accessFlags := MainRepair.WithSynthetic(Repair(m, l, ref).1.value.accessFlags))
  {
    var t := Resolve(m, l, ref).value;
    var j := FirstOriginal(m, l, t, 0).value;
    var orig := MethodAt(l, t.methods, j);
    assert MainRepair.StillHooked(m, l, t);
    assert MainRepair.Repair(m, l, ref) == (m, Some(MainRepair.RepairAt(m, l, t, orig, true).1));
    assert Repair(m, l, ref) == (MainRepair.RepairAt(m, l, t, orig, false).0, Some(MainRepair.RepairAt(m, l, t, orig, false).1));
  }

  /** When the original is found it is reported with its own flags and
      its address, and it is restored. */
  lemma RepairFound(m: Words, l: Layout, ref: u32)
    requires Resolve(m, l, ref).Some?
    requires FirstOriginal(m, l, Resolve(m, l, ref).value, 0).Some?
    ensures
      var t := Resolve(m, l, ref).value;
      var orig := MethodAt(l, t.methods, FirstOriginal(m, l, t, 0).value);
      && Repair(m, l, ref).1 == Some(Unhooked(t.targetClass, orig, Word(m, orig + 4)))
      && Repair(m, l, ref).0 == MainRepair.Restored(m, l, t, orig)
  {
  }

  /** The loop body does nothing exactly when the reference does not
      resolve or the original is not found. */
  lemma RepairSkips(m: Words, l: Layout, ref: u32)
    ensures Repair(m, l, ref).1.None? <==>
              Resolve(m, l, ref).None? || FirstOriginal(m, l, Resolve(m, l, ref).value, 0).None?
    ensures Repair(m, l, ref).1.None? ==> Repair(m, l, ref).0 == m
  {
  }

  /** The loop body, from the resolved reference on. */
  method RepairReference(mem: Memory, globals: NativeState.Globals, l: Layout, ref: u32)
    modifies mem, globals
    ensures mem.words == Repair(old(mem.words), l, ref).0
    ensures globals.unhookedMethods == old(globals.unhookedMethods) + MainRepair.AsSeq(Repair(old(mem.words), l, ref).1)
    ensures globals.OnlyUnhookedChanged()
  {
    var t := Resolve(mem.words, l, ref);
    if t.None? {
      return;
    }
    var j := FindOriginal(mem, l, t.value);
    if j.None? {
      return;
    }
    var orig := MethodAt(l, t.value.methods, j.value);
    var flags := Word(mem.words, orig + 4);
    mem.Copy(orig, t.value.artMethod, l.methodSize / 4);
    mem.Store(orig + 4, flags);
    globals.unhookedMethods := globals.unhookedMethods + [Unhooked(t.value.targetClass, orig, flags)];
  }

  /** One pass on top of an outcome. */
  function Then(o: MainRepair.Outcome, l: Layout, ref: u32): (r: MainRepair.Outcome)
    ensures o.unhooked <= r.unhooked && |r.unhooked| <= |o.unhooked| + 1
  {
    var step := Repair(o.words, l, ref);
    MainRepair.Outcome(step.0, o.unhooked + MainRepair.AsSeq(step.1))
  }

  /** The loop over the table: slot `k` is read after the passes before
      it, and a null slot is skipped. */
  function VisitTable(o: MainRepair.Outcome, l: Layout, table: nat, n: nat): (r: MainRepair.Outcome)
    ensures o.unhooked <= r.unhooked && |r.unhooked| <= |o.unhooked| + n
  {
    if n == 0 then o
    else
      var prev := VisitTable(o, l, table, n - 1);
      var ref := Word(prev.words, RefTables.GlobalRefSlot(table, n - 1));
      if ref == 0 then prev else Then(prev, l, ref)
  }

  /** A table whose slots are all null changes nothing. */
  lemma {:induction false} EmptyTableQuiet(o: MainRepair.Outcome, l: Layout, table: nat, n: nat)
    requires forall k :: 0 <= k < n ==> Word(o.words, RefTables.GlobalRefSlot(table, k)) == 0
    ensures VisitTable(o, l, table, n) == o
  {
    if n > 0 {
      EmptyTableQuiet(o, l, table, n - 1);
    }
  }

  /** One pass, stated on outcomes. */
  method VisitOne(mem: Memory, globals: NativeState.Globals, l: Layout, ref: u32)
    modifies mem, globals
    ensures MainRepair.Snap(mem, globals) == Then(old(MainRepair.Snap(mem, globals)), l, ref)
    ensures globals.OnlyUnhookedChanged()
  {
    RepairReference(mem, globals, l, ref);
  }

  /** `for (i = 0; global_ref_count > i; ++i)`. */
  method VisitGlobalRefTable(mem: Memory, globals: NativeState.Globals, l: Layout, table: nat, count: nat)
    modifies mem, globals
    ensures MainRepair.Snap(mem, globals) == VisitTable(old(MainRepair.Snap(mem, globals)), l, table, count)
    ensures globals.OnlyUnhookedChanged()
  {
    ghost var o := MainRepair.Snap(mem, globals);
    for i := 0 to count
      invariant MainRepair.Snap(mem, globals) == VisitTable(o, l, table, i)
      invariant globals.OnlyUnhookedChanged()
    {
      VisitSlot(mem, globals, l, table, i, o);
    }
  }

  /** One slot of the table loop: a null slot is skipped. */
  method VisitSlot(mem: Memory, globals: NativeState.Globals, l: Layout, table: nat, i: nat, ghost o: MainRepair.Outcome)
    requires MainRepair.Snap(mem, globals) == VisitTable(o, l, table, i)
    modifies mem, globals
    ensures MainRepair.Snap(mem, globals) == VisitTable(o, l, table, i + 1)
    ensures globals.OnlyUnhookedChanged()
  {
    var ref := Word(mem.words, RefTables.GlobalRefSlot(table, i));
    if ref != 0 {
      VisitOne(mem, globals, l, ref);
    }
  }

  /** From the maps parse to the end of the repair loop. `lines` are the
      lines of `/proc/self/maps`; None is the `JNI_ERR` return when no
      table is found, after which nothing is repaired. */
  method Unhook(mem: Memory, globals: NativeState.Globals, arch: Arch, methodClass: u32,
                artMethodOff: int, declaringClassOff: int, methodsOff: int,
                lines: seq<string>, kernelPtrSize: nat, vm: nat)
    returns (r: Option<Layout>)
    modifies mem, globals
    ensures
      var found := RefTables.LegacyFindTable(old(mem.words),
        RefTables.TableStarts(lines, RefTables.NameOffset(kernelPtrSize), PtrModulus(arch), |lines|), vm, arch);
      && (r.None? <==> found.None?)
      && (r.None? ==> mem.words == old(mem.words) && globals.unhookedMethods == old(globals.unhookedMethods))
      && (r.Some? ==>
            && r.value == Layout(arch, methodClass, artMethodOff, declaringClassOff, methodsOff, r.value.methodSize)
            && (r.value.methodSize == 0 <==>
                  forall i :: 1 <= i < 32 ==> !ProbeHit(old(mem.words), arch, methodClass, methodsOff, i))
            && (r.value.methodSize != 0 ==>
                  && r.value.methodSize % 4 == 0 && 4 <= r.value.methodSize < 128
                  && ProbeHit(old(mem.words), arch, methodClass, methodsOff, r.value.methodSize / 4)
                  && forall j :: 1 <= j < r.value.methodSize / 4 ==>
                       !ProbeHit(old(mem.words), arch, methodClass, methodsOff, j))
            && MainRepair.Snap(mem, globals)
               == VisitTable(old(MainRepair.Snap(mem, globals)), r.value, found.value.0, found.value.1))
    ensures globals.clearedCallbacks == old(globals.clearedCallbacks)
    ensures globals.isLsposedDisabled == old(globals.isLsposedDisabled)
    ensures globals.isArtRestored == old(globals.isArtRestored)
  {
    var starts := RefTables.LegacyCollectTables(lines, kernelPtrSize, arch);
    var found := RefTables.LegacyScanTable(mem, starts, vm, arch);
    if found.None? {
      return None;
    }
    var size := ProbeDescriptorSize(mem, arch, methodClass, methodsOff, 1);
    var l := Layout(arch, methodClass, artMethodOff, declaringClassOff, methodsOff, size);
    VisitGlobalRefTable(mem, globals, l, found.value.0, found.value.1);
    return Some(l);
  }
}
