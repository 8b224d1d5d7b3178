/** The ArtMethod bookkeeping both repair engines share
    (app/src/main/cpp/main.cc and app/src/main/cpp/disable_lsposed.cc):
    the layout facts JNI_OnLoad learns, the descriptor-size probe, how a
    global reference is resolved to the method it reflects, and the
    search of the declaring class's method table for the original. */
module ArtMethods {
  import opened Base
  import opened ArtMemory

  /** `uint32_t + jint`: the sum is taken modulo 2^32. */
  function Addr32(a: int): u32
  {
    a % TWO32
  }

  /** `uintptr_t` / `size_t` arithmetic wraps at the pointer width. */
  function UPtr(a: int, arch: Arch): (v: nat)
    ensures v < PtrModulus(arch)
  {
    a % PtrModulus(arch)
  }

  /** What JNI_OnLoad learned about the runtime's object layout. */
  datatype Layout = Layout(
    arch: Arch,
    methodClass: u32,        // address of the java.lang.reflect.Method class object
    artMethodOff: int,       // field offset of Executable.artMethod
    declaringClassOff: int,  // field offset of Executable.declaringClass
    methodsOff: int,         // field offset of Class.methods
    methodSize: nat)         // the probed ArtMethod size in bytes

  /** Class.methods of the class at `cls`: a 64-bit field holding the
      address of a length-prefixed ArtMethod array. */
  function MethodsArray(m: Words, arch: Arch, methodsOff: int, cls: u32): nat
  {
    UPtr(Word64(m, Addr32(cls + methodsOff)), arch)
  }

  /** The address of the `j`-th ArtMethod of the array at `methods`, past
      its `size_t` length. */
  function MethodAt(l: Layout, methods: nat, j: nat): nat
  {
    UPtr(j * l.methodSize + methods + PtrSize(l.arch), l.arch)
  }

  // ---------------------------------------------------------------
  // The descriptor-size probe

  /** Where the probe looks: word `i` past the first ArtMethod of
      Method's own method table. */
  function ProbeWord(m: Words, arch: Arch, methodClass: u32, methodsOff: int, i: nat): u32
  {
    Word(m, UPtr(MethodsArray(m, arch, methodsOff, methodClass) + PtrSize(arch), arch) + 4 * i)
  }

  /** Whether word `i` holds the Method class: the declaring-class word of
      the second ArtMethod, so the first one is `4 * i` bytes long. */
  predicate ProbeHit(m: Words, arch: Arch, methodClass: u32, methodsOff: int, i: nat)
  {
    ProbeWord(m, arch, methodClass, methodsOff, i) == methodClass
  }

  /** The probe loop `for (i = first; i < 32; ++i)`: `art_method_size`
      is `4 * i` for the first hit, and stays 0 when nothing hits. */
  method ProbeDescriptorSize(mem: Memory, arch: Arch, methodClass: u32, methodsOff: int, first: nat)
    returns (size: nat)
    requires 0 < first <= 32
    ensures size == 0 <==> forall i :: first <= i < 32 ==> !ProbeHit(mem.words, arch, methodClass, methodsOff, i)
    ensures size != 0 ==>
              && size % 4 == 0 && first <= size / 4 < 32
              && ProbeHit(mem.words, arch, methodClass, methodsOff, size / 4)
              && forall i :: first <= i < size / 4 ==> !ProbeHit(mem.words, arch, methodClass, methodsOff, i)
  {
    size := 0;
    for i := first to 32
      invariant forall k :: first <= k < i ==> !ProbeHit(mem.words, arch, methodClass, methodsOff, k)
    {
      if ProbeHit(mem.words, arch, methodClass, methodsOff, i) {
        size := 4 * i;
        return;
      }
    }
  }

  // ---------------------------------------------------------------
  // From a global reference to the hooked method

  /** A reflected method whose ArtMethod no longer belongs to its
      declaring class: the ArtMethod in use, the class that owns it, and
      that class's method table with its length. */
  datatype Target = Target(artMethod: nat, targetClass: u32, methods: nat, count: nat)

  /** The checks both engines make on a global reference `ref`: it is not
      null, the object's class word is the Method class, and the class
      word of its ArtMethod differs from its `declaringClass` field. */
  function Resolve(m: Words, l: Layout, ref: u32): (t: Option<Target>)
    ensures t.Some? ==> ref != 0 && Word(m, ref) == l.methodClass
    ensures t.Some? ==>
              && Word(m, t.value.artMethod) == t.value.targetClass
              && t.value.targetClass != Word(m, Addr32(ref + l.declaringClassOff))
  {
    if ref == 0 then None
    else if Word(m, ref) != l.methodClass then None
    else
      var artMethod := UPtr(Word64(m, Addr32(ref + l.artMethodOff)), l.arch);
      var targetClass := Word(m, artMethod);
      if targetClass == Word(m, Addr32(ref + l.declaringClassOff)) then None
      else
        var methods := MethodsArray(m, l.arch, l.methodsOff, targetClass);
        Some(Target(artMethod, targetClass, methods, Ptr(m, methods, l.arch)))
  }

  /** A reference is left alone exactly when it is null, is not a Method,
      or its ArtMethod's class is its declaring class. */
  lemma ResolveNone(m: Words, l: Layout, ref: u32)
    ensures Resolve(m, l, ref).None? <==>
              ref == 0 || Word(m, ref) != l.methodClass
              || Word(m, UPtr(Word64(m, Addr32(ref + l.artMethodOff)), l.arch))
                 == Word(m, Addr32(ref + l.declaringClassOff))
  {
  }

  /** Whether the `j`-th method of the target's table has the same
      method index (word 2) as the hooked ArtMethod. */
  predicate SameIndex(m: Words, l: Layout, t: Target, j: nat)
  {
    Word(m, MethodAt(l, t.methods, j) + 8) == Word(m, t.artMethod + 8)
  }

  /** The first index from `k` on whose method has the hooked method's
      index. */
  function FirstOriginal(m: Words, l: Layout, t: Target, k: nat): (j: Option<nat>)
    requires k <= t.count
    ensures j.Some? ==>
              && k <= j.value < t.count && SameIndex(m, l, t, j.value)
              && forall i :: k <= i < j.value ==> !SameIndex(m, l, t, i)
    ensures j.None? ==> forall i :: k <= i < t.count ==> !SameIndex(m, l, t, i)
    decreases t.count - k
  {
    if k == t.count then None
    else if SameIndex(m, l, t, k) then Some(k)
    else FirstOriginal(m, l, t, k + 1)
  }

  /** The table scan `for (j = 0; j < method_count; ++j)` up to its first
      hit. */
  method FindOriginal(mem: Memory, l: Layout, t: Target) returns (j: Option<nat>)
    ensures j == FirstOriginal(mem.words, l, t, 0)
  {
    for k := 0 to t.count
      invariant FirstOriginal(mem.words, l, t, k) == FirstOriginal(mem.words, l, t, 0)
    {
      if SameIndex(mem.words, l, t, k) {
        return Some(k);
      }
    }
    return None;
  }

  /** One repaired (or, with a trampoline left in place, reported)
      method: the class that owns it, the address of its ArtMethod and the
      access flags it is reported with. */
  datatype Unhooked = Unhooked(targetClass: u32, artMethod: nat, accessFlags: u32)
}
