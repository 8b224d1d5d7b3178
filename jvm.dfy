/** What the native code learns from the Java side through JNI and
    reflection, as oracle functions over opaque references, plus the one
    piece of Java state it changes: the contents of the collections it
    clears. */
module Jvm {
  import opened Base
  import Numerals

  /** A JNI reference; 0 is null. */
  type Ref = nat

  const NULL: Ref := 0

  /** `kAccStatic`, the modifier bit of a static member. */
  const ACC_STATIC: u32 := 0x0008

  /** A `java.lang.reflect.Field`: an identity and its modifier bits. */
  datatype FieldInfo = FieldInfo(id: nat, modifiers: u32)

  /** `modifiers & kAccStatic` is non-zero: `kAccStatic` is the single
      bit 3, so this is whether bit 3 of the modifiers is set. */
  predicate IsStatic(f: FieldInfo)
  {
    (f.modifiers / ACC_STATIC) % 2 == 1
  }

  /** What `getFrameworkName`, `getFrameworkVersion` and
      `getFrameworkVersionCode` give on an instance of a framework API
      class: whether each method exists, whether `AllocObject` succeeds,
      and the two strings (None for null) and the version code. */
  datatype FrameworkApi = FrameworkApi(
    hasName: bool, hasVersion: bool, hasVersionCode: bool, allocates: bool,
    name: Option<string>, version: Option<string>, versionCode: int)

  /** The Java side, as seen through JNI. */
  datatype World = World(
    simpleName: Ref -> Option<string>,     // Class.getSimpleName, None for null
    className: Ref -> string,              // Class.getName
    interfaces: Ref -> Option<seq<Ref>>,   // Class.getInterfaces, None for null
    declaredFields: Ref -> Option<seq<FieldInfo>>, // Class.getDeclaredFields
    fieldValue: (nat, Ref) -> Ref,         // Field.get(receiver); receiver null for static fields
    classOf: Ref -> Ref,                   // GetObjectClass
    isInstanceOf: (Ref, Ref) -> bool,      // IsInstanceOf(object, class)
    isAssignableFrom: (Ref, Ref) -> bool,  // IsAssignableFrom(class1, class2)
    identityHashCode: Ref -> u32,          // System.identityHashCode, as its 32 bits
    frameworkApi: Ref -> FrameworkApi,
    forName: (string, Ref) -> Ref,         // Class.forName(name, false, loader), null on failure
    hasHookMethod: Ref -> bool,            // GetStaticMethodID(cls, "hookMethod", ...) != null
    registers: Ref -> bool)                // RegisterNatives(cls, hookMethod) == JNI_OK

  // ---------------------------------------------------------------
  // Strings the helper builds

  /** FormatString's 1024-byte buffer holds at most 1023 characters. */
  const FORMAT_LIMIT: nat := 1023

  /** What survives `snprintf` into the 1024-byte buffer. */
  function Truncated(s: string): (r: string)
    ensures |r| <= FORMAT_LIMIT && |r| <= |s| && r == s[..|r|]
    ensures |s| <= FORMAT_LIMIT ==> r == s
  {
    if |s| <= FORMAT_LIMIT then s else s[..FORMAT_LIMIT]
  }

  /** `%lld` of a signed value. */
  function SignedDec(v: int): (s: string)
    ensures s != []
  {
    if v < 0 then "-" + Numerals.FormatDec(-v) else Numerals.FormatDec(v)
  }

  /** GetObjectString: `"%s@%x"` of the object's class name and identity
      hash code. */
  function ObjectString(w: World, obj: Ref): string
  {
    Truncated(w.className(w.classOf(obj)) + "@" + Numerals.FormatHex(w.identityHashCode(obj)))
  }

  /** GetFrameworkName: `"<name> <version> (<code>)"` when both strings
      are there, the name alone when only it is, and empty when any of the
      three methods is missing, the instance cannot be allocated, or the
      name is null. */
  function FrameworkName(w: World, cls: Ref): (s: string)
  {
    var api := w.frameworkApi(cls);
    if !api.hasName || !api.hasVersion || !api.hasVersionCode || !api.allocates then ""
    else if api.name.Some? && api.version.Some? then
      Truncated(api.name.value + " " + api.version.value + " (" + SignedDec(api.versionCode) + ")")
    else if api.name.Some? then api.name.value
    else ""
  }

  // ---------------------------------------------------------------
  // Collections

  type Contents = map<Ref, seq<Ref>>

  /** What iterating the collection `c` yields, in order. */
  function Elements(contents: Contents, c: Ref): seq<Ref>
  {
    if c in contents then contents[c] else []
  }

  /** The Java heap's collections, emptied in place by `clear()`. */
  class Heap {
    var contents: Contents

    constructor (contents: Contents)
      ensures this.contents == contents
    {
      this.contents := contents;
    }

    /** `Collection.clear()`. */
    method Clear(c: Ref)
      modifies this
      ensures contents == old(contents)[c := []]
      ensures Elements(contents, c) == []
    {
      contents := contents[c := []];
    }
  }
}
