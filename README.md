# DisableLSPosed, modelled in Dafny

DisableLSPosed is an Android app whose native library, loaded into an ART
process, undoes the method hooks that the LSPosed framework (through its
hooking engine LSPlant) has installed. On load, the library does four things:

- It finds the framework's API class and class loader.
- It walks the framework's classes. Along the way it records and empties the
  callback registries of the modern (`XposedInterface`) and legacy
  (`XposedBridge`) APIs. It also replaces the framework's native `hookMethod`
  with one that does nothing.
- It finds every hooked `java.lang.reflect.Method` among the JNI global
  references. For each, it copies the live ArtMethod back over the original
  in the class's method table, keeping the original's access flags.
- It maps the runtime library's code segments afresh from the file. This
  throws away instructions patched into memory.

Java reads the outcome back as a flag word and three lists: the unhooked
methods, the cleared callbacks and the framework name.

The project models that core, with one module per source concern:

- **Repair engines.** Two are modelled; they differ in their rules.
  - The newer engine is `app/src/main/cpp/main.cc`, in `MainCallbacks`,
    `MainHelper`, `MainRepair`, `Trampoline`, `RefTables` and `Remap`.
  - The older, standalone engine is `app/src/main/cpp/disable_lsposed.cc`,
    in `LegacyCallbacks`, `LegacyHelper`, `LegacyRepair`, the legacy parts of
    `RefTables` and `FrameFinder`, and `Remap`.
  - Both share `ArtMemory`, `ArtMethods`, `NativeState`, `NativeFlags` and
    `Jvm`.
- **The `/proc/self/maps` reader.** `FileReader` is the buffered line reader
  of `file_reader.h`. `MapsParser` is the iterator of `maps_parser.cc/.h`,
  which tries the `PROCMAP_QUERY` ioctl first and then falls back to the text
  format. `MapsLine` parses a single line. `MapsEntry` holds the entry record
  and its serialiser `get_line`. `MapsRoundTrip` proves that the parser and
  the serialiser are inverse. `Numerals` covers the hex and decimal numerals
  these use.
- **The coloured JVM descriptor renderer.** `DescriptorBuilder` models
  `descriptor_builder.cc`. It covers field and method descriptors, as in
  sections 4.3.2 and 4.3.3 of the Java Virtual Machine Specification.
  - Pointer compression (`ObjectReference`) covers `object_reference.h`.
  - The root visitors (`GcRoot`) cover `gc_root.h`.
- **The test module's text hook.** `TextViewHandler` models
  `TextViewHandler.kt`.

How the environment is represented:

- ART memory is a map from byte addresses to 32-bit words. Anything nobody
  wrote reads 0. Pointer-width arithmetic wraps at 2^32 or 2^64, depending
  on the architecture.
- JNI and reflection are oracle functions of a `Jvm.World`.
- The Java collections the helper clears are the contents of a `Jvm.Heap`.
- System calls are inputs: the file behind a descriptor, the ioctl replies,
  and the `mmap` results.

## Model

| member | source | states |
|---|---|---|
| ObjectReference.Truncate | app/src/main/cpp/object_reference.h:30 | a pointer that fits in 32 bits keeps its value |
| ObjectReference.Negate | app/src/main/cpp/object_reference.h:31 | the result added to the operand is 0 modulo 2^32 |
| ObjectReference.Compress | app/src/main/cpp/object_reference.h:29-32 | the compressed reference is 0 exactly when the pointer's low 32 bits are 0, in both poisoning modes |
| ObjectReference.Decompress | app/src/main/cpp/object_reference.h:35-38 | the pointer fits in 32 bits and is null exactly when the reference is 0 |
| ObjectReference.RoundTrip | app/src/main/cpp/object_reference.h:29-38 | decompressing a compressed 32-bit pointer gives it back, with and without poisoning |
| ObjectReference.NegateInvolutive | app/src/main/cpp/object_reference.h:31 | negating twice gives the operand back, which is why poisoning is undone by the same operation |
| ObjectReference.RoundTripTruncates | app/src/main/cpp/object_reference.h:29-38 | a wider pointer comes back as its low 32 bits |
| ObjectReference.CompressInjective | app/src/main/cpp/object_reference.h:29-32 | distinct 32-bit pointers get distinct references |
| ObjectReference.ObjectRef.Null | app/src/main/cpp/object_reference.h:74-76 | the default constructor makes a null reference |
| ObjectReference.ObjectRef.FromMirrorPtr | app/src/main/cpp/object_reference.h:68-73 | stores the compressed pointer, so AsMirrorPtr gives the pointer's low 32 bits back |
| ObjectReference.ObjectRef.AsMirrorPtr | app/src/main/cpp/object_reference.h:57 | the pointer is null exactly when IsNull holds |
| ObjectReference.ObjectRef.Assign | app/src/main/cpp/object_reference.h:59 | stores the compressed pointer; reading it back gives the pointer's low 32 bits |
| ObjectReference.ObjectRef.Clear | app/src/main/cpp/object_reference.h:61-64 | the reference becomes 0, IsNull holds and the pointer read back is null |
| ObjectReference.CompressedReference.Null | app/src/main/cpp/object_reference.h:86 | the default constructor makes a null reference |
| ObjectReference.CompressedReference.FromMirrorPtr | app/src/main/cpp/object_reference.h:88 | stores the unpoisoned compressed pointer; reading back gives its low 32 bits |
| ObjectReference.CompressedReference.FromVRegValue | app/src/main/cpp/object_reference.h:90-96 | the virtual-register value is stored untouched and AsVRegValue returns it |
| ObjectReference.CompressedReference.AsMirrorPtr | app/src/main/cpp/object_reference.h:57 | with no poisoning the pointer is the stored 32-bit value |
| GcRoot.RootTypeValue | app/src/main/cpp/gc_root.h:30-46 | every enumerator is below 15 and only kRootUnknown is 0 |
| GcRoot.RootTypeValueInjective | app/src/main/cpp/gc_root.h:30-46 | distinct enumerators have distinct values |
| GcRoot.NewRootInfo | app/src/main/cpp/gc_root.h:52-56 | GetType and GetThreadId return what was passed, the thread id defaulting to 0 |
| GcRoot.Visits | app/src/main/cpp/gc_root.h:86-90 | one call per slot, in slot order, each with the same RootInfo |
| GcRoot.DecompressAll | app/src/main/cpp/gc_root.h:92-96 | one pointer per compressed reference, each the unpoisoned decompression |
| GcRoot.VisitsAppend | app/src/main/cpp/gc_root.h:86-90 | visiting two runs of slots in turn makes the calls of visiting them together |
| GcRoot.LambdaRootVisitor.constructor | app/src/main/cpp/gc_root.h:105 | a fresh visitor has made no calls |
| GcRoot.LambdaRootVisitor.Forward | app/src/main/cpp/gc_root.h:108 | the callback gets the root and info unchanged |
| GcRoot.LambdaRootVisitor.VisitRoots | app/src/main/cpp/gc_root.h:86-90 | the callback is called once per slot among the first `count`, in order |
| GcRoot.LambdaRootVisitor.VisitCompressedRoots | app/src/main/cpp/gc_root.h:92-96 | the callback gets each compressed reference's decompression, in order |
| GcRoot.LambdaRootVisitor.VisitRoot | app/src/main/cpp/gc_root.h:68 | exactly one call with the root |
| GcRoot.LambdaRootVisitor.VisitRootIfNonNull | app/src/main/cpp/gc_root.h:71-75 | one call when the root is not null, none otherwise |
| TextViewHandler.MarkedEndsWith | module/src/main/kotlin/io/github/eirv/replacetext/TextViewHandler.kt:6-7 | after the hook every String argument ends with the marker |
| TextViewHandler.Idempotent | module/src/main/kotlin/io/github/eirv/replacetext/TextViewHandler.kt:4-10 | running the hook twice is the same as running it once |
| TextViewHandler.OnlyFirstChanges | module/src/main/kotlin/io/github/eirv/replacetext/TextViewHandler.kt:4-10 | the argument count never changes, only `args[0]` can change, and an empty array or a null or non-String first argument is left alone |
| TextViewHandler.HandleSetText | module/src/main/kotlin/io/github/eirv/replacetext/TextViewHandler.kt:4-10 | the array afterwards is the handled form of the array before |
| NativeFlags.FlagWord | app/src/main/cpp/main.cc:665-670 | the word is below 4; bit 0 is set exactly when the framework is disabled and bit 1 exactly when ART is restored |
| NativeFlags.DecodeFlagWord | app/src/main/cpp/main.cc:665-670 | a reader of the word recovers both statuses |
| NativeFlags.FlagWordInjective | app/src/main/cpp/disable_lsposed.cc:164-173 | distinct status pairs give distinct words |
| NativeState.Inserted | app/src/main/cpp/main.cc:51-56 | the value is present afterwards; membership is the old membership plus the value; the old vector is a prefix and at most one element is added; no duplicates stay no duplicates; a present value changes nothing |
| NativeState.Globals.constructor | app/src/main/cpp/main.cc:38-50 | both lists start empty, the framework name starts as "LSPosed" and both statuses start false |
| NativeState.Globals.InsertCallback | app/src/main/cpp/main.cc:188 | the cleared-callback list becomes InsertUnique of the old one, stays duplicate-free, and nothing else changes |
| NativeState.Globals.GetFlags | app/src/main/cpp/main.cc:665-670 | returns the flag word of the two statuses, from which both decode back |
| Jvm.Truncated | app/src/main/cpp/main.cc:58-63 | at most 1023 characters, a prefix of the formatted text, and the whole text when it fits |
| Jvm.SignedDec | app/src/main/cpp/main.cc:58-63 | `%lld` never produces an empty string |
| Jvm.Heap.Clear | app/src/main/cpp/main.cc:191 | the collection is empty afterwards and no other collection changes |
| MainCallbacks.FirstInstanceFrom | app/src/main/cpp/main.cc:236-255 | the result is non-null exactly when some remaining instance field holds a non-null value |
| MainCallbacks.FirstInstanceFromSpec | app/src/main/cpp/main.cc:243-251 | the value found is the one in the first non-static field whose value is not null |
| MainCallbacks.Unwrap | app/src/main/cpp/main.cc:183-187 | without a wrapper the callback is kept; a replaced callback is the wrapper's first non-null instance field |
| MainCallbacks.RecordAll | app/src/main/cpp/main.cc:181-189 | the list only grows and stays duplicate-free |
| MainCallbacks.RecordAllSpec | app/src/main/cpp/main.cc:181-189 | every element's `class@hash` string is in the list afterwards, and every new entry is one of them |
| MainCallbacks.SweepFields | app/src/main/cpp/main.cc:172-192 | the list only grows and stays duplicate-free |
| MainCallbacks.ClearStatic | app/src/main/cpp/main.cc:161-195 | the list only grows and stays duplicate-free |
| MainCallbacks.SweepFoundIff | app/src/main/cpp/main.cc:172-192 | the loop reports a clear exactly when some field is static and holds a non-null instance of the expected type |
| MainCallbacks.SweepFieldFound | app/src/main/cpp/main.cc:175-179 | one field sets the flag exactly when it qualifies |
| MainCallbacks.ClearStaticFound | app/src/main/cpp/main.cc:161-195 | true exactly when the class and type are not null and some declared static field holds an instance of the type |
| MainCallbacks.SweepQuiet | app/src/main/cpp/main.cc:172-192 | with no qualifying field nothing changes |
| MainCallbacks.AccountedField | app/src/main/cpp/main.cc:177-191 | one field keeps every collection accounted for: emptied only after each of its elements was recorded, or untouched |
| MainCallbacks.SweepAccounted | app/src/main/cpp/main.cc:172-192 | every collection the loop empties had all its elements recorded first; every other collection is untouched |
| MainCallbacks.SweepTouchesOnly | app/src/main/cpp/main.cc:175-191 | a collection that changed is the value of some qualifying static field |
| MainCallbacks.FirstInterface | app/src/main/cpp/main.cc:136-149 | the first interface whose simple name is "XposedInterface", or none when there is none |
| MainCallbacks.ClearModern | app/src/main/cpp/main.cc:122-158 | the cleared flags are untouched, the list only grows and stays duplicate-free, a cached interface is kept, and a newly cached one is an XposedInterface |
| MainCallbacks.Step | app/src/main/cpp/main.cc:96-117 | flags never go back; with both set nothing changes; an XposedInterface class is only cached; an XposedBridge class sets a flag; the modern flag is set only by a successful modern clear |
| MainCallbacks.ClearStaticQuiet | app/src/main/cpp/main.cc:161-195 | a sweep that finds nothing changes nothing |
| MainCallbacks.ClearModernFailsQuietly | app/src/main/cpp/main.cc:122-158 | a failed modern attempt leaves the collections, the list and the framework name as they were |
| MainCallbacks.Traverse | app/src/main/cpp/main.cc:748-756 | flags never go back, and the list only grows and stays duplicate-free |
| MainCallbacks.TraverseDone | app/src/main/cpp/main.cc:97 | once both registries are cleared the remaining classes change nothing |
| MainCallbacks.Disabled | app/src/main/cpp/main.cc:758-766 | the framework ends disabled exactly when it was already, or some loaded class has `hookMethod` and accepts the replacement |
| MainHelper.XposedCallbackHelper.constructor | app/src/main/cpp/main.cc:67-94 | no interface cached and neither registry cleared yet |
| MainHelper.XposedCallbackHelper.GetFirstNonNullInstanceField | app/src/main/cpp/main.cc:236-255 | the loop returns the first non-static field value that is not null, or null |
| MainHelper.XposedCallbackHelper.RecordCallbacks | app/src/main/cpp/main.cc:180-189 | the cleared-callback list becomes RecordAll of the collection's elements; nothing else changes |
| MainHelper.XposedCallbackHelper.SweepStaticField | app/src/main/cpp/main.cc:173-191 | collections, list and flag move exactly as one step of the field loop says |
| MainHelper.XposedCallbackHelper.ClearStaticFieldsAssignableTo | app/src/main/cpp/main.cc:161-195 | collections, list and the returned flag are exactly ClearStatic's, so the properties proved of ClearStatic hold of the method |
| MainHelper.XposedCallbackHelper.FindXposedInterface | app/src/main/cpp/main.cc:136-149 | returns the index of the first XposedInterface among the interfaces |
| MainHelper.XposedCallbackHelper.ClearModernCallbacks | app/src/main/cpp/main.cc:122-158 | the helper's state and the result are ClearModern's |
| MainHelper.XposedCallbackHelper.ClearLegacyCallbacks | app/src/main/cpp/main.cc:120 | the sweep over Collection-typed static fields with unwrapping; the framework name is kept |
| MainHelper.XposedCallbackHelper.ClearXposedCallbacks | app/src/main/cpp/main.cc:96-117 | the helper's state afterwards is Step of the state before |
| MainHelper.VisitClassName | app/src/main/cpp/main.cc:749-766 | a class that does not load changes nothing; one that loads goes through ClearXposedCallbacks; the disabled flag is set exactly when the class takes the fake `hookMethod` |
| MainHelper.DisableFramework | app/src/main/cpp/main.cc:748-767 | the helper's state is Traverse over all names, and the disabled flag ends as Disabled says |
| LegacyCallbacks.ClearFieldsSpec | app/src/main/cpp/disable_lsposed.cc:106-131 | the field loop empties exactly the collections some static field holding an instance of the type points to, and leaves every other collection as it was |
| LegacyCallbacks.FirstInterface | app/src/main/cpp/disable_lsposed.cc:86-98 | the first interface whose simple name is "XposedInterface", or none when there is none |
| LegacyCallbacks.ClearModern | app/src/main/cpp/disable_lsposed.cc:71-104 | the cleared flags are untouched and a cached interface is kept |
| LegacyCallbacks.Step | app/src/main/cpp/disable_lsposed.cc:44-66 | flags never go back; with both set nothing changes; an XposedInterface class is only cached; any other named class uses up the modern attempt; the legacy flag is set only by an XposedBridge class after the modern attempt |
| LegacyCallbacks.TraverseReverse | app/src/main/cpp/disable_lsposed.cc:251-268 | flags never go back over the reverse loop |
| LegacyCallbacks.DisabledReverse | app/src/main/cpp/disable_lsposed.cc:259-266 | the framework ends disabled exactly when it was already, or some class among the last `n` names takes the fake `hookMethod` |
| LegacyCallbacks.ModernAttemptIsSingle | app/src/main/cpp/disable_lsposed.cc:56-59 | once any loaded class with a name other than XposedInterface is met, the modern registry counts as cleared whether or not anything was cleared |
| LegacyHelper.XposedCallbackHelper.constructor | app/src/main/cpp/disable_lsposed.cc:28-42 | no interface cached and neither registry cleared yet |
| LegacyHelper.XposedCallbackHelper.ClearStaticFieldsAssignableTo | app/src/main/cpp/disable_lsposed.cc:106-131 | the collections afterwards are ClearStatic's, so ClearFieldsSpec describes them |
| LegacyHelper.XposedCallbackHelper.FindXposedInterface | app/src/main/cpp/disable_lsposed.cc:86-98 | returns the index of the first XposedInterface among the interfaces |
| LegacyHelper.XposedCallbackHelper.ClearModernCallbacks | app/src/main/cpp/disable_lsposed.cc:71-104 | the helper's state afterwards is ClearModern of the state before |
| LegacyHelper.XposedCallbackHelper.ClearXposedCallbacks | app/src/main/cpp/disable_lsposed.cc:44-66 | the helper's state afterwards is Step of the state before |
| LegacyHelper.VisitClassName | app/src/main/cpp/disable_lsposed.cc:252-267 | a class that does not load changes nothing; one that loads goes through ClearXposedCallbacks; the disabled flag is set exactly when the class takes the fake `hookMethod` |
| LegacyHelper.DisableFramework | app/src/main/cpp/disable_lsposed.cc:248-268 | the helper's state is TraverseReverse over all names and the disabled flag is DisabledReverse's |
| FrameFinder.ScanFrom | app/src/main/cpp/main.cc:445-476 | a class and loader returned always have a non-null loader |
| FrameFinder.ScanFromFound | app/src/main/cpp/main.cc:445-474 | a found pair appeared together at a candidate frame, and a later candidate frame from another loader with a single-class dex file stopped the scan |
| FrameFinder.FindByStackTraceFound | app/src/main/cpp/main.cc:430-477 | an answer needs a pending exception, and names a loader that is neither null nor the boot loader together with a class seen with it in the trace |
| FrameFinder.FindFrameworkByStackTrace | app/src/main/cpp/main.cc:430-477 | the loop returns exactly the finder's answer |
| FrameFinder.LegacyScanFrom | app/src/main/cpp/disable_lsposed.cc:218-241 | success always leaves a non-null remembered loader |
| FrameFinder.LegacyScanFromFound | app/src/main/cpp/disable_lsposed.cc:218-241 | success never leaves the boot loader remembered |
| FrameFinder.LegacyFindFound | app/src/main/cpp/disable_lsposed.cc:215-241 | success names a loader that is neither null nor the boot loader |
| FrameFinder.LegacyFindFramework | app/src/main/cpp/disable_lsposed.cc:215-241 | the loop returns exactly the older scan's answer |
| DescriptorBuilder.SplitClassNameToParts | app/src/main/cpp/descriptor_builder.cc:221-233 | returns exactly the dot-separated parts of the name, `SplitDots(name)` |
| DescriptorBuilder.SplitDotsSpec | app/src/main/cpp/descriptor_builder.cc:221-233 | one more part than dots, no part contains '.', joining with "." gives the name back, joining with "/" gives the name with dots turned into slashes |
| DescriptorBuilder.PrimitiveLetterInjective | app/src/main/cpp/descriptor_builder.cc:205-218 | distinct primitive classes get distinct letters |
| DescriptorBuilder.LeadingBracketsSpec | app/src/main/cpp/descriptor_builder.cc:287-289 | the bracket count is the length of the maximal '[' prefix |
| DescriptorBuilder.CountLeadingBrackets | app/src/main/cpp/descriptor_builder.cc:287-289 | the loop counts the leading '[' run |
| DescriptorBuilder.ConcatPieces | app/src/main/cpp/descriptor_builder.cc:181-202 | appending two piece sequences in turn appends their texts in turn and their spans, the second shifted by the first's length |
| DescriptorBuilder.TilesRender | app/src/main/cpp/descriptor_builder.cc:181-202 | a tiling of the text by spans is exactly the rendering of its pieces |
| DescriptorBuilder.TilesAppend | app/src/main/cpp/descriptor_builder.cc:181-202 | one append-and-setSpan step keeps the spans tiling the text |
| DescriptorBuilder.ClassNameText | app/src/main/cpp/descriptor_builder.cc:236-258 | the class-name text is `L`, the name with '.' replaced by '/', and `;` |
| DescriptorBuilder.ClassNameLayout | app/src/main/cpp/descriptor_builder.cc:236-258 | piece-by-piece layout: package parts and "/" alternate, the last part carries the class colour; synthetic colours exactly when the class is synthetic |
| DescriptorBuilder.ClassDescriptorTextShape | app/src/main/cpp/descriptor_builder.cc:261-312 | primitive letter, `L…;`, or the '[' run followed by the element descriptor |
| DescriptorBuilder.DescriptorText | app/src/main/cpp/descriptor_builder.cc:318-374 | full text: declaring class, `->`, name, `(`, parameters in order, `)`, return type |
| DescriptorBuilder.MethodNameColoring | app/src/main/cpp/descriptor_builder.cc:343-349 | the method name piece is synthetic-coloured iff modifiers carry 0x1000 |
| DescriptorBuilder.SpannableBuilder.AppendStringWithColor | app/src/main/cpp/descriptor_builder.cc:181-202 | text grows by the string; one span [old length, old length + |s|) with the colour's ARGB value and flags 0x21 |
| DescriptorBuilder.SpannableBuilder.AppendPrimitiveDescriptor | app/src/main/cpp/descriptor_builder.cc:205-218 | appends the one primitive piece; tiling kept |
| DescriptorBuilder.SpannableBuilder.AppendPackageParts | app/src/main/cpp/descriptor_builder.cc:242-249 | appends each package part then "/" |
| DescriptorBuilder.SpannableBuilder.AppendClassName | app/src/main/cpp/descriptor_builder.cc:236-258 | appends exactly ClassNamePieces |
| DescriptorBuilder.SpannableBuilder.AppendArrayDescriptor | app/src/main/cpp/descriptor_builder.cc:279-307 | appends the bracket run and the element |
| DescriptorBuilder.SpannableBuilder.AppendElement | app/src/main/cpp/descriptor_builder.cc:294-307 | `L` element without trailing ';', letter, or nothing |
| DescriptorBuilder.SpannableBuilder.AppendClassDescriptor | app/src/main/cpp/descriptor_builder.cc:261-312 | appends exactly ClassDescriptorPieces |
| DescriptorBuilder.SpannableBuilder.AppendMethodName | app/src/main/cpp/descriptor_builder.cc:335-352 | arrow, coloured name, "(" |
| DescriptorBuilder.SpannableBuilder.AppendParameters | app/src/main/cpp/descriptor_builder.cc:354-362 | each parameter descriptor in order; null array appends nothing |
| DescriptorBuilder.SpannableBuilder.GetDescriptor | app/src/main/cpp/descriptor_builder.cc:318-374 | fresh builder whose spans tile its text, text and spans equal to the rendering of DescriptorPieces |
| DescriptorBuilder.SplitDotsCount | app/src/main/cpp/descriptor_builder.cc:221-233 | there is one more part than there are dots |
| DescriptorBuilder.SplitDotsNoDot | app/src/main/cpp/descriptor_builder.cc:221-233 | no part contains a dot |
| DescriptorBuilder.SplitDotsJoin | app/src/main/cpp/descriptor_builder.cc:221-233 | joining the parts with "." gives the name back; joining with "/" gives the name with every dot turned into a slash |
| DescriptorBuilder.PackagePiecesShape | app/src/main/cpp/descriptor_builder.cc:242-249 | each package part is followed by a "/" piece, the part in the package colour |
| DescriptorBuilder.PackagePiecesText | app/src/main/cpp/descriptor_builder.cc:242-249 | the package text is the parts joined by "/" with a trailing "/" |
| DescriptorBuilder.ParameterPiecesText | app/src/main/cpp/descriptor_builder.cc:354-362 | the parameters' text is their descriptors one after another |
| DescriptorBuilder.SpannableBuilder.constructor | app/src/main/cpp/descriptor_builder.cc:328 | an empty builder whose (empty) spans tile its (empty) text |
| DescriptorBuilder.Text | app/src/main/cpp/descriptor_builder.cc:184-187 | defines the text a sequence of appends adds to the builder: the strings one after the other |
| DescriptorBuilder.SpansFrom | app/src/main/cpp/descriptor_builder.cc:181-202 | defines the spans those appends set: one per string, from the builder's length before it to that length plus the string's size, in the string's colour |
| DescriptorBuilder.PrimitiveLetter | app/src/main/cpp/descriptor_builder.cc:205-218 | defines the letter of each primitive type, with V for anything not compared against |
| DescriptorBuilder.SplitDots | app/src/main/cpp/descriptor_builder.cc:221-233 | defines the parts a name splits into at its dots, always at least one |
| Numerals.HexChar | app/src/main/cpp/maps_parser.cc:177 | the digit printed for a value below 16 is a hex digit that reads back as that value |
| Numerals.DecChar | app/src/main/cpp/maps_parser.cc:177 | the digit printed for a value below 10 is a decimal digit that reads back as that value |
| Numerals.ShiftIn | app/src/main/cpp/maps_parser.cc:43 | `(value << 4) \| digit` stays below the integer type's modulus |
| Numerals.WrappedIsMod | app/src/main/cpp/maps_parser.cc:28-46 | accumulating digits with wrap-around equals the plain value reduced once modulo the type's modulus |
| Numerals.FormatHex | app/src/main/cpp/maps_parser.cc:177 | `%x` prints at least one digit |
| Numerals.FormatHexPadded | app/src/main/cpp/maps_parser.cc:177 | `%0<w>x` prints at least `w` characters |
| Numerals.FormatDec | app/src/main/cpp/maps_parser.cc:177 | `%llu` prints at least one digit |
| Numerals.FormatHexDigits | app/src/main/cpp/maps_parser.cc:177 | `%x` prints only hex digits |
| Numerals.FormatDecDigits | app/src/main/cpp/maps_parser.cc:177 | `%llu` prints only decimal digits |
| Numerals.HexRoundTrip | app/src/main/cpp/maps_parser.cc:28-46 | reading back what `%x` printed gives the number |
| Numerals.DecRoundTrip | app/src/main/cpp/maps_parser.cc:129 | reading back what `%llu` printed gives the number |
| Numerals.ZerosPrefix | app/src/main/cpp/maps_parser.cc:177 | zero padding on the left does not change a hex value |
| Numerals.PaddedHexRoundTrip | app/src/main/cpp/maps_parser.cc:177 | reading back what `%0<w>x` printed gives the number |
| Numerals.FormatHexLength | app/src/main/cpp/maps_parser.cc:177 | a number of at least 16^k needs more than k hex digits |
| Numerals.FormatDecLength | app/src/main/cpp/maps_parser.cc:177 | a number of at least 10^k needs more than k decimal digits |
| Numerals.FormatHexBound | app/src/main/cpp/maps_parser.cc:177 | a number below 16^(k+1) needs at most k+1 hex digits |
| Numerals.FormatDecBound | app/src/main/cpp/maps_parser.cc:177 | a number below 10^(k+1) needs at most k+1 decimal digits |
| Numerals.HexWidth64 | app/src/main/cpp/maps_parser.cc:177-184 | a 64-bit value prints in at most 16 hex digits, padded or not |
| Numerals.HexWidth32 | app/src/main/cpp/maps_parser.cc:177-186 | a 32-bit value prints in at most 8 hex digits, padded or not |
| Numerals.DecWidth64 | app/src/main/cpp/maps_parser.cc:177-187 | a 64-bit value prints in at most 20 decimal digits |
| Numerals.HexRun | app/src/main/cpp/maps_parser.cc:30-45 | the digit run found from `i` lies inside the text |
| Numerals.DecRun | app/src/main/cpp/maps_parser.cc:129 | the digit run found from `i` lies inside the text |
| Numerals.DecRunSpec | app/src/main/cpp/maps_parser.cc:129 | the run found consists of decimal digits |
| Numerals.HexRunOf | app/src/main/cpp/maps_parser.cc:30-41 | a run of hex digits ended by a non-digit is exactly the run found |
| Numerals.DecRunOf | app/src/main/cpp/maps_parser.cc:129 | a run of decimal digits ended by a non-digit is exactly the run found |
| Numerals.HexScanValue | app/src/main/cpp/maps_parser.cc:28-46 | FastParseHex's value stays below the type's modulus |
| Numerals.HexScanFrom | app/src/main/cpp/maps_parser.cc:30-45 | the accumulation stays below the type's modulus |
| Numerals.HexScanFromOf | app/src/main/cpp/maps_parser.cc:30-45 | carrying the loop on over more digits extends the digits read so far, with wrap-around |
| Numerals.SkipSpaces | app/src/main/cpp/maps_parser.cc:129 | skipping leading white space never moves backwards |
| Numerals.HexScanOf | app/src/main/cpp/maps_parser.cc:28-46 | a run of hex digits followed by a non-digit scans to its value when it fits, and the cursor lands one past the terminator |
| Numerals.StrToULLOf | app/src/main/cpp/maps_parser.cc:129 | an unsigned decimal numeral below 2^64 followed by a non-digit reads back as its value |
| Numerals.HexValue | app/src/main/cpp/maps_parser.cc:28-46 | defines the value of a lowercase hex digit string, most significant digit first |
| Numerals.StrToULL | app/src/main/cpp/maps_parser.cc:129 | defines `strtoull` in base 10: leading white space, an optional sign and decimal digits; a value past 64 bits saturates, and a minus sign negates modulo 2^64 |
| MapsEntry.FlagConstants | app/src/main/cpp/maps_parser.h:14-21 | the four permission bits make 0x0f, and with the file-backed query bit 0x2f |
| MapsEntry.PermChars | app/src/main/cpp/maps_parser.cc:180-183 | the permission column is always four characters |
| MapsEntry.Clip | app/src/main/cpp/maps_parser.cc:175-177 | what snprintf keeps before the name column is shorter than the column offset |
| MapsEntry.GetLine | app/src/main/cpp/maps_parser.cc:172-213 | the corrected get_line returns the maps line of the entry, LineText, which MapsRoundTrip reads back |
| MapsEntry.FormatLine | app/src/main/cpp/maps_parser.cc:175-212 | the line is the clipped fields followed by the name part |
| MapsEntry.AppendName | app/src/main/cpp/maps_parser.cc:189-212 | after the fields: a single space and nothing else for an empty name; otherwise spaces up to the name column and the name, cut to the buffer |
| MapsEntry.Snprintf | app/src/main/cpp/maps_parser.cc:175-187 | at most `n - 1` characters and a terminator are written, nothing past `n` changes, and the full length is returned |
| MapsEntry.FillSpaces | app/src/main/cpp/maps_parser.cc:199-201 | the range holds spaces afterwards and the rest of the buffer is untouched |
| MapsEntry.CopyInto | app/src/main/cpp/maps_parser.cc:206 | the range holds the name afterwards and what comes before it is untouched |
| MapsEntry.GetLineAsWritten | app/src/main/cpp/maps_parser.cc:172-213 | the line as written is right when the fields fit before the name column; otherwise it contains the terminator snprintf left at offset 72 |
| MapsEntry.FormatLineAsWritten | app/src/main/cpp/maps_parser.cc:175-212 | the same two cases on the formatted fields |
| MapsEntry.FormatFieldsLength | app/src/main/cpp/maps_parser.cc:173-177 | the fields at their widest still fit the line buffer, so only the name-column clip is at issue |
| MapsEntry.WideFieldsExist | app/src/main/cpp/maps_parser.cc:175-177 | an entry whose numbers are all at their widest has fields too long for the name column |
| MapsEntry.FormatFields | app/src/main/cpp/maps_parser.cc:175-187 | defines the text of the `snprintf` format: zero-padded hex bounds, the permission letters, the padded offset and device numbers, and the decimal inode |
| MapsEntry.LineText | app/src/main/cpp/maps_parser.cc:172-213 | defines the line get_line is meant to produce: the fields cut to the buffer before the name column, then a single space for an unnamed mapping or padding to column 73 and the name cut to the room left |
| MapsLine.PermFlags | app/src/main/cpp/maps_parser.cc:115-119 | the flags read from the permission column use only the four permission bits |
| MapsLine.ParseLineFound | app/src/main/cpp/maps_parser.cc:101-165 | an entry the text path returns passes the caller's filter (its permission bits equal the requested ones, and with the file-backed bit its name starts with '/'), and its name is the line from column 73 on |
| MapsLine.NoFilterNoSkip | app/src/main/cpp/maps_parser.cc:122-154 | with no query flags no line is skipped |
| MapsLine.FastParseHex | app/src/main/cpp/maps_parser.cc:28-46 | the loop returns the wrapped value of the hex digits at the cursor and moves it one past the character that stopped the scan |
| MapsLine.ScanBoundsOf | app/src/main/cpp/maps_parser.cc:106-109 | the start and end addresses and the cursor after them |
| MapsLine.ScanEntryOf | app/src/main/cpp/maps_parser.cc:120-150 | the offset, device numbers, inode and name read after the permission column |
| MapsLine.ParseTextLine | app/src/main/cpp/maps_parser.cc:101-165 | one line's verdict (stop, skip, or an entry) is ParseLine's, the function the round trip is proved about |
| MapsLine.ReadPermissions | app/src/main/cpp/maps_parser.cc:115-119 | the four character tests compute PermFlags |
| MapsLine.ParseLine | app/src/main/cpp/maps_parser.cc:101-165 | defines one text line's verdict: an empty line stops the iteration, and otherwise the bounds, permission, filter and name checks below decide |
| MapsLine.ScanBounds | app/src/main/cpp/maps_parser.cc:106-109 | defines the start and end as the two hex fields read one after the other from the line's first character, with the cursor left past the end field |
| MapsLine.CheckBounds | app/src/main/cpp/maps_parser.cc:111-113 | defines that a zero start or end stops the iteration |
| MapsLine.CheckPermissions | app/src/main/cpp/maps_parser.cc:122-124 | defines that with a non-zero filter a line whose four permission bits differ from the filter's is skipped |
| MapsLine.ScanEntry | app/src/main/cpp/maps_parser.cc:126-150 | defines the fields read five past the permissions: the 64-bit offset, the 32-bit major and minor numbers, the decimal inode, and the name from column 73 |
| MapsLine.CheckName | app/src/main/cpp/maps_parser.cc:152-165 | defines that with the file-backed filter bit a name that is empty or does not start with `/` is skipped, and that any other line yields its entry |
| MapsRoundTrip.ParseOfLineText | app/src/main/cpp/maps_parser.cc:101-213 | parsing what get_line prints gives the entry back, for every entry with non-zero bounds, four-bit flags, fields that fit before the name column and a name that fits the buffer |
| MapsRoundTrip.LineShape | app/src/main/cpp/maps_parser.cc:172-213 | the printed line starts with the fields and a space, and its name column holds the name |
| MapsRoundTrip.WithNameShape | app/src/main/cpp/maps_parser.cc:189-212 | the name part keeps the fields and a space in front and puts the name at column 73 |
| MapsRoundTrip.HexField | app/src/main/cpp/maps_parser.cc:28-46 | a printed hex field ended by a non-hex character scans back to its value, the cursor one past the separator |
| MapsRoundTrip.DecField | app/src/main/cpp/maps_parser.cc:129 | a printed decimal field ended by a non-digit reads back |
| MapsRoundTrip.EntryScan | app/src/main/cpp/maps_parser.cc:106-150 | every field of a printed line scans back to the entry's value |
| MapsRoundTrip.FieldsScan | app/src/main/cpp/maps_parser.cc:106-129 | a line whose fields sit where get_line prints them scans back to their values |
| MapsRoundTrip.BoundsScan | app/src/main/cpp/maps_parser.cc:108-109 | the two printed bounds scan back to their values |
| MapsRoundTrip.TailFields | app/src/main/cpp/maps_parser.cc:126-129 | the printed offset, device numbers and inode scan back to their values |
| MapsRoundTrip.PermRoundTrip | app/src/main/cpp/maps_parser.cc:115-119 | the printed permission column reads back as the four-bit flags |
| MapsRoundTrip.FlagBits | app/src/main/cpp/maps_parser.h:14-18 | four-bit flags are the sum of their bits |
| MapsParser.IoctlReply | app/src/main/cpp/maps_parser.cc:69-72 | the retry loop never ends on an interrupted reply |
| MapsParser.Retries | app/src/main/cpp/maps_parser.cc:69-72 | the loop retries at most once per reply |
| MapsParser.IoctlReplySpec | app/src/main/cpp/maps_parser.cc:69-72 | every reply before the final one was interrupted; the loop ends with the first reply that was not, or with -ENOENT when the kernel has nothing more |
| MapsParser.IoctlRestWellFormed | app/src/main/cpp/maps_parser.cc:69-72 | well-formed replies stay well-formed after the loop |
| MapsParser.EntryName | app/src/main/cpp/maps_parser.cc:76-86 | the name's length is the copied size less its NUL, or 0 for an empty copy |
| MapsParser.EntryNameOfTerminated | app/src/main/cpp/maps_parser.cc:76-86 | a name the kernel copied with its NUL comes back unchanged |
| MapsParser.AnswerEntry | app/src/main/cpp/maps_parser.cc:78-87 | every field of the entry is the kernel's answer, the name without its NUL |
| MapsParser.CoveringBitKeepsFilter | app/src/main/cpp/maps_parser.cc:122-123 | or-ing the covering-or-next bit into the query flags leaves the text path's filter as the caller asked |
| MapsParser.CoveringBitSet | app/src/main/cpp/maps_parser.cc:52 | the query always carries the covering-or-next bit |
| MapsParser.TextScanRest | app/src/main/cpp/maps_parser.cc:101-169 | the text loop leaves a suffix of the pending bytes, a strictly shorter one when it returns an entry |
| MapsParser.TextScanPasses | app/src/main/cpp/maps_parser.cc:101-169 | every entry of the text loop passes the caller's filter |
| MapsParser.RestIsSuffix | app/src/main/cpp/maps_parser.cc:101 | a line is taken from non-empty pending bytes, and what is left is a strictly shorter suffix |
| MapsParser.Code | app/src/main/cpp/maps_parser.cc:71-98 | the raw return value is -EINTR exactly for an interrupted reply and 0 exactly for an answer |
| MapsParser.Attempt | app/src/main/cpp/maps_parser.cc:69-72 | the retried query on a descriptor never ends interrupted |
| MapsParser.TextOfLine | app/src/main/cpp/maps_parser.cc:101-169 | an unusable reader or no line gives nothing; an empty line or zero bound stops; a filtered line moves on to the next; an accepted line is returned, and the bytes used come off the pending input |
| MapsParser.IoctlRestShorter | app/src/main/cpp/maps_parser.cc:69-72 | the retried query consumes replies, at least one when it answers |
| MapsParser.TextStepProgress | app/src/main/cpp/maps_parser.cc:101-169 | the text path leaves the replies alone and either completes or consumes pending bytes |
| MapsParser.NextSpecProgress | app/src/main/cpp/maps_parser.cc:59-170 | a NextEntry that does not complete consumes a reply or pending bytes, so iteration ends |
| MapsParser.NextSpecStatus | app/src/main/cpp/maps_parser.cc:59-170 | the status only moves from query to text or to completed; a failed query stays failed; with the query off no reply is used and the query address stays |
| MapsParser.NextSpecEntry | app/src/main/cpp/maps_parser.cc:59-170 | every entry is either the kernel's answer to the query or a text line that passes the filter |
| MapsParser.NextSpecAnswer | app/src/main/cpp/maps_parser.cc:74-87 | while the query is on, an answer is the entry returned |
| MapsParser.ClosedParserYieldsNothing | app/src/main/cpp/maps_parser.cc:59-170 | a parser whose reader did not open yields nothing and completes |
| MapsParser.PassesCallerFilter | app/src/main/cpp/maps_parser.cc:122-154 | the text path accepts an entry under the query's flags exactly when it does under the caller's |
| MapsParser.QueryGate.constructor | app/src/main/cpp/maps_parser.cc:18 | the process-wide "query failed" flag starts false |
| MapsParser.MapsParser.constructor | app/src/main/cpp/maps_parser.cc:49-57 | the query asks for the covering-or-next VMA from address 0 with the caller's flags, names going to the parser's own zeroed buffer |
| MapsParser.MapsParser.RawIoctl | app/src/main/cpp/maps_parser.cc:71 | a closed descriptor gives -EBADF; otherwise the kernel's next reply, -ENOENT when none is left, with an answer's name copied to the query's name address |
| MapsParser.MapsParser.QueryRetrying | app/src/main/cpp/maps_parser.cc:69-72 | returns the code of the first reply that was not interrupted and consumes the replies up to it |
| MapsParser.MapsParser.TextPath | app/src/main/cpp/maps_parser.cc:101-169 | the entry and the reader's pending bytes afterwards are TextOf of the bytes before |
| MapsParser.MapsParser.TryQuery | app/src/main/cpp/maps_parser.cc:64-99 | the parser's state moves as QueryStep says; the name read back is the kernel's reply when the query points at the parser's own buffer |
| MapsParser.MapsParser.NextEntry | app/src/main/cpp/maps_parser.cc:59-170 | the parser's state and entry are NextSpec's (the entry's name too when the query points at the parser's own buffer) |
| MapsParser.MapsParser.MoveAssign | app/src/main/cpp/maps_parser.h:50-58 | the corrected move assignment takes over the other parser's reader, status, query and name bytes, re-points the query's name address at its own buffer and leaves the other with a closed reader; self-assignment changes nothing |
| MapsParser.MapsParser.MoveAssignAsWritten | app/src/main/cpp/maps_parser.h:50-58 | the move assignment as written leaves the query's name address pointing at the other parser's buffer |
| MapsParser.MapsParser.MoveFrom | app/src/main/cpp/maps_parser.h:44-48 | the corrected move constructor takes over the other parser's state with the name address pointing at its own buffer |
| MapsParser.MapsParser.MoveFromAsWritten | app/src/main/cpp/maps_parser.h:44-48 | the move constructor as written leaves the name address pointing at the other parser's buffer |
| MapsParser.MovedParserLosesName | app/src/main/cpp/maps_parser.h:44-58 | after the move as written, an answered query yields an entry whose name is the NUL NextEntry wrote, not the kernel's name |
| MapsParser.MovedParserKeepsName | app/src/main/cpp/maps_parser.h:44-58 | after the corrected move the same query yields the kernel's name "/a" |
| MapsParser.IoctlRest | app/src/main/cpp/maps_parser.cc:69-72 | defines the kernel replies left after the retry loop: the interrupted ones and the one it ends with are consumed |
| MapsParser.QueryStep | app/src/main/cpp/maps_parser.cc:64-99 | defines the query branch: an answer yields its entry and moves the query address to its end, ENOENT completes, and any other error falls back to the text, EACCES and ENODEV setting the process-wide failed flag |
| MapsParser.TextOf | app/src/main/cpp/maps_parser.cc:101-166 | defines the text loop's result: the first line with a verdict to stop or to yield an entry, and the bytes after it; a closed reader yields no line |
| MapsParser.TextStep | app/src/main/cpp/maps_parser.cc:101-169 | defines the text branch: the loop's entry, completion when it yields none, and the reader's remaining bytes |
| MapsParser.NextSpec | app/src/main/cpp/maps_parser.cc:59-170 | defines NextEntry on values: nothing once completed, the query while it has not failed and the status asks for it, the text otherwise or after a fall-back |
| FileReader.FirstNewline | app/src/main/cpp/file_reader.h:73 | memchr's answer lies within the searched bytes |
| FileReader.FirstNewlineSpec | app/src/main/cpp/file_reader.h:73 | no newline before the index found, and a newline at it when it is inside the bytes |
| FileReader.FirstNewlineAppend | app/src/main/cpp/file_reader.h:73-117 | searching more bytes finds the same newline when the first part had one, and otherwise continues the count |
| FileReader.NextLineSpecFacts | app/src/main/cpp/file_reader.h:66-119 | a line comes out exactly when bytes are pending; it uses at least one byte and no more than there are, is at most the buffer size long, holds no newline, and is the consumed bytes less their newline |
| FileReader.LinesAtNewline | app/src/main/cpp/file_reader.h:73-83 | a short line ended by a newline is handed out first, then the lines after it |
| FileReader.LinesAtEnd | app/src/main/cpp/file_reader.h:109-114 | a short last line without a newline is handed out as it is |
| FileReader.LinesRoundTrip | app/src/main/cpp/file_reader.h:66-119 | when no line is as long as the buffer, the lines joined with newlines give back the input, with a final newline supplied if it was missing |
| FileReader.ExactCapacityLine | app/src/main/cpp/file_reader.h:96-101 | a line exactly as long as the buffer is cut there, and its newline then gives an extra empty line |
| FileReader.FillNoNewline | app/src/main/cpp/file_reader.h:96-101 | a run of non-newline bytes has no newline |
| FileReader.AsWrittenTerminatorOverrun | app/src/main/cpp/file_reader.h:96-101 | a fresh reader whose first line has kBufferSize bytes and no newline goes through the full-buffer branch and writes its '\0' at index kBufferSize, the length of the array as declared |
| FileReader.FileReader.constructor | app/src/main/cpp/file_reader.h:55-57 | a reader over the descriptor with an empty buffer; the pending bytes are the file's contents |
| FileReader.FileReader.RawRead | app/src/main/cpp/file_reader.h:106 | an interrupted call reads nothing; otherwise as many bytes as fit and remain are appended after the buffered ones |
| FileReader.FileReader.ReadRetrying | app/src/main/cpp/file_reader.h:104-107 | the loop ends with as many bytes as fit and remain, appended after the buffered ones |
| FileReader.FileReader.Compact | app/src/main/cpp/file_reader.h:87-94 | the unconsumed bytes move to the front and the pending bytes do not change |
| FileReader.FileReader.NextLine | app/src/main/cpp/file_reader.h:66-119 | an invalid reader gives nothing; otherwise the line and the bytes left are NextLineSpec's, and the line sits in the buffer followed by '\0', inside the buffer |
| FileReader.FileReader.ReadLine | app/src/main/cpp/file_reader.h:69-118 | the loop gives NextLineSpec's line and bytes left, the line followed by '\0' inside the buffer |
| FileReader.FileReader.Step | app/src/main/cpp/file_reader.h:70-117 | one pass either finishes with the line or moves more input into the buffer without changing the pending bytes |
| FileReader.FileReader.Refill | app/src/main/cpp/file_reader.h:96-117 | more input lands after the buffered bytes and the pending bytes do not change |
| FileReader.FileReader.Memchr | app/src/main/cpp/file_reader.h:73 | the first newline in the range, or its end |
| FileReader.FileReader.TakeLine | app/src/main/cpp/file_reader.h:73-83 | the line before the newline, its newline overwritten by '\0', and the position stepped past it |
| FileReader.FileReader.WholeBuffer | app/src/main/cpp/file_reader.h:96-114 | a full buffer or the last bytes of the input form the line, terminated inside the buffer, and the buffer empties |
| FileReader.LineIterator.End | app/src/main/cpp/file_reader.h:122 | end() has no reader |
| FileReader.LineIterator.Begin | app/src/main/cpp/file_reader.h:121 | begin() holds the first line, or is end() when there is none |
| FileReader.LineIterator.Advance | app/src/main/cpp/file_reader.h:25-34 | operator++ moves to the next line, and becomes end() once the reader runs dry |
| FileReader.NextLineSpec | app/src/main/cpp/file_reader.h:66-119 | defines the line NextLine yields and the bytes it consumes: up to the first newline if that lies within the buffer, else a full buffer, else at end of input what is left; nothing when no bytes are left |
| FileReader.Lines | app/src/main/cpp/file_reader.h:25-34 | defines the lines the iterator produces: NextLine repeated until it yields nothing |
| RefTables.CollectKeys | app/src/main/cpp/main.cc:511-521 | a start address is recorded exactly when some read-write mapping named `[anon:dalvik-indirect ref table]` starts there |
| RefTables.CollectFirst | app/src/main/cpp/main.cc:518 | the end recorded for a start is that of the first such mapping, because `emplace` keeps an existing key |
| RefTables.CollectIndirectRefTables | app/src/main/cpp/main.cc:511-521 | the loop builds exactly the map the two lemmas above describe |
| RefTables.FirstGlobalTable | app/src/main/cpp/main.cc:530-545 | the first index whose words pass every check (global kind, both counts at most 1,000,000, address inside a table, address and count non-zero), or none |
| RefTables.FindGlobalRefTable | app/src/main/cpp/main.cc:523-548 | no tables means no answer; an answer has a non-null address inside some indirect reference table and a count between 1 and 1,000,000 |
| RefTables.FindGlobalRefTableSpec | app/src/main/cpp/main.cc:529-545 | the answer is the address and count described at the first index that passes every check |
| RefTables.ScanGlobalTable | app/src/main/cpp/main.cc:530-545 | the loop stops at FirstGlobalTable's index |
| RefTables.FindGlobalRefTableLoop | app/src/main/cpp/main.cc:523-548 | the method, with its early return for no tables, computes FindGlobalRefTable |
| RefTables.AnyHexDigitValue | app/src/main/cpp/disable_lsposed.cc:281 | a digit of either case is worth less than 16, and a lowercase one what the maps format wrote |
| RefTables.StrToUL16 | app/src/main/cpp/disable_lsposed.cc:281 | `strtoul(..., 16)` always gives a value of the pointer width |
| RefTables.StrToUL16Plain | app/src/main/cpp/disable_lsposed.cc:281 | text starting with a digit and no `0x` prefix is read from its first character without a sign, saturating at the largest value |
| RefTables.StrToUL16OfLine | app/src/main/cpp/disable_lsposed.cc:277-281 | a maps line's start address, lowercase hex followed by `-`, reads back as its value when it fits |
| RefTables.TableStartsSpec | app/src/main/cpp/disable_lsposed.cc:277-282 | a start is recorded exactly when some line long enough, with the table's name at the name column, reads as it |
| RefTables.LegacyCollectTables | app/src/main/cpp/disable_lsposed.cc:270-282 | the loop over the maps lines builds exactly those starts, with the name column at 25 + 6 times the kernel pointer size |
| RefTables.FirstLegacyTable | app/src/main/cpp/disable_lsposed.cc:286-293 | the first index whose word is a recorded start, with the global kind and a capacity of at most 1,000,000, or none |
| RefTables.LegacyFindTable | app/src/main/cpp/disable_lsposed.cc:283-296 | an answer is a recorded, non-null start; with no starts there is none |
| RefTables.ScanLegacyTable | app/src/main/cpp/disable_lsposed.cc:286-293 | the loop stops at FirstLegacyTable's index |
| RefTables.LegacyScanTable | app/src/main/cpp/disable_lsposed.cc:283-296 | the loop and the null check compute LegacyFindTable |
| RefTables.Collect | app/src/main/cpp/main.cc:516-519 | defines the map after the first n read-write mappings: each mapping named as a reference table is emplaced, so the first end recorded for a start is kept |
| RefTables.GlobalTableAt | app/src/main/cpp/main.cc:531-543 | defines the checks at word i: the global kind at i + 1, size and capacity at most 1000000, a pointer inside a recorded table, and neither the pointer nor the size zero |
| RefTables.TableStarts | app/src/main/cpp/disable_lsposed.cc:277-282 | defines the set of starts after the first n lines: each line long enough whose name column is the reference tables' name adds its leading hex number |
| RefTables.LegacyTableAt | app/src/main/cpp/disable_lsposed.cc:287-289 | defines the older checks at word i: a recorded start, the global kind at i + 1 and a capacity at most 1000000, with no check of the size |
| Trampoline.StoredPointer | app/src/main/cpp/main.cc:338-384 | the pointer loaded is of the pointer width |
| Trampoline.FirstMatch | app/src/main/cpp/main.cc:338-384 | the first position in the window where the architecture's stub matches, or none when none does |
| Trampoline.GetLSPEntryMethod | app/src/main/cpp/main.cc:338-384 | the result is of the pointer width, and null when no position matches |
| Trampoline.GetLSPEntryMethodSpec | app/src/main/cpp/main.cc:338-384 | the result is the pointer stored after the first matching position |
| Trampoline.FindLSPEntryMethod | app/src/main/cpp/main.cc:338-384 | the loop that returns at the first match computes GetLSPEntryMethod |
| Trampoline.NoOpeningNoStub | app/src/main/cpp/main.cc:338-384 | an entry point at none of whose window positions a stub's fixed words begin yields no hooker method |
| Trampoline.Arm64Stub | app/src/main/cpp/main.cc:342-344 | defines the AArch64 stub: `0x58000060`, a word matching `0xF8400010` under mask `0xFFF00FFF`, and `0xD61F0200` |
| Trampoline.ArmStub | app/src/main/cpp/main.cc:350-351 | defines the ARM stub: `0xE59F0000` and a word matching `0xE590FF00` under mask `0xFFFFFF00` |
| Trampoline.X86Stub | app/src/main/cpp/main.cc:357-360 | defines the x86 stub: bytes `0xB8`, `0xFF`, `0x70` and `0xC3` at offsets 0, 5, 6 and 8 |
| Trampoline.X86_64Stub | app/src/main/cpp/main.cc:366-370 | defines the x86-64 stub: bytes `0x48`, `0xBF`, `0xFF`, `0x77` and `0xC3` at offsets 0, 1, 10, 11 and 13 |
| Trampoline.RiscVStub | app/src/main/cpp/main.cc:376-379 | defines the RISC-V stub: `0x00000517`, `0x01053503`, a word matching `0x00053F83` under mask `0xF00FFFFF`, and `0x000F8067` |
| Trampoline.MatchAt | app/src/main/cpp/main.cc:339-381 | defines a match at position `i` as the architecture's stub starting at instruction or byte `i` of the entry point |
| ArtMemory.Word64 | app/src/main/cpp/main.cc:710 | a 64-bit load is the word at the address as the low half and the next word as the high half |
| ArtMemory.Ptr | app/src/main/cpp/main.cc:794-795 | a pointer load is one word on 32-bit architectures and two little-endian words on 64-bit ones |
| ArtMemory.CopiedSpec | app/src/main/cpp/main.cc:803 | after `memcpy` each word of the block holds the source word at the same offset, read before the copy, and every other word is unchanged |
| ArtMemory.Memory.Store | app/src/main/cpp/main.cc:804 | a store changes exactly the word stored to |
| ArtMemory.Memory.Copy | app/src/main/cpp/main.cc:803 | the memory afterwards is the copy of the memory before |
| ArtMethods.UPtr | app/src/main/cpp/main.cc:796-801 | `uintptr_t` arithmetic stays below the pointer modulus |
| ArtMethods.ProbeDescriptorSize | app/src/main/cpp/main.cc:708-717 | 0 exactly when no word from the first probed index (5 here, 1 in the older engine) to 31 holds the Method class; otherwise 4 times the first index that does |
| ArtMethods.Resolve | app/src/main/cpp/main.cc:784-794 | a target is found only for a non-null Method object whose ArtMethod names a class other than its declaring class |
| ArtMethods.ResolveNone | app/src/main/cpp/main.cc:784-790 | a reference is skipped exactly when it is null, not a Method, or its ArtMethod's class is its declaring class |
| ArtMethods.FirstOriginal | app/src/main/cpp/main.cc:798-800 | the first method of the table with the hooked method's index, or none |
| ArtMethods.FindOriginal | app/src/main/cpp/main.cc:798-834 | the table loop breaks at FirstOriginal's index |
| ArtMethods.MethodsArray | app/src/main/cpp/main.cc:794 | defines Class.methods of a class as the 64-bit field at `methods_off`, cut to the pointer width |
| ArtMethods.MethodAt | app/src/main/cpp/main.cc:798 | defines the address of the j-th ArtMethod as j times the method size past the array's `size_t` length |
| ArtMethods.ProbeHit | app/src/main/cpp/main.cc:710-714 | defines a probe hit at word i as word i past the first ArtMethod of Method's table holding the Method class |
| ArtMethods.SameIndex | app/src/main/cpp/main.cc:799 | defines a candidate original as a method of the table whose word 2, the method index, equals the hooked ArtMethod's |
| MainRepair.WithSynthetic | app/src/main/cpp/main.cc:806 | `access_flags \ |
| MainRepair.RepairSkips | app/src/main/cpp/main.cc:783-800 | the visitor records nothing exactly when the reference does not resolve or no method of the owning class has the hooked method's index, and then memory is unchanged |
| MainRepair.RestoredSpec | app/src/main/cpp/main.cc:803-804 | after the restore the original's words are the hooked ArtMethod's, except the access-flags word, which keeps its value, and every other word is unchanged |
| MainRepair.RepairFoundRecord | app/src/main/cpp/main.cc:802-833 | the record names the owning class and the original's address, with the synthetic bit added exactly when a trampoline is still in place |
| MainRepair.RepairFoundMemory | app/src/main/cpp/main.cc:803-810 | with a trampoline still in place nothing is written; otherwise the original is restored |
| MainRepair.RepairFound | app/src/main/cpp/main.cc:802-833 | memory and the unhooked list move as RepairAt says; the other globals are unchanged |
| MainRepair.RepairReference | app/src/main/cpp/main.cc:783-835 | the visitor changes memory and appends to the unhooked list exactly as Repair says, which the lemmas above describe |
| MainRepair.Then | app/src/main/cpp/main.cc:783-836 | one visit keeps the earlier records and adds at most one |
| MainRepair.VisitRoots | app/src/main/cpp/gc_root.h:86-96 | visiting `n` roots keeps the earlier records and adds at most `n` |
| MainRepair.VisitTable | app/src/main/cpp/main.cc:571-578 | visiting `n` slots keeps the earlier records and adds at most `n` |
| MainRepair.ThenQuiet | app/src/main/cpp/main.cc:784-790 | a reference that does not resolve changes nothing |
| MainRepair.VisitRootsQuiet | app/src/main/cpp/gc_root.h:86-96 | a run of references none of which resolves changes nothing |
| MainRepair.VisitAllBound | app/src/main/cpp/main.cc:554-579 | earlier records stay in place; the runtime's path adds at most one record per root; the fallback with no tables changes nothing |
| MainRepair.VisitRuntimeRoots | app/src/main/cpp/main.cc:564-567 | memory and records afterwards are VisitRoots over every root |
| MainRepair.VisitRoot | app/src/main/cpp/gc_root.h:86-96 | one root visited after the roots before it |
| MainRepair.VisitGlobalRefTable | app/src/main/cpp/main.cc:571-578 | memory and records afterwards are VisitTable over every slot |
| MainRepair.VisitSlot | app/src/main/cpp/main.cc:573-576 | one slot visited after the slots before it; a null slot is skipped |
| MainRepair.VisitJNIGlobalReferences | app/src/main/cpp/main.cc:554-579 | memory and records afterwards are VisitAll's: the runtime's VisitRoots when found, otherwise the global reference table |
| MainRepair.VisitOne | app/src/main/cpp/main.cc:783-836 | one visit, as Then says |
| MainRepair.Unhook | app/src/main/cpp/main.cc:679-836 | the layout holds the offsets JNI_OnLoad read; the method size is 4 times the first word from word 5 below 32 that holds the Method class, so between 20 and 124 bytes, or 0 exactly when no such word exists; memory and records are VisitAll's; the other globals are unchanged |
| MainRepair.EntryPoint | app/src/main/cpp/main.cc:802 | defines the hooked method's entry point as the pointer stored in the last pointer-sized slot of its ArtMethod |
| MainRepair.StillHooked | app/src/main/cpp/main.cc:802 | defines "still hooked" as the trampoline search finding a hooker method at that entry point |
| MainRepair.Restored | app/src/main/cpp/main.cc:803-804 | defines the memory after the `memcpy` of the hooked ArtMethod over the original and the store of the original's access flags back into word 1 |
| MainRepair.RepairAt | app/src/main/cpp/main.cc:801-832 | defines the work once the original is found: when still hooked, memory unchanged and the flags recorded with bit 12 set; otherwise the restore and the original's own flags recorded |
| MainRepair.Repair | app/src/main/cpp/main.cc:783-836 | defines one visitor call: nothing for a reference that does not resolve or whose class has no method with the same index, otherwise RepairAt on the first such method |
| MainRepair.VisitAll | app/src/main/cpp/main.cc:554-579 | defines VisitJNIGlobalReferences with the repair visitor: the runtime's roots when its VisitRoots resolves, otherwise the global table found through the maps, otherwise nothing |
| LegacyRepair.AgreesUnlessHooked | app/src/main/cpp/disable_lsposed.cc:335-367 | on every reference whose method does not run a trampoline, the older engine changes memory and reports exactly as the newer one |
| LegacyRepair.DiffersWhenHooked | app/src/main/cpp/disable_lsposed.cc:340-351 | when the method still runs a trampoline, the newer engine leaves memory alone and reports the record the older engine reports, with the synthetic bit added to its flags |
| LegacyRepair.RepairFound | app/src/main/cpp/disable_lsposed.cc:344-364 | when the original is found, it is reported with its class, its address and its own access flags, and memory is the original restored from the hooked copy |
| LegacyRepair.RepairSkips | app/src/main/cpp/disable_lsposed.cc:337-348 | nothing is reported exactly when the reference does not resolve or no method of the table has the hooked method's index, and then memory is unchanged |
| LegacyRepair.RepairReference | app/src/main/cpp/disable_lsposed.cc:338-365 | memory afterwards is Repair's and its record, if any, is appended to the unhooked list; no other global changes |
| LegacyRepair.Then | app/src/main/cpp/disable_lsposed.cc:336-366 | one pass keeps the earlier records as a prefix and adds at most one |
| LegacyRepair.VisitTable | app/src/main/cpp/disable_lsposed.cc:335-367 | the earlier records stay a prefix and at most one is added per slot |
| LegacyRepair.EmptyTableQuiet | app/src/main/cpp/disable_lsposed.cc:336-337 | a table whose slots are all null changes neither memory nor the records |
| LegacyRepair.VisitOne | app/src/main/cpp/disable_lsposed.cc:336-366 | one pass, as Then says |
| LegacyRepair.VisitGlobalRefTable | app/src/main/cpp/disable_lsposed.cc:335-367 | memory and records afterwards are VisitTable over every slot |
| LegacyRepair.VisitSlot | app/src/main/cpp/disable_lsposed.cc:336-337 | one slot visited after the slots before it; a null slot is skipped |
| LegacyRepair.Unhook | app/src/main/cpp/disable_lsposed.cc:283-367 | JNI_OnLoad gives up exactly when no global reference table is found, and then nothing changes; otherwise the layout holds the given offsets, the method size is 4 times the first word from word 1 below 32 that holds the Method class, or 0 exactly when no such word exists, and memory and records are VisitTable over the found table; the other globals are unchanged |
| LegacyRepair.Repair | app/src/main/cpp/disable_lsposed.cc:336-366 | defines one pass of the older loop body: the newer visitor's work with no trampoline check, so a found original is always overwritten and recorded with its own flags |
| LegacyRepair.HookedAt | app/src/main/cpp/main.cc:801-807 | defines the case in which the engines differ: the reference resolves, its original is found, and the newer engine's trampoline check succeeds |
| Remap.AlignDownSpec | app/src/main/cpp/main.cc:603-605 | rounding down to a positive alignment gives the largest multiple that is not above the value |
| Remap.AlignUpSpec | app/src/main/cpp/main.cc:604 | rounding up to a positive alignment gives the smallest multiple that is not below the value |
| Remap.SegmentRequestCovers | app/src/main/cpp/main.cc:603-605 | the mapping starts at an aligned address within one alignment below the segment's address, reads from an aligned file offset within one alignment below the segment's, and spans whole pages covering the segment's memory size with less than a page to spare |
| Remap.Requests | app/src/main/cpp/main.cc:595-610 | at most one request per program header |
| Remap.RequestsSpec | app/src/main/cpp/main.cc:595-610 | a request is made exactly for each loadable, executable, non-writable header, with the engine's protection |
| Remap.RequestsNotWritable | app/src/main/cpp/main.cc:599-610 | no request asks for a writable mapping |
| Remap.AnyMappedSnoc | app/src/main/cpp/main.cc:610-615 | one more request succeeds overall exactly when it or an earlier one does |
| Remap.MapSegments | app/src/main/cpp/main.cc:595-616 | the mmap calls are exactly Requests; the restored flag ends set when it was or when a mapping succeeded (or, testing the whole-file mapping, when any call was made and that mapping is valid); nothing else changes |
| Remap.RemapExecutableSegmentsForArt | app/src/main/cpp/main.cc:581-620 | with the library found, opened and mapped, the mmap calls are Requests; the restored flag ends set exactly when it was already or some segment mapping succeeded; nothing else changes |
| Remap.LegacyRemap | app/src/main/cpp/disable_lsposed.cc:368-396 | the older engine's remap with the test on the segment mapping: the restored flag ends set exactly when it was already or some mapping succeeded |
| Remap.LegacyRemapAsWritten | app/src/main/cpp/disable_lsposed.cc:368-396 | the older engine's remap with the test on `elf`: the flag ends set when any segment was asked for, whatever the mmap calls returned |
| Remap.LegacyTestsDiffer | app/src/main/cpp/disable_lsposed.cc:387-392 | a successful mapping makes both tests agree, and they differ exactly when some mapping was asked for and every one failed |
| Remap.FailedRemapReportedRestored | app/src/main/cpp/disable_lsposed.cc:387-392 | on AArch64 with one executable segment whose mapping fails, the code as written still reports ART as restored |
| Remap.EnginesAskAlike | app/src/main/cpp/main.cc:595-610 | both engines ask for the same segments at the same addresses, offsets and sizes; only the protection may differ |
| Remap.Selected | app/src/main/cpp/main.cc:599-601 | defines the segments mapped: loadable, executable and not writable |
| Remap.AlignDown | app/src/main/cpp/main.cc:603-605 | defines `__builtin_align_down` as rounding down to a multiple of the alignment |
| Remap.AlignUp | app/src/main/cpp/main.cc:604 | defines `__builtin_align_up` as rounding up to a multiple of the alignment |
| Remap.SegmentRequest | app/src/main/cpp/main.cc:603-610 | defines the segment mapping: address and file offset rounded down to `p_align`, length rounded up to whole pages, and the given protection |
| Remap.IsError | app/src/main/cpp/main.cc:611 | defines a failed system call as a result in the top 4095 values of the pointer range |
| Remap.RunRequests | app/src/main/cpp/main.cc:581-616 | defines the requests of a whole run: none when `dladdr` fails, the file does not open, or the whole-file mapping fails; otherwise one per selected segment |

## Left out

- JNI and reflection calls (`FindClass`, `Call*Method`, `RegisterNatives`, `IsAssignableFrom`, `ToReflectedField`, the helpers of `jni_helper.h`). They are foreign runtime calls, so the model reads their answers from the oracle functions of `Jvm.World`.
- `Unsafe` (app/src/main/cpp/main.cc:286-322) and the object-to-address slot trick of the older engine (app/src/main/cpp/disable_lsposed.cc:314-323). Both go through `sun.misc.Unsafe`, so the Method class address is a parameter.
- FindFrameworkAPIClassAndClassLoaderByHookedMethod (app/src/main/cpp/main.cc:386-420). It reads a field through a hooker class found by the trampoline. Only the trampoline search `GetLSPEntryMethod` is modelled.
- The exception triggers around the stack-trace finder (app/src/main/cpp/main.cc:479-508). They call `loadDex` and the LoadedApk constructor with null arguments. Only the finder lambda that scans the resulting stack trace is modelled.
- `GetClassNameList` (app/src/main/cpp/main.cc:324-336) and `Class.forName`. They are JNI calls, so the names are an input sequence and `forName` is an oracle.
- The `xdl_open`/`xdl_sym` lookup of the runtime's own `VisitRoots` (app/src/main/cpp/main.cc:550-569). It is a foreign library call, so the model takes the sequence of roots that function would visit as an optional input.
- `open`, `lseek`, `mmap`, `munmap`, `close`, `dladdr` and `__builtin___clear_cache` in the remap code. They are system calls, so their results are inputs. The ELF program headers are an input sequence.
- Read errors other than EINTR in `FileReader::NextLine`. They end the line loop the way end of file does. The model's `read` always delivers what fits and remains.
- The move constructor and `IsValid` of the reader that `maps_parser.h` and `disable_lsposed.cc` use. The `file_reader.h` of this repository has no such members, so MapsParser is modelled over the reader's line interface.
- The 32-bit build of MapsParser::NextEntry (app/src/main/cpp/maps_parser.cc:134-149) guesses the name column from the kernel's pointer width, and get_line also uses that guess. The model is the LP64 build, with the name column at 73.
- The `get_line(span)` overload. It is declared in maps_parser.h but not defined in this repository.
- The rendering of unhooked records as `Class::method` strings and as coloured descriptors (app/src/main/cpp/main.cc:770-782, 812-833; app/src/main/cpp/disable_lsposed.cc:352-364). The model records each one as an `ArtMethods.Unhooked` value: the class, the ArtMethod address and the access flags. The descriptor text is modelled on its own in `DescriptorBuilder`.
- The `ArrayList` variant of the unhooked list (built without `USE_SPANNABLE_STRING_BUILDER`). It is a build switch over JNI calls.
- `JniCache` setup and teardown (app/src/main/cpp/descriptor_builder.cc:37-175). It is JNI plumbing guarded by `std::call_once`, which is concurrency.
- `ToStringArray` and the JNI getters `nGetUnhookedMethodList`, `nGetFrameworkName`, `nGetClearedCallbacks` and `getUnhookedMethods` (app/src/main/cpp/main.cc:622-663; app/src/main/cpp/disable_lsposed.cc:153-162). They only copy the globals of `NativeState` into Java arrays.
- Bytes after a line's terminator. The reader ends each line with '\0', and the model reads that '\0' at the line's end as the code does. `FastParseHex` and the permission reads go past it only on a line that ends before its fields do; there the code reads whatever follows in the reader's buffer, and the model reads '\0'. This matters only for lines not in the kernel's maps format.
- The difference between characters and bytes. A Dafny `string` is a sequence of characters, and the model takes each character for one byte: the span ends that `appendStringWithColor` computes from `str.size()` (app/src/main/cpp/descriptor_builder.cc:191) and the 1023 bytes that `snprintf` keeps in `Jvm.Truncated` (app/src/main/cpp/main.cc:58-63) are counted in characters. Names outside ASCII, which take several UTF-8 bytes, would give different offsets and cut points.
- The aliasing of `VmaEntry.name`. It is a `string_view` into the parser's name buffer or the reader's line buffer, which the next `NextEntry` overwrites. The model copies the name into the returned value, so an entry kept across calls keeps its name in the model.
- Remap.AlignDownSpec: stated, like Remap.AlignUpSpec, for a positive alignment only. A zero `p_align` or page size has no meaning for `__builtin_align_down`/`__builtin_align_up`, and the source does not guard against it.
- The Kotlin and Java app code (activities, `App.kt`, `Native.kt`/`Native.java`, the `HookEntry` classes) and the Gradle files. They are UI, thin wrappers over the native entry points, or build configuration.

## Findings

| source | as written | input that shows it | evidently intended | confidence | as-written member | corrected member |
|---|---|---|---|---|---|---|
| app/src/main/cpp/file_reader.h:96-101 | the buffer is `char buffer_[kBufferSize]`, and a full buffer without a newline is returned after `buffer_[buf_end_] = '\0'` with `buf_end_ == kBufferSize`, one byte past the array | a file whose first line has at least `kBufferSize` bytes before any newline | room for the terminator: a buffer of `kBufferSize + 1` bytes | not executed | FileReader.AsWrittenTerminatorOverrun | FileReader.FileReader.NextLine |
| app/src/main/cpp/maps_parser.cc:175-189 | `size` is what `snprintf` returns, the length the fields would have had; `snprintf` only wrote 72 of them into a 73-byte limit, so `buf[size] = ' '` and the returned string run past what was written | an entry whose numbers all have their widest form (MapsEntry.WideFieldsExist): the fields take 94 characters, so the line holds the `'\0'` at offset 72 and unwritten bytes after it | `size` clipped to what was written (at most 72) before the name column is laid out | not executed | MapsEntry.GetLineAsWritten | MapsEntry.GetLine |
| app/src/main/cpp/maps_parser.h:44-48 | the move constructor copies `query_buffer_` byte for byte, so the copied `vma_name_addr` still points at the other parser's `name_buffer_` | move a parser, then let the ioctl copy out a name: the kernel writes it into the moved-from parser's buffer, while the new parser reads its own, so the entry's name starts with a NUL instead of `/a` (MapsParser.MovedParserLosesName, through assignment) | point `vma_name_addr` at the parser's own `name_buffer_` after the copy | not executed | MapsParser.MapsParser.MoveFromAsWritten | MapsParser.MapsParser.MoveFrom |
| app/src/main/cpp/maps_parser.h:50-58 | move assignment copies `query_buffer_` the same way, with the same stale `vma_name_addr` | as in the row above; MapsParser.MovedParserKeepsName shows the corrected assignment reporting `/a` | as above | not executed | MapsParser.MapsParser.MoveAssignAsWritten | MapsParser.MapsParser.MoveAssign |
| app/src/main/cpp/disable_lsposed.cc:387-392 | after each segment `mmap`, the success test checks `elf`, the whole-file mapping that has already been checked, instead of the segment's own result `map` | AArch64, one loadable executable segment, and every segment `mmap` failing (Remap.FailedRemapReportedRestored): `is_art_restored_` is still set | test `map`, as `RemapExecutableSegmentsForArt` does at app/src/main/cpp/main.cc:611 | not executed | Remap.LegacyRemapAsWritten | Remap.LegacyRemap |
