/** XposedCallbackHelper of app/src/main/cpp/main.cc: the state machine
    that, class by class through the framework's API classes, finds the
    modern (`XposedInterface`) and legacy (`XposedBridge`) callback
    registries, records every registered callback and empties the
    registries. The Java side is the `World` oracle; the registries are
    the collections of the `Heap`. */
module MainCallbacks {
  import opened Base
  import opened Jvm
  import opened NativeState

  /** What the helper's constructor looks up: the `Collection` and
      `ConcurrentHashMap.KeySetView` classes, either of which may be null. */
  datatype Env = Env(world: World, collectionCls: Ref, keySetViewCls: Ref)

  /** `getDeclaredFields()` of `cls`; a null array is iterated like an
      empty one, which is what both loops over it amount to. */
  function FieldsOf(w: World, cls: Ref): seq<FieldInfo>
  {
    match w.declaredFields(cls)
    case None => []
    case Some(fields) => fields
  }

  // ---------------------------------------------------------------
  // GetFirstNonNullInstanceField

  /** An instance field of `obj` whose value is not null. */
  predicate HoldsInstance(w: World, obj: Ref, f: FieldInfo)
  {
    !IsStatic(f) && w.fieldValue(f.id, obj) != NULL
  }

  /** The value of the first field from `k` on that holds an instance. */
  function FirstInstanceFrom(w: World, obj: Ref, fields: seq<FieldInfo>, k: nat): (v: Ref)
    requires k <= |fields|
    ensures v != NULL <==> exists i :: k <= i < |fields| && HoldsInstance(w, obj, fields[i])
    decreases |fields| - k
  {
    if k == |fields| then NULL
    else if HoldsInstance(w, obj, fields[k]) then w.fieldValue(fields[k].id, obj)
    else FirstInstanceFrom(w, obj, fields, k + 1)
  }

  /** The wrapped callback inside `obj`, or null. */
  function FirstInstanceField(w: World, obj: Ref): Ref
  {
    FirstInstanceFrom(w, obj, FieldsOf(w, w.classOf(obj)), 0)
  }

  /** The value found is the one held by the first instance field whose
      value is not null. */
  lemma {:induction false} FirstInstanceFromSpec(w: World, obj: Ref, fields: seq<FieldInfo>, k: nat, i: nat)
    requires k <= i < |fields| && HoldsInstance(w, obj, fields[i])
    requires forall j :: k <= j < i ==> !HoldsInstance(w, obj, fields[j])
    ensures FirstInstanceFrom(w, obj, fields, k) == w.fieldValue(fields[i].id, obj)
    decreases i - k
  {
    if k < i {
      FirstInstanceFromSpec(w, obj, fields, k + 1, i);
    }
  }

  /** With a wrapper, a callback is replaced by the first non-null
      instance field it has, if any. */
  function Unwrap(w: World, x: Ref, hasWrapper: bool): (r: Ref)
    ensures !hasWrapper ==> r == x
    ensures r != x ==> r == FirstInstanceField(w, x) && r != NULL
  {
    if hasWrapper && FirstInstanceField(w, x) != NULL then FirstInstanceField(w, x) else x
  }

  /** The string recorded for the callback `x`. */
  function CallbackString(w: World, x: Ref, hasWrapper: bool): string
  {
    ObjectString(w, Unwrap(w, x, hasWrapper))
  }

  // ---------------------------------------------------------------
  // Recording and clearing

  /** The inner iterator loop over the first `n` elements: InsertUnique
      of each element's string, in iteration order. */
  function RecordAll(w: World, cleared: seq<string>, elems: seq<Ref>, n: nat, hasWrapper: bool): (r: seq<string>)
    requires n <= |elems|
    ensures cleared <= r
    ensures NoDup(cleared) ==> NoDup(r)
  {
    if n == 0 then cleared
    else Inserted(RecordAll(w, cleared, elems, n - 1, hasWrapper), CallbackString(w, elems[n - 1], hasWrapper))
  }

  /** Every element's string ends up in the list, and nothing else is
      added. */
  lemma {:induction false} RecordAllSpec(w: World, cleared: seq<string>, elems: seq<Ref>, n: nat, hasWrapper: bool)
    requires n <= |elems|
    ensures forall i :: 0 <= i < n ==> CallbackString(w, elems[i], hasWrapper) in RecordAll(w, cleared, elems, n, hasWrapper)
    ensures forall s :: s in RecordAll(w, cleared, elems, n, hasWrapper) ==>
              s in cleared || exists i :: 0 <= i < n && CallbackString(w, elems[i], hasWrapper) == s
  {
    if n > 0 {
      RecordAllSpec(w, cleared, elems, n - 1, hasWrapper);
    }
  }

  /** A static field whose value is an instance of the expected type. */
  predicate Qualifies(w: World, expected: Ref, f: FieldInfo)
  {
    IsStatic(f) && w.fieldValue(f.id, NULL) != NULL && w.isInstanceOf(w.fieldValue(f.id, NULL), expected)
  }

  /** The collections' contents, the cleared-callback list and the
      `cleared` result, as the field loop goes. */
  datatype Sweep = Sweep(contents: Contents, cleared: seq<string>, found: bool)

  /** One field of the loop: a qualifying collection has its elements
      recorded and is then emptied. */
  function SweepField(w: World, expected: Ref, hasWrapper: bool, s: Sweep, f: FieldInfo): Sweep
  {
    if !Qualifies(w, expected, f) then s
    else
      var c := w.fieldValue(f.id, NULL);
      var elems := Elements(s.contents, c);
      Sweep(s.contents[c := []], RecordAll(w, s.cleared, elems, |elems|, hasWrapper), true)
  }

  /** The field loop over the first `n` fields, in order. */
  function SweepFields(w: World, expected: Ref, hasWrapper: bool, s: Sweep, fields: seq<FieldInfo>, n: nat): (r: Sweep)
    requires n <= |fields|
    ensures s.cleared <= r.cleared
    ensures NoDup(s.cleared) ==> NoDup(r.cleared)
  {
    if n == 0 then s
    else SweepField(w, expected, hasWrapper, SweepFields(w, expected, hasWrapper, s, fields, n - 1), fields[n - 1])
  }

  /** ClearStaticFieldsAssignableTo: nothing happens for a null class or
      expected type; otherwise the field loop runs from `found = false`. */
  function ClearStatic(w: World, cls: Ref, expected: Ref, hasWrapper: bool, contents: Contents, cleared: seq<string>): (s: Sweep)
    ensures cleared <= s.cleared
    ensures NoDup(cleared) ==> NoDup(s.cleared)
  {
    if cls == NULL || expected == NULL then Sweep(contents, cleared, false)
    else SweepFields(w, expected, hasWrapper, Sweep(contents, cleared, false), FieldsOf(w, cls), |FieldsOf(w, cls)|)
  }

  /** The loop reports a clear exactly when some field qualifies. */
  lemma {:induction false} SweepFoundIff(w: World, expected: Ref, hasWrapper: bool, s: Sweep, fields: seq<FieldInfo>, n: nat)
    requires n <= |fields|
    ensures SweepFields(w, expected, hasWrapper, s, fields, n).found <==>
              s.found || exists i :: 0 <= i < n && Qualifies(w, expected, fields[i])
  {
    if n > 0 {
      SweepFoundIff(w, expected, hasWrapper, s, fields, n - 1);
      SweepFieldFound(w, expected, hasWrapper, SweepFields(w, expected, hasWrapper, s, fields, n - 1), fields[n - 1]);
    }
  }

  lemma SweepFieldFound(w: World, expected: Ref, hasWrapper: bool, s: Sweep, f: FieldInfo)
    ensures SweepField(w, expected, hasWrapper, s, f).found == (s.found || Qualifies(w, expected, f))
  {
  }

  /** ClearStaticFieldsAssignableTo returns true iff the class and type
      are not null and some static field holds an instance of the type. */
  lemma ClearStaticFound(w: World, cls: Ref, expected: Ref, hasWrapper: bool, contents: Contents, cleared: seq<string>)
    ensures ClearStatic(w, cls, expected, hasWrapper, contents, cleared).found <==>
              cls != NULL && expected != NULL &&
              exists i :: 0 <= i < |FieldsOf(w, cls)| && Qualifies(w, expected, FieldsOf(w, cls)[i])
  {
    if cls != NULL && expected != NULL {
      SweepFoundIff(w, expected, hasWrapper, Sweep(contents, cleared, false), FieldsOf(w, cls), |FieldsOf(w, cls)|);
    }
  }

  /** With no qualifying field the loop changes nothing. */
  lemma {:induction false} SweepQuiet(w: World, expected: Ref, hasWrapper: bool, s: Sweep, fields: seq<FieldInfo>, n: nat)
    requires n <= |fields|
    requires forall i :: 0 <= i < n ==> !Qualifies(w, expected, fields[i])
    ensures SweepFields(w, expected, hasWrapper, s, fields, n) == s
  {
    if n > 0 {
      SweepQuiet(w, expected, hasWrapper, s, fields, n - 1);
    }
  }

  /** A collection is either as it was, or empty with every one of its
      former elements recorded. */
  predicate Accounted(w: World, hasWrapper: bool, before: Contents, after: Contents, cleared: seq<string>, c: Ref)
  {
    Elements(after, c) == Elements(before, c) ||
    (Elements(after, c) == [] &&
     forall i :: 0 <= i < |Elements(before, c)| ==> CallbackString(w, Elements(before, c)[i], hasWrapper) in cleared)
  }

  /** One more field keeps every collection accounted for. */
  lemma AccountedField(w: World, expected: Ref, hasWrapper: bool, before: Contents, mid: Sweep, f: FieldInfo, c: Ref)
    requires Accounted(w, hasWrapper, before, mid.contents, mid.cleared, c)
    ensures Accounted(w, hasWrapper, before, SweepField(w, expected, hasWrapper, mid, f).contents,
                      SweepField(w, expected, hasWrapper, mid, f).cleared, c)
  {
    if Qualifies(w, expected, f) {
      var d := w.fieldValue(f.id, NULL);
      var elems := Elements(mid.contents, d);
      RecordAllSpec(w, mid.cleared, elems, |elems|, hasWrapper);
    }
  }

  /** Each collection the loop clears had every element recorded first;
      every other collection is untouched. */
  lemma {:induction false} SweepAccounted(w: World, expected: Ref, hasWrapper: bool, s: Sweep, fields: seq<FieldInfo>, n: nat, c: Ref)
    requires n <= |fields|
    ensures Accounted(w, hasWrapper, s.contents, SweepFields(w, expected, hasWrapper, s, fields, n).contents,
                      SweepFields(w, expected, hasWrapper, s, fields, n).cleared, c)
  {
    if n > 0 {
      SweepAccounted(w, expected, hasWrapper, s, fields, n - 1, c);
      AccountedField(w, expected, hasWrapper, s.contents, SweepFields(w, expected, hasWrapper, s, fields, n - 1), fields[n - 1], c);
    }
  }

  /** Only collections held by qualifying static fields are changed. */
  lemma {:induction false} SweepTouchesOnly(w: World, expected: Ref, hasWrapper: bool, s: Sweep, fields: seq<FieldInfo>, n: nat, c: Ref)
    requires n <= |fields|
    requires Elements(SweepFields(w, expected, hasWrapper, s, fields, n).contents, c) != Elements(s.contents, c)
    ensures exists i :: 0 <= i < n && Qualifies(w, expected, fields[i]) && w.fieldValue(fields[i].id, NULL) == c
  {
    if !(Qualifies(w, expected, fields[n - 1]) && w.fieldValue(fields[n - 1].id, NULL) == c) {
      SweepTouchesOnly(w, expected, hasWrapper, s, fields, n - 1, c);
    }
  }

  // ---------------------------------------------------------------
  // The per-class state machine

  /** The helper's own state (`xposed_interface_cls_`, `legacy_cleared_`,
      `modern_cleared_`) together with what it changes elsewhere: the
      collections, `cleared_callbacks_` and `framework_name_`. */
  datatype State = State(
    xposedInterface: Ref,
    legacyCleared: bool,
    modernCleared: bool,
    contents: Contents,
    cleared: seq<string>,
    frameworkName: string)

  /** The state after a field sweep. */
  function WithSweep(st: State, s: Sweep): State
  {
    st.(contents := s.contents, cleared := s.cleared)
  }

  /** An interface of the class being examined that is the modern API's
      `XposedInterface`; null interfaces and null names are skipped. */
  predicate IsXposedInterface(w: World, r: Ref)
  {
    r != NULL && w.simpleName(r) == Some("XposedInterface")
  }

  /** The index of the first such interface from `k` on. */
  function FirstInterface(w: World, ifaces: seq<Ref>, k: nat): (r: Option<nat>)
    requires k <= |ifaces|
    ensures r.Some? ==> k <= r.value < |ifaces| && IsXposedInterface(w, ifaces[r.value])
    ensures r.Some? ==> forall i :: k <= i < r.value ==> !IsXposedInterface(w, ifaces[i])
    ensures r.None? ==> forall i :: k <= i < |ifaces| ==> !IsXposedInterface(w, ifaces[i])
    decreases |ifaces| - k
  {
    if k == |ifaces| then None
    else if IsXposedInterface(w, ifaces[k]) then Some(k)
    else FirstInterface(w, ifaces, k + 1)
  }

  /** The end of ClearModernCallbacks for a class known to implement the
      interface: sweep its KeySetView fields, and on success adopt the
      framework name unless it is empty. */
  function FinishModern(env: Env, st: State, cls: Ref): (State, bool)
  {
    var s := ClearStatic(env.world, cls, env.keySetViewCls, false, st.contents, st.cleared);
    if s.found then
      var name := FrameworkName(env.world, cls);
      (WithSweep(st, s).(frameworkName := if name != "" then name else st.frameworkName), true)
    else (WithSweep(st, s), false)
  }

  /** ClearModernCallbacks: nothing without the KeySetView class; with
      the interface already cached, the class must be assignable to it;
      otherwise its interfaces are searched and the first match cached. */
  function ClearModern(env: Env, st: State, cls: Ref): (r: (State, bool))
    ensures r.0.legacyCleared == st.legacyCleared && r.0.modernCleared == st.modernCleared
    ensures st.cleared <= r.0.cleared
    ensures NoDup(st.cleared) ==> NoDup(r.0.cleared)
    ensures st.xposedInterface != NULL ==> r.0.xposedInterface == st.xposedInterface
    ensures r.0.xposedInterface != st.xposedInterface ==> IsXposedInterface(env.world, r.0.xposedInterface)
  {
    var w := env.world;
    if env.keySetViewCls == NULL then (st, false)
    else if st.xposedInterface != NULL then
      if w.isAssignableFrom(cls, st.xposedInterface) then FinishModern(env, st, cls) else (st, false)
    else
      match w.interfaces(cls)
      case None => (st, false)
      case Some(ifaces) =>
        match FirstInterface(w, ifaces, 0)
        case None => (st, false)
        case Some(i) => FinishModern(env, st.(xposedInterface := ifaces[i]), cls)
  }

  /** ClearXposedCallbacks on one class. */
  function Step(env: Env, st: State, cls: Ref): (r: State)
    ensures st.legacyCleared ==> r.legacyCleared
    ensures st.modernCleared ==> r.modernCleared
    ensures st.legacyCleared && st.modernCleared ==> r == st
    ensures st.cleared <= r.cleared
    ensures NoDup(st.cleared) ==> NoDup(r.cleared)
    ensures !st.modernCleared && env.world.simpleName(cls) == Some("XposedInterface") ==>
              r == st.(xposedInterface := cls)
    ensures !st.legacyCleared && env.world.simpleName(cls) == Some("XposedBridge") ==>
              r.legacyCleared || (!st.modernCleared && r.modernCleared)
    ensures !st.modernCleared && r.modernCleared ==> ClearModern(env, st, cls).1
  {
    if st.legacyCleared && st.modernCleared then st
    else
      match env.world.simpleName(cls)
      case None => st
      case Some(name) =>
        if !st.modernCleared && name == "XposedInterface" then st.(xposedInterface := cls)
        else
          var m := if st.modernCleared then (st, false) else ClearModern(env, st, cls);
          if m.1 then m.0.(modernCleared := true)
          else if !m.0.legacyCleared && name == "XposedBridge" then
            WithSweep(m.0, ClearStatic(env.world, cls, env.collectionCls, true, m.0.contents, m.0.cleared)).(legacyCleared := true)
          else m.0
  }

  /** A sweep that reports nothing changed nothing. */
  lemma ClearStaticQuiet(w: World, cls: Ref, expected: Ref, hasWrapper: bool, contents: Contents, cleared: seq<string>)
    requires !ClearStatic(w, cls, expected, hasWrapper, contents, cleared).found
    ensures ClearStatic(w, cls, expected, hasWrapper, contents, cleared) == Sweep(contents, cleared, false)
  {
    if cls != NULL && expected != NULL {
      var fields := FieldsOf(w, cls);
      SweepFoundIff(w, expected, hasWrapper, Sweep(contents, cleared, false), fields, |fields|);
      SweepQuiet(w, expected, hasWrapper, Sweep(contents, cleared, false), fields, |fields|);
    }
  }

  /** A failed modern attempt leaves the collections, the list and the
      name as they were. */
  lemma ClearModernFailsQuietly(env: Env, st: State, cls: Ref)
    requires !ClearModern(env, st, cls).1
    ensures ClearModern(env, st, cls).0.contents == st.contents
    ensures ClearModern(env, st, cls).0.cleared == st.cleared
    ensures ClearModern(env, st, cls).0.frameworkName == st.frameworkName
  {
    if !ClearStatic(env.world, cls, env.keySetViewCls, false, st.contents, st.cleared).found {
      ClearStaticQuiet(env.world, cls, env.keySetViewCls, false, st.contents, st.cleared);
    }
  }

  // ---------------------------------------------------------------
  // The framework's classes, in the order the class-name list gives

  /** `Class.forName(name, false, loader)`, null when it fails. */
  function LoadClass(env: Env, name: string, loader: Ref): Ref
  {
    env.world.forName(name, loader)
  }

  /** The helper's run over the first `n` names: every class that loads
      goes through ClearXposedCallbacks. */
  function Traverse(env: Env, st: State, names: seq<string>, loader: Ref, n: nat): (r: State)
    requires n <= |names|
    ensures st.legacyCleared ==> r.legacyCleared
    ensures st.modernCleared ==> r.modernCleared
    ensures st.cleared <= r.cleared
    ensures NoDup(st.cleared) ==> NoDup(r.cleared)
  {
    if n == 0 then st
    else
      var prev := Traverse(env, st, names, loader, n - 1);
      var cls := LoadClass(env, names[n - 1], loader);
      if cls == NULL then prev else Step(env, prev, cls)
  }

  /** Once both registries are cleared, the remaining classes change
      nothing. */
  lemma {:induction false} TraverseDone(env: Env, st: State, names: seq<string>, loader: Ref, n: nat)
    requires n <= |names|
    requires st.legacyCleared && st.modernCleared
    ensures Traverse(env, st, names, loader, n) == st
  {
    if n > 0 {
      TraverseDone(env, st, names, loader, n - 1);
    }
  }

  /** A loaded class that has a static `hookMethod` on which the
      replacement registers. */
  predicate Registers(env: Env, name: string, loader: Ref)
  {
    var cls := LoadClass(env, name, loader);
    cls != NULL && env.world.hasHookMethod(cls) && env.world.registers(cls)
  }

  /** `is_lsposed_disabled_` after the first `n` names: it is set by the
      first class on which the replacement registers and never reset;
      no registration is attempted once it is set. */
  function Disabled(env: Env, disabled: bool, names: seq<string>, loader: Ref, n: nat): (r: bool)
    requires n <= |names|
    ensures r <==> disabled || exists i :: 0 <= i < n && Registers(env, names[i], loader)
  {
    if n == 0 then disabled
    else Disabled(env, disabled, names, loader, n - 1) || Registers(env, names[n - 1], loader)
  }
}
