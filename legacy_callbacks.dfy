/** XposedCallbackHelper of app/src/main/cpp/disable_lsposed.cc, the
    older engine: the same registries are found by different transition
    rules, and the registries are emptied without recording anything. */
module LegacyCallbacks {
  import opened Base
  import opened Jvm
  import MainCallbacks

  /** The state the older helper works on: its own three fields and the
      collections. */
  datatype State = State(xposedInterface: Ref, legacyCleared: bool, modernCleared: bool, contents: Contents)

  /** Whether one of the first `n` fields holds the collection `c` and
      qualifies. */
  predicate ClearedBy(w: World, expected: Ref, fields: seq<FieldInfo>, n: nat, c: Ref)
    requires n <= |fields|
  {
    exists i :: 0 <= i < n && MainCallbacks.Qualifies(w, expected, fields[i]) && w.fieldValue(fields[i].id, NULL) == c
  }

  /** The field loop over the first `n` fields: each qualifying
      collection is cleared. */
  function ClearFields(w: World, expected: Ref, contents: Contents, fields: seq<FieldInfo>, n: nat): Contents
    requires n <= |fields|
  {
    if n == 0 then contents
    else
      var prev := ClearFields(w, expected, contents, fields, n - 1);
      if MainCallbacks.Qualifies(w, expected, fields[n - 1]) then prev[w.fieldValue(fields[n - 1].id, NULL) := []] else prev
  }

  /** The loop empties exactly the collections some qualifying field
      holds, and leaves every other collection as it was. */
  lemma {:induction false} ClearFieldsSpec(w: World, expected: Ref, contents: Contents, fields: seq<FieldInfo>, n: nat, c: Ref)
    requires n <= |fields|
    ensures Elements(ClearFields(w, expected, contents, fields, n), c)
         == if ClearedBy(w, expected, fields, n, c) then [] else Elements(contents, c)
  {
    if n > 0 {
      ClearFieldsSpec(w, expected, contents, fields, n - 1, c);
      var f := fields[n - 1];
      if ClearedBy(w, expected, fields, n, c) && !(MainCallbacks.Qualifies(w, expected, f) && w.fieldValue(f.id, NULL) == c) {
        var i :| 0 <= i < n && MainCallbacks.Qualifies(w, expected, fields[i]) && w.fieldValue(fields[i].id, NULL) == c;
        assert i < n - 1;
      }
    }
  }

  /** ClearStaticFieldsAssignableTo (a `void` here). */
  function ClearStatic(w: World, cls: Ref, expected: Ref, contents: Contents): Contents
  {
    if cls == NULL || expected == NULL then contents
    else ClearFields(w, expected, contents, MainCallbacks.FieldsOf(w, cls), |MainCallbacks.FieldsOf(w, cls)|)
  }

  /** An interface named `XposedInterface`; this engine does not skip
      null interfaces, whose name the oracle gives. */
  predicate IsXposedInterface(w: World, r: Ref)
  {
    w.simpleName(r) == Some("XposedInterface")
  }

  function FirstInterface(w: World, ifaces: seq<Ref>, k: nat): (r: Option<nat>)
    requires k <= |ifaces|
    ensures r.Some? ==> k <= r.value < |ifaces| && IsXposedInterface(w, ifaces[r.value])
    ensures r.Some? ==> forall i :: k <= i < r.value ==> !IsXposedInterface(w, ifaces[i])
    ensures r.None? ==> forall i :: k <= i < |ifaces| ==> !IsXposedInterface(w, ifaces[i])
    decreases |ifaces| - k
  {
    if k == |ifaces| then None
    else if IsXposedInterface(w, ifaces[k]) then Some(k)
    else FirstInterface(w, ifaces, k + 1)
  }

  /** ClearModernCallbacks (a `void` here): the KeySetView fields of a
      class that implements the interface are cleared. */
  function ClearModern(env: MainCallbacks.Env, st: State, cls: Ref): (r: State)
    ensures r.legacyCleared == st.legacyCleared && r.modernCleared == st.modernCleared
    ensures st.xposedInterface != NULL ==> r.xposedInterface == st.xposedInterface
  {
    var w := env.world;
    if env.keySetViewCls == NULL then st
    else if st.xposedInterface != NULL then
      if w.isAssignableFrom(cls, st.xposedInterface) then st.(contents := ClearStatic(w, cls, env.keySetViewCls, st.contents))
      else st
    else
      match w.interfaces(cls)
      case None => st
      case Some(ifaces) =>
        match FirstInterface(w, ifaces, 0)
        case None => st
        case Some(i) => st.(xposedInterface := ifaces[i], contents := ClearStatic(w, cls, env.keySetViewCls, st.contents))
  }

  /** ClearXposedCallbacks on one class. */
  function Step(env: MainCallbacks.Env, st: State, cls: Ref): (r: State)
    ensures st.legacyCleared ==> r.legacyCleared
    ensures st.modernCleared ==> r.modernCleared
    ensures st.legacyCleared && st.modernCleared ==> r == st
    ensures !(st.legacyCleared && st.modernCleared) && env.world.simpleName(cls) == Some("XposedInterface") ==>
              r == st.(xposedInterface := cls)
    ensures !st.modernCleared && env.world.simpleName(cls).Some? && env.world.simpleName(cls) != Some("XposedInterface") ==>
              r.modernCleared && r.legacyCleared == st.legacyCleared
    ensures !st.legacyCleared && r.legacyCleared ==>
              st.modernCleared && env.world.simpleName(cls) == Some("XposedBridge")
  {
    if st.legacyCleared && st.modernCleared then st
    else
      match env.world.simpleName(cls)
      case None => st
      case Some(name) =>
        if name == "XposedInterface" then st.(xposedInterface := cls)
        else if !st.modernCleared then ClearModern(env, st, cls).(modernCleared := true)
        else if name == "XposedBridge" then
          st.(contents := ClearStatic(env.world, cls, env.collectionCls, st.contents), legacyCleared := true)
        else st
  }

  /** The reverse loop `for (len = size - 1; len != -1; --len)`: after
      `n` rounds the last `n` names have been handled, last one first. */
  function TraverseReverse(env: MainCallbacks.Env, st: State, names: seq<string>, loader: Ref, n: nat): (r: State)
    requires n <= |names|
    ensures st.legacyCleared ==> r.legacyCleared
    ensures st.modernCleared ==> r.modernCleared
  {
    if n == 0 then st
    else
      var prev := TraverseReverse(env, st, names, loader, n - 1);
      var cls := MainCallbacks.LoadClass(env, names[|names| - n], loader);
      if cls == NULL then prev else Step(env, prev, cls)
  }

  /** `is_lsposed_disabled_` after `n` rounds of the reverse loop: set iff
      it was already set or the replacement registers on one of the last
      `n` classes. */
  function DisabledReverse(env: MainCallbacks.Env, disabled: bool, names: seq<string>, loader: Ref, n: nat): (r: bool)
    requires n <= |names|
    ensures r <==> disabled || exists j :: |names| - n <= j < |names| && MainCallbacks.Registers(env, names[j], loader)
  {
    if n == 0 then disabled
    else DisabledReverse(env, disabled, names, loader, n - 1) || MainCallbacks.Registers(env, names[|names| - n], loader)
  }

  /** The first class that is not the interface uses up the single
      modern attempt even when it clears nothing, so no later class can
      get one. */
  lemma {:induction false} ModernAttemptIsSingle(env: MainCallbacks.Env, st: State, names: seq<string>, loader: Ref, n: nat)
    requires n <= |names|
    requires !st.modernCleared
    requires exists j :: |names| - n <= j < |names| &&
               var cls := MainCallbacks.LoadClass(env, names[j], loader);
               cls != NULL && env.world.simpleName(cls).Some? && env.world.simpleName(cls) != Some("XposedInterface")
    ensures TraverseReverse(env, st, names, loader, n).modernCleared
  {
    var prev := TraverseReverse(env, st, names, loader, n - 1);
    var j := |names| - n;
    var cls := MainCallbacks.LoadClass(env, names[j], loader);
    if !(cls != NULL && env.world.simpleName(cls).Some? && env.world.simpleName(cls) != Some("XposedInterface")) {
      ModernAttemptIsSingle(env, st, names, loader, n - 1);
    }
  }
}

/** The older helper object and the reverse class loop of its JNI_OnLoad. */
module LegacyHelper {
  import opened Base
  import opened Jvm
  import opened NativeState
  import MainCallbacks
  import opened LegacyCallbacks

  class XposedCallbackHelper {
    const env: MainCallbacks.Env
    const heap: Heap
    var xposedInterface: Ref
    var legacyCleared: bool
    var modernCleared: bool

    constructor (env: MainCallbacks.Env, heap: Heap)
      ensures this.env == env && this.heap == heap
      ensures xposedInterface == NULL && !legacyCleared && !modernCleared
    {
      this.env := env;
      this.heap := heap;
      xposedInterface := NULL;
      legacyCleared := false;
      modernCleared := false;
    }

    function Snap(): State
      reads this, heap
    {
      State(xposedInterface, legacyCleared, modernCleared, heap.contents)
    }

    /** ClearStaticFieldsAssignableTo: `clear()` on each qualifying value. */
    method ClearStaticFieldsAssignableTo(cls: Ref, expected: Ref)
      modifies heap
      ensures heap.contents == ClearStatic(env.world, cls, expected, old(heap.contents))
    {
      if cls == NULL || expected == NULL {
        return;
      }
      var fields := MainCallbacks.FieldsOf(env.world, cls);
      ghost var c0 := heap.contents;
      for k := 0 to |fields|
        invariant heap.contents == ClearFields(env.world, expected, c0, fields, k)
      {
        var f := fields[k];
        if IsStatic(f) {
          var value := env.world.fieldValue(f.id, NULL);
          if value != NULL && env.world.isInstanceOf(value, expected) {
            heap.Clear(value);
          }
        }
      }
    }

    /** The interface loop of ClearModernCallbacks. */
    method FindXposedInterface(ifaces: seq<Ref>) returns (i: Option<nat>)
      ensures i == FirstInterface(env.world, ifaces, 0)
    {
      for k := 0 to |ifaces|
        invariant FirstInterface(env.world, ifaces, k) == FirstInterface(env.world, ifaces, 0)
      {
        if env.world.simpleName(ifaces[k]) == Some("XposedInterface") {
          return Some(k);
        }
      }
      return None;
    }

    /** ClearModernCallbacks. */
    method ClearModernCallbacks(cls: Ref)
      modifies this, heap
      ensures Snap() == ClearModern(env, old(Snap()), cls)
    {
      if env.keySetViewCls == NULL {
        return;
      }
      var isXposed := false;
      if xposedInterface != NULL {
        if env.world.isAssignableFrom(cls, xposedInterface) {
          isXposed := true;
        }
      } else {
        var ifaces := env.world.interfaces(cls);
        if ifaces.None? {
          return;
        }
        var found := FindXposedInterface(ifaces.value);
        if found.Some? {
          xposedInterface := ifaces.value[found.value];
          isXposed := true;
        }
      }
      if isXposed {
        ClearStaticFieldsAssignableTo(cls, env.keySetViewCls);
      }
    }

    /** ClearXposedCallbacks. */
    method ClearXposedCallbacks(cls: Ref)
      modifies this, heap
      ensures Snap() == Step(env, old(Snap()), cls)
    {
      if legacyCleared && modernCleared {
        return;
      }
      var name := env.world.simpleName(cls);
      if name.None? {
        return;
      }
      if name.value == "XposedInterface" {
        xposedInterface := cls;
        return;
      }
      if !modernCleared {
        ClearModernCallbacks(cls);
        modernCleared := true;
        return;
      }
      if name.value == "XposedBridge" {
        ClearStaticFieldsAssignableTo(cls, env.collectionCls);
        legacyCleared := true;
      }
    }
  }

  /** One round of the reverse loop. */
  method VisitClassName(helper: XposedCallbackHelper, globals: Globals, name: string, loader: Ref)
    modifies helper, helper.heap, globals
    ensures helper.Snap() == (var cls := MainCallbacks.LoadClass(helper.env, name, loader);
                              if cls == NULL then old(helper.Snap()) else Step(helper.env, old(helper.Snap()), cls))
    ensures globals.isLsposedDisabled == (old(globals.isLsposedDisabled) || MainCallbacks.Registers(helper.env, name, loader))
    ensures globals.unhookedMethods == old(globals.unhookedMethods) && globals.isArtRestored == old(globals.isArtRestored)
    ensures globals.clearedCallbacks == old(globals.clearedCallbacks) && globals.frameworkName == old(globals.frameworkName)
  {
    var cls := helper.env.world.forName(name, loader);
    if cls != NULL {
      helper.ClearXposedCallbacks(cls);
      if !globals.isLsposedDisabled {
        if helper.env.world.hasHookMethod(cls) && helper.env.world.registers(cls) {
          globals.isLsposedDisabled := true;
        }
      }
    }
  }

  /** The class loop of the older JNI_OnLoad, from the last name to the
      first. */
  method DisableFramework(helper: XposedCallbackHelper, globals: Globals, names: seq<string>, loader: Ref)
    modifies helper, helper.heap, globals
    ensures helper.Snap() == TraverseReverse(helper.env, old(helper.Snap()), names, loader, |names|)
    ensures globals.isLsposedDisabled == DisabledReverse(helper.env, old(globals.isLsposedDisabled), names, loader, |names|)
    ensures globals.unhookedMethods == old(globals.unhookedMethods) && globals.isArtRestored == old(globals.isArtRestored)
  {
    ghost var st0 := helper.Snap();
    ghost var d0 := globals.isLsposedDisabled;
    var len := |names| - 1;
    while len != -1
      invariant -1 <= len < |names|
      invariant helper.Snap() == TraverseReverse(helper.env, st0, names, loader, |names| - 1 - len)
      invariant globals.isLsposedDisabled == DisabledReverse(helper.env, d0, names, loader, |names| - 1 - len)
      invariant globals.unhookedMethods == old(globals.unhookedMethods) && globals.isArtRestored == old(globals.isArtRestored)
      decreases len + 1
    {
      VisitClassName(helper, globals, names[len], loader);
      len := len - 1;
    }
  }
}
