/** The XposedCallbackHelper object of app/src/main/cpp/main.cc and the
    class loop of its JNI_OnLoad, as imperative code proved against the
    state machine of MainCallbacks. */
module MainHelper {
  import opened Base
  import opened Jvm
  import opened NativeState
  import opened MainCallbacks

  class XposedCallbackHelper {
    const env: Env
    const heap: Heap
    const globals: Globals
    var xposedInterface: Ref
    var legacyCleared: bool
    var modernCleared: bool

    constructor (env: Env, heap: Heap, globals: Globals)
      ensures this.env == env && this.heap == heap && this.globals == globals
      ensures xposedInterface == NULL && !legacyCleared && !modernCleared
    {
      this.env := env;
      this.heap := heap;
      this.globals := globals;
      xposedInterface := NULL;
      legacyCleared := false;
      modernCleared := false;
    }

    /** The state the helper's operations are specified over. */
    function Snap(): State
      reads this, heap, globals
    {
      State(xposedInterface, legacyCleared, modernCleared, heap.contents, globals.clearedCallbacks, globals.frameworkName)
    }

    /** The globals the helper never writes. */
    twostate predicate OthersUnchanged()
      reads globals
    {
      globals.unhookedMethods == old(globals.unhookedMethods) &&
      globals.isLsposedDisabled == old(globals.isLsposedDisabled) &&
      globals.isArtRestored == old(globals.isArtRestored)
    }

    /** GetFirstNonNullInstanceField: the first non-static field of the
        object's class whose value is not null. */
    method GetFirstNonNullInstanceField(obj: Ref) returns (v: Ref)
      ensures v == FirstInstanceField(env.world, obj)
    {
      var fields := FieldsOf(env.world, env.world.classOf(obj));
      for k := 0 to |fields|
        invariant FirstInstanceFrom(env.world, obj, fields, k) == FirstInstanceFrom(env.world, obj, fields, 0)
      {
        if !IsStatic(fields[k]) {
          var instance := env.world.fieldValue(fields[k].id, obj);
          if instance != NULL {
            return instance;
          }
        }
      }
      return NULL;
    }

    /** The iterator loop of ClearStaticFieldsAssignableTo over one
        collection's elements. */
    method RecordCallbacks(elems: seq<Ref>, hasWrapper: bool)
      modifies globals
      ensures globals.clearedCallbacks == RecordAll(env.world, old(globals.clearedCallbacks), elems, |elems|, hasWrapper)
      ensures globals.frameworkName == old(globals.frameworkName)
      ensures OthersUnchanged()
    {
      ghost var start := globals.clearedCallbacks;
      for i := 0 to |elems|
        invariant globals.clearedCallbacks == RecordAll(env.world, start, elems, i, hasWrapper)
        invariant globals.frameworkName == old(globals.frameworkName)
        invariant OthersUnchanged()
      {
        var callback := elems[i];
        if hasWrapper {
          var wrapped := GetFirstNonNullInstanceField(callback);
          if wrapped != NULL {
            callback := wrapped;
          }
        }
        globals.InsertCallback(ObjectString(env.world, callback));
      }
    }

    /** One field of ClearStaticFieldsAssignableTo's loop. */
    method SweepStaticField(f: FieldInfo, expected: Ref, hasWrapper: bool, found: bool) returns (cleared: bool)
      modifies heap, globals
      ensures Sweep(heap.contents, globals.clearedCallbacks, cleared)
           == SweepField(env.world, expected, hasWrapper, Sweep(old(heap.contents), old(globals.clearedCallbacks), found), f)
      ensures globals.frameworkName == old(globals.frameworkName)
      ensures OthersUnchanged()
    {
      cleared := found;
      if IsStatic(f) {
        var collection := env.world.fieldValue(f.id, NULL);
        if collection != NULL && env.world.isInstanceOf(collection, expected) {
          cleared := true;
          RecordCallbacks(Elements(heap.contents, collection), hasWrapper);
          heap.Clear(collection);
        }
      }
    }

    /** ClearStaticFieldsAssignableTo. */
    method ClearStaticFieldsAssignableTo(cls: Ref, expected: Ref, hasWrapper: bool) returns (cleared: bool)
      modifies heap, globals
      ensures Sweep(heap.contents, globals.clearedCallbacks, cleared)
           == ClearStatic(env.world, cls, expected, hasWrapper, old(heap.contents), old(globals.clearedCallbacks))
      ensures globals.frameworkName == old(globals.frameworkName)
      ensures OthersUnchanged()
    {
      if cls == NULL || expected == NULL {
        return false;
      }
      var fields := FieldsOf(env.world, cls);
      ghost var s0 := Sweep(heap.contents, globals.clearedCallbacks, false);
      cleared := false;
      for k := 0 to |fields|
        invariant Sweep(heap.contents, globals.clearedCallbacks, cleared) == SweepFields(env.world, expected, hasWrapper, s0, fields, k)
        invariant globals.frameworkName == old(globals.frameworkName)
        invariant OthersUnchanged()
      {
        cleared := SweepStaticField(fields[k], expected, hasWrapper, cleared);
      }
    }

    /** The interface loop of ClearModernCallbacks. */
    method FindXposedInterface(ifaces: seq<Ref>) returns (i: Option<nat>)
      ensures i == FirstInterface(env.world, ifaces, 0)
    {
      for k := 0 to |ifaces|
        invariant FirstInterface(env.world, ifaces, k) == FirstInterface(env.world, ifaces, 0)
      {
        if ifaces[k] != NULL {
          var name := env.world.simpleName(ifaces[k]);
          if name == Some("XposedInterface") {
            return Some(k);
          }
        }
      }
      return None;
    }

    /** ClearModernCallbacks. */
    method ClearModernCallbacks(cls: Ref) returns (ok: bool)
      modifies this, heap, globals
      ensures (Snap(), ok) == ClearModern(env, old(Snap()), cls)
      ensures OthersUnchanged()
    {
      if env.keySetViewCls == NULL {
        return false;
      }
      var isXposed := false;
      if xposedInterface != NULL {
        if env.world.isAssignableFrom(cls, xposedInterface) {
          isXposed := true;
        }
      } else {
        var interfaces := env.world.interfaces(cls);
        if interfaces.None? {
          return false;
        }
        var found := FindXposedInterface(interfaces.value);
        if found.Some? {
          xposedInterface := interfaces.value[found.value];
          isXposed := true;
        }
      }
      ok := false;
      if isXposed {
        var cleared := ClearStaticFieldsAssignableTo(cls, env.keySetViewCls, false);
        if cleared {
          var name := FrameworkName(env.world, cls);
          if name != "" {
            globals.frameworkName := name;
          }
          ok := true;
        }
      }
    }

    /** ClearLegacyCallbacks: the sweep of Collection fields, unwrapping
        each callback. */
    method ClearLegacyCallbacks(cls: Ref)
      modifies heap, globals
      ensures heap.contents == ClearStatic(env.world, cls, env.collectionCls, true, old(heap.contents), old(globals.clearedCallbacks)).contents
      ensures globals.clearedCallbacks == ClearStatic(env.world, cls, env.collectionCls, true, old(heap.contents), old(globals.clearedCallbacks)).cleared
      ensures globals.frameworkName == old(globals.frameworkName)
      ensures OthersUnchanged()
    {
      var _ := ClearStaticFieldsAssignableTo(cls, env.collectionCls, true);
    }

    /** ClearXposedCallbacks. */
    method ClearXposedCallbacks(cls: Ref)
      modifies this, heap, globals
      ensures Snap() == Step(env, old(Snap()), cls)
      ensures OthersUnchanged()
    {
      if legacyCleared && modernCleared {
        return;
      }
      var name := env.world.simpleName(cls);
      if name.None? {
        return;
      }
      if !modernCleared {
        if name.value == "XposedInterface" {
          xposedInterface := cls;
          return;
        }
        var ok := ClearModernCallbacks(cls);
        if ok {
          modernCleared := true;
          return;
        }
      }
      if !legacyCleared && name.value == "XposedBridge" {
        ClearLegacyCallbacks(cls);
        legacyCleared := true;
      }
    }
  }

  /** One name of the loop in JNI_OnLoad: a class that loads is handed
      to the helper, and while the framework is not yet disabled the
      fake `hookMethod` is registered on it when it declares one. */
  method VisitClassName(helper: XposedCallbackHelper, name: string, loader: Ref)
    modifies helper, helper.heap, helper.globals
    ensures helper.Snap() == (var cls := LoadClass(helper.env, name, loader);
                              if cls == NULL then old(helper.Snap()) else Step(helper.env, old(helper.Snap()), cls))
    ensures helper.globals.isLsposedDisabled == (old(helper.globals.isLsposedDisabled) || Registers(helper.env, name, loader))
    ensures helper.globals.unhookedMethods == old(helper.globals.unhookedMethods)
    ensures helper.globals.isArtRestored == old(helper.globals.isArtRestored)
  {
    var cls := helper.env.world.forName(name, loader);
    if cls != NULL {
      helper.ClearXposedCallbacks(cls);
      if !helper.globals.isLsposedDisabled {
        if helper.env.world.hasHookMethod(cls) && helper.env.world.registers(cls) {
          helper.globals.isLsposedDisabled := true;
        }
      }
    }
  }

  /** The loop over the framework's class names in JNI_OnLoad, in list
      order. */
  method DisableFramework(helper: XposedCallbackHelper, names: seq<string>, loader: Ref)
    modifies helper, helper.heap, helper.globals
    ensures helper.Snap() == Traverse(helper.env, old(helper.Snap()), names, loader, |names|)
    ensures helper.globals.isLsposedDisabled
         == Disabled(helper.env, old(helper.globals.isLsposedDisabled), names, loader, |names|)
    ensures helper.globals.unhookedMethods == old(helper.globals.unhookedMethods)
    ensures helper.globals.isArtRestored == old(helper.globals.isArtRestored)
  {
    ghost var st0 := helper.Snap();
    ghost var d0 := helper.globals.isLsposedDisabled;
    for k := 0 to |names|
      invariant helper.Snap() == Traverse(helper.env, st0, names, loader, k)
      invariant helper.globals.isLsposedDisabled == Disabled(helper.env, d0, names, loader, k)
      invariant helper.globals.unhookedMethods == old(helper.globals.unhookedMethods)
      invariant helper.globals.isArtRestored == old(helper.globals.isArtRestored)
    {
      var cls := LoadClass(helper.env, names[k], loader);
      assert Traverse(helper.env, st0, names, loader, k + 1)
          == if cls == NULL then Traverse(helper.env, st0, names, loader, k)
             else Step(helper.env, Traverse(helper.env, st0, names, loader, k), cls);
      assert Disabled(helper.env, d0, names, loader, k + 1)
          == (Disabled(helper.env, d0, names, loader, k) || Registers(helper.env, names[k], loader));
      VisitClassName(helper, names[k], loader);
    }
  }
}
