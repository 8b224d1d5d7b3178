/** Root descriptions and root visitors of the managed runtime
    (app/src/main/cpp/gc_root.h). The function a LambdaRootVisitor wraps
    is modelled by the sequence of calls it has received. */
module GcRoot {
  import opened Base
  import ObjectReference

  datatype RootType =
    | RootUnknown | RootJNIGlobal | RootJNILocal | RootJavaFrame
    | RootNativeStack | RootStickyClass | RootThreadBlock | RootMonitorUsed
    | RootThreadObject | RootInternedString | RootFinalizing | RootDebugger
    | RootReferenceCleanup | RootVMInternal | RootJNIMonitor

  /** The numeric value of each enumerator (kRootUnknown = 0, then one more each). */
  function RootTypeValue(t: RootType): (v: nat)
    ensures v < 15
    ensures t == RootUnknown <==> v == 0
  {
    match t
    case RootUnknown => 0
    case RootJNIGlobal => 1
    case RootJNILocal => 2
    case RootJavaFrame => 3
    case RootNativeStack => 4
    case RootStickyClass => 5
    case RootThreadBlock => 6
    case RootMonitorUsed => 7
    case RootThreadObject => 8
    case RootInternedString => 9
    case RootFinalizing => 10
    case RootDebugger => 11
    case RootReferenceCleanup => 12
    case RootVMInternal => 13
    case RootJNIMonitor => 14
  }

  lemma {:induction false} RootTypeValueInjective(s: RootType, t: RootType)
    requires RootTypeValue(s) == RootTypeValue(t)
    ensures s == t
  {
    match s {
      case RootUnknown =>
      case RootJNIGlobal =>
      case RootJNILocal =>
      case RootJavaFrame =>
      case RootNativeStack =>
      case RootStickyClass =>
      case RootThreadBlock =>
      case RootMonitorUsed =>
      case RootThreadObject =>
      case RootInternedString =>
      case RootFinalizing =>
      case RootDebugger =>
      case RootReferenceCleanup =>
      case RootVMInternal =>
      case RootJNIMonitor =>
    }
  }

  /** RootInfo: an immutable (type, thread id) pair; thread id 0 stands
      for roots that belong to no thread. */
  datatype RootInfo = RootInfo(rootType: RootType, threadId: u32) {
    function GetType(): RootType { rootType }
    function GetThreadId(): u32 { threadId }
  }

  /** The explicit constructor, with the thread id defaulting to 0. */
  function NewRootInfo(t: RootType, threadId: u32 := 0): (info: RootInfo)
    ensures info.GetType() == t && info.GetThreadId() == threadId
  {
    RootInfo(t, threadId)
  }

  /** The calls one visit of `roots[..count]` makes, in order. */
  function Visits(roots: seq<nat>, info: RootInfo): (calls: seq<(nat, RootInfo)>)
    ensures |calls| == |roots|
    ensures forall i :: 0 <= i < |roots| ==> calls[i] == (roots[i], info)
  {
    if roots == [] then [] else [(roots[0], info)] + Visits(roots[1..], info)
  }

  /** The pointers a sequence of compressed references stands for. */
  function DecompressAll(refs: seq<u32>): (ptrs: seq<nat>)
    ensures |ptrs| == |refs|
    ensures forall i :: 0 <= i < |refs| ==> ptrs[i] == ObjectReference.Decompress(false, refs[i])
  {
    if refs == [] then [] else [ObjectReference.Decompress(false, refs[0])] + DecompressAll(refs[1..])
  }

  lemma {:induction false} VisitsAppend(a: seq<nat>, b: seq<nat>, info: RootInfo)
    ensures Visits(a + b, info) == Visits(a, info) + Visits(b, info)
  {
    if a != [] {
      assert (a + b)[1..] == a[1..] + b;
      VisitsAppend(a[1..], b, info);
    }
  }

  /** LambdaRootVisitor (a SingleRootVisitor): each root is handed on,
      with its info, to the stored function. */
  class LambdaRootVisitor {
    /** Every (root, info) the stored function has been called with. */
    var calls: seq<(nat, RootInfo)>

    constructor ()
      ensures calls == []
    {
      calls := [];
    }

    /** The overriding VisitRoot(Object*, info): forwards unchanged. */
    method Forward(root: nat, info: RootInfo)
      modifies this
      ensures calls == old(calls) + [(root, info)]
    {
      calls := calls + [(root, info)];
    }

    /** SingleRootVisitor::VisitRoots over `Object**` slots. */
    method VisitRoots(roots: array<nat>, count: nat, info: RootInfo)
      requires count <= roots.Length
      modifies this
      ensures calls == old(calls) + Visits(roots[..count], info)
    {
      for i := 0 to count
        invariant calls == old(calls) + Visits(roots[..i], info)
      {
        assert roots[..i + 1] == roots[..i] + [roots[i]];
        VisitsAppend(roots[..i], [roots[i]], info);
        Forward(roots[i], info);
      }
    }

    /** SingleRootVisitor::VisitRoots over compressed references: each is
        decompressed before it is handed on. */
    method VisitCompressedRoots(roots: array<u32>, count: nat, info: RootInfo)
      requires count <= roots.Length
      modifies this
      ensures calls == old(calls) + Visits(DecompressAll(roots[..count]), info)
    {
      for i := 0 to count
        invariant calls == old(calls) + Visits(DecompressAll(roots[..i]), info)
      {
        assert roots[..i + 1] == roots[..i] + [roots[i]];
        assert DecompressAll(roots[..i + 1]) == DecompressAll(roots[..i]) + [ObjectReference.Decompress(false, roots[i])];
        VisitsAppend(DecompressAll(roots[..i]), [ObjectReference.Decompress(false, roots[i])], info);
        Forward(ObjectReference.Decompress(false, roots[i]), info);
      }
    }

    /** RootVisitor::VisitRoot: VisitRoots with a count of one. */
    method VisitRoot(root: nat, info: RootInfo)
      modifies this
      ensures calls == old(calls) + [(root, info)]
    {
      var slot := new nat[1];
      slot[0] := root;
      assert slot[..1] == [root];
      VisitRoots(slot, 1, info);
    }

    /** RootVisitor::VisitRootIfNonNull. */
    method VisitRootIfNonNull(root: nat, info: RootInfo)
      modifies this
      ensures calls == if root != 0 then old(calls) + [(root, info)] else old(calls)
    {
      if root != 0 {
        VisitRoot(root, info);
      }
    }
  }
}
