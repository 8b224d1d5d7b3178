/** Finding the framework's API class and class loader from the stack
    trace of an exception the framework's hook threw: the finder lambda
    of FindFrameworkAPIClassAndClassLoaderByStackTrace
    (app/src/main/cpp/main.cc) and the backtrace loop of the older
    JNI_OnLoad (app/src/main/cpp/disable_lsposed.cc). Frames 0 and 1 are
    skipped; a frame is the class of its method, that class's loader,
    and the number of classes in the class's dex file. */
module FrameFinder {
  import opened Base
  import opened Jvm

  datatype Frame = Frame(cls: Ref, loader: Ref, classCount: nat)

  /** The first frame the loops look at. */
  const FIRST_FRAME: nat := 2

  /** A frame the newer finder considers: a class and a loader that are
      not null, and not the boot class loader. */
  predicate Candidate(boot: Ref, f: Frame)
  {
    f.cls != NULL && f.loader != NULL && f.loader != boot
  }

  /** The newer finder from frame `k` on, with the class and loader
      remembered so far: the remembered pair is returned at the first
      candidate frame whose loader differs from the remembered one and
      whose dex file holds a single class. */
  function ScanFrom(boot: Ref, frames: seq<Frame>, k: nat, cls: Ref, loader: Ref): (r: Option<(Ref, Ref)>)
    ensures r.Some? ==> r.value.1 != NULL
    decreases |frames| - k
  {
    if k >= |frames| then None
    else
      var f := frames[k];
      if !Candidate(boot, f) then ScanFrom(boot, frames, k + 1, cls, loader)
      else if loader == NULL then ScanFrom(boot, frames, k + 1, f.cls, f.loader)
      else if f.loader == loader then ScanFrom(boot, frames, k + 1, f.cls, loader)
      else if f.classCount == 1 then Some((cls, loader))
      else ScanFrom(boot, frames, k + 1, f.cls, f.loader)
  }

  /** The finder lambda: nothing without a pending exception; otherwise
      the scan from frame 2 with nothing remembered. */
  function FindByStackTrace(pending: bool, boot: Ref, frames: seq<Frame>): Option<(Ref, Ref)>
  {
    if !pending then None else ScanFrom(boot, frames, FIRST_FRAME, NULL, NULL)
  }

  /** A class and loader both seen together at a candidate frame before
      `k`. */
  predicate SeenBefore(boot: Ref, frames: seq<Frame>, k: nat, cls: Ref, loader: Ref)
  {
    exists i :: FIRST_FRAME <= i < k && i < |frames| && Candidate(boot, frames[i]) &&
                frames[i].cls == cls && frames[i].loader == loader
  }

  /** The pair returned was seen together at a candidate frame: its
      loader is neither null nor the boot loader. A later frame with
      another loader and a single-class dex file stopped the scan. */
  lemma {:induction false} ScanFromFound(boot: Ref, frames: seq<Frame>, k: nat, cls: Ref, loader: Ref)
    requires FIRST_FRAME <= k
    requires loader == NULL || SeenBefore(boot, frames, k, cls, loader)
    requires ScanFrom(boot, frames, k, cls, loader).Some?
    ensures SeenBefore(boot, frames, |frames|, ScanFrom(boot, frames, k, cls, loader).value.0,
                       ScanFrom(boot, frames, k, cls, loader).value.1)
    ensures exists j :: k <= j < |frames| && Candidate(boot, frames[j]) && frames[j].classCount == 1 &&
                        frames[j].loader != ScanFrom(boot, frames, k, cls, loader).value.1
    decreases |frames| - k
  {
    var f := frames[k];
    if !Candidate(boot, f) {
      ScanFromFound(boot, frames, k + 1, cls, loader);
    } else if loader == NULL || f.loader == loader || f.classCount != 1 {
      var cls', loader' := f.cls, if loader == NULL || f.loader != loader then f.loader else loader;
      ScanFromFound(boot, frames, k + 1, cls', loader');
    } else {
      var i :| FIRST_FRAME <= i < k && i < |frames| && Candidate(boot, frames[i]) &&
               frames[i].cls == cls && frames[i].loader == loader;
      assert FIRST_FRAME <= i < |frames|;
    }
  }

  /** The finder's answer always names a non-null, non-boot loader and a
      class seen with it in the trace. */
  lemma FindByStackTraceFound(pending: bool, boot: Ref, frames: seq<Frame>)
    requires FindByStackTrace(pending, boot, frames).Some?
    ensures pending
    ensures FindByStackTrace(pending, boot, frames).value.1 != NULL
    ensures FindByStackTrace(pending, boot, frames).value.1 != boot
    ensures SeenBefore(boot, frames, |frames|, FindByStackTrace(pending, boot, frames).value.0,
                       FindByStackTrace(pending, boot, frames).value.1)
  {
    ScanFromFound(boot, frames, FIRST_FRAME, NULL, NULL);
  }

  /** The finder lambda's loop. */
  method FindFrameworkByStackTrace(pending: bool, boot: Ref, frames: seq<Frame>) returns (r: Option<(Ref, Ref)>)
    ensures r == FindByStackTrace(pending, boot, frames)
  {
    if !pending {
      return None;
    }
    var cls, loader := NULL, NULL;
    var i := FIRST_FRAME;
    while i < |frames|
      invariant ScanFrom(boot, frames, i, cls, loader) == FindByStackTrace(pending, boot, frames)
      decreases |frames| - i
    {
      var f := frames[i];
      if f.cls != NULL && f.loader != NULL && f.loader != boot {
        if loader == NULL {
          cls, loader := f.cls, f.loader;
        } else if f.loader == loader {
          cls := f.cls;
        } else if f.classCount == 1 {
          return Some((cls, loader));
        } else {
          cls, loader := f.cls, f.loader;
        }
      }
      i := i + 1;
    }
    return None;
  }

  // ---------------------------------------------------------------
  // The older loop

  /** The older loop from frame `k` on: no null checks, only the boot
      loader is skipped, and a null remembered loader is replaced. */
  function LegacyScanFrom(boot: Ref, frames: seq<Frame>, k: nat, cls: Ref, loader: Ref): (r: (bool, Ref, Ref))
    ensures r.0 ==> r.2 != NULL
    decreases |frames| - k
  {
    if k >= |frames| then (false, cls, loader)
    else
      var f := frames[k];
      if f.loader == boot then LegacyScanFrom(boot, frames, k + 1, cls, loader)
      else if loader == NULL then LegacyScanFrom(boot, frames, k + 1, f.cls, f.loader)
      else if f.loader == loader then LegacyScanFrom(boot, frames, k + 1, f.cls, loader)
      else if f.classCount == 1 then (true, cls, loader)
      else LegacyScanFrom(boot, frames, k + 1, f.cls, f.loader)
  }

  /** `found`, `previous_class` and `previous_class_loader` after the
      older loop. */
  function LegacyFind(boot: Ref, frames: seq<Frame>): (bool, Ref, Ref)
  {
    LegacyScanFrom(boot, frames, FIRST_FRAME, NULL, NULL)
  }

  /** When the older loop reports success its loader is not the boot
      loader, so the class loop that follows loads the framework's
      classes from another loader. */
  lemma {:induction false} LegacyScanFromFound(boot: Ref, frames: seq<Frame>, k: nat, cls: Ref, loader: Ref)
    requires loader == NULL || loader != boot
    requires LegacyScanFrom(boot, frames, k, cls, loader).0
    ensures LegacyScanFrom(boot, frames, k, cls, loader).2 != boot
    decreases |frames| - k
  {
    var f := frames[k];
    if f.loader == boot {
      LegacyScanFromFound(boot, frames, k + 1, cls, loader);
    } else if loader == NULL || f.loader == loader || f.classCount != 1 {
      var loader' := if loader == NULL || f.loader != loader then f.loader else loader;
      LegacyScanFromFound(boot, frames, k + 1, f.cls, loader');
    }
  }

  /** The older loop's success names a loader that is neither null nor
      the boot loader. */
  lemma LegacyFindFound(boot: Ref, frames: seq<Frame>)
    requires LegacyFind(boot, frames).0
    ensures LegacyFind(boot, frames).2 != NULL && LegacyFind(boot, frames).2 != boot
  {
    LegacyScanFromFound(boot, frames, FIRST_FRAME, NULL, NULL);
  }

  /** The older backtrace loop. */
  method LegacyFindFramework(boot: Ref, frames: seq<Frame>) returns (found: bool, previousClass: Ref, previousLoader: Ref)
    ensures (found, previousClass, previousLoader) == LegacyFind(boot, frames)
  {
    previousClass, previousLoader := NULL, NULL;
    found := false;
    var i := FIRST_FRAME;
    while i < |frames|
      invariant LegacyScanFrom(boot, frames, i, previousClass, previousLoader) == LegacyFind(boot, frames)
      decreases |frames| - i
    {
      var f := frames[i];
      if f.loader != boot {
        if previousLoader == NULL {
          previousClass, previousLoader := f.cls, f.loader;
        } else if f.loader == previousLoader {
          previousClass := f.cls;
        } else if f.classCount == 1 {
          found := true;
          break;
        } else {
          previousClass, previousLoader := f.cls, f.loader;
        }
      }
      i := i + 1;
    }
  }
}
