/** The library's globals (app/src/main/cpp/main.cc, and the subset
    app/src/main/cpp/disable_lsposed.cc keeps): the unhooked-method list,
    the ordered, duplicate-free list of cleared callbacks, the framework
    name shown to the user, and the two status booleans behind the flag
    word. */
module NativeState {
  import opened NativeFlags
  import ArtMethods

  /** No element occurs twice. */
  predicate NoDup<T(==)>(s: seq<T>)
  {
    forall i, j :: 0 <= i < j < |s| ==> s[i] != s[j]
  }

  /** InsertUnique on the vector's contents: push `value` unless it is
      already there. */
  function Inserted<T(==,!new)>(vec: seq<T>, value: T): (r: seq<T>)
    ensures value in r
    ensures forall x :: x in r <==> (x in vec || x == value)
    ensures vec <= r && |r| <= |vec| + 1
    ensures NoDup(vec) ==> NoDup(r)
    ensures value in vec ==> r == vec
  {
    if value in vec then vec else vec + [value]
  }

  /** The namespace-level globals, updated in place. */
  class Globals {
    var unhookedMethods: seq<ArtMethods.Unhooked>
    var clearedCallbacks: seq<string>
    var frameworkName: string
    var isLsposedDisabled: bool
    var isArtRestored: bool

    /** The globals' initial values. */
    constructor ()
      ensures unhookedMethods == [] && clearedCallbacks == []
      ensures frameworkName == "LSPosed"
      ensures !isLsposedDisabled && !isArtRestored
    {
      unhookedMethods := [];
      clearedCallbacks := [];
      frameworkName := "LSPosed";
      isLsposedDisabled := false;
      isArtRestored := false;
    }

    /** The cleared-callback list keeps no duplicates. */
    predicate Valid()
      reads this
    {
      NoDup(clearedCallbacks)
    }

    /** Every global but the unhooked-method list is as it was: what the
        repair engines leave alone. */
    twostate predicate OnlyUnhookedChanged()
      reads this
    {
      clearedCallbacks == old(clearedCallbacks) && frameworkName == old(frameworkName) &&
      isLsposedDisabled == old(isLsposedDisabled) && isArtRestored == old(isArtRestored)
    }

    /** `InsertUnique(cleared_callbacks_, value)`. */
    method InsertCallback(value: string)
      modifies this
      ensures clearedCallbacks == Inserted(old(clearedCallbacks), value)
      ensures old(Valid()) ==> Valid()
      ensures unhookedMethods == old(unhookedMethods) && frameworkName == old(frameworkName)
      ensures isLsposedDisabled == old(isLsposedDisabled) && isArtRestored == old(isArtRestored)
    {
      if value !in clearedCallbacks {
        clearedCallbacks := clearedCallbacks + [value];
      }
    }

    /** `nGetFlags` / `getFlags`: start from 0 and set one bit per status. */
    method GetFlags() returns (flags: int)
      ensures flags == FlagWord(isLsposedDisabled, isArtRestored)
      ensures Decode(flags) == (isLsposedDisabled, isArtRestored)
    {
      flags := 0;
      if isLsposedDisabled {
        flags := flags + FLAG_LSPOSED_DISABLED;
      }
      if isArtRestored {
        flags := flags + FLAG_ART_RESTORED;
      }
      DecodeFlagWord(isLsposedDisabled, isArtRestored);
    }
  }
}
