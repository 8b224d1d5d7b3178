/** The test module's hook body that marks text set on a TextView
    (module/src/main/kotlin/io/github/eirv/replacetext/TextViewHandler.kt). */
module TextViewHandler {

  /** An element of the `Array<Any>` of hooked-call arguments. */
  datatype Arg = Null | Str(s: string) | Other(id: int)

  const Marker: string := "[Hooked]"

  predicate EndsWith(s: string, suffix: string)
  {
    |suffix| <= |s| && s[|s| - |suffix|..] == suffix
  }

  /** What `args[0]` becomes. */
  function Marked(a: Arg): Arg
  {
    if a.Str? && !EndsWith(a.s, Marker) then Str(a.s + Marker) else a
  }

  /** The arguments after one call of handleSetText. */
  function HandledArgs(args: seq<Arg>): seq<Arg>
  {
    if args == [] then [] else [Marked(args[0])] + args[1..]
  }

  /** After marking, the text always ends with the marker. */
  lemma MarkedEndsWith(s: string)
    ensures Marked(Str(s)).s[|Marked(Str(s)).s| - |Marker|..] == Marker
  {
    if !EndsWith(s, Marker) {
      assert (s + Marker)[|s + Marker| - |Marker|..] == Marker;
    }
  }

  /** handleSetText is idempotent. */
  lemma Idempotent(args: seq<Arg>)
    ensures HandledArgs(HandledArgs(args)) == HandledArgs(args)
  {
    if args != [] && args[0].Str? {
      MarkedEndsWith(args[0].s);
      assert EndsWith(Marked(args[0]).s, Marker);
    }
  }

  /** Only the first element can change; the length never does. */
  lemma OnlyFirstChanges(args: seq<Arg>)
    ensures |HandledArgs(args)| == |args|
    ensures forall i :: 1 <= i < |args| ==> HandledArgs(args)[i] == args[i]
    ensures args == [] || args[0].Null? || args[0].Other? ==> HandledArgs(args) == args
  {
  }

  /** handleSetText: `args[0]` is replaced in place when it is a String
      that does not already end in the marker. */
  method HandleSetText(args: array<Arg>)
    modifies args
    ensures args[..] == HandledArgs(old(args[..]))
  {
    if args.Length > 0 {
      var first := args[0];
      if first.Str? && !EndsWith(first.s, Marker) {
        args[0] := Str(first.s + Marker);
      }
      assert args[..] == [Marked(old(args[0]))] + old(args[..])[1..];
    }
  }
}
