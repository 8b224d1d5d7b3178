/** Rendering of a method as a coloured JVM descriptor,
    `Lpkg/Cls;->name(params)ret`, into a SpannableStringBuilder
    (app/src/main/cpp/descriptor_builder.cc). The builder is its text plus
    the list of colour spans set on it; field and method descriptors are
    those of sections 4.3.2 and 4.3.3 of the Java Virtual Machine
    Specification. Names are ASCII, so a character is a byte. */
module DescriptorBuilder {
  import opened Base

  /** ColorScheme: the enumerator chosen for each piece of text. */
  datatype Color =
    | Punctuation | DescriptorL | DescriptorPrimitive
    | PackageName | PackageNameSynthetic | ClassName | ClassNameSynthetic
    | MethodName | MethodNameSynthetic | Semicolon | Arrow

  /** The ARGB value of each enumerator; several enumerators share one. */
  function ColorValue(c: Color): u32
  {
    match c
    case Punctuation => 0xFFD0D0D0
    case DescriptorL => 0xFFD0D0D0
    case DescriptorPrimitive => 0xFF00AFFF
    case PackageName => 0xFF949494
    case PackageNameSynthetic => 0xFF949494
    case ClassName => 0xFF00AFFF
    case ClassNameSynthetic => 0xFFD0D0D0
    case MethodName => 0xFFFF8700
    case MethodNameSynthetic => 0xFFD0D0D0
    case Semicolon => 0xFFD0D0D0
    case Arrow => 0xFF949494
  }

  /** Spanned.SPAN_EXCLUSIVE_EXCLUSIVE and Modifier.SYNTHETIC. */
  const SPAN_EXCLUSIVE_EXCLUSIVE: int := 0x21
  const SYNTHETIC: u32 := 0x1000

  /** A ForegroundColorSpan set over [start, end). */
  datatype Span = Span(color: u32, start: nat, end: nat, flags: int)

  /** One appended string and the colour it is appended with. */
  datatype Piece = Piece(text: string, color: Color)

  /** The text a sequence of pieces appends. */
  function Text(ps: seq<Piece>): string
  {
    if ps == [] then [] else Text(ps[..|ps| - 1]) + ps[|ps| - 1].text
  }

  /** The spans a sequence of pieces sets when appended at offset `start`. */
  function SpansFrom(ps: seq<Piece>, start: nat): (r: seq<Span>)
    ensures |r| == |ps|
  {
    if ps == [] then []
    else
      var init := ps[..|ps| - 1];
      var at := start + |Text(init)|;
      SpansFrom(init, start) + [Span(ColorValue(ps[|ps| - 1].color), at, at + |ps[|ps| - 1].text|, SPAN_EXCLUSIVE_EXCLUSIVE)]
  }

  lemma {:induction false} ConcatPieces(p: seq<Piece>, q: seq<Piece>, start: nat)
    ensures Text(p + q) == Text(p) + Text(q)
    ensures SpansFrom(p + q, start) == SpansFrom(p, start) + SpansFrom(q, start + |Text(p)|)
    decreases |q|
  {
    if q == [] {
      assert p + q == p;
    } else {
      var q' := q[..|q| - 1];
      var x := q[|q| - 1];
      assert (p + q)[..|p + q| - 1] == p + q';
      assert (p + q)[|p + q| - 1] == x;
      ConcatPieces(p, q', start);
      assert Text(p + q) == Text(p + q') + x.text;
      assert Text(q) == Text(q') + x.text;
    }
  }

  // ---------------------------------------------------------------
  // Splitting a class name at its dots

  /** The parts of a name between dots (the function that
      splitClassNameToParts computes). */
  function SplitDots(s: string): (parts: seq<string>)
    ensures |parts| >= 1
  {
    if s == [] then [[]]
    else
      var r := SplitDots(s[..|s| - 1]);
      var c := s[|s| - 1];
      if c == '.' then r + [[]] else r[..|r| - 1] + [r[|r| - 1] + [c]]
  }

  function CountChar(s: string, c: char): nat
  {
    if s == [] then 0 else CountChar(s[..|s| - 1], c) + (if s[|s| - 1] == c then 1 else 0)
  }

  /** The inverse: parts joined with a separator. */
  function Join(parts: seq<string>, sep: string): string
    requires parts != []
  {
    if |parts| == 1 then parts[0] else Join(parts[..|parts| - 1], sep) + sep + parts[|parts| - 1]
  }

  /** Every dot replaced by a slash. */
  function Slashed(s: string): (r: string)
    ensures |r| == |s|
  {
    if s == [] then [] else Slashed(s[..|s| - 1]) + [if s[|s| - 1] == '.' then '/' else s[|s| - 1]]
  }

  lemma {:induction false} JoinLastPart(r: seq<string>, sep: string, c: char)
    requires r != []
    ensures Join(r[..|r| - 1] + [r[|r| - 1] + [c]], sep) == Join(r, sep) + [c]
  {
    var r' := r[..|r| - 1] + [r[|r| - 1] + [c]];
    if |r| > 1 {
      assert r'[..|r'| - 1] == r[..|r| - 1];
    }
  }

  /** splitClassNameToParts returns one more part than there are dots. */
  lemma {:induction false} SplitDotsCount(s: string)
    ensures |SplitDots(s)| == CountChar(s, '.') + 1
  {
    if s != [] {
      SplitDotsCount(s[..|s| - 1]);
    }
  }

  /** No part holds a dot. */
  lemma {:induction false} SplitDotsNoDot(s: string)
    ensures forall i :: 0 <= i < |SplitDots(s)| ==> '.' !in SplitDots(s)[i]
  {
    if s != [] {
      var r := SplitDots(s[..|s| - 1]);
      var c := s[|s| - 1];
      SplitDotsNoDot(s[..|s| - 1]);
      if c != '.' {
        var r' := r[..|r| - 1] + [r[|r| - 1] + [c]];
        forall i | 0 <= i < |r'| ensures '.' !in r'[i] {
          if i < |r| - 1 {
            assert r'[i] == r[i];
          } else {
            assert r'[i] == r[|r| - 1] + [c];
          }
        }
      }
    }
  }

  /** Joining the parts with "." gives the name back, and joining them
      with "/" gives the slashed name. */
  lemma {:induction false} SplitDotsJoin(s: string)
    ensures Join(SplitDots(s), ".") == s
    ensures Join(SplitDots(s), "/") == Slashed(s)
  {
    if s != [] {
      var init := s[..|s| - 1];
      var r := SplitDots(init);
      var c := s[|s| - 1];
      SplitDotsJoin(init);
      assert s == init + [c];
      if c == '.' {
        assert (r + [[]])[..|r + [[]]| - 1] == r;
      } else {
        JoinLastPart(r, ".", c);
        JoinLastPart(r, "/", c);
      }
    }
  }

  /** The facts about splitClassNameToParts's parts together. */
  lemma SplitDotsSpec(s: string)
    ensures |SplitDots(s)| == CountChar(s, '.') + 1
    ensures forall i :: 0 <= i < |SplitDots(s)| ==> '.' !in SplitDots(s)[i]
    ensures Join(SplitDots(s), ".") == s
    ensures Join(SplitDots(s), "/") == Slashed(s)
  {
    SplitDotsCount(s);
    SplitDotsNoDot(s);
    SplitDotsJoin(s);
  }

  /** splitClassNameToParts: cut the name at every '.'. */
  method SplitClassNameToParts(name: string) returns (parts: seq<string>)
    ensures parts == SplitDots(name)
  {
    parts := [];
    var off := 0;
    for i := 0 to |name|
      invariant off <= i
      invariant parts + [name[off..i]] == SplitDots(name[..i])
    {
      assert name[..i + 1][..i] == name[..i];
      if name[i] == '.' {
        ghost var s := name[..i + 1];
        assert s[..|s| - 1] == name[..i] && s[|s| - 1] == '.';
        assert name[i + 1..i + 1] == [];
        parts := parts + [name[off..i]];
        off := i + 1;
      } else {
        ghost var r := parts + [name[off..i]];
        assert r[..|r| - 1] == parts;
        ghost var s := name[..i + 1];
        assert s[..|s| - 1] == name[..i] && s[|s| - 1] == name[i];
        assert SplitDots(s) == r[..|r| - 1] + [r[|r| - 1] + [name[i]]];
        assert name[off..i + 1] == name[off..i] + [name[i]];
      }
    }
    assert name[..|name|] == name;
    parts := parts + [name[off..]];
  }

  // ---------------------------------------------------------------
  // Classes and their descriptor pieces

  datatype Primitive = Boolean | Byte | Short | Character | Integer | Float | Long | Double | Void

  /** A java.lang.Class as the builder sees it: primitive (identified by
      comparison with the TYPE fields), or a reference type with its
      isArray / isSynthetic answers and its getName() text. */
  datatype JClass =
    | PrimitiveClass(kind: Primitive)
    | ReferenceClass(isArray: bool, isSynthetic: bool, name: string)

  /** appendPrimitiveDescriptor's letter: anything that is not one of
      the eight types compared against is `V`. */
  function PrimitiveLetter(k: Primitive): string
  {
    match k
    case Boolean => "Z"
    case Byte => "B"
    case Short => "S"
    case Character => "C"
    case Integer => "I"
    case Float => "F"
    case Long => "J"
    case Double => "D"
    case Void => "V"
  }

  /** The letters are the base-type terms of section 4.3.2 of the Java
      Virtual Machine Specification, V being the void descriptor of 4.3.3. */
  lemma PrimitiveLetterInjective(a: Primitive, b: Primitive)
    requires PrimitiveLetter(a) == PrimitiveLetter(b)
    ensures a == b
  {
  }

  function PackageColor(synthetic: bool): Color
  {
    if synthetic then PackageNameSynthetic else PackageName
  }

  function ClassColor(synthetic: bool): Color
  {
    if synthetic then ClassNameSynthetic else ClassName
  }

  /** Each package part followed by a "/" . */
  function PackagePieces(parts: seq<string>, synthetic: bool): seq<Piece>
  {
    if parts == [] then []
    else
      PackagePieces(parts[..|parts| - 1], synthetic)
        + [Piece(parts[|parts| - 1], PackageColor(synthetic)), Piece("/", Punctuation)]
  }

  /** What appendClassName appends: `L`, the parts separated by `/`, `;`. */
  function ClassNamePieces(name: string, synthetic: bool): seq<Piece>
  {
    var parts := SplitDots(name);
    [Piece("L", DescriptorL)]
      + PackagePieces(parts[..|parts| - 1], synthetic)
      + [Piece(parts[|parts| - 1], ClassColor(synthetic))]
      + [Piece(";", Semicolon)]
  }

  /** The number of leading '[' of an array class name. */
  function LeadingBrackets(s: string): (n: nat)
    ensures n <= |s|
  {
    if s != [] && s[0] == '[' then 1 + LeadingBrackets(s[1..]) else 0
  }

  /** The count is that of the maximal '[' prefix. */
  lemma {:induction false} LeadingBracketsSpec(s: string)
    ensures forall k :: 0 <= k < LeadingBrackets(s) ==> s[k] == '['
    ensures LeadingBrackets(s) < |s| ==> s[LeadingBrackets(s)] != '['
  {
    if s != [] && s[0] == '[' {
      LeadingBracketsSpec(s[1..]);
    }
  }

  function Repeat(c: char, n: nat): (r: string)
    ensures |r| == n
  {
    if n == 0 then [] else Repeat(c, n - 1) + [c]
  }

  lemma {:induction false} RepeatSpec(c: char, n: nat)
    ensures forall k :: 0 <= k < n ==> Repeat(c, n)[k] == c
  {
    if n > 0 {
      RepeatSpec(c, n - 1);
    }
  }

  /** The inner class name of an object array, without its `L` and
      without a trailing `;` if present. */
  function InnerName(rest: string): string
  {
    if rest != [] && rest[|rest| - 1] == ';' then rest[..|rest| - 1] else rest
  }

  /** The bracket-counting loop of appendClassDescriptor. */
  method CountLeadingBrackets(name: string) returns (count: nat)
    ensures count == LeadingBrackets(name)
  {
    count := 0;
    while count < |name| && name[count] == '['
      invariant count <= |name|
      invariant LeadingBrackets(name) == count + LeadingBrackets(name[count..])
    {
      assert name[count..][1..] == name[count + 1..];
      count := count + 1;
    }
  }

  /** What appendClassDescriptor appends for a class. */
  function ClassDescriptorPieces(c: JClass): seq<Piece>
  {
    match c
    case PrimitiveClass(k) => [Piece(PrimitiveLetter(k), DescriptorPrimitive)]
    case ReferenceClass(isArray, synthetic, name) =>
      if !isArray then ClassNamePieces(name, synthetic)
      else
        var n := LeadingBrackets(name);
        [Piece(Repeat('[', n), Punctuation)] + ElementPieces(name, n, synthetic)
  }

  /** What follows the `[` run of an array name at index `n`: an object
      element's class name, a base-type letter, or nothing. */
  function ElementPieces(name: string, n: nat, synthetic: bool): seq<Piece>
    requires n <= |name|
  {
    if n == |name| then []
    else if name[n] == 'L' then ClassNamePieces(InnerName(name[n + 1..]), synthetic)
    else [Piece([name[n]], DescriptorPrimitive)]
  }

  function ParameterPieces(params: seq<JClass>): seq<Piece>
  {
    if params == [] then []
    else ParameterPieces(params[..|params| - 1]) + ClassDescriptorPieces(params[|params| - 1])
  }

  function OptionalClassPieces(c: Option<JClass>): seq<Piece>
  {
    if c.Some? then ClassDescriptorPieces(c.value) else []
  }

  function MethodNameColor(modifiers: u32): Color
  {
    if HasBit(modifiers, SYNTHETIC) then MethodNameSynthetic else MethodName
  }

  /** Everything GetDescriptor appends, in order. A null parameter array
      is `None`. */
  function DescriptorPieces(declaring: Option<JClass>, name: string, params: Option<seq<JClass>>,
                            returnType: Option<JClass>, modifiers: u32): seq<Piece>
  {
    OptionalClassPieces(declaring)
      + [Piece("->", Arrow), Piece(name, MethodNameColor(modifiers)), Piece("(", Punctuation)]
      + (if params.Some? then ParameterPieces(params.value) else [])
      + [Piece(")", Punctuation)]
      + OptionalClassPieces(returnType)
  }

  // ---------------------------------------------------------------
  // What the pieces say

  function ClassDescriptorText(c: JClass): string
  {
    Text(ClassDescriptorPieces(c))
  }

  function ParametersText(params: seq<JClass>): string
  {
    if params == [] then [] else ParametersText(params[..|params| - 1]) + ClassDescriptorText(params[|params| - 1])
  }

  lemma {:induction false} PackagePiecesShape(parts: seq<string>, synthetic: bool)
    ensures |PackagePieces(parts, synthetic)| == 2 * |parts|
    ensures forall i :: 0 <= i < |parts| ==>
      PackagePieces(parts, synthetic)[2 * i] == Piece(parts[i], PackageColor(synthetic)) &&
      PackagePieces(parts, synthetic)[2 * i + 1] == Piece("/", Punctuation)
  {
    if parts != [] {
      PackagePiecesShape(parts[..|parts| - 1], synthetic);
    }
  }

  lemma {:induction false} PackagePiecesText(parts: seq<string>, synthetic: bool)
    requires parts != []
    ensures Text(PackagePieces(parts, synthetic)) == Join(parts, "/") + "/"
  {
    var init := parts[..|parts| - 1];
    var last := parts[|parts| - 1];
    var tail := [Piece(last, PackageColor(synthetic)), Piece("/", Punctuation)];
    ConcatPieces(PackagePieces(init, synthetic), tail, 0);
    assert Text(tail) == last + "/" by {
      assert tail[..1] == [tail[0]];
      assert Text([tail[0]]) == last by { assert [tail[0]][..0] == []; }
    }
    if init != [] {
      PackagePiecesText(init, synthetic);
    } else {
      assert PackagePieces(init, synthetic) == [];
    }
  }

  lemma {:induction false} TextOfOne(p: Piece)
    ensures Text([p]) == p.text
  {
    assert [p][..0] == [];
  }

  /** The text of `p1`, the pieces `x`, `p2` and `p3` appended in turn. */
  lemma {:induction false} TextOfFrame(p1: Piece, x: seq<Piece>, p2: Piece, p3: Piece)
    ensures Text([p1] + x + [p2] + [p3]) == p1.text + Text(x) + p2.text + p3.text
  {
    ConcatPieces([p1] + x + [p2], [p3], 0);
    ConcatPieces([p1] + x, [p2], 0);
    ConcatPieces([p1], x, 0);
    TextOfOne(p1);
    TextOfOne(p2);
    TextOfOne(p3);
  }

  lemma {:induction false} JoinedParts(name: string, synthetic: bool)
    ensures var parts := SplitDots(name);
      Text(PackagePieces(parts[..|parts| - 1], synthetic)) + parts[|parts| - 1] == Slashed(name)
  {
    var parts := SplitDots(name);
    var init := parts[..|parts| - 1];
    var last := parts[|parts| - 1];
    SplitDotsSpec(name);
    if init != [] {
      PackagePiecesText(init, synthetic);
      assert parts == init + [last];
      assert Join(parts, "/") == Join(init, "/") + "/" + last;
    } else {
      assert PackagePieces(init, synthetic) == [];
      assert Join(parts, "/") == last;
    }
  }

  /** appendClassName writes `L`, the name with every '.' turned into
      '/', and `;`. */
  lemma {:induction false} ClassNameText(name: string, synthetic: bool)
    ensures Text(ClassNamePieces(name, synthetic)) == "L" + Slashed(name) + ";"
  {
    var parts := SplitDots(name);
    var pk := PackagePieces(parts[..|parts| - 1], synthetic);
    var last := parts[|parts| - 1];
    TextOfFrame(Piece("L", DescriptorL), pk, Piece(last, ClassColor(synthetic)), Piece(";", Semicolon));
    assert Text(ClassNamePieces(name, synthetic)) == "L" + Text(pk) + last + ";";
    JoinedParts(name, synthetic);
    GroupMiddle("L", Text(pk), last, ";");
  }

  lemma GroupMiddle(a: string, b: string, c: string, d: string)
    ensures a + b + c + d == a + (b + c) + d
  {
  }

  /** Where each part goes and in which colour: parts get the synthetic
      colours exactly when the class is synthetic. */
  lemma {:induction false} ClassNameLayout(name: string, synthetic: bool)
    ensures var parts := SplitDots(name);
      var p := ClassNamePieces(name, synthetic);
      |p| == 2 * |parts| + 1 &&
      p[0] == Piece("L", DescriptorL) &&
      p[2 * |parts|] == Piece(";", Semicolon) &&
      p[2 * |parts| - 1] == Piece(parts[|parts| - 1], ClassColor(synthetic)) &&
      (forall i :: 0 <= i < |parts| - 1 ==>
        p[2 * i + 1] == Piece(parts[i], PackageColor(synthetic)) && p[2 * i + 2] == Piece("/", Punctuation))
  {
    var parts := SplitDots(name);
    PackagePiecesShape(parts[..|parts| - 1], synthetic);
  }

  /** appendClassDescriptor renders a field descriptor: the base-type
      letter, `L` binary-name `;`, or the leading `[` run of an array
      name followed by its element descriptor. */
  lemma {:induction false} ClassDescriptorTextShape(c: JClass)
    ensures c.PrimitiveClass? ==> ClassDescriptorText(c) == PrimitiveLetter(c.kind)
    ensures c.ReferenceClass? && !c.isArray ==> ClassDescriptorText(c) == "L" + Slashed(c.name) + ";"
    ensures c.ReferenceClass? && c.isArray ==>
      var n := LeadingBrackets(c.name);
      ClassDescriptorText(c) ==
        Repeat('[', n) +
        (if n == |c.name| then []
         else if c.name[n] == 'L' then "L" + Slashed(InnerName(c.name[n + 1..])) + ";"
         else [c.name[n]])
  {
    match c
    case PrimitiveClass(k) => TextOfOne(Piece(PrimitiveLetter(k), DescriptorPrimitive));
    case ReferenceClass(isArray, synthetic, name) =>
      if !isArray {
        ClassNameText(name, synthetic);
      } else {
        var n := LeadingBrackets(name);
        var b := Piece(Repeat('[', n), Punctuation);
        TextOfOne(b);
        if n == |name| {
        } else if name[n] == 'L' {
          ConcatPieces([b], ClassNamePieces(InnerName(name[n + 1..]), synthetic), 0);
          ClassNameText(InnerName(name[n + 1..]), synthetic);
        } else {
          ConcatPieces([b], [Piece([name[n]], DescriptorPrimitive)], 0);
          TextOfOne(Piece([name[n]], DescriptorPrimitive));
        }
      }
  }

  lemma {:induction false} ParameterPiecesText(params: seq<JClass>)
    ensures Text(ParameterPieces(params)) == ParametersText(params)
  {
    if params != [] {
      var init := params[..|params| - 1];
      ParameterPiecesText(init);
      ConcatPieces(ParameterPieces(init), ClassDescriptorPieces(params[|params| - 1]), 0);
    }
  }

  /** The full text: the declaring class's descriptor if any, `->`, the
      name, the parameter descriptors in order between parentheses, and
      the return type's descriptor if any. */
  lemma {:induction false} DescriptorText(declaring: Option<JClass>, name: string, params: Option<seq<JClass>>,
                       returnType: Option<JClass>, modifiers: u32)
    ensures Text(DescriptorPieces(declaring, name, params, returnType, modifiers)) ==
      Text(OptionalClassPieces(declaring)) + ("->" + name + "(")
        + (if params.Some? then ParametersText(params.value) else [])
        + ")" + Text(OptionalClassPieces(returnType))
  {
    var ps := if params.Some? then ParameterPieces(params.value) else [];
    TextOfFive(OptionalClassPieces(declaring),
               [Piece("->", Arrow), Piece(name, MethodNameColor(modifiers)), Piece("(", Punctuation)],
               ps, [Piece(")", Punctuation)], OptionalClassPieces(returnType));
    TextOfThree(Piece("->", Arrow), Piece(name, MethodNameColor(modifiers)), Piece("(", Punctuation));
    TextOfOne(Piece(")", Punctuation));
    if params.Some? {
      ParameterPiecesText(params.value);
    }
  }

  lemma {:induction false} TextOfFive(a: seq<Piece>, b: seq<Piece>, c: seq<Piece>, d: seq<Piece>, e: seq<Piece>)
    ensures Text(a + b + c + d + e) == Text(a) + Text(b) + Text(c) + Text(d) + Text(e)
  {
    ConcatPieces(a + b + c + d, e, 0);
    ConcatPieces(a + b + c, d, 0);
    ConcatPieces(a + b, c, 0);
    ConcatPieces(a, b, 0);
  }

  lemma {:induction false} TextOfThree(a: Piece, b: Piece, c: Piece)
    ensures Text([a, b, c]) == a.text + b.text + c.text
  {
    assert [a, b, c] == [a] + [b] + [c];
    ConcatPieces([a] + [b], [c], 0);
    ConcatPieces([a], [b], 0);
    TextOfOne(a);
    TextOfOne(b);
    TextOfOne(c);
  }

  /** The method name is coloured as synthetic exactly when the modifiers
      carry Modifier.SYNTHETIC. */
  lemma {:induction false} MethodNameColoring(declaring: Option<JClass>, name: string, params: Option<seq<JClass>>,
                           returnType: Option<JClass>, modifiers: u32)
    ensures var p := DescriptorPieces(declaring, name, params, returnType, modifiers);
      var k := |OptionalClassPieces(declaring)| + 1;
      k < |p| && p[k].text == name &&
      (p[k].color == MethodNameSynthetic <==> HasBit(modifiers, SYNTHETIC))
  {
  }

  // ---------------------------------------------------------------
  // The builder

  /** The spans tile the text: one span per piece, in order, each
      coloured as its piece and covering exactly its piece's characters,
      the first starting at 0, each starting where the previous one ends
      and the last ending at the end of the text. */
  ghost predicate Tiles(t: string, sp: seq<Span>, ps: seq<Piece>)
  {
    && |sp| == |ps|
    && SpansMatch(t, sp, ps)
    && CharsMatch(t, sp, ps)
    && Contiguous(sp)
    && (if sp == [] then t == [] else sp[0].start == 0 && sp[|sp| - 1].end == |t|)
  }

  /** Each span has its piece's colour and length and lies inside the text. */
  ghost predicate SpansMatch(t: string, sp: seq<Span>, ps: seq<Piece>)
    requires |sp| == |ps|
  {
    forall k :: 0 <= k < |sp| ==>
      sp[k].color == ColorValue(ps[k].color) && sp[k].flags == SPAN_EXCLUSIVE_EXCLUSIVE &&
      sp[k].end == sp[k].start + |ps[k].text| && sp[k].end <= |t|
  }

  /** Each span covers its piece's characters. */
  ghost predicate CharsMatch(t: string, sp: seq<Span>, ps: seq<Piece>)
    requires |sp| == |ps| && SpansMatch(t, sp, ps)
  {
    forall k, j :: 0 <= k < |sp| && 0 <= j < |ps[k].text| ==> t[sp[k].start + j] == ps[k].text[j]
  }

  /** Each span starts where the previous one ends. */
  ghost predicate Contiguous(sp: seq<Span>)
  {
    forall k :: 0 < k < |sp| ==> sp[k].start == sp[k - 1].end
  }

  /** Dropping the last piece of a tiling leaves a tiling of the text
      before it. */
  lemma {:induction false} TilesPrefix(t: string, sp: seq<Span>, ps: seq<Piece>)
    requires Tiles(t, sp, ps) && ps != []
    ensures sp[|ps| - 1].start <= |t|
    ensures Tiles(t[..sp[|ps| - 1].start], sp[..|ps| - 1], ps[..|ps| - 1])
    ensures t == t[..sp[|ps| - 1].start] + ps[|ps| - 1].text
  {
    var n := |ps| - 1;
    var a := sp[n].start;
    var t' := t[..a];
    var sp' := sp[..n];
    var ps' := ps[..n];
    if n > 0 {
      assert a == sp[n - 1].end;
    }
    forall k | 0 <= k < n
      ensures sp[k].end <= a
    {
      EndsBefore(sp, ps, k, n);
    }
    assert Tiles(t', sp', ps');
    forall j | 0 <= j < |ps[n].text| ensures t[a + j] == ps[n].text[j] {
    }
  }

  /** A tiling is exactly the rendering of its pieces. */
  lemma {:induction false} TilesRender(t: string, sp: seq<Span>, ps: seq<Piece>)
    requires Tiles(t, sp, ps)
    ensures t == Text(ps) && sp == SpansFrom(ps, 0)
    decreases |ps|
  {
    if ps != [] {
      var n := |ps| - 1;
      TilesPrefix(t, sp, ps);
      TilesRender(t[..sp[n].start], sp[..n], ps[..n]);
      assert sp == sp[..n] + [sp[n]];
    }
  }

  /** Appending a piece keeps a tiling. */
  lemma {:induction false} TilesAppend(t: string, sp: seq<Span>, ps: seq<Piece>, p: Piece)
    requires Tiles(t, sp, ps)
    ensures Tiles(t + p.text, sp + [Span(ColorValue(p.color), |t|, |t| + |p.text|, SPAN_EXCLUSIVE_EXCLUSIVE)], ps + [p])
  {
    var s := Span(ColorValue(p.color), |t|, |t| + |p.text|, SPAN_EXCLUSIVE_EXCLUSIVE);
    SpansMatchAppend(t, sp, ps, p, s);
    CharsMatchAppend(t, sp, ps, p, s);
    ContiguousAppend(sp, s);
  }

  lemma {:induction false} SpansMatchAppend(t: string, sp: seq<Span>, ps: seq<Piece>, p: Piece, s: Span)
    requires |sp| == |ps| && SpansMatch(t, sp, ps)
    requires s == Span(ColorValue(p.color), |t|, |t| + |p.text|, SPAN_EXCLUSIVE_EXCLUSIVE)
    ensures SpansMatch(t + p.text, sp + [s], ps + [p])
  {
    var sp', ps' := sp + [s], ps + [p];
    forall k | 0 <= k < |sp'|
      ensures sp'[k].color == ColorValue(ps'[k].color) && sp'[k].flags == SPAN_EXCLUSIVE_EXCLUSIVE
      ensures sp'[k].end == sp'[k].start + |ps'[k].text| && sp'[k].end <= |t + p.text|
    {
      if k < |sp| {
        assert sp'[k] == sp[k] && ps'[k] == ps[k];
      }
    }
  }

  lemma {:induction false} CharsMatchAppend(t: string, sp: seq<Span>, ps: seq<Piece>, p: Piece, s: Span)
    requires |sp| == |ps| && SpansMatch(t, sp, ps) && CharsMatch(t, sp, ps)
    requires s == Span(ColorValue(p.color), |t|, |t| + |p.text|, SPAN_EXCLUSIVE_EXCLUSIVE)
    ensures SpansMatch(t + p.text, sp + [s], ps + [p])
    ensures CharsMatch(t + p.text, sp + [s], ps + [p])
  {
    SpansMatchAppend(t, sp, ps, p, s);
    var t', sp', ps' := t + p.text, sp + [s], ps + [p];
    forall k, j | 0 <= k < |sp'| && 0 <= j < |ps'[k].text|
      ensures t'[sp'[k].start + j] == ps'[k].text[j]
    {
      if k < |sp| {
        assert sp'[k] == sp[k] && ps'[k] == ps[k];
        assert t[sp[k].start + j] == ps[k].text[j];
      } else {
        assert t'[|t| + j] == p.text[j];
      }
    }
  }

  lemma {:induction false} ContiguousAppend(sp: seq<Span>, s: Span)
    requires Contiguous(sp)
    requires sp != [] ==> s.start == sp[|sp| - 1].end
    ensures Contiguous(sp + [s])
  {
    var sp' := sp + [s];
    forall k | 0 < k < |sp'|
      ensures sp'[k].start == sp'[k - 1].end
    {
      if k < |sp| {
        assert sp'[k] == sp[k] && sp'[k - 1] == sp[k - 1];
      }
    }
  }

  lemma {:induction false} EndsBefore(sp: seq<Span>, ps: seq<Piece>, k: nat, n: nat)
    requires |sp| == |ps| && k < n < |sp|
    requires forall i :: 0 <= i < |sp| ==> sp[i].end == sp[i].start + |ps[i].text|
    requires forall i :: 0 < i < |sp| ==> sp[i].start == sp[i - 1].end
    ensures sp[k].end <= sp[n].start
    decreases n - k
  {
    if k + 1 < n {
      EndsBefore(sp, ps, k + 1, n);
    }
  }

  lemma Assoc(p0: seq<Piece>, x: seq<Piece>, y: seq<Piece>)
    ensures p0 + x + y == p0 + (x + y)
  {
  }

  lemma RegroupThree(p0: seq<Piece>, a: Piece, b: Piece, c: Piece)
    ensures p0 + [a] + [b] + [c] == p0 + [a, b, c]
  {
  }

  lemma RegroupTwo(p0: seq<Piece>, x: seq<Piece>, a: Piece, b: Piece)
    ensures p0 + x + [a] + [b] == p0 + (x + [a, b])
  {
  }

  lemma Regroup(p0: seq<Piece>, a: Piece, x: seq<Piece>, b: Piece, c: Piece)
    ensures p0 + [a] + x + [b] + [c] == p0 + ([a] + x + [b] + [c])
  {
  }

  /** A SpannableStringBuilder: its text and the spans set on it, with
      the pieces appended so far as a ghost history. */
  class SpannableBuilder {
    var text: string
    var spans: seq<Span>
    ghost var pieces: seq<Piece>

    /** The spans tile the text along the history. */
    ghost predicate Valid()
      reads this
    {
      Tiles(text, spans, pieces)
    }

    constructor ()
      ensures Valid() && pieces == []
    {
      text := [];
      spans := [];
      pieces := [];
    }

    /** appendStringWithColor: append `s`, then set one span over the
        characters just appended. */
    method AppendStringWithColor(s: string, color: Color)
      requires Valid()
      modifies this
      ensures Valid() && pieces == old(pieces) + [Piece(s, color)]
      ensures text == old(text) + s
      ensures spans == old(spans) + [Span(ColorValue(color), |old(text)|, |old(text)| + |s|, SPAN_EXCLUSIVE_EXCLUSIVE)]
    {
      TilesAppend(text, spans, pieces, Piece(s, color));
      var start := |text|;
      text := text + s;
      var end := start + |s|;
      spans := spans + [Span(ColorValue(color), start, end, SPAN_EXCLUSIVE_EXCLUSIVE)];
      pieces := pieces + [Piece(s, color)];
    }

    /** appendPrimitiveDescriptor. */
    method AppendPrimitiveDescriptor(k: Primitive)
      requires Valid()
      modifies this
      ensures Valid() && pieces == old(pieces) + ClassDescriptorPieces(PrimitiveClass(k))
    {
      var letter := "V";
      match k {
        case Boolean => letter := "Z";
        case Byte => letter := "B";
        case Short => letter := "S";
        case Character => letter := "C";
        case Integer => letter := "I";
        case Float => letter := "F";
        case Long => letter := "J";
        case Double => letter := "D";
        case Void =>
      }
      AppendStringWithColor(letter, DescriptorPrimitive);
    }

    /** The package loop of appendClassName: each part, then "/". */
    method AppendPackageParts(parts: seq<string>, synthetic: bool)
      requires Valid()
      modifies this
      ensures Valid() && pieces == old(pieces) + PackagePieces(parts, synthetic)
    {
      for i := 0 to |parts|
        invariant Valid()
        invariant pieces == old(pieces) + PackagePieces(parts[..i], synthetic)
      {
        AppendStringWithColor(parts[i], PackageColor(synthetic));
        AppendStringWithColor("/", Punctuation);
        assert parts[..i + 1][..i] == parts[..i];
        RegroupTwo(old(pieces), PackagePieces(parts[..i], synthetic),
                   Piece(parts[i], PackageColor(synthetic)), Piece("/", Punctuation));
      }
      assert parts[..|parts|] == parts;
    }

    /** appendClassName. */
    method AppendClassName(className: string, synthetic: bool)
      requires Valid()
      modifies this
      ensures Valid() && pieces == old(pieces) + ClassNamePieces(className, synthetic)
    {
      AppendStringWithColor("L", DescriptorL);
      var parts := SplitClassNameToParts(className);
      var last := |parts|;
      AppendPackageParts(parts[..last - 1], synthetic);
      if last != 0 {
        AppendStringWithColor(parts[last - 1], ClassColor(synthetic));
      }
      AppendStringWithColor(";", Semicolon);
      Regroup(old(pieces), Piece("L", DescriptorL), PackagePieces(parts[..last - 1], synthetic),
              Piece(parts[last - 1], ClassColor(synthetic)), Piece(";", Semicolon));
    }

    /** The array branch of appendClassDescriptor: the leading '[' run,
        then the element type. */
    method AppendArrayDescriptor(name: string, synthetic: bool)
      requires Valid()
      modifies this
      ensures Valid() && pieces == old(pieces) + ClassDescriptorPieces(ReferenceClass(true, synthetic, name))
    {
      var count := CountLeadingBrackets(name);
      AppendStringWithColor(Repeat('[', count), Punctuation);
      AppendElement(name, count, synthetic);
      Assoc(old(pieces), [Piece(Repeat('[', count), Punctuation)], ElementPieces(name, count, synthetic));
    }

    /** The element type of an array name, after its `[` run. */
    method AppendElement(name: string, count: nat, synthetic: bool)
      requires Valid() && count <= |name|
      modifies this
      ensures Valid() && pieces == old(pieces) + ElementPieces(name, count, synthetic)
    {
      if count < |name| {
        var typeChar := name[count];
        if typeChar == 'L' {
          var inner := name[count + 1..];
          if inner != [] && inner[|inner| - 1] == ';' {
            inner := inner[..|inner| - 1];
          }
          AppendClassName(inner, synthetic);
        } else {
          AppendStringWithColor([typeChar], DescriptorPrimitive);
        }
      } else {
        assert pieces == old(pieces) + [];
      }
    }

    /** appendClassDescriptor. */
    method AppendClassDescriptor(c: JClass)
      requires Valid()
      modifies this
      ensures Valid() && pieces == old(pieces) + ClassDescriptorPieces(c)
    {
      if c.PrimitiveClass? {
        AppendPrimitiveDescriptor(c.kind);
      } else if c.isArray {
        AppendArrayDescriptor(c.name, c.isSynthetic);
      } else {
        AppendClassName(c.name, c.isSynthetic);
      }
    }

    /** DescriptorBuilder::GetDescriptor: a fresh builder holding the
        whole rendering. */
    static method GetDescriptor(declaring: Option<JClass>, name: string, params: Option<seq<JClass>>,
                                returnType: Option<JClass>, modifiers: u32)
      returns (b: SpannableBuilder)
      ensures fresh(b)
      ensures Tiles(b.text, b.spans, DescriptorPieces(declaring, name, params, returnType, modifiers))
      ensures b.text == Text(DescriptorPieces(declaring, name, params, returnType, modifiers))
      ensures b.spans == SpansFrom(DescriptorPieces(declaring, name, params, returnType, modifiers), 0)
    {
      b := new SpannableBuilder();
      if declaring.Some? {
        b.AppendClassDescriptor(declaring.value);
        assert b.pieces == OptionalClassPieces(declaring);
      }
      ghost var head := b.pieces;
      b.AppendMethodName(name, modifiers);
      ghost var mid := b.pieces;
      b.AppendParameters(params);
      ghost var ps := b.pieces;
      b.AppendStringWithColor(")", Punctuation);
      ghost var before := b.pieces;
      if returnType.Some? {
        b.AppendClassDescriptor(returnType.value);
      }
      assert b.pieces == before + OptionalClassPieces(returnType);
      assert b.pieces == DescriptorPieces(declaring, name, params, returnType, modifiers);
      TilesRender(b.text, b.spans, b.pieces);
    }

    /** The arrow, the method name (synthetic colour exactly when the
        modifiers carry Modifier.SYNTHETIC) and the opening parenthesis. */
    method AppendMethodName(name: string, modifiers: u32)
      requires Valid()
      modifies this
      ensures Valid()
      ensures pieces == old(pieces) + [Piece("->", Arrow), Piece(name, MethodNameColor(modifiers)), Piece("(", Punctuation)]
    {
      AppendStringWithColor("->", Arrow);
      var methodSynthetic := HasBit(modifiers, SYNTHETIC);
      AppendStringWithColor(name, if methodSynthetic then MethodNameSynthetic else MethodName);
      AppendStringWithColor("(", Punctuation);
      RegroupThree(old(pieces), Piece("->", Arrow), Piece(name, MethodNameColor(modifiers)), Piece("(", Punctuation));
    }

    /** The parameter loop of GetDescriptor; a null array appends nothing. */
    method AppendParameters(params: Option<seq<JClass>>)
      requires Valid()
      modifies this
      ensures Valid() && pieces == old(pieces) + (if params.Some? then ParameterPieces(params.value) else [])
    {
      if params.Some? {
        var ps := params.value;
        for i := 0 to |ps|
          invariant Valid()
          invariant pieces == old(pieces) + ParameterPieces(ps[..i])
        {
          ghost var before := pieces;
          AppendClassDescriptor(ps[i]);
          assert ps[..i + 1][..i] == ps[..i];
          Assoc(old(pieces), ParameterPieces(ps[..i]), ClassDescriptorPieces(ps[i]));
        }
        assert ps[..|ps|] == ps;
      } else {
        assert pieces == old(pieces) + [];
      }
    }
  }
}
