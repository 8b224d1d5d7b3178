/** get_line and the text parser are inverse: parsing the line get_line
    prints for an entry gives the entry back, for every entry the text
    format can represent. */
module MapsRoundTrip {
  import opened Base
  import opened Numerals
  import opened MapsEntry
  import opened MapsLine

  /** An entry the text format carries without loss: non-zero bounds
      (a zero bound ends the parse), only the four permission bits,
      fields that fit before the name column, and a name that fits in
      the buffer. */
  ghost predicate Representable(e: VmaEntry)
  {
    e.vmaStart != 0 && e.vmaEnd != 0 && e.vmaFlags <= 0x0f &&
    |FormatFields(e)| < NAME_OFFSET_64 && |e.name| <= NAME_ROOM
  }

  /** Parsing what get_line prints returns the entry, unfiltered. */
  lemma ParseOfLineText(e: VmaEntry)
    requires Representable(e)
    ensures ParseLine(LineText(e), 0) == Found(e)
  {
    var L := LineText(e);
    var b := ScanBounds(L);
    var flags := PermFlags(L, b.next);
    LineShape(e);
    AndZero(VMA_ALL_QUERY_FLAGS);
    AndZero(VMA_QUERY_FILE_BACKED);
    EntryScan(e, L);
    assert ParseLine(L, 0) == CheckBounds(L, b, 0);
    assert CheckBounds(L, b, 0) == CheckPermissions(L, b, flags, 0);
    assert ScanEntry(L, b, flags) == e;
  }

  /** The line begins with the fields and a space, and its name column
      holds the name. */
  lemma LineShape(e: VmaEntry)
    requires Representable(e)
    ensures var F := FormatFields(e);
      |LineText(e)| > |F| && LineText(e)[..|F| + 1] == F + " " && NameAt(LineText(e)) == e.name
  {
    WithNameShape(FormatFields(e), e.name);
  }

  lemma WithNameShape(F: string, name: string)
    requires |F| < NAME_OFFSET_64 && |name| <= NAME_ROOM
    ensures var L := WithName(Clip(F), name);
      |L| > |F| && L[..|F| + 1] == F + " " && NameAt(L) == name
  {
    var L := WithName(Clip(F), name);
    assert Clip(F) == F;
    if name == [] {
      assert L == F + " ";
    } else {
      var pad := Spaces(NAME_OFFSET_64 - |F|);
      assert name[..Min(|name|, NAME_ROOM)] == name;
      assert L == F + pad + name;
      assert pad[0] == ' ' by { SpacesAll(|pad|); }
      assert L[..|F| + 1] == F + [pad[0]];
      assert L[NAME_OFFSET_64..] == name;
    }
  }

  /** Field `d` sits at column `i` of `L` and the character `sep` follows it. */
  ghost predicate FieldAt(L: string, i: nat, d: string, sep: char)
  {
    i + |d| < |L| && (forall j :: 0 <= j < |d| ==> L[i + j] == d[j]) && L[i + |d|] == sep
  }

  /** The last field of a prefix of `L`, and the prefix before it. */
  lemma LastField(L: string, X: string, i: nat, d: string, sep: char)
    requires i == |X| && i + |d| + 1 <= |L| && L[..i + |d| + 1] == X + d + [sep]
    ensures FieldAt(L, i, d, sep) && L[..i] == X
  {
    forall j | 0 <= j < |d|
      ensures L[i + j] == d[j]
    {
      assert L[i + j] == L[..i + |d| + 1][i + j];
    }
    assert L[i + |d|] == L[..i + |d| + 1][i + |d|];
    assert L[..i] == L[..i + |d| + 1][..i];
  }

  /** A hex field ended by a non-hex character scans back to its value,
      and the cursor lands one past that character. */
  lemma HexField(L: string, i: nat, d: string, sep: char, m: nat)
    requires m > 0 && FieldAt(L, i, d, sep) && AllHex(d) && HexValue(d) < m && !IsHexDigit(sep)
    ensures HexScanValue(L, i, m) == HexValue(d) && HexScanNext(L, i) == i + |d| + 1
  {
    assert L[i..i + |d|] == d;
    HexScanOf(L, i, d, m);
  }

  /** A decimal field ended by a non-digit reads back. */
  lemma DecField(L: string, i: nat, d: string, sep: char)
    requires FieldAt(L, i, d, sep) && AllDec(d) && d != [] && DecValue(d) < TWO64 && !IsDecDigit(sep)
    ensures StrToULL(L, i) == DecValue(d)
  {
    assert L[i..i + |d|] == d;
    StrToULLOf(L, i, d);
  }

  /** Where the fields of an entry sit in its line: `F` is the field text
      `A-B P C D:E G`, and `p1` .. `p6` are the columns of `B` .. `G`. */
  lemma FieldsLayout(L: string, F: string, A: string, B: string, P: string, C: string, D: string, E: string,
                     G: string, p1: nat, p2: nat, p3: nat, p4: nat, p5: nat, p6: nat)
    requires F == A + "-" + B + " " + P + " " + C + " " + D + ":" + E + " " + G
    requires |L| > |F| && L[..|F| + 1] == F + " "
    requires p1 == |A| + 1 && p2 == p1 + |B| + 1 && p3 == p2 + |P| + 1
    requires p4 == p3 + |C| + 1 && p5 == p4 + |D| + 1 && p6 == p5 + |E| + 1
    ensures FieldAt(L, 0, A, '-') && FieldAt(L, p1, B, ' ') && FieldAt(L, p2, P, ' ')
    ensures FieldAt(L, p3, C, ' ') && FieldAt(L, p4, D, ':') && FieldAt(L, p5, E, ' ') && FieldAt(L, p6, G, ' ')
  {
    var H := A + "-" + B + " " + P + " ";
    TailLayout(L, H + C + " " + D + ":" + E + " " + G + " ", H, C, D, E, G, p3, p4, p5, p6);
    HeadLayout(L, H, A, B, P, p1, p2);
  }

  /** The bounds and the permission column of a line beginning `H`,
      which is `A-B P `. */
  lemma HeadLayout(L: string, H: string, A: string, B: string, P: string, p1: nat, p2: nat)
    requires H == A + "-" + B + " " + P + " " && |H| <= |L| && L[..|H|] == H
    requires p1 == |A| + 1 && p2 == p1 + |B| + 1
    ensures FieldAt(L, 0, A, '-') && FieldAt(L, p1, B, ' ') && FieldAt(L, p2, P, ' ')
  {
    LastField(L, A + "-" + B + " ", p2, P, ' ');
    LastField(L, A + "-", p1, B, ' ');
    LastField(L, [], 0, A, '-');
  }

  /** The offset, the device numbers and the inode of a line beginning
      `T`, which is `X C D:E G ` with `p3` .. `p6` their columns. */
  lemma TailLayout(L: string, T: string, X: string, C: string, D: string, E: string, G: string,
                   p3: nat, p4: nat, p5: nat, p6: nat)
    requires T == X + C + " " + D + ":" + E + " " + G + " " && |T| <= |L| && L[..|T|] == T
    requires p3 == |X| && p4 == p3 + |C| + 1 && p5 == p4 + |D| + 1 && p6 == p5 + |E| + 1
    ensures L[..|X|] == X
    ensures FieldAt(L, p3, C, ' ') && FieldAt(L, p4, D, ':') && FieldAt(L, p5, E, ' ') && FieldAt(L, p6, G, ' ')
  {
    LastField(L, X + C + " " + D + ":" + E + " ", p6, G, ' ');
    LastField(L, X + C + " " + D + ":", p5, E, ' ');
    LastField(L, X + C + " ", p4, D, ':');
    LastField(L, X, p3, C, ' ');
  }

  /** Each field of an entry's line scans back to the entry's value. */
  lemma EntryScan(e: VmaEntry, L: string)
    requires Representable(e)
    requires |L| > |FormatFields(e)| && L[..|FormatFields(e)| + 1] == FormatFields(e) + " "
    ensures ScanBounds(L) == Bounds(e.vmaStart, e.vmaEnd, ScanBounds(L).next)
    ensures PermFlags(L, ScanBounds(L).next) == e.vmaFlags
    ensures ScanEntry(L, ScanBounds(L), e.vmaFlags) == e.(name := NameAt(L))
  {
    var A := FormatHexPadded(e.vmaStart, 8);
    var B := FormatHexPadded(e.vmaEnd, 8);
    var P := PermChars(e.vmaFlags);
    var C := FormatHexPadded(e.vmaOffset, 8);
    var D := FormatHexPadded(e.devMajor, 2);
    var E := FormatHexPadded(e.devMinor, 2);
    var G := FormatDec(e.inode);
    PaddedHexRoundTrip(e.vmaStart, 8);
    PaddedHexRoundTrip(e.vmaEnd, 8);
    PaddedHexRoundTrip(e.vmaOffset, 8);
    PaddedHexRoundTrip(e.devMajor, 2);
    PaddedHexRoundTrip(e.devMinor, 2);
    DecRoundTrip(e.inode);
    var p1 := |A| + 1;
    var p2 := p1 + |B| + 1;
    var p3 := p2 + |P| + 1;
    var p4 := p3 + |C| + 1;
    var p5 := p4 + |D| + 1;
    var p6 := p5 + |E| + 1;
    FieldsLayout(L, FormatFields(e), A, B, P, C, D, E, G, p1, p2, p3, p4, p5, p6);
    FieldsScan(L, A, B, e.vmaFlags, C, D, E, G, p1, p2, p3, p4, p5, p6);
  }

  /** A line whose fields sit where get_line prints them scans back to
      their values. */
  lemma {:induction false} FieldsScan(L: string, A: string, B: string, flags: u32, C: string, D: string, E: string, G: string,
                   p1: nat, p2: nat, p3: nat, p4: nat, p5: nat, p6: nat)
    requires AllHex(A) && AllHex(B) && AllHex(C) && AllHex(D) && AllHex(E) && AllDec(G) && G != []
    requires HexValue(A) < TWO64 && HexValue(B) < TWO64 && HexValue(C) < TWO64
    requires HexValue(D) < TWO32 && HexValue(E) < TWO32 && DecValue(G) < TWO64 && flags <= 0x0f
    requires p1 == |A| + 1 && p2 == p1 + |B| + 1 && p3 == p2 + 5
    requires p4 == p3 + |C| + 1 && p5 == p4 + |D| + 1 && p6 == p5 + |E| + 1
    requires FieldAt(L, 0, A, '-') && FieldAt(L, p1, B, ' ') && FieldAt(L, p2, PermChars(flags), ' ')
    requires FieldAt(L, p3, C, ' ') && FieldAt(L, p4, D, ':') && FieldAt(L, p5, E, ' ') && FieldAt(L, p6, G, ' ')
    ensures ScanBounds(L) == Bounds(HexValue(A), HexValue(B), p2)
    ensures PermFlags(L, ScanBounds(L).next) == flags
    ensures ScanEntry(L, ScanBounds(L), flags) ==
      VmaEntry(HexValue(A), HexValue(B), flags, HexValue(C), HexValue(D), HexValue(E), DecValue(G), NameAt(L))
  {
    BoundsScan(L, A, B, p1, p2);
    PermRoundTrip(flags, L, p2);
    TailFields(L, C, D, E, G, p3, p4, p5, p6);
    EntryOfScans(L, ScanBounds(L), flags, p3, p4, p5, p6, HexValue(C), HexValue(D), HexValue(E), DecValue(G));
  }

  /** The two bounds, hex fields ended by `-` and a space. */
  lemma BoundsScan(L: string, A: string, B: string, p1: nat, p2: nat)
    requires AllHex(A) && AllHex(B) && HexValue(A) < TWO64 && HexValue(B) < TWO64
    requires p1 == |A| + 1 && p2 == p1 + |B| + 1
    requires FieldAt(L, 0, A, '-') && FieldAt(L, p1, B, ' ')
    ensures ScanBounds(L) == Bounds(HexValue(A), HexValue(B), p2)
  {
    HexField(L, 0, A, '-', TWO64);
    HexField(L, p1, B, ' ', TWO64);
  }

  /** The four fields after the permission column, one at a time. */
  lemma TailFields(L: string, C: string, D: string, E: string, G: string, p3: nat, p4: nat, p5: nat, p6: nat)
    requires AllHex(C) && AllHex(D) && AllHex(E) && AllDec(G) && G != []
    requires HexValue(C) < TWO64 && HexValue(D) < TWO32 && HexValue(E) < TWO32 && DecValue(G) < TWO64
    requires p4 == p3 + |C| + 1 && p5 == p4 + |D| + 1 && p6 == p5 + |E| + 1
    requires FieldAt(L, p3, C, ' ') && FieldAt(L, p4, D, ':') && FieldAt(L, p5, E, ' ') && FieldAt(L, p6, G, ' ')
    ensures HexScanValue(L, p3, TWO64) == HexValue(C) && HexScanNext(L, p3) == p4
    ensures HexScanValue(L, p4, TWO32) == HexValue(D) && HexScanNext(L, p4) == p5
    ensures HexScanValue(L, p5, TWO32) == HexValue(E) && HexScanNext(L, p5) == p6
    ensures StrToULL(L, p6) == DecValue(G)
  {
    HexField(L, p3, C, ' ', TWO64);
    HexField(L, p4, D, ':', TWO32);
    HexField(L, p5, E, ' ', TWO32);
    DecField(L, p6, G, ' ');
  }

  /** ScanEntry reads what the scans at its columns read. */
  lemma EntryOfScans(L: string, b: Bounds, flags: u32, p3: nat, p4: nat, p5: nat, p6: nat,
                     vC: nat, vD: nat, vE: nat, vG: nat)
    requires p3 == b.next + 5
    requires HexScanValue(L, p3, TWO64) == vC && HexScanNext(L, p3) == p4
    requires HexScanValue(L, p4, TWO32) == vD && HexScanNext(L, p4) == p5
    requires HexScanValue(L, p5, TWO32) == vE && HexScanNext(L, p5) == p6
    requires StrToULL(L, p6) == vG
    ensures ScanEntry(L, b, flags) == VmaEntry(b.start, b.end, flags, vC, vD, vE, vG, NameAt(L))
  {
  }

  /** The permission column printed for four-bit flags reads back as
      those flags. */
  lemma PermRoundTrip(flags: u32, L: string, c: nat)
    requires flags <= 0x0f && FieldAt(L, c, PermChars(flags), ' ')
    ensures PermFlags(L, c) == flags
  {
    assert CharAt(L, c) == PermChars(flags)[0];
    assert CharAt(L, c + 1) == PermChars(flags)[1];
    assert CharAt(L, c + 2) == PermChars(flags)[2];
    assert CharAt(L, c + 3) == PermChars(flags)[3];
    FlagBits(flags);
  }

  /** Four-bit flags are the sum of their bits. */
  lemma FlagBits(f: u32)
    requires f <= 0x0f
    ensures f == (if HasBit(f, VMA_READ) then 1 else 0) + (if HasBit(f, VMA_WRITE) then 2 else 0) +
                 (if HasBit(f, VMA_EXEC) then 4 else 0) + (if HasBit(f, VMA_SHARED) then 8 else 0)
  {
    var x := f as bv32;
    assert x == (x & 1) | (x & 2) | (x & 4) | (x & 8);
    assert ((x & 1) | (x & 2) | (x & 4) | (x & 8)) as int ==
      (x & 1) as int + (x & 2) as int + (x & 4) as int + (x & 8) as int;
    assert (x & 1) as int == if HasBit(f, VMA_READ) then 1 else 0;
    assert (x & 2) as int == if HasBit(f, VMA_WRITE) then 2 else 0;
    assert (x & 4) as int == if HasBit(f, VMA_EXEC) then 4 else 0;
    assert (x & 8) as int == if HasBit(f, VMA_SHARED) then 8 else 0;
  }
}
