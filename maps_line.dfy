/** Parsing one `/proc/[pid]/maps` text line (proc(5)) the way
    MapsParser::NextEntry does in app/src/main/cpp/maps_parser.cc. The
    byte at the line's end is the reader's terminating '\0'; the bytes
    after it, which the code reads only on a line that ends before its
    fields do, are taken to be '\0' as well. */
module MapsLine {
  import opened Base
  import opened Numerals
  import opened MapsEntry

  /** What a line makes the text path do: end the iteration, go on to
      the next line, or return an entry. */
  datatype LineVerdict = Stop | Skip | Found(entry: VmaEntry)

  /** The two addresses at the head of a line and the cursor after them. */
  datatype Bounds = Bounds(start: u64, end: u64, next: nat)

  /** The permission bits named by the four characters at `c`; the bits
      are distinct, so or-ing them is adding them. */
  function PermFlags(line: string, c: nat): (flags: u32)
    ensures flags <= 0x0f
  {
    (if CharAt(line, c) == 'r' then VMA_READ else 0) +
    (if CharAt(line, c + 1) == 'w' then VMA_WRITE else 0) +
    (if CharAt(line, c + 2) == 'x' then VMA_EXEC else 0) +
    (if CharAt(line, c + 3) == 's' then VMA_SHARED else 0)
  }

  /** The name column of an LP64 line: everything from column 73 when the
      line is longer than that, otherwise nothing. */
  function NameAt(line: string): string
  {
    if |line| > NAME_OFFSET_64 then line[NAME_OFFSET_64..] else []
  }

  /** The requested filter bits of a parser's query flags. */
  function Filter(queryFlags: u32): u32
  {
    And32(queryFlags, VMA_ALL_QUERY_FLAGS)
  }

  function ScanBounds(line: string): Bounds
  {
    var c1 := HexScanNext(line, 0);
    Bounds(HexScanValue(line, 0, TWO64), HexScanValue(line, c1, TWO64), HexScanNext(line, c1))
  }

  /** The fields after the permissions, from the cursor past them. */
  function ScanEntry(line: string, b: Bounds, flags: u32): VmaEntry
  {
    var c2 := b.next + 5;
    var c3 := HexScanNext(line, c2);
    var c4 := HexScanNext(line, c3);
    VmaEntry(b.start, b.end, flags, HexScanValue(line, c2, TWO64), HexScanValue(line, c3, TWO32),
             HexScanValue(line, c4, TWO32), StrToULL(line, HexScanNext(line, c4)), NameAt(line))
  }

  predicate IsPath(name: string)
  {
    name != [] && name[0] == '/'
  }

  /** The text path's treatment of one line: an empty line or a zero
      address ends the iteration; a line the filter rejects is skipped. */
  function ParseLine(line: string, queryFlags: u32): LineVerdict
  {
    if line == [] then Stop else CheckBounds(line, ScanBounds(line), Filter(queryFlags))
  }

  function CheckBounds(line: string, b: Bounds, filter: u32): LineVerdict
  {
    if b.start == 0 || b.end == 0 then Stop else CheckPermissions(line, b, PermFlags(line, b.next), filter)
  }

  /** With a filter, the permissions must be exactly the filter's. */
  function CheckPermissions(line: string, b: Bounds, flags: u32, filter: u32): LineVerdict
  {
    if filter != 0 && And32(filter, VMA_ALL_FLAGS) != flags then Skip
    else CheckName(ScanEntry(line, b, flags), filter)
  }

  /** With the file-backed bit, the name must be a path. */
  function CheckName(e: VmaEntry, filter: u32): LineVerdict
  {
    if HasBit(filter, VMA_QUERY_FILE_BACKED) && !IsPath(e.name) then Skip else Found(e)
  }

  /** An entry the text path returns has non-zero bounds, only the four
      permission bits, the line's name column as its name, and passes the
      filter: with a filter its permissions are exactly the filter's, and
      with the file-backed bit its name is a path. */
  lemma ParseLineFound(line: string, queryFlags: u32)
    requires ParseLine(line, queryFlags).Found?
    ensures Passes(ParseLine(line, queryFlags).entry, queryFlags)
    ensures ParseLine(line, queryFlags).entry.name == NameAt(line)
  {
  }

  /** What an entry the text accepts satisfies: non-zero bounds, only the
      permission bits, exactly the filter's permissions when a filter is
      set, and a path name when the file-backed bit is set. */
  predicate Passes(e: VmaEntry, queryFlags: u32)
  {
    e.vmaStart != 0 && e.vmaEnd != 0 && e.vmaFlags <= 0x0f &&
    (Filter(queryFlags) != 0 ==> e.vmaFlags == And32(Filter(queryFlags), VMA_ALL_FLAGS)) &&
    (HasBit(Filter(queryFlags), VMA_QUERY_FILE_BACKED) ==> IsPath(e.name))
  }

  /** Without a filter no line is skipped. */
  lemma NoFilterNoSkip(line: string)
    ensures !ParseLine(line, 0).Skip?
  {
    AndZero(VMA_ALL_QUERY_FLAGS);
    AndZero(VMA_QUERY_FILE_BACKED);
  }

  lemma AndZero(x: u32)
    ensures And32(0, x) == 0
  {
    assert (0 as bv32) & (x as bv32) == 0;
  }

  /** FastParseHex: read lowercase hex digits from `i`, accumulating in
      an unsigned integer of modulus `m`, and leave the cursor one past
      the character that stopped the scan. */
  method FastParseHex(line: string, i: nat, m: nat) returns (value: nat, next: nat)
    requires m > 0
    ensures value == HexScanValue(line, i, m) && next == HexScanNext(line, i)
  {
    if i > |line| {
      return 0, i + 1;
    }
    value := 0;
    var s := i;
    while s < |line| && IsHexDigit(line[s])
      invariant i <= s <= i + HexRun(line, i) && HexRun(line, i) == (s - i) + HexRun(line, s)
      invariant value < m && HexScanFrom(line, s, value, m) == HexScanValue(line, i, m)
      decreases |line| - s
    {
      value := ShiftIn(value, HexDigitValue(line[s]), m);
      s := s + 1;
    }
    next := s + 1;
  }

  method ScanBoundsOf(line: string) returns (b: Bounds)
    ensures b == ScanBounds(line)
  {
    var start, c1 := FastParseHex(line, 0, TWO64);
    var end, c2 := FastParseHex(line, c1, TWO64);
    b := Bounds(start, end, c2);
  }

  method ScanEntryOf(line: string, b: Bounds, flags: u32) returns (e: VmaEntry)
    ensures e == ScanEntry(line, b, flags)
  {
    var current := b.next + 5;
    var offset, c3 := FastParseHex(line, current, TWO64);
    var major, c4 := FastParseHex(line, c3, TWO32);
    var minor, c5 := FastParseHex(line, c4, TWO32);
    var inode := StrToULL(line, c5);
    var name := if |line| > NAME_OFFSET_64 then line[NAME_OFFSET_64..] else [];
    e := VmaEntry(b.start, b.end, flags, offset, major, minor, inode, name);
  }

  /** The per-line body of the text path's loop. */
  method ParseTextLine(line: string, queryFlags: u32) returns (verdict: LineVerdict)
    ensures verdict == ParseLine(line, queryFlags)
  {
    if |line| == 0 {
      return Stop;
    }
    var b := ScanBoundsOf(line);
    var filter := And32(queryFlags, VMA_ALL_QUERY_FLAGS);
    assert ParseLine(line, queryFlags) == CheckBounds(line, b, filter);
    if b.start == 0 || b.end == 0 {
      return Stop;
    }
    var flags := ReadPermissions(line, b.next);
    assert ParseLine(line, queryFlags) == CheckPermissions(line, b, flags, filter);
    if filter != 0 && And32(filter, VMA_ALL_FLAGS) != flags {
      return Skip;
    }
    var e := ScanEntryOf(line, b, flags);
    assert ParseLine(line, queryFlags) == CheckName(e, filter);
    if HasBit(filter, VMA_QUERY_FILE_BACKED) && (e.name == [] || e.name[0] != '/') {
      return Skip;
    }
    verdict := Found(e);
  }

  /** The four `if (current[k] == ...) vma_flags |= ...` tests. */
  method ReadPermissions(line: string, c: nat) returns (flags: u32)
    ensures flags == PermFlags(line, c)
  {
    flags := 0;
    if CharAt(line, c) == 'r' { flags := flags + VMA_READ; }
    if CharAt(line, c + 1) == 'w' { flags := flags + VMA_WRITE; }
    if CharAt(line, c + 2) == 'x' { flags := flags + VMA_EXEC; }
    if CharAt(line, c + 3) == 's' { flags := flags + VMA_SHARED; }
  }
}
