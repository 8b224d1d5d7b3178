/** The memory-mapping record of app/src/main/cpp/maps_parser.h and its
    serialiser `VmaEntry::get_line`, which prints it back in the
    `/proc/[pid]/maps` text format of proc(5). Pointers are 64 bits wide
    (an LP64 build). */
module MapsEntry {
  import opened Base
  import opened Numerals

  const VMA_READ: u32 := 0x01
  const VMA_WRITE: u32 := 0x02
  const VMA_EXEC: u32 := 0x04
  const VMA_SHARED: u32 := 0x08
  const VMA_ALL_FLAGS: u32 := Or32(Or32(Or32(VMA_READ, VMA_WRITE), VMA_EXEC), VMA_SHARED)

  const VMA_QUERY_FILE_BACKED: u32 := 0x20
  const VMA_ALL_QUERY_FLAGS: u32 := Or32(VMA_ALL_FLAGS, VMA_QUERY_FILE_BACKED)

  /** The four permission bits make 0x0f, and with the file-backed query
      bit 0x2f. */
  lemma FlagConstants()
    ensures VMA_ALL_FLAGS == 0x0f && VMA_ALL_QUERY_FLAGS == 0x2f
  {
    assert (1 as bv32 | 2 as bv32 | 4 as bv32 | 8 as bv32) == 0x0f;
    assert (0x0f as bv32 | 0x20 as bv32) == 0x2f;
  }

  /** kNameOffset<T> = 25 + 6 * sizeof(T): the column a mapping's name
      starts at, for 8-byte and for 4-byte addresses. */
  const NAME_OFFSET_64: nat := 25 + 6 * 8
  const NAME_OFFSET_32: nat := 25 + 6 * 4
  const PATH_MAX: nat := 4096
  /** get_line's buffer: the name column, a path and a terminator. */
  const LINE_BUFFER_SIZE: nat := NAME_OFFSET_64 + PATH_MAX + 1

  datatype VmaEntry = VmaEntry(
    vmaStart: u64,
    vmaEnd: u64,
    vmaFlags: u32,
    vmaOffset: u64,
    devMajor: u32,
    devMinor: u32,
    inode: u64,
    name: string)

  /** The "rwxp" column: a letter for each permission held, '-' for each
      missing, and 's' or 'p' for shared or private. */
  function PermChars(flags: u32): (s: string)
    ensures |s| == 4
  {
    [if HasBit(flags, VMA_READ) then 'r' else '-',
     if HasBit(flags, VMA_WRITE) then 'w' else '-',
     if HasBit(flags, VMA_EXEC) then 'x' else '-',
     if HasBit(flags, VMA_SHARED) then 's' else 'p']
  }

  /** What `"%08lx-%08lx %c%c%c%c %08llx %02x:%02x %llu"` prints. */
  function FormatFields(e: VmaEntry): string
  {
    FormatHexPadded(e.vmaStart, 8) + "-" + FormatHexPadded(e.vmaEnd, 8) + " " +
    PermChars(e.vmaFlags) + " " + FormatHexPadded(e.vmaOffset, 8) + " " +
    FormatHexPadded(e.devMajor, 2) + ":" + FormatHexPadded(e.devMinor, 2) + " " +
    FormatDec(e.inode)
  }

  function Spaces(n: nat): (s: string)
    ensures |s| == n
  {
    if n == 0 then [] else Spaces(n - 1) + [' ']
  }

  /** The most of a name the buffer holds after the name column. */
  const NAME_ROOM: nat := LINE_BUFFER_SIZE - 1 - NAME_OFFSET_64

  /** Text as far as snprintf keeps it in a buffer ending at the name
      column: at most NAME_OFFSET_64 - 1 characters. */
  function Clip(fields: string): (p: string)
    ensures |p| < NAME_OFFSET_64
  {
    if |fields| < NAME_OFFSET_64 then fields else fields[..NAME_OFFSET_64 - 1]
  }

  /** What follows the fields: for an unnamed mapping a single space,
      otherwise spaces up to the name column and the name, cut to the
      room left in the buffer. */
  function WithName(prefix: string, name: string): string
    requires |prefix| < NAME_OFFSET_64
  {
    if name == [] then prefix + " "
    else prefix + Spaces(NAME_OFFSET_64 - |prefix|) + name[..Min(|name|, NAME_ROOM)]
  }

  /** The line get_line produces. */
  function LineText(e: VmaEntry): string
  {
    WithName(Clip(FormatFields(e)), e.name)
  }

  /** get_line, with the length of the formatted fields taken as what
      snprintf wrote rather than what it would have written. */
  method GetLine(e: VmaEntry) returns (line: string)
    ensures line == LineText(e)
  {
    line := FormatLine(FormatFields(e), e.name);
  }

  method FormatLine(fields: string, name: string) returns (line: string)
    ensures line == WithName(Clip(fields), name)
  {
    var buf := new char[LINE_BUFFER_SIZE];
    var size := Snprintf(buf, fields, NAME_OFFSET_64);
    size := Min(size, NAME_OFFSET_64 - 1);
    line := AppendName(buf, size, name);
  }

  /** The rest of get_line once the fields end at `size`, before the name
      column. */
  method AppendName(buf: array<char>, size: nat, name: string) returns (line: string)
    requires buf.Length == LINE_BUFFER_SIZE && size < NAME_OFFSET_64
    modifies buf
    ensures line == WithName(old(buf[..size]), name)
  {
    ghost var prefix := buf[..size];
    buf[size] := ' ';
    if name == [] {
      buf[size + 1] := '\0';
      line := buf[..size + 1];
      assert line == buf[..size] + [buf[size]];
    } else {
      FillSpaces(buf, size, NAME_OFFSET_64);
      ghost var padded := buf[..NAME_OFFSET_64];
      assert padded == prefix + Spaces(NAME_OFFSET_64 - size) by {
        assert padded == buf[..size] + buf[size..NAME_OFFSET_64];
      }
      var prefixSize := Max(size + 1, NAME_OFFSET_64);
      var nameSize := Min(|name|, buf.Length - 1 - prefixSize);
      CopyInto(buf, prefixSize, name[..nameSize]);
      buf[prefixSize + nameSize] := '\0';
      line := buf[..prefixSize + nameSize];
      assert line == buf[..prefixSize] + buf[prefixSize..prefixSize + nameSize];
    }
  }

  /** snprintf(buf, n, ...) of the text `s`: at most n - 1 characters and
      a terminator are written; the result is the full length of `s`. */
  method Snprintf(buf: array<char>, s: string, n: nat) returns (size: nat)
    requires 0 < n <= buf.Length
    modifies buf
    ensures size == |s|
    ensures buf[..Min(|s|, n - 1)] == s[..Min(|s|, n - 1)] && buf[Min(|s|, n - 1)] == '\0'
    ensures buf[n..] == old(buf[n..])
  {
    var k := Min(|s|, n - 1);
    forall i | 0 <= i < k {
      buf[i] := s[i];
    }
    buf[k] := '\0';
    size := |s|;
  }

  /** memset(&buf[from], ' ', to - from). */
  method FillSpaces(buf: array<char>, from: nat, to: nat)
    requires from <= to <= buf.Length
    modifies buf
    ensures buf[..from] == old(buf[..from]) && buf[from..to] == Spaces(to - from)
    ensures buf[to..] == old(buf[to..])
  {
    forall i | from <= i < to {
      buf[i] := ' ';
    }
    SpacesAll(to - from);
  }

  lemma {:induction false} SpacesAll(n: nat)
    ensures forall i :: 0 <= i < n ==> Spaces(n)[i] == ' '
  {
    if n > 0 {
      SpacesAll(n - 1);
    }
  }

  /** memcpy(&buf[at], s, |s|). */
  method CopyInto(buf: array<char>, at: nat, s: string)
    requires at + |s| <= buf.Length
    modifies buf
    ensures buf[..at] == old(buf[..at]) && buf[at..at + |s|] == s
  {
    forall i | 0 <= i < |s| {
      buf[at + i] := s[i];
    }
  }

  /** get_line as written: the length snprintf returns is used as the
      end of the fields even when the fields were cut short, so a line
      whose fields reach the name column carries snprintf's '\0' at
      column 72 and whatever the buffer held beyond it. */
  method GetLineAsWritten(e: VmaEntry) returns (line: string)
    ensures |FormatFields(e)| < NAME_OFFSET_64 ==> line == LineText(e)
    ensures |FormatFields(e)| >= NAME_OFFSET_64 ==> |line| > NAME_OFFSET_64 - 1 && line[NAME_OFFSET_64 - 1] == '\0'
  {
    FormatFieldsLength(e);
    line := FormatLineAsWritten(FormatFields(e), e.name);
  }

  method FormatLineAsWritten(fields: string, name: string) returns (line: string)
    requires |fields| < LINE_BUFFER_SIZE - 1
    ensures |fields| < NAME_OFFSET_64 ==> line == WithName(Clip(fields), name)
    ensures |fields| >= NAME_OFFSET_64 ==> |line| > NAME_OFFSET_64 - 1 && line[NAME_OFFSET_64 - 1] == '\0'
  {
    var buf := new char[LINE_BUFFER_SIZE];
    var size := Snprintf(buf, fields, NAME_OFFSET_64);
    if size < NAME_OFFSET_64 {
      line := AppendName(buf, size, name);
      return;
    }
    assert buf[NAME_OFFSET_64 - 1] == '\0';
    buf[size] := ' ';
    if name == [] {
      size := size + 1;
      buf[size] := '\0';
    } else {
      var prefixSize := Max(size + 1, NAME_OFFSET_64);
      var nameSize := Min(|name|, buf.Length - 1 - prefixSize);
      CopyInto(buf, prefixSize, name[..nameSize]);
      size := prefixSize + nameSize;
      buf[size] := '\0';
    }
    line := buf[..size];
  }

  /** The fields are never longer than every field at its widest. */
  lemma FormatFieldsLength(e: VmaEntry)
    ensures |FormatFields(e)| < LINE_BUFFER_SIZE - 1
  {
    HexWidth64(e.vmaStart);
    HexWidth64(e.vmaEnd);
    HexWidth64(e.vmaOffset);
    HexWidth32(e.devMajor);
    HexWidth32(e.devMinor);
    DecWidth64(e.inode);
  }

  /** An entry whose fields do not fit before the name column: every
      number at its widest. */
  lemma WideFieldsExist()
    ensures var e := VmaEntry(TWO64 - 1, TWO64 - 1, 0, TWO64 - 1, TWO32 - 1, TWO32 - 1, TWO64 - 1, "");
      |FormatFields(e)| >= NAME_OFFSET_64
  {
    PowFacts();
    FormatHexLength(TWO64 - 1, 15);
    FormatHexLength(TWO32 - 1, 7);
    FormatDecLength(TWO64 - 1, 19);
  }
}
