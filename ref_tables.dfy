/** Locating ART's table of JNI global references when the runtime's own
    root visitor is not available: CollectIndirectRefTables,
    FindGlobalRefTable and the fallback loop of VisitJNIGlobalReferences
    (app/src/main/cpp/main.cc), and the maps-column parse and 512-word
    scan of the older JNI_OnLoad (app/src/main/cpp/disable_lsposed.cc). */
module RefTables {
  import opened Base
  import opened ArtMemory
  import Numerals
  import MapsEntry

  /** The name the kernel shows for the runtime's reference tables. */
  const TARGET_NAME: string := "[anon:dalvik-indirect ref table]"

  /** `IndirectRefKind::kGlobal`. */
  const GLOBAL_KIND: nat := 2

  /** The largest plausible table size or capacity. */
  const MAX_REFS: nat := 1_000_000

  /** How many pointer-sized words after the JavaVM each engine tries. */
  const MAIN_SCAN_WORDS: nat := 256
  const LEGACY_SCAN_WORDS: nat := 512

  // ---------------------------------------------------------------
  // CollectIndirectRefTables

  /** Start address to end address of each reference-table mapping. */
  type Tables = map<nat, nat>

  /** The map after the first `n` read-write mappings: `emplace` of each
      matching one, which keeps the first end recorded for a start. */
  function Collect(entries: seq<MapsEntry.VmaEntry>, n: nat): (t: Tables)
    requires n <= |entries|
  {
    if n == 0 then map[]
    else
      var prev := Collect(entries, n - 1);
      var e := entries[n - 1];
      if e.name != TARGET_NAME || e.vmaStart in prev then prev else prev[e.vmaStart := e.vmaEnd]
  }

  /** A start is recorded iff some mapping with the target name starts
      there. */
  lemma {:induction false} CollectKeys(entries: seq<MapsEntry.VmaEntry>, n: nat, a: nat)
    requires n <= |entries|
    ensures a in Collect(entries, n) <==> exists i :: 0 <= i < n && entries[i].name == TARGET_NAME && entries[i].vmaStart == a
  {
    if n > 0 {
      CollectKeys(entries, n - 1, a);
    }
  }

  /** The end recorded for a start is that of the first mapping with the
      target name that starts there. */
  lemma {:induction false} CollectFirst(entries: seq<MapsEntry.VmaEntry>, n: nat, i: nat)
    requires i < n <= |entries| && entries[i].name == TARGET_NAME
    requires forall j :: 0 <= j < i ==> !(entries[j].name == TARGET_NAME && entries[j].vmaStart == entries[i].vmaStart)
    ensures entries[i].vmaStart in Collect(entries, n)
    ensures Collect(entries, n)[entries[i].vmaStart] == entries[i].vmaEnd
  {
    if n - 1 == i {
      CollectKeys(entries, i, entries[i].vmaStart);
    } else {
      CollectFirst(entries, n - 1, i);
    }
  }

  /** CollectIndirectRefTables over what the maps parser yields for the
      read-write filter. */
  method CollectIndirectRefTables(entries: seq<MapsEntry.VmaEntry>) returns (tables: Tables)
    ensures tables == Collect(entries, |entries|)
  {
    tables := map[];
    for k := 0 to |entries|
      invariant tables == Collect(entries, k)
    {
      var e := entries[k];
      if e.name == TARGET_NAME && e.vmaStart !in tables {
        tables := tables[e.vmaStart := e.vmaEnd];
      }
    }
  }

  // ---------------------------------------------------------------
  // FindGlobalRefTable

  /** `mem[i]`, where `mem` is the `uintptr_t` array at `base`. */
  function MemWord(m: Words, base: int, arch: Arch, i: nat): nat
  {
    Ptr(m, base + PtrSize(arch) * i, arch)
  }

  /** Whether `addr` lies inside one of the half-open ranges. */
  predicate InSomeTable(tables: Tables, addr: nat)
  {
    exists start :: start in tables && start <= addr < tables[start]
  }

  /** The checks at `i`: a global-kind word after a pointer into a
      reference table, plausible size and capacity words, and neither the
      pointer nor the size zero. */
  predicate GlobalTableAt(m: Words, tables: Tables, base: int, arch: Arch, i: nat)
  {
    MemWord(m, base, arch, i + 1) == GLOBAL_KIND &&
    MemWord(m, base, arch, i + 2) <= MAX_REFS &&
    MemWord(m, base, arch, i + 3) <= MAX_REFS &&
    InSomeTable(tables, MemWord(m, base, arch, i)) &&
    MemWord(m, base, arch, i) != 0 && MemWord(m, base, arch, i + 2) != 0
  }

  function FirstGlobalTable(m: Words, tables: Tables, base: int, arch: Arch, i: nat): (r: Option<nat>)
    requires i <= MAIN_SCAN_WORDS
    ensures r.Some? ==> i <= r.value < MAIN_SCAN_WORDS && GlobalTableAt(m, tables, base, arch, r.value)
    ensures r.Some? ==> forall j :: i <= j < r.value ==> !GlobalTableAt(m, tables, base, arch, j)
    ensures r.None? ==> forall j :: i <= j < MAIN_SCAN_WORDS ==> !GlobalTableAt(m, tables, base, arch, j)
    decreases MAIN_SCAN_WORDS - i
  {
    if i == MAIN_SCAN_WORDS then None
    else if GlobalTableAt(m, tables, base, arch, i) then Some(i)
    else FirstGlobalTable(m, tables, base, arch, i + 1)
  }

  /** The words after the JavaVM structure at `vm`, which holds just its
      function-table pointer. */
  function AfterVm(vm: nat, arch: Arch): nat
  {
    vm + PtrSize(arch)
  }

  /** The table address and length described at index `i`, if any. */
  function Described(m: Words, base: int, arch: Arch, i: Option<nat>): Option<(nat, nat)>
  {
    match i
    case None => None
    case Some(i) => Some((MemWord(m, base, arch, i), MemWord(m, base, arch, i + 2)))
  }

  /** FindGlobalRefTable: the table address and its length. */
  function FindGlobalRefTable(m: Words, tables: Tables, vm: nat, arch: Arch): (r: Option<(nat, nat)>)
    ensures tables == map[] ==> r.None?
    ensures r.Some? ==> r.value.0 != 0 && 0 < r.value.1 <= MAX_REFS && InSomeTable(tables, r.value.0)
  {
    if tables == map[] then None
    else Described(m, AfterVm(vm, arch), arch, FirstGlobalTable(m, tables, AfterVm(vm, arch), arch, 0))
  }

  /** The table found is the one described at the first index that
      passes every check. */
  lemma FindGlobalRefTableSpec(m: Words, tables: Tables, vm: nat, arch: Arch, i: nat)
    requires tables != map[]
    requires i < MAIN_SCAN_WORDS && GlobalTableAt(m, tables, AfterVm(vm, arch), arch, i)
    requires forall j :: 0 <= j < i ==> !GlobalTableAt(m, tables, AfterVm(vm, arch), arch, j)
    ensures FindGlobalRefTable(m, tables, vm, arch)
         == Some((MemWord(m, AfterVm(vm, arch), arch, i), MemWord(m, AfterVm(vm, arch), arch, i + 2)))
  {
    var r := FirstGlobalTable(m, tables, AfterVm(vm, arch), arch, 0);
    assert r.Some?;
  }

  /** FindGlobalRefTable's `for (i = 0; i < 256; ++i)` loop, up to its
      first hit. */
  method ScanGlobalTable(mem: Memory, tables: Tables, base: int, arch: Arch) returns (i: Option<nat>)
    ensures i == FirstGlobalTable(mem.words, tables, base, arch, 0)
  {
    for k := 0 to MAIN_SCAN_WORDS
      invariant FirstGlobalTable(mem.words, tables, base, arch, k) == FirstGlobalTable(mem.words, tables, base, arch, 0)
    {
      if GlobalTableAt(mem.words, tables, base, arch, k) {
        return Some(k);
      }
    }
    return None;
  }

  /** FindGlobalRefTable, with its early return for no tables. */
  method FindGlobalRefTableLoop(mem: Memory, tables: Tables, vm: nat, arch: Arch) returns (r: Option<(nat, nat)>)
    ensures r == FindGlobalRefTable(mem.words, tables, vm, arch)
  {
    if tables == map[] {
      return None;
    }
    var i := ScanGlobalTable(mem, tables, AfterVm(vm, arch), arch);
    r := Described(mem.words, AfterVm(vm, arch), arch, i);
  }

  /** The `k`-th slot of the table: entries are two 32-bit words and the
      reference is the second. */
  function GlobalRefSlot(table: nat, k: nat): nat
  {
    table + 4 * (k * 2 + 1)
  }

  // ---------------------------------------------------------------
  // `strtoul(line, nullptr, 16)`

  /** Hex digits in either case, as `strtoul` accepts them. */
  predicate IsAnyHexDigit(c: char)
  {
    Numerals.IsHexDigit(c) || ('A' <= c <= 'F')
  }

  function AnyHexDigitValue(c: char): (v: nat)
    requires IsAnyHexDigit(c)
    ensures v < 16
    ensures Numerals.IsHexDigit(c) ==> v == Numerals.HexDigitValue(c)
  {
    if 'A' <= c <= 'F' then c as int - 'A' as int + 10 else Numerals.HexDigitValue(c)
  }

  /** The digits from `i` on, accumulated without bound onto `acc`. */
  function AnyHexFrom(s: string, i: nat, acc: nat): nat
    decreases |s| - i
  {
    if i < |s| && IsAnyHexDigit(s[i]) then AnyHexFrom(s, i + 1, acc * 16 + AnyHexDigitValue(s[i])) else acc
  }

  /** `strtoul(s, nullptr, 16)` for an `unsigned long` of modulus `m`:
      white space, an optional sign, an optional `0x` or `0X` when a digit
      follows it, then digits of either case. A value out of range gives
      the largest value, and a minus sign negates modulo `m`. */
  function StrToUL16(s: string, m: nat): (v: nat)
    requires m > 0
    ensures v < m
  {
    var j := Numerals.SkipSpaces(s, 0);
    var sign := Numerals.CharAt(s, j) == '-' || Numerals.CharAt(s, j) == '+';
    var k := if sign then j + 1 else j;
    var d := if Numerals.CharAt(s, k) == '0' && (Numerals.CharAt(s, k + 1) == 'x' || Numerals.CharAt(s, k + 1) == 'X')
                && IsAnyHexDigit(Numerals.CharAt(s, k + 2)) then k + 2 else k;
    var magnitude := AnyHexFrom(s, d, 0);
    if magnitude >= m then m - 1
    else if Numerals.CharAt(s, j) == '-' then (m - magnitude) % m
    else magnitude
  }

  /** Over lowercase digits the accumulation is the digits' value. */
  lemma {:induction false} AnyHexFromOf(s: string, i: nat, p: seq<char>, d: seq<char>)
    requires Numerals.AllHex(p) && Numerals.AllHex(d) && i + |d| <= |s| && s[i..i + |d|] == d
    requires !IsAnyHexDigit(Numerals.CharAt(s, i + |d|))
    ensures AnyHexFrom(s, i, Numerals.HexValue(p)) == Numerals.HexValue(p + d)
    decreases |d|
  {
    if d == [] {
      assert p + d == p;
    } else {
      assert s[i] == d[0];
      var q := p + [d[0]];
      assert q[..|q| - 1] == p;
      assert s[i + 1..i + 1 + |d[1..]|] == d[1..];
      AnyHexFromOf(s, i + 1, q, d[1..]);
      assert q + d[1..] == p + d;
    }
  }

  /** Text starting with a lowercase digit other than a `0x` prefix is
      read from its first character, with no sign. */
  lemma StrToUL16Plain(s: string, m: nat)
    requires m > 0 && s != [] && Numerals.IsHexDigit(s[0])
    requires Numerals.CharAt(s, 1) != 'x' && Numerals.CharAt(s, 1) != 'X'
    ensures StrToUL16(s, m) == (var v := AnyHexFrom(s, 0, 0); if v >= m then m - 1 else v)
  {
    assert Numerals.SkipSpaces(s, 0) == 0;
    assert Numerals.CharAt(s, 0) == s[0];
  }

  /** A maps line starts with the start address in lowercase hex and a
      `-`; when the value fits, `strtoul` reads it back. */
  lemma StrToUL16OfLine(s: string, d: seq<char>, m: nat)
    requires m > 0 && d != [] && Numerals.AllHex(d) && |d| < |s| && s[..|d|] == d && s[|d|] == '-'
    requires Numerals.HexValue(d) < m
    ensures StrToUL16(s, m) == Numerals.HexValue(d)
  {
    assert s[0] == d[0];
    assert s[0..0 + |d|] == d;
    assert Numerals.CharAt(s, |d|) == '-';
    if |d| > 1 {
      assert s[1] == d[1];
    }
    assert Numerals.CharAt(s, 1) != 'x' && Numerals.CharAt(s, 1) != 'X';
    StrToUL16Plain(s, m);
    AnyHexFromOf(s, 0, [], d);
    assert [] + d == d;
  }

  // ---------------------------------------------------------------
  // The older engine's maps parse and table scan

  /** Where the name column starts for a kernel of the given pointer
      size. */
  function NameOffset(kernelPtrSize: nat): nat
  {
    25 + 6 * kernelPtrSize
  }

  /** A line long enough to have a name column, whose name is the
      reference tables' name. */
  predicate IsTableLine(line: string, offset: nat)
  {
    |line| >= offset && line[offset..] == TARGET_NAME
  }

  /** The set of table starts after the first `n` lines. */
  function TableStarts(lines: seq<string>, offset: nat, m: nat, n: nat): (starts: set<nat>)
    requires m > 0 && n <= |lines|
  {
    if n == 0 then {}
    else
      var prev := TableStarts(lines, offset, m, n - 1);
      if IsTableLine(lines[n - 1], offset) then prev + {StrToUL16(lines[n - 1], m)} else prev
  }

  /** A start is recorded iff some table line reads as it. */
  lemma {:induction false} TableStartsSpec(lines: seq<string>, offset: nat, m: nat, n: nat, a: nat)
    requires m > 0 && n <= |lines|
    ensures a in TableStarts(lines, offset, m, n)
        <==> exists i :: 0 <= i < n && IsTableLine(lines[i], offset) && StrToUL16(lines[i], m) == a
  {
    if n > 0 {
      TableStartsSpec(lines, offset, m, n - 1, a);
    }
  }

  /** The loop over `/proc/self/maps` lines. */
  method LegacyCollectTables(lines: seq<string>, kernelPtrSize: nat, arch: Arch) returns (starts: set<nat>)
    ensures starts == TableStarts(lines, NameOffset(kernelPtrSize), PtrModulus(arch), |lines|)
  {
    var offset := NameOffset(kernelPtrSize);
    starts := {};
    for k := 0 to |lines|
      invariant starts == TableStarts(lines, offset, PtrModulus(arch), k)
    {
      if IsTableLine(lines[k], offset) {
        starts := starts + {StrToUL16(lines[k], PtrModulus(arch))};
      }
    }
  }

  /** The older checks at `i`: a recorded start, the global kind, and a
      plausible capacity; the size word is not checked. */
  predicate LegacyTableAt(m: Words, starts: set<nat>, base: int, arch: Arch, i: nat)
  {
    MemWord(m, base, arch, i) in starts &&
    MemWord(m, base, arch, i + 1) == GLOBAL_KIND &&
    MemWord(m, base, arch, i + 3) <= MAX_REFS
  }

  function FirstLegacyTable(m: Words, starts: set<nat>, base: int, arch: Arch, i: nat): (r: Option<nat>)
    requires i <= LEGACY_SCAN_WORDS
    ensures r.Some? ==> i <= r.value < LEGACY_SCAN_WORDS && LegacyTableAt(m, starts, base, arch, r.value)
    ensures r.Some? ==> forall j :: i <= j < r.value ==> !LegacyTableAt(m, starts, base, arch, j)
    ensures r.None? ==> forall j :: i <= j < LEGACY_SCAN_WORDS ==> !LegacyTableAt(m, starts, base, arch, j)
    decreases LEGACY_SCAN_WORDS - i
  {
    if i == LEGACY_SCAN_WORDS then None
    else if LegacyTableAt(m, starts, base, arch, i) then Some(i)
    else FirstLegacyTable(m, starts, base, arch, i + 1)
  }

  /** The table and count read at the older scan's hit, or None when
      there is none or the table pointer read there is null. */
  function LegacyDescribed(m: Words, base: int, arch: Arch, i: Option<nat>): Option<(nat, nat)>
  {
    match i
    case None => None
    case Some(i) =>
      var table := MemWord(m, base, arch, i);
      if table == 0 then None else Some((table, MemWord(m, base, arch, i + 2)))
  }

  /** The table and count the older scan settles on; None stands for
      the `JNI_ERR` return, which is also taken when the table pointer
      found is null. */
  function LegacyFindTable(m: Words, starts: set<nat>, vm: nat, arch: Arch): (r: Option<(nat, nat)>)
    ensures r.Some? ==> r.value.0 in starts && r.value.0 != 0
    ensures starts == {} ==> r.None?
  {
    LegacyDescribed(m, AfterVm(vm, arch), arch, FirstLegacyTable(m, starts, AfterVm(vm, arch), arch, 0))
  }

  /** The older scan's loop, up to its first hit. */
  method ScanLegacyTable(mem: Memory, starts: set<nat>, base: int, arch: Arch) returns (i: Option<nat>)
    ensures i == FirstLegacyTable(mem.words, starts, base, arch, 0)
  {
    for k := 0 to LEGACY_SCAN_WORDS
      invariant FirstLegacyTable(mem.words, starts, base, arch, k) == FirstLegacyTable(mem.words, starts, base, arch, 0)
    {
      if LegacyTableAt(mem.words, starts, base, arch, k) {
        return Some(k);
      }
    }
    return None;
  }

  /** The older scan: the loop, then the null-table check. */
  method LegacyScanTable(mem: Memory, starts: set<nat>, vm: nat, arch: Arch) returns (r: Option<(nat, nat)>)
    ensures r == LegacyFindTable(mem.words, starts, vm, arch)
  {
    var base := AfterVm(vm, arch);
    var i := ScanLegacyTable(mem, starts, base, arch);
    if i.None? {
      return None;
    }
    var table := MemWord(mem.words, base, arch, i.value);
    if table == 0 {
      return None;
    }
    return Some((table, MemWord(mem.words, base, arch, i.value + 2)));
  }
}
