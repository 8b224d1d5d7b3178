/** The buffered line reader of app/src/main/cpp/file_reader.h.
    The file descriptor's remaining contents and the interruptions its
    `read` calls suffer are part of the reader's state: `file` is what
    the next reads deliver, and each entry of `signals` decides whether
    the next read attempt is interrupted (`true`, the call fails with
    EINTR) or goes through. A read that goes through returns as many
    bytes as fit and remain. */
module FileReader {
  import opened Base

  const EINTR: int := 4

  /** The template default kBufferSize. */
  const DEFAULT_BUFFER_SIZE: nat := 16 * 1024

  // ---------------------------------------------------------------
  // What NextLine returns, as a function of the pending bytes

  /** Index of the first '\n' of `s`, or `|s|` when there is none
      (what memchr finds). */
  function FirstNewline(s: seq<char>): (k: nat)
    ensures k <= |s|
  {
    if s == [] then 0 else if s[0] == '\n' then 0 else 1 + FirstNewline(s[1..])
  }

  lemma {:induction false} FirstNewlineSpec(s: seq<char>)
    ensures forall i :: 0 <= i < FirstNewline(s) ==> s[i] != '\n'
    ensures FirstNewline(s) < |s| ==> s[FirstNewline(s)] == '\n'
  {
    if s != [] && s[0] != '\n' {
      FirstNewlineSpec(s[1..]);
    }
  }

  /** The first newline of a prefix that has one is the first newline of
      the whole. */
  lemma {:induction false} FirstNewlineAppend(a: seq<char>, b: seq<char>)
    ensures FirstNewline(a) < |a| ==> FirstNewline(a + b) == FirstNewline(a)
    ensures FirstNewline(a) == |a| ==> FirstNewline(a + b) == |a| + FirstNewline(b)
  {
    if a != [] {
      assert (a + b)[1..] == a[1..] + b;
      FirstNewlineAppend(a[1..], b);
    } else {
      assert a + b == b;
    }
  }

  /** The line NextLine yields from the pending bytes `p` of a reader
      with a `cap`-byte buffer, and how many bytes it consumes: the
      text up to the first newline if that fits in the buffer, else a
      full buffer's worth, else (at end of input) whatever is left;
      `None` when nothing is left. */
  function NextLineSpec(p: seq<char>, cap: nat): Option<(string, nat)>
    requires cap > 0
  {
    if p == [] then None
    else
      var k := FirstNewline(p);
      if k < |p| && k < cap then Some((p[..k], k + 1))
      else if |p| >= cap then Some((p[..cap], cap))
      else Some((p, |p|))
  }

  /** The line NextLine yields, if any. */
  function LineOf(p: seq<char>, cap: nat): Option<string>
    requires cap > 0
  {
    match NextLineSpec(p, cap)
    case None => None
    case Some((line, _)) => Some(line)
  }

  /** The pending bytes after that line has been taken. */
  function RestOf(p: seq<char>, cap: nat): seq<char>
    requires cap > 0
  {
    match NextLineSpec(p, cap)
    case None => []
    case Some((_, used)) => if used <= |p| then p[used..] else []
  }

  /** A line never holds a newline nor exceeds the buffer, consumes at
      least one byte, and the line plus the newline it consumed (if any)
      is exactly the consumed prefix. */
  lemma NextLineSpecFacts(p: seq<char>, cap: nat)
    requires cap > 0
    ensures NextLineSpec(p, cap).None? <==> p == []
    ensures NextLineSpec(p, cap).Some? ==>
      var (line, used) := NextLineSpec(p, cap).value;
      0 < used <= |p| && |line| <= cap && '\n' !in line &&
      p[..used] == line + (if used > |line| then "\n" else [])
  {
    FirstNewlineSpec(p);
    if p != [] {
      var (line, used) := NextLineSpec(p, cap).value;
      assert forall i :: 0 <= i < |line| ==> line[i] == p[i];
      if used > |line| {
        assert p[..used] == line + "\n";
      }
    }
  }

  /** All lines a reader yields until NextLine returns none. */
  function Lines(p: seq<char>, cap: nat): seq<string>
    requires cap > 0
    decreases |p|
  {
    match NextLineSpec(p, cap)
    case None => []
    case Some((line, used)) =>
      NextLineSpecFacts(p, cap);
      [line] + Lines(p[used..], cap)
  }

  /** Every newline-terminated (or final) line of `p` is shorter than `cap`. */
  ghost predicate ShortLines(p: seq<char>, cap: nat)
    decreases |p|
  {
    p == [] || (FirstNewline(p) < cap && (FirstNewline(p) < |p| ==> ShortLines(p[FirstNewline(p) + 1..], cap)))
  }

  function Unlines(lines: seq<string>): string
  {
    if lines == [] then [] else lines[0] + "\n" + Unlines(lines[1..])
  }

  lemma LinesAtNewline(p: seq<char>, cap: nat)
    requires cap > 0 && FirstNewline(p) < |p| && FirstNewline(p) < cap
    ensures Lines(p, cap) == [p[..FirstNewline(p)]] + Lines(p[FirstNewline(p) + 1..], cap)
  {
  }

  lemma LinesAtEnd(p: seq<char>, cap: nat)
    requires cap > 0 && p != [] && FirstNewline(p) == |p| < cap
    ensures Lines(p, cap) == [p]
  {
    assert p[|p|..] == [];
  }

  lemma UnlinesCons(line: string, rest: seq<string>)
    ensures Unlines([line] + rest) == line + "\n" + Unlines(rest)
  {
    assert ([line] + rest)[1..] == rest;
  }

  lemma {:induction false} FirstNewlineHit(s: seq<char>)
    requires FirstNewline(s) < |s|
    ensures s[FirstNewline(s)] == '\n'
  {
    if s[0] != '\n' {
      FirstNewlineHit(s[1..]);
    }
  }

  lemma {:induction false} NoNewlineLast(s: seq<char>)
    requires s != [] && FirstNewline(s) == |s|
    ensures s[|s| - 1] != '\n'
  {
    if |s| > 1 {
      NoNewlineLast(s[1..]);
    }
  }

  /** Splitting at the first newline and rejoining. */
  lemma SplitAtNewline(p: seq<char>, k: nat, u: string)
    requires k < |p| && p[k] == '\n'
    requires u == p[k + 1..] + (if p[k + 1..] != [] && p[|p| - 1] != '\n' then "\n" else [])
    ensures p[..k] + "\n" + u == p + (if p[|p| - 1] != '\n' then "\n" else [])
  {
    assert p == p[..k] + "\n" + p[k + 1..];
  }

  /** The step of the round trip at a newline within the buffer: the
      first line, its newline and the rejoined rest give back `p`. */
  lemma RoundTripAtNewline(p: seq<char>, cap: nat)
    requires cap > 0 && FirstNewline(p) < |p| && FirstNewline(p) < cap
    requires
      var rest := p[FirstNewline(p) + 1..];
      Unlines(Lines(rest, cap)) == rest + (if rest != [] && rest[|rest| - 1] != '\n' then "\n" else [])
    ensures Unlines(Lines(p, cap)) == p + (if p[|p| - 1] != '\n' then "\n" else [])
  {
    var k := FirstNewline(p);
    var rest := p[k + 1..];
    FirstNewlineHit(p);
    LinesAtNewline(p, cap);
    UnlinesCons(p[..k], Lines(rest, cap));
    SplitAtNewline(p, k, Unlines(Lines(rest, cap)));
  }

  /** When no line is as long as the buffer, reading the lines and
      joining them back with newlines restores the input, with a final
      newline supplied if it was missing. */
  lemma {:induction false} LinesRoundTrip(p: seq<char>, cap: nat)
    requires cap > 0 && ShortLines(p, cap)
    ensures Unlines(Lines(p, cap)) == p + (if p != [] && p[|p| - 1] != '\n' then "\n" else [])
    decreases |p|
  {
    if p != [] {
      var k := FirstNewline(p);
      if k < |p| {
        var rest := p[k + 1..];
        LinesRoundTrip(rest, cap);
        RoundTripAtNewline(p, cap);
      } else {
        LinesAtEnd(p, cap);
        UnlinesCons(p, []);
        NoNewlineLast(p);
      }
    }
  }

  /** A line of exactly `cap` bytes followed by a newline comes out as
      the line and then an empty line: the first read fills the buffer
      before the newline is seen. */
  lemma ExactCapacityLine(cap: nat, c: char)
    requires cap > 0 && c != '\n'
    ensures Lines(Fill(c, cap) + "\n", cap) == [Fill(c, cap), ""]
  {
    var p := Fill(c, cap) + "\n";
    FillNoNewline(c, cap);
    FirstNewlineAppend(Fill(c, cap), "\n");
    assert p[..cap] == Fill(c, cap);
    assert p[cap..] == "\n";
    assert "\n"[1..] == [];
  }

  function Fill(c: char, n: nat): (r: string)
    ensures |r| == n
  {
    if n == 0 then [] else [c] + Fill(c, n - 1)
  }

  lemma {:induction false} FillNoNewline(c: char, n: nat)
    requires c != '\n'
    ensures FirstNewline(Fill(c, n)) == n
  {
    if n > 0 {
      FillNoNewline(c, n - 1);
      assert Fill(c, n)[1..] == Fill(c, n - 1);
    }
  }

  // ---------------------------------------------------------------
  // Where NextLine writes the terminating '\0'

  /** The buffer as declared: `char buffer_[kBufferSize]`. */
  function DeclaredLength(cap: nat): nat { cap }

  // ---------------------------------------------------------------
  // The reader

  class FileReader {
    const capacity: nat
    const buffer: array<char>
    var fd: int
    var pos: nat
    var end: nat
    /** The bytes the descriptor has yet to deliver. */
    var file: seq<char>
    /** Whether each coming read attempt is interrupted. */
    var signals: seq<bool>

    ghost predicate Valid()
      reads this
    {
      capacity > 0 && buffer.Length == capacity + 1 && pos <= end <= capacity
    }

    /** The bytes NextLine has still to hand out: the unconsumed part of
        the buffer, then the rest of the file. */
    ghost function Pending(): seq<char>
      reads this, buffer
      requires Valid()
    {
      buffer[pos..end] + file
    }

    /** FileReader(int fd); the pathname constructor passes raw_open's
        result here. A negative descriptor is an invalid reader. */
    constructor (fd: int, contents: seq<char>, signals: seq<bool>, capacity: nat)
      requires capacity > 0
      ensures Valid() && fresh(buffer)
      ensures this.fd == fd && this.capacity == capacity && this.signals == signals
      ensures Pending() == contents
    {
      this.capacity := capacity;
      this.buffer := new char[capacity + 1];
      this.fd := fd;
      this.pos := 0;
      this.end := 0;
      this.file := contents;
      this.signals := signals;
      new;
      assert buffer[0..0] == [];
    }

    /** One raw_read of up to `space` bytes into the buffer at `end`. */
    method RawRead(space: nat) returns (n: int)
      requires Valid() && space == capacity - end
      modifies this, buffer
      ensures Valid() && fd == old(fd) && pos == old(pos) && end == old(end)
      ensures n == -EINTR ==> file == old(file) && |signals| < |old(signals)| && buffer[..] == old(buffer[..])
      ensures n != -EINTR ==>
        n == Min(space, |old(file)|) && file == old(file)[n..] && |signals| <= |old(signals)| &&
        buffer[..end] == old(buffer[..end]) && buffer[end..end + n] == old(file)[..n]
    {
      if signals != [] && signals[0] {
        signals := signals[1..];
        return -EINTR;
      }
      if signals != [] {
        signals := signals[1..];
      }
      n := Min(space, |file|);
      forall i | 0 <= i < n {
        buffer[end + i] := file[i];
      }
      assert buffer[end..end + n] == file[..n];
      assert buffer[..end] == old(buffer[..end]);
      file := file[n..];
    }

    /** The read loop, retried while the call is interrupted. */
    method ReadRetrying(space: nat) returns (n: int)
      requires Valid() && space == capacity - end
      modifies this, buffer
      ensures Valid() && fd == old(fd) && pos == old(pos) && end == old(end) && |signals| <= |old(signals)|
      ensures n == Min(space, |old(file)|) && file == old(file)[n..]
      ensures buffer[..end] == old(buffer[..end]) && buffer[end..end + n] == old(file)[..n]
    {
      while true
        invariant Valid() && fd == old(fd) && pos == old(pos) && end == old(end) && |signals| <= |old(signals)|
        invariant file == old(file) && buffer[..] == old(buffer[..])
        decreases |signals|
      {
        n := RawRead(space);
        if n != -EINTR {
          return;
        }
      }
    }

    /** Move the unconsumed bytes to the front (or reset an empty buffer). */
    method Compact()
      requires Valid()
      modifies this, buffer
      ensures Valid() && fd == old(fd) && file == old(file) && signals == old(signals)
      ensures pos == 0 && end == old(end) - old(pos)
      ensures buffer[..end] == old(buffer[pos..end]) && Pending() == old(Pending())
    {
      if pos > 0 && pos < end {
        var rem := end - pos;
        forall i | 0 <= i < rem {
          buffer[i] := buffer[pos + i];
        }
        end := rem;
        pos := 0;
      } else if pos == end {
        pos, end := 0, 0;
        assert buffer[0..0] == [];
      }
    }

    /** NextLine: the next line and the buffer index its characters start
        at (a string_view into the buffer, followed there by '\0'). */
    method NextLine() returns (line: Option<string>, start: nat)
      requires Valid()
      modifies this, buffer
      ensures Valid() && fd == old(fd) && |signals| <= |old(signals)|
      ensures old(fd) < 0 ==> line.None? && Pending() == old(Pending())
      ensures old(fd) >= 0 ==> line == LineOf(old(Pending()), capacity) && Pending() == RestOf(old(Pending()), capacity)
      ensures line.Some? ==>
        start + |line.value| < buffer.Length && buffer[start..start + |line.value|] == line.value &&
        buffer[start + |line.value|] == '\0'
    {
      if fd < 0 {
        return None, 0;
      }
      line, start := ReadLine();
    }

    /** NextLine on a valid descriptor: scan the buffer for a newline,
        compacting and refilling it until one turns up, the buffer is
        full, or the input ends. */
    method ReadLine() returns (line: Option<string>, start: nat)
      requires Valid() && fd >= 0
      modifies this, buffer
      ensures Valid() && fd == old(fd) && |signals| <= |old(signals)|
      ensures line == LineOf(old(Pending()), capacity) && Pending() == RestOf(old(Pending()), capacity)
      ensures line.Some? ==>
        start + |line.value| < buffer.Length && buffer[start..start + |line.value|] == line.value &&
        buffer[start + |line.value|] == '\0'
    {
      ghost var p := Pending();
      var done := false;
      line, start := None, 0;
      while !done
        invariant Valid() && fd == old(fd) && |signals| <= |old(signals)|
        invariant !done ==> Pending() == p
        invariant done ==> line == LineOf(p, capacity) && Pending() == RestOf(p, capacity)
        invariant done && line.Some? ==>
          start + |line.value| < buffer.Length && buffer[start..start + |line.value|] == line.value &&
          buffer[start + |line.value|] == '\0'
        decreases !done, |file|
      {
        done, line, start := Step(p);
      }
    }

    /** One pass of ReadLine's loop: either it produces the line, or it
        has moved more input into the buffer. */
    method Step(ghost p: seq<char>) returns (done: bool, line: Option<string>, start: nat)
      requires Valid() && p == Pending()
      modifies this, buffer
      ensures Valid() && fd == old(fd) && |signals| <= |old(signals)|
      ensures !done ==> Pending() == p && |file| < |old(file)|
      ensures done ==> line == LineOf(p, capacity) && Pending() == RestOf(p, capacity)
      ensures done && line.Some? ==>
        start + |line.value| < buffer.Length && buffer[start..start + |line.value|] == line.value &&
        buffer[start + |line.value|] == '\0'
    {
      done, start := true, 0;
      if end - pos > 0 {
        var k := Memchr(buffer, pos, end);
        if k < end {
          line, start := TakeLine(k, p);
          return;
        }
      }
      ghost var held := buffer[pos..end];
      assert FirstNewline(held) == |held| by {
        if end - pos == 0 {
          assert held == [];
        }
      }
      Compact();
      if capacity - end == 0 {
        line := WholeBuffer(p);
        return;
      }
      var n := Refill();
      if n == 0 {
        if end == 0 {
          assert p == [] by { assert buffer[pos..end] == []; }
          assert Pending() == [] by { assert buffer[pos..end] == []; }
          return true, None, 0;
        }
        line := WholeBuffer(p);
        return;
      }
      done, line := false, None;
    }

    /** Read more input after the buffered bytes (`buf_end_ += n`). */
    method Refill() returns (n: nat)
      requires Valid() && pos == 0 && end < capacity
      modifies this, buffer
      ensures Valid() && fd == old(fd) && |signals| <= |old(signals)| && pos == 0
      ensures Pending() == old(Pending())
      ensures n == Min(capacity - old(end), |old(file)|) && end == old(end) + n && file == old(file)[n..]
      ensures buffer[..old(end)] == old(buffer[..end])
    {
      ghost var before := buffer[..end];
      ghost var f := file;
      var got := ReadRetrying(capacity - end);
      n := got;
      assert buffer[..end + n] == buffer[..end] + buffer[end..end + n];
      end := end + n;
      assert buffer[pos..end] == before + f[..n];
      assert f == f[..n] + f[n..];
    }

    /** memchr over buffer[from..to): the first '\n' there, or `to`. */
    static method Memchr(a: array<char>, from: nat, to: nat) returns (k: nat)
      requires from <= to <= a.Length
      ensures from <= k <= to
      ensures k == from + FirstNewline(a[from..to])
    {
      k := from;
      while k < to && a[k] != '\n'
        invariant from <= k <= to
        invariant FirstNewline(a[from..to]) == (k - from) + FirstNewline(a[k..to])
      {
        assert a[k..to][1..] == a[k + 1..to];
        k := k + 1;
      }
    }

    /** The newline branch: terminate the line over its newline and step
        past it, resetting an emptied buffer. */
    method TakeLine(k: nat, ghost p: seq<char>) returns (line: Option<string>, start: nat)
      requires Valid() && pos <= k < end && p == Pending()
      requires k == pos + FirstNewline(buffer[pos..end])
      modifies this, buffer
      ensures Valid() && fd == old(fd) && file == old(file) && signals == old(signals)
      ensures line.Some? && line == LineOf(p, capacity) && Pending() == RestOf(p, capacity)
      ensures start + |line.value| < buffer.Length && buffer[start..start + |line.value|] == line.value
      ensures buffer[start + |line.value|] == '\0'
    {
      ghost var held := buffer[pos..end];
      FirstNewlineAppend(held, file);
      line := Some(buffer[pos..k]);
      assert line.value == p[..k - pos];
      buffer[k] := '\0';
      start := pos;
      pos := k + 1;
      assert buffer[pos..end] == held[k + 1 - start..];
      assert p[k - start + 1..] == held[k + 1 - start..] + file;
      if pos == end {
        pos, end := 0, 0;
        assert buffer[0..0] == [];
      }
    }

    /** The full-buffer and end-of-input branches: the whole buffer is
        the line; the buffer empties. */
    method WholeBuffer(ghost p: seq<char>) returns (line: Option<string>)
      requires Valid() && pos == 0 && end > 0 && FirstNewline(buffer[..end]) == end
      requires p == buffer[..end] + file
      requires end == capacity || file == []
      modifies this, buffer
      ensures Valid() && fd == old(fd) && file == old(file) && signals == old(signals)
      ensures line.Some? && line == LineOf(p, capacity) && Pending() == RestOf(p, capacity)
      ensures |line.value| < buffer.Length && buffer[..|line.value|] == line.value && buffer[|line.value|] == '\0'
    {
      ghost var held := buffer[..end];
      FirstNewlineAppend(held, file);
      buffer[end] := '\0';
      line := Some(buffer[..end]);
      assert line.value == held;
      assert FirstNewline(p) >= |held|;
      if end == capacity {
        assert p[..capacity] == held;
      } else {
        assert p == held;
      }
      assert p[|held|..] == file;
      pos, end := 0, 0;
      assert buffer[0..0] == [];
    }
  }

  /** A first line of `cap` bytes without a newline goes through the
      full-buffer branch, and the reader writes its terminating '\0' at
      index `cap`: the length of the buffer as declared, so as written the
      store lands one byte past the array. The reader here has the extra
      byte, which is why the store is in bounds. */
  method AsWrittenTerminatorOverrun(cap: nat) returns (terminator: nat)
    requires cap > 0
    ensures terminator == DeclaredLength(cap)
  {
    var reader := new FileReader(0, Fill('x', cap), [], cap);
    FillNoNewline('x', cap);
    assert Fill('x', cap)[..cap] == Fill('x', cap);
    var line, start := reader.NextLine();
    terminator := start + |line.value|;
  }

  // ---------------------------------------------------------------
  // The input iterator

  /** FileReader::Iterator: the reader (null once exhausted) and the
      line it last produced. */
  class LineIterator {
    var reader: FileReader?
    var current: string

    /** end(): the iterator with no reader. */
    constructor End()
      ensures reader == null && current == []
    {
      reader := null;
      current := [];
    }

    /** begin(): bind the reader and advance once. */
    constructor Begin(fr: FileReader)
      requires fr.Valid()
      modifies fr, fr.buffer
      ensures fr.Valid() && fr.fd == old(fr.fd)
      ensures old(fr.fd) < 0 ==> reader == null
      ensures old(fr.fd) >= 0 ==>
        match NextLineSpec(old(fr.Pending()), fr.capacity)
        case None => reader == null && fr.Pending() == []
        case Some((l, used)) => reader == fr && current == l && fr.Pending() == old(fr.Pending())[used..]
    {
      reader := fr;
      current := [];
      new;
      Advance();
    }

    /** operator++: once the reader runs dry the iterator becomes end(). */
    method Advance()
      requires reader != null ==> reader.Valid()
      modifies this, if reader != null then {reader, reader.buffer} else {}
      ensures reader == null || reader == old(reader)
      ensures old(reader) == null ==> reader == null && current == old(current)
      ensures old(reader) != null ==>
        old(reader).Valid() && old(reader).fd == old(reader.fd) &&
        (old(reader.fd) < 0 ==> reader == null) &&
        (old(reader.fd) >= 0 ==>
          match NextLineSpec(old(reader.Pending()), old(reader).capacity)
          case None => reader == null && old(reader).Pending() == []
          case Some((l, used)) => reader != null && current == l && reader.Pending() == old(reader.Pending())[used..])
    {
      if reader == null {
        return;
      }
      var sv, _ := reader.NextLine();
      if sv.None? {
        reader := null;
      } else {
        current := sv.value;
      }
    }

    /** operator==: iterators are equal when they share their reader. */
    predicate Equals(other: LineIterator)
      reads this, other
    {
      reader == other.reader
    }
  }
}
