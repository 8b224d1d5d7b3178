/** MapsParser of app/src/main/cpp/maps_parser.h and maps_parser.cc: an
    iterator over the VMAs of the process that first asks the kernel with
    the PROCMAP_QUERY ioctl (Linux uapi linux/fs.h) and falls back to the
    `/proc/self/maps` text when the ioctl is unavailable.

    The kernel is a parameter of the model: `replies` holds what the
    coming ioctl calls return, in order; an exhausted list is the kernel
    reporting that no VMA is left (-ENOENT). */
module MapsParser {
  import opened Base
  import opened MapsEntry
  import opened MapsLine
  import FR = FileReader

  const ENOENT: int := 2
  const EACCES: int := 13
  const ENODEV: int := 19

  /** PROCMAP_QUERY_COVERING_OR_NEXT_VMA: report the VMA covering the
      query address or, failing that, the next one. */
  const PROCMAP_QUERY_COVERING_OR_NEXT_VMA: u32 := 0x10

  /** The size of name_buffer_, which the query passes as vma_name_size. */
  const NAME_BUFFER_SIZE: nat := 0x1000

  datatype Status = TryIoctl | ParseText | Completed

  /** The outcome of one PROCMAP_QUERY call: interrupted by a signal, an
      answer (the VMA's fields, and its name with the terminating NUL as
      the kernel copies it out, empty for an anonymous VMA), or an error. */
  datatype Reply =
    | Interrupted
    | Answer(vmaStart: u64, vmaEnd: u64, vmaFlags: u32, vmaOffset: u64, devMajor: u32, devMinor: u32,
             inode: u64, name: seq<char>)
    | Failure(errno: nat)

  /** A reply the kernel can give: a name that fits the buffer, and an
      error number that is a real error other than EINTR. */
  predicate WellFormed(r: Reply)
  {
    (r.Answer? ==> |r.name| <= NAME_BUFFER_SIZE) && (r.Failure? ==> r.errno > 0 && r.errno != FR.EINTR)
  }

  // ---------------------------------------------------------------
  // The ioctl path

  /** The reply the retry loop ends with: the first one not interrupted;
      -ENOENT once the kernel has nothing more. */
  function IoctlReply(rs: seq<Reply>): (r: Reply)
    ensures !r.Interrupted?
  {
    if rs == [] then Failure(ENOENT) else if rs[0].Interrupted? then IoctlReply(rs[1..]) else rs[0]
  }

  /** The replies left for later calls. */
  function IoctlRest(rs: seq<Reply>): seq<Reply>
  {
    if rs == [] then [] else if rs[0].Interrupted? then IoctlRest(rs[1..]) else rs[1..]
  }

  /** The number of interrupted attempts the retry loop goes through. */
  function Retries(rs: seq<Reply>): (k: nat)
    ensures k <= |rs|
  {
    if rs != [] && rs[0].Interrupted? then 1 + Retries(rs[1..]) else 0
  }

  /** The retry loop consumes the interrupted attempts and then exactly
      one reply, which is the first uninterrupted one (or -ENOENT when
      every attempt was interrupted). */
  lemma {:induction false} IoctlReplySpec(rs: seq<Reply>)
    ensures forall i :: 0 <= i < Retries(rs) ==> rs[i].Interrupted?
    ensures Retries(rs) < |rs| ==>
      !rs[Retries(rs)].Interrupted? && IoctlReply(rs) == rs[Retries(rs)] && IoctlRest(rs) == rs[Retries(rs) + 1..]
    ensures Retries(rs) == |rs| ==> IoctlReply(rs) == Failure(ENOENT) && IoctlRest(rs) == []
  {
    if rs != [] && rs[0].Interrupted? {
      IoctlReplySpec(rs[1..]);
      var k := Retries(rs[1..]);
      forall i | 0 <= i < k + 1
        ensures rs[i].Interrupted?
      {
        if i > 0 {
          assert rs[i] == rs[1..][i - 1];
        }
      }
      if k < |rs[1..]| {
        assert rs[1..][k] == rs[k + 1];
        assert rs[1..][k + 1..] == rs[k + 2..];
      }
    }
  }

  /** Well-formed replies stay well-formed after the loop. */
  lemma {:induction false} IoctlRestWellFormed(rs: seq<Reply>)
    requires forall k :: 0 <= k < |rs| ==> WellFormed(rs[k])
    ensures WellFormed(IoctlReply(rs))
    ensures forall k :: 0 <= k < |IoctlRest(rs)| ==> WellFormed(IoctlRest(rs)[k])
  {
    if rs != [] {
      assert WellFormed(rs[0]);
      if rs[0].Interrupted? {
        assert forall k :: 0 <= k < |rs[1..]| ==> WellFormed(rs[1..][k]) by {
          forall k | 0 <= k < |rs[1..]| ensures WellFormed(rs[1..][k]) {
            assert rs[1..][k] == rs[k + 1];
          }
        }
        IoctlRestWellFormed(rs[1..]);
      } else {
        assert forall k :: 0 <= k < |rs[1..]| ==> WellFormed(rs[1..][k]) by {
          forall k | 0 <= k < |rs[1..]| ensures WellFormed(rs[1..][k]) {
            assert rs[1..][k] == rs[k + 1];
          }
        }
      }
    }
  }

  /** The name NextEntry reports for a name the kernel copied out: its
      length excludes the terminating NUL. */
  function EntryName(copied: seq<char>): (name: seq<char>)
    ensures |name| == if copied == [] then 0 else |copied| - 1
  {
    if copied == [] then [] else copied[..|copied| - 1]
  }

  /** The kernel copies a name with its NUL; the entry gets the name back. */
  lemma EntryNameOfTerminated(name: seq<char>)
    ensures EntryName(name + ['\0']) == name
  {
    assert (name + ['\0'])[..|name|] == name;
  }

  /** The entry NextEntry builds from an answer. */
  function AnswerEntry(a: Reply): (e: VmaEntry)
    requires a.Answer?
    ensures e.vmaStart == a.vmaStart && e.vmaEnd == a.vmaEnd && e.vmaFlags == a.vmaFlags
    ensures e.vmaOffset == a.vmaOffset && e.devMajor == a.devMajor && e.devMinor == a.devMinor
    ensures e.inode == a.inode && e.name == EntryName(a.name)
  {
    VmaEntry(a.vmaStart, a.vmaEnd, a.vmaFlags, a.vmaOffset, a.devMajor, a.devMinor, a.inode, EntryName(a.name))
  }

  /** The constructor adds the covering-or-next bit to the query flags;
      that bit is not one of the filter bits, so the text path filters
      exactly as the caller asked. */
  lemma CoveringBitKeepsFilter(q: u32)
    ensures Filter(Or32(q, PROCMAP_QUERY_COVERING_OR_NEXT_VMA)) == Filter(q)
  {
    var y := (q as bv32) | 0x10;
    CoveringOr(q);
    FilterOfBits(y);
    FilterBits(q);
    CoveringBitBits(q as bv32);
  }

  /** The query always carries the covering-or-next bit. */
  lemma CoveringBitSet(q: u32)
    ensures HasBit(Or32(q, PROCMAP_QUERY_COVERING_OR_NEXT_VMA), PROCMAP_QUERY_COVERING_OR_NEXT_VMA)
  {
    var y := (q as bv32) | 0x10;
    CoveringOr(q);
    CoveringAnd(y);
    CoveringBitBits(q as bv32);
  }

  /** Or-ing the covering bit, on bit vectors. */
  lemma CoveringOr(q: u32)
    ensures Or32(q, PROCMAP_QUERY_COVERING_OR_NEXT_VMA) == ((q as bv32) | 0x10) as int
  {
    assert (0x10 as u32) as bv32 == 0x10;
  }

  /** Testing the covering bit, on bit vectors. */
  lemma CoveringAnd(y: bv32)
    ensures And32(y as int, PROCMAP_QUERY_COVERING_OR_NEXT_VMA) == (y & 0x10) as int
  {
    assert (0x10 as u32) as bv32 == 0x10;
    BvRoundTrip(y);
  }

  /** The filter, on bit vectors. */
  lemma FilterBits(q: u32)
    ensures Filter(q) == ((q as bv32) & 0x2f) as int
  {
    FlagConstants();
    assert (0x2f as u32) as bv32 == 0x2f;
  }

  lemma FilterOfBits(y: bv32)
    ensures Filter(y as int) == (y & 0x2f) as int
  {
    FlagConstants();
    FilterMaskOfBits(y);
  }

  lemma FilterMaskOfBits(y: bv32)
    ensures And32(y as int, 0x2f) == (y & 0x2f) as int
  {
    assert (0x2f as u32) as bv32 == 0x2f;
    BvRoundTrip(y);
  }

  lemma BvRoundTrip(y: bv32)
    ensures (y as int) as bv32 == y
  {
  }

  lemma CoveringBitBits(x: bv32)
    ensures (x | 0x10) & 0x2f == x & 0x2f
    ensures (x | 0x10) & 0x10 == 0x10
  {
  }

  // ---------------------------------------------------------------
  // The text path

  /** The result of the text loop: the entry it returns, if any, and the
      bytes the reader still holds afterwards. */
  datatype TextResult = TextResult(entry: Option<VmaEntry>, rest: seq<char>)

  /** Taking a line consumes at least one pending byte. */
  lemma RestShorter(p: seq<char>, cap: nat)
    requires cap > 0 && p != []
    ensures |FR.RestOf(p, cap)| < |p|
  {
    FR.NextLineSpecFacts(p, cap);
  }

  /** The text loop over the pending bytes `p` of a reader of capacity
      `cap`: end of input, an empty line or a zero address ends the
      iteration; lines the filter rejects are skipped. */
  function TextScan(p: seq<char>, cap: nat, queryFlags: u32): TextResult
    requires cap > 0
    decreases |p|
  {
    match FR.LineOf(p, cap)
    case None => TextResult(None, p)
    case Some(line) =>
      RestShorter(p, cap);
      match ParseLine(line, queryFlags)
      case Stop => TextResult(None, FR.RestOf(p, cap))
      case Skip => TextScan(FR.RestOf(p, cap), cap, queryFlags)
      case Found(e) => TextResult(Some(e), FR.RestOf(p, cap))
  }

  /** The text loop leaves a suffix of the bytes there were, a strictly
      shorter one when it returns an entry. */
  lemma {:induction false} TextScanRest(p: seq<char>, cap: nat, queryFlags: u32)
    requires cap > 0
    ensures IsSuffix(TextScan(p, cap, queryFlags).rest, p)
    ensures TextScan(p, cap, queryFlags).entry.Some? ==> |TextScan(p, cap, queryFlags).rest| < |p|
    decreases |p|
  {
    if p == [] {
      assert TextScan(p, cap, queryFlags) == TextResult(None, p);
      assert p[|p| - |p|..] == p;
    } else {
      var rest := FR.RestOf(p, cap);
      RestIsSuffix(p, cap);
      var line := FR.LineOf(p, cap).value;
      var v := ParseLine(line, queryFlags);
      if v.Skip? {
        assert TextScan(p, cap, queryFlags) == TextScan(rest, cap, queryFlags);
        TextScanRest(rest, cap, queryFlags);
        SuffixOfSuffix(p, rest, TextScan(rest, cap, queryFlags).rest);
      } else {
        assert TextScan(p, cap, queryFlags).rest == rest;
      }
    }
  }

  /** Every entry of the text loop passes the filter. */
  lemma {:induction false} TextScanPasses(p: seq<char>, cap: nat, queryFlags: u32)
    requires cap > 0
    ensures TextScan(p, cap, queryFlags).entry.Some? ==> Passes(TextScan(p, cap, queryFlags).entry.value, queryFlags)
    decreases |p|
  {
    match FR.LineOf(p, cap)
    case None =>
    case Some(line) =>
      var rest := FR.RestOf(p, cap);
      RestShorter(p, cap);
      match ParseLine(line, queryFlags)
      case Stop =>
      case Skip =>
        TextScanPasses(rest, cap, queryFlags);
      case Found(e) =>
        ParseLineFound(line, queryFlags);
  }

  /** A line is taken from non-empty bytes, and the bytes left are a
      strictly shorter suffix. */
  lemma RestIsSuffix(p: seq<char>, cap: nat)
    requires cap > 0 && p != []
    ensures FR.LineOf(p, cap).Some?
    ensures |FR.RestOf(p, cap)| < |p| && IsSuffix(FR.RestOf(p, cap), p)
  {
    FR.NextLineSpecFacts(p, cap);
  }

  /** `r` is the last |r| elements of `p`. */
  predicate IsSuffix(r: seq<char>, p: seq<char>)
  {
    |r| <= |p| && r == p[|p| - |r|..]
  }

  lemma SuffixOfSuffix(p: seq<char>, q: seq<char>, r: seq<char>)
    requires IsSuffix(q, p) && IsSuffix(r, q)
    ensures IsSuffix(r, p)
  {
    assert q[|q| - |r|..] == p[|p| - |r|..];
  }

  // ---------------------------------------------------------------
  // One step of the iteration, on values

  /** An ioctl on a closed descriptor fails with EBADF. */
  const EBADF: int := 9

  /** The return value of raw_ioctl for a reply. */
  function Code(r: Reply): (c: int)
    ensures WellFormed(r) ==> (r.Interrupted? <==> c == -FR.EINTR) && (r.Answer? <==> c == 0)
  {
    match r
    case Interrupted => -FR.EINTR
    case Answer(_, _, _, _, _, _, _, _) => 0
    case Failure(errno) => -(errno as int)
  }

  /** What the retried query ends with on descriptor `fd`. */
  function Attempt(fd: int, rs: seq<Reply>): (r: Reply)
    ensures !r.Interrupted?
  {
    if fd < 0 then Failure(EBADF) else IoctlReply(rs)
  }

  /** The replies the kernel still holds after the retried query. */
  function AttemptRest(fd: int, rs: seq<Reply>): seq<Reply>
  {
    if fd < 0 then rs else IoctlRest(rs)
  }

  /** What NextEntry observes and changes: the status, the process-wide
      query-failed flag, the next query address, the kernel's coming
      replies, the reader's descriptor and its pending bytes. */
  datatype State = State(status: Status, failed: bool, queryAddr: u64, replies: seq<Reply>, fd: int, pending: seq<char>)

  /** The text loop; a closed reader yields no line. */
  function TextOf(fd: int, p: seq<char>, cap: nat, queryFlags: u32): TextResult
    requires cap > 0
  {
    if fd < 0 then TextResult(None, p) else TextScan(p, cap, queryFlags)
  }

  /** One round of the text loop: no line ends it with the bytes as they
      are; otherwise the line's verdict ends it or moves to the bytes
      after the line, of which there are fewer. */
  lemma TextOfLine(fd: int, p: seq<char>, cap: nat, queryFlags: u32)
    requires cap > 0
    ensures fd < 0 || FR.LineOf(p, cap).None? ==> TextOf(fd, p, cap, queryFlags) == TextResult(None, p)
    ensures FR.LineOf(p, cap).None? ==> FR.RestOf(p, cap) == p
    ensures fd >= 0 && FR.LineOf(p, cap).Some? ==>
      |FR.RestOf(p, cap)| < |p| &&
      match ParseLine(FR.LineOf(p, cap).value, queryFlags)
      case Stop => TextOf(fd, p, cap, queryFlags) == TextResult(None, FR.RestOf(p, cap))
      case Skip => TextOf(fd, p, cap, queryFlags) == TextOf(fd, FR.RestOf(p, cap), cap, queryFlags)
      case Found(e) => TextOf(fd, p, cap, queryFlags) == TextResult(Some(e), FR.RestOf(p, cap))
  {
    FR.NextLineSpecFacts(p, cap);
  }

  /** The text path of NextEntry: the loop, then completion when it
      produced nothing. */
  function TextStep(s: State, cap: nat, queryFlags: u32): (Option<VmaEntry>, State)
    requires cap > 0
  {
    var r := TextOf(s.fd, s.pending, cap, queryFlags);
    (r.entry, s.(status := if r.entry.None? then Completed else s.status, pending := r.rest))
  }

  /** How the query part of NextEntry ends: with its result, or by
      falling back to the text. */
  datatype QueryOutcome = Done(entry: Option<VmaEntry>, state: State) | FallBack(state: State)

  /** The query part of NextEntry: an answer is the entry and moves the
      query address to its end; ENOENT completes; any other error falls
      back to the text, EACCES and ENODEV for every parser of the
      process. */
  function QueryStep(s: State): QueryOutcome
  {
    var a := Attempt(s.fd, s.replies);
    var t := s.(replies := AttemptRest(s.fd, s.replies));
    if a.Answer? then Done(Some(AnswerEntry(a)), t.(queryAddr := a.vmaEnd))
    else if a == Failure(ENOENT) then Done(None, t.(status := Completed))
    else FallBack(t.(failed := s.failed || a == Failure(EACCES) || a == Failure(ENODEV), status := ParseText))
  }

  /** NextEntry on values: nothing once completed; the query while it has
      not failed; the text otherwise or when the query falls back. */
  function NextSpec(s: State, cap: nat, queryFlags: u32): (Option<VmaEntry>, State)
    requires cap > 0
  {
    if s.status == Completed then (None, s)
    else if !s.failed && s.status == TryIoctl then
      match QueryStep(s)
      case Done(entry, t) => (entry, t)
      case FallBack(t) => TextStep(t, cap, queryFlags)
    else TextStep(s, cap, queryFlags)
  }

  /** What the iteration still has to consume. */
  function Measure(s: State): nat
  {
    |s.replies| + |s.pending|
  }

  /** The retried query consumes replies, at least one when it answers. */
  lemma IoctlRestShorter(rs: seq<Reply>)
    ensures |IoctlRest(rs)| <= |rs|
    ensures IoctlReply(rs).Answer? ==> |IoctlRest(rs)| < |rs|
  {
    IoctlReplySpec(rs);
  }

  /** The text path consumes pending bytes, at least one when it returns
      an entry, and completes otherwise. */
  lemma TextStepProgress(s: State, cap: nat, queryFlags: u32)
    requires cap > 0
    ensures TextStep(s, cap, queryFlags).1.replies == s.replies
    ensures Measure(TextStep(s, cap, queryFlags).1) <= Measure(s)
    ensures TextStep(s, cap, queryFlags).1.status == Completed || Measure(TextStep(s, cap, queryFlags).1) < Measure(s)
  {
    if s.fd >= 0 {
      TextScanRest(s.pending, cap, queryFlags);
    }
  }

  /** The iteration ends: a NextEntry that does not complete consumes a
      reply or pending bytes, and none consumes more than there is. */
  lemma NextSpecProgress(s: State, cap: nat, queryFlags: u32)
    requires cap > 0
    ensures Measure(NextSpec(s, cap, queryFlags).1) <= Measure(s)
    ensures NextSpec(s, cap, queryFlags).1.status == Completed || Measure(NextSpec(s, cap, queryFlags).1) < Measure(s)
  {
    if s.status != Completed && !s.failed && s.status == TryIoctl {
      IoctlRestShorter(s.replies);
      match QueryStep(s)
      case Done(_, _) =>
      case FallBack(t) =>
        TextStepProgress(t, cap, queryFlags);
    } else if s.status != Completed {
      TextStepProgress(s, cap, queryFlags);
    }
  }

  /** The status only moves forward, from the query to the text to
      completion; the process-wide flag is never cleared; once the query
      is off, no reply is consumed and the query address stays. */
  lemma NextSpecStatus(s: State, cap: nat, queryFlags: u32)
    requires cap > 0
    ensures var t := NextSpec(s, cap, queryFlags).1;
      (t.status == s.status || t.status == Completed || (s.status == TryIoctl && t.status == ParseText)) &&
      (s.failed ==> t.failed) && t.fd == s.fd &&
      (s.failed || s.status != TryIoctl ==> t.replies == s.replies && t.queryAddr == s.queryAddr && t.failed == s.failed)
  {
  }

  /** Every entry is either the kernel's answer to the query or a line of
      the text that passes the filter. */
  lemma NextSpecEntry(s: State, cap: nat, queryFlags: u32)
    requires cap > 0
    ensures NextSpec(s, cap, queryFlags).0.Some? ==>
      (s.status == TryIoctl && !s.failed && Attempt(s.fd, s.replies).Answer? &&
       NextSpec(s, cap, queryFlags).0.value == AnswerEntry(Attempt(s.fd, s.replies))) ||
      Passes(NextSpec(s, cap, queryFlags).0.value, queryFlags)
  {
    if s.status != Completed && !s.failed && s.status == TryIoctl {
      match QueryStep(s)
      case Done(_, _) =>
      case FallBack(t) =>
        TextScanPasses(t.pending, cap, queryFlags);
    } else if s.status != Completed {
      TextScanPasses(s.pending, cap, queryFlags);
    }
  }

  /** While the query is on, an answer is the entry. */
  lemma NextSpecAnswer(s: State, cap: nat, queryFlags: u32)
    requires cap > 0 && s.status == TryIoctl && !s.failed && Attempt(s.fd, s.replies).Answer?
    ensures NextSpec(s, cap, queryFlags).0 == Some(AnswerEntry(Attempt(s.fd, s.replies)))
  {
  }

  /** A parser whose reader failed to open yields nothing and completes. */
  lemma ClosedParserYieldsNothing(s: State, cap: nat, queryFlags: u32)
    requires cap > 0 && s.fd < 0
    ensures NextSpec(s, cap, queryFlags).0 == None && NextSpec(s, cap, queryFlags).1.status == Completed
  {
  }

  /** The parser's query flags carry the covering-or-next bit, but the
      text filters exactly as the caller asked. */
  lemma PassesCallerFilter(e: VmaEntry, queryFlags: u32)
    ensures Passes(e, Or32(queryFlags, PROCMAP_QUERY_COVERING_OR_NEXT_VMA)) == Passes(e, queryFlags)
  {
    CoveringBitKeepsFilter(queryFlags);
  }

  // ---------------------------------------------------------------
  // The parser

  /** procmap_query_failed_: one flag shared by every parser of the
      process. */
  class QueryGate {
    var failed: bool

    constructor ()
      ensures !failed
    {
      failed := false;
    }
  }

  /** The procmap_query structure: the caller's flags and address, the
      name buffer's size, and the VMA the kernel fills in. The name
      address is the parser's `nameAddr`. */
  datatype Query = Query(queryFlags: u32, queryAddr: u64, nameSize: nat, vmaStart: u64, vmaEnd: u64, vmaFlags: u32,
                         vmaOffset: u64, devMajor: u32, devMinor: u32, inode: u64)

  class MapsParser {
    var reader: FR.FileReader
    var status: Status
    /** name_buffer_ */
    const nameBuffer: array<char>
    /** query_buffer_, but for its name address */
    var query: Query
    /** vma_name_addr: where the kernel copies the name */
    var nameAddr: array<char>
    /** The kernel's coming replies for this parser's descriptor. */
    var replies: seq<Reply>
    const gate: QueryGate

    /** Everything but where the name goes. */
    ghost predicate Sound()
      reads this, reader
    {
      reader.Valid() && nameBuffer.Length == NAME_BUFFER_SIZE && nameAddr.Length == NAME_BUFFER_SIZE &&
      reader.buffer != nameBuffer && reader.buffer != nameAddr && query.nameSize <= NAME_BUFFER_SIZE &&
      forall k :: 0 <= k < |replies| ==> WellFormed(replies[k])
    }

    /** The kernel copies names into this parser's own buffer. */
    ghost predicate Valid()
      reads this, reader
    {
      Sound() && nameAddr == nameBuffer
    }

    ghost function Snap(): State
      reads this, reader, reader.buffer, gate
      requires reader.Valid()
    {
      State(status, gate.failed, query.queryAddr, replies, reader.fd, reader.Pending())
    }

    /** The query asks for the VMA covering or following its address,
        with the caller's filter, names going to name_buffer_. */
    constructor (queryFlags: u32, reader: FR.FileReader, replies: seq<Reply>, gate: QueryGate)
      requires reader.Valid() && forall k :: 0 <= k < |replies| ==> WellFormed(replies[k])
      ensures Valid() && fresh(nameBuffer)
      ensures this.reader == reader && this.replies == replies && this.gate == gate && status == TryIoctl
      ensures query.queryFlags == Or32(queryFlags, PROCMAP_QUERY_COVERING_OR_NEXT_VMA) && query.queryAddr == 0
      ensures forall i :: 0 <= i < nameBuffer.Length ==> nameBuffer[i] == '\0'
    {
      this.reader := reader;
      status := TryIoctl;
      nameBuffer := new char[NAME_BUFFER_SIZE](_ => '\0');
      query := Query(Or32(queryFlags, PROCMAP_QUERY_COVERING_OR_NEXT_VMA), 0, 0, 0, 0, 0, 0, 0, 0, 0);
      this.replies := replies;
      this.gate := gate;
      new;
      nameAddr := nameBuffer;
    }

    /** The query holds answer `a`, its name copied to `nameAddr`. */
    ghost predicate Carries(a: Reply)
      reads this, nameAddr
      requires a.Answer?
    {
      query.vmaStart == a.vmaStart && query.vmaEnd == a.vmaEnd && query.vmaFlags == a.vmaFlags &&
      query.vmaOffset == a.vmaOffset && query.devMajor == a.devMajor && query.devMinor == a.devMinor &&
      query.inode == a.inode && query.nameSize == |a.name| &&
      |a.name| <= nameAddr.Length && nameAddr[..|a.name|] == a.name
    }

    /** raw_ioctl(fd, PROCMAP_QUERY, query): the kernel's next reply. */
    method RawIoctl() returns (r: int)
      requires Sound()
      modifies this, nameAddr
      ensures Sound() && reader == old(reader) && status == old(status) && nameAddr == old(nameAddr)
      ensures query.queryFlags == old(query.queryFlags) && query.queryAddr == old(query.queryAddr)
      ensures old(reader.fd) < 0 ==> r == -EBADF && replies == old(replies)
      ensures old(reader.fd) >= 0 && old(replies) == [] ==> r == -ENOENT && replies == []
      ensures old(reader.fd) >= 0 && old(replies) != [] ==>
        r == Code(old(replies)[0]) && replies == old(replies)[1..] &&
        (old(replies)[0].Answer? ==> Carries(old(replies)[0]))
    {
      if reader.fd < 0 {
        return -EBADF;
      }
      if replies == [] {
        return -ENOENT;
      }
      var reply := replies[0];
      assert WellFormed(reply);
      replies := replies[1..];
      r := Code(reply);
      if reply.Answer? {
        query := query.(nameSize := |reply.name|, vmaStart := reply.vmaStart, vmaEnd := reply.vmaEnd,
                        vmaFlags := reply.vmaFlags, vmaOffset := reply.vmaOffset, devMajor := reply.devMajor,
                        devMinor := reply.devMinor, inode := reply.inode);
        forall i | 0 <= i < |reply.name| {
          nameAddr[i] := reply.name[i];
        }
      }
    }

    /** The query, retried while it is interrupted. */
    method QueryRetrying() returns (r: int)
      requires Sound()
      modifies this, nameAddr
      ensures Sound() && reader == old(reader) && status == old(status) && nameAddr == old(nameAddr)
      ensures query.queryFlags == old(query.queryFlags) && query.queryAddr == old(query.queryAddr)
      ensures r == Code(Attempt(old(reader.fd), old(replies))) && replies == AttemptRest(old(reader.fd), old(replies))
      ensures Attempt(old(reader.fd), old(replies)).Answer? ==> Carries(Attempt(old(reader.fd), old(replies)))
    {
      r := RawIoctl();
      while r == -FR.EINTR
        invariant Sound() && reader == old(reader) && status == old(status) && nameAddr == old(nameAddr)
        invariant query.queryFlags == old(query.queryFlags) && query.queryAddr == old(query.queryAddr)
        invariant r == -FR.EINTR ==>
          reader.fd >= 0 && IoctlReply(replies) == IoctlReply(old(replies)) && IoctlRest(replies) == IoctlRest(old(replies))
        invariant r != -FR.EINTR ==>
          r == Code(Attempt(old(reader.fd), old(replies))) && replies == AttemptRest(old(reader.fd), old(replies)) &&
          (Attempt(old(reader.fd), old(replies)).Answer? ==> Carries(Attempt(old(reader.fd), old(replies))))
        decreases |replies| + (if r == -FR.EINTR then 1 else 0)
      {
        r := RawIoctl();
      }
    }

    /** The text loop: lines until one is accepted, or the input, an
        empty line or a zero address ends it. */
    method TextPath() returns (entry: Option<VmaEntry>)
      requires Sound()
      modifies reader, reader.buffer
      ensures Sound() && reader.fd == old(reader.fd)
      ensures TextResult(entry, reader.Pending()) == TextOf(old(reader.fd), old(reader.Pending()), reader.capacity, query.queryFlags)
    {
      ghost var goal := TextOf(reader.fd, reader.Pending(), reader.capacity, query.queryFlags);
      while true
        invariant Sound() && reader.fd == old(reader.fd)
        invariant TextOf(reader.fd, reader.Pending(), reader.capacity, query.queryFlags) == goal
        decreases |reader.Pending()|
      {
        ghost var p := reader.Pending();
        TextOfLine(reader.fd, p, reader.capacity, query.queryFlags);
        var line, _ := reader.NextLine();
        if line.None? {
          return None;
        }
        var verdict := ParseTextLine(line.value, query.queryFlags);
        match verdict
        case Stop =>
          return None;
        case Skip =>
        case Found(e) =>
          return Some(e);
      }
    }

    /** The query part of NextEntry. The entry's name is read from
        name_buffer_, where the kernel has put it only when `nameAddr` is
        that buffer; otherwise name_buffer_ keeps its old bytes behind
        the NUL written first. */
    method TryQuery() returns (done: bool, entry: Option<VmaEntry>)
      requires Sound() && status == TryIoctl && !gate.failed
      modifies this, nameBuffer, nameAddr, gate
      ensures Sound() && reader == old(reader) && nameAddr == old(nameAddr) && query.queryFlags == old(query.queryFlags)
      ensures done == QueryStep(old(Snap())).Done? && Snap() == QueryStep(old(Snap())).state
      ensures done && old(nameAddr) == nameBuffer ==> entry == QueryStep(old(Snap())).entry
      ensures done && old(nameAddr) != nameBuffer ==>
        entry.Some? == QueryStep(old(Snap())).entry.Some? &&
        (entry.Some? ==>
          var a := Attempt(old(reader.fd), old(replies));
          a.Answer? && |a.name| <= NAME_BUFFER_SIZE &&
          entry == Some(AnswerEntry(a).(name := nameBuffer[..|EntryName(a.name)|])) &&
          nameBuffer[0] == '\0' && nameBuffer[1..] == old(nameBuffer[1..]))
    {
      ghost var s := Snap();
      ghost var a := Attempt(reader.fd, replies);
      IoctlRestWellFormed(replies);
      query := query.(nameSize := NAME_BUFFER_SIZE);
      nameBuffer[0] := '\0';
      ghost var named := nameBuffer[..];
      var r := QueryRetrying();
      assert WellFormed(a);
      if r == 0 {
        query := query.(queryAddr := query.vmaEnd);
        var nameSize := query.nameSize;
        if nameSize > 0 {
          nameSize := nameSize - 1;
        }
        if nameAddr == nameBuffer {
          assert nameBuffer[..nameSize] == EntryName(a.name);
        } else {
          assert nameBuffer[..] == named;
        }
        return true, Some(VmaEntry(query.vmaStart, query.vmaEnd, query.vmaFlags, query.vmaOffset, query.devMajor,
                                   query.devMinor, query.inode, nameBuffer[..nameSize]));
      } else if r == -ENOENT {
        status := Completed;
        return true, None;
      } else {
        if r == -EACCES || r == -ENODEV {
          gate.failed := true;
        }
        status := ParseText;
        return false, None;
      }
    }

    /** NextEntry: as NextSpec says, but for the name, which is read from
        name_buffer_ (see TryQuery). */
    method NextEntry() returns (entry: Option<VmaEntry>)
      requires Sound()
      modifies this, reader, reader.buffer, nameBuffer, nameAddr, gate
      ensures Sound() && reader == old(reader) && nameAddr == old(nameAddr) && query.queryFlags == old(query.queryFlags)
      ensures Snap() == NextSpec(old(Snap()), reader.capacity, query.queryFlags).1
      ensures old(nameAddr) == nameBuffer ==> entry == NextSpec(old(Snap()), reader.capacity, query.queryFlags).0
      ensures entry.Some? == NextSpec(old(Snap()), reader.capacity, query.queryFlags).0.Some?
      ensures old(nameAddr) != nameBuffer && old(status) == TryIoctl && !old(gate.failed) &&
              Attempt(old(reader.fd), old(replies)).Answer? ==>
        var a := Attempt(old(reader.fd), old(replies));
        |a.name| <= NAME_BUFFER_SIZE && entry == Some(AnswerEntry(a).(name := nameBuffer[..|EntryName(a.name)|])) &&
        nameBuffer[0] == '\0' && nameBuffer[1..] == old(nameBuffer[1..])
    {
      if status == Completed {
        return None;
      }
      if !gate.failed && status == TryIoctl {
        var done;
        done, entry := TryQuery();
        if done {
          return;
        }
      }
      entry := TextPath();
      if entry.None? {
        status := Completed;
      }
    }
  
    /** operator=(MapsParser&&), with the query's name address pointing
        at this parser's own buffer: take over the other's reader (the
        other is left with a closed one), status, name bytes and query. */
    method MoveAssign(other: MapsParser)
      requires Valid() && other.Valid() && other.reader.buffer != nameBuffer
      modifies this, nameBuffer, other
      ensures Valid() && other.Valid() && nameAddr == nameBuffer
      ensures other == this ==>
        reader == old(reader) && status == old(status) && query == old(query) && replies == old(replies) &&
        nameBuffer[..] == old(nameBuffer[..])
      ensures other != this ==>
        reader == old(other.reader) && status == old(other.status) && query == old(other.query) &&
        replies == old(other.replies) && nameBuffer[..] == old(other.nameBuffer[..]) &&
        fresh(other.reader) && other.reader.fd < 0 && other.replies == [] && other.status == old(other.status) &&
        other.query == old(other.query) && other.nameAddr == old(other.nameAddr)
    {
      if other == this {
        return;
      }
      var closed := new FR.FileReader(-1, [], [], other.reader.capacity);
      reader := other.reader;
      other.reader := closed;
      status := other.status;
      forall i | 0 <= i < nameBuffer.Length {
        nameBuffer[i] := other.nameBuffer[i];
      }
      query := other.query;
      replies := other.replies;
      other.replies := [];
    }

    /** operator=(MapsParser&&) as written: the query is copied with its
        name address, which goes on pointing at the other parser's
        buffer. */
    method MoveAssignAsWritten(other: MapsParser)
      requires Valid() && other.Valid() && other != this && other.nameBuffer != nameBuffer
      requires other.reader.buffer != nameBuffer
      modifies this, nameBuffer, other
      ensures Sound() && other.Valid() && !Valid() && nameAddr == other.nameBuffer
      ensures reader == old(other.reader) && status == old(other.status) && query == old(other.query) &&
        replies == old(other.replies) && nameBuffer[..] == old(other.nameBuffer[..]) &&
        fresh(other.reader) && other.reader.fd < 0 && other.replies == []
    {
      var closed := new FR.FileReader(-1, [], [], other.reader.capacity);
      reader := other.reader;
      other.reader := closed;
      status := other.status;
      forall i | 0 <= i < nameBuffer.Length {
        nameBuffer[i] := other.nameBuffer[i];
      }
      query := other.query;
      nameAddr := other.nameAddr;
      replies := other.replies;
      other.replies := [];
    }

    /** MapsParser(MapsParser&&), with the query's name address pointing
        at the new parser's own buffer. */
    constructor MoveFrom(other: MapsParser)
      requires other.Valid()
      modifies other
      ensures Valid() && other.Valid() && fresh(nameBuffer) && nameAddr == nameBuffer
      ensures reader == old(other.reader) && status == old(other.status) && query == old(other.query) &&
        replies == old(other.replies) && gate == other.gate && nameBuffer[..] == old(other.nameBuffer[..]) &&
        fresh(other.reader) && other.reader.fd < 0 && other.replies == [] && other.status == old(other.status) &&
        other.query == old(other.query) && other.nameAddr == old(other.nameAddr)
    {
      reader := other.reader;
      status := other.status;
      nameBuffer := new char[NAME_BUFFER_SIZE];
      query := other.query;
      replies := other.replies;
      gate := other.gate;
      new;
      nameAddr := nameBuffer;
      forall i | 0 <= i < nameBuffer.Length {
        nameBuffer[i] := other.nameBuffer[i];
      }
      var closed := new FR.FileReader(-1, [], [], other.reader.capacity);
      other.reader := closed;
      other.replies := [];
    }

    /** MapsParser(MapsParser&&) as written: the name address still
        points at the other parser's buffer. */
    constructor MoveFromAsWritten(other: MapsParser)
      requires other.Valid()
      modifies other
      ensures Sound() && other.Valid() && !Valid() && fresh(nameBuffer) && nameAddr == other.nameBuffer
      ensures reader == old(other.reader) && status == old(other.status) && query == old(other.query) &&
        replies == old(other.replies) && gate == other.gate && nameBuffer[..] == old(other.nameBuffer[..]) &&
        fresh(other.reader) && other.reader.fd < 0 && other.replies == []
    {
      reader := other.reader;
      status := other.status;
      nameBuffer := new char[NAME_BUFFER_SIZE];
      query := other.query;
      replies := other.replies;
      gate := other.gate;
      new;
      nameAddr := other.nameAddr;
      forall i | 0 <= i < nameBuffer.Length {
        nameBuffer[i] := other.nameBuffer[i];
      }
      var closed := new FR.FileReader(-1, [], [], other.reader.capacity);
      other.reader := closed;
      other.replies := [];
    }

    /** IsValid(): the reader has an open descriptor. */
    predicate IsValid()
      reads this, reader
    {
      reader.fd >= 0
    }
  }

  /** A parser moved from as written reports a name the kernel never
      gave: the kernel copies "/a" into the old parser's buffer while
      NextEntry reads its own, which starts with the NUL it wrote. */
  method MovedParserLosesName() returns (entry: Option<VmaEntry>)
    ensures entry.Some? && |entry.value.name| == 2 && entry.value.name[0] == '\0'
  {
    var gate := new QueryGate();
    var r1 := new FR.FileReader(3, [], [], 16);
    var source := new MapsParser(0, r1, [Answer(1, 2, 1, 0, 0, 0, 0, "/a\0")], gate);
    var r2 := new FR.FileReader(4, [], [], 16);
    var target := new MapsParser(0, r2, [], gate);
    target.MoveAssignAsWritten(source);
    ghost var a := Attempt(target.reader.fd, target.replies);
    assert a == Answer(1, 2, 1, 0, 0, 0, 0, "/a\0");
    assert |EntryName(a.name)| == 2;
    entry := target.NextEntry();
  }

  /** The same move as the corrected operator= keeps the kernel's name. */
  method MovedParserKeepsName() returns (entry: Option<VmaEntry>)
    ensures entry == Some(VmaEntry(1, 2, 1, 0, 0, 0, 0, "/a"))
  {
    var gate := new QueryGate();
    var r1 := new FR.FileReader(3, [], [], 16);
    var source := new MapsParser(0, r1, [Answer(1, 2, 1, 0, 0, 0, 0, "/a\0")], gate);
    var r2 := new FR.FileReader(4, [], [], 16);
    var target := new MapsParser(0, r2, [], gate);
    target.MoveAssign(source);
    ghost var a := Attempt(target.reader.fd, target.replies);
    assert a == Answer(1, 2, 1, 0, 0, 0, 0, "/a\0");
    EntryNameOfTerminated("/a");
    assert AnswerEntry(a) == VmaEntry(1, 2, 1, 0, 0, 0, 0, "/a");
    NextSpecAnswer(target.Snap(), target.reader.capacity, target.query.queryFlags);
    entry := target.NextEntry();
  }
}
