/**
 * The WASI preview-1 functions the IDE hands to a compiled C/C++ program, acting on the
 * program's linear memory. Both the inline runner and the worker runner use the same write
 * path and the same stubs; they differ in where `fd_read` takes its bytes from.
 *
 * Pointers and lengths arrive as signed 32-bit numbers. Any `DataView` or typed-array access
 * outside the memory raises a `RangeError`, which leaves the import as a thrown exception and
 * ends the program as a trap.
 */
module Wasi {
  import opened Bytes
  import opened Wrappers

  /** What leaves an import by `throw`: the `proc_exit` signal or an out-of-bounds access. */
  datatype Thrown = ExitSignal(code: int) | RangeFault

  /** How an import call ends: a returned errno, or an exception. */
  datatype Outcome = Returned(errno: int) | Threw(thrown: Thrown)

  /** One piece of program output, routed to stderr exactly when the descriptor is 2. */
  datatype Chunk = Chunk(fd: int, bytes: seq<Byte>) {
    predicate ToStderr() { fd == 2 }
  }

  // errno values the stubs return
  const ESUCCESS := 0
  const EBADF := 8
  const EINVAL := 28
  const ESPIPE := 70

  /** The file type `fd_fdstat_get` reports: character device for 0-2, regular file otherwise. */
  function FileType(fd: int): int {
    if fd < 3 then 2 else 4
  }

  predicate InBounds(m: seq<Byte>, p: int, width: nat) {
    0 <= p && p + width <= |m|
  }

  /** The buffer address and length of the `i`-th iovec starting at `iovs`, if its 8 bytes are readable. */
  function Iovec(m: seq<Byte>, iovs: int, i: nat): (r: Option<(nat, nat)>)
    ensures r.Some? <==> InBounds(m, iovs + 8 * i, 8)
  {
    if InBounds(m, iovs + 8 * i, 8) then Some((Get32(m, iovs + 8 * i), Get32(m, iovs + 8 * i + 4))) else None
  }

  // ---- fd_write: gather ----

  /** The bytes of the `i`-th iovec, or `None` when the iovec or its buffer lies outside memory. */
  function Region(m: seq<Byte>, iovs: int, i: nat): (r: Option<seq<Byte>>)
    ensures r.Some? ==> Iovec(m, iovs, i).Some? && |r.value| == Iovec(m, iovs, i).value.1
  {
    match Iovec(m, iovs, i)
    case None => None
    case Some((b, l)) => if b + l <= |m| then Some(m[b..b + l]) else None
  }

  /** The concatenated bytes of the first `k` iovecs, or `None` if any of them faults. */
  function Regions(m: seq<Byte>, iovs: int, k: nat): Option<seq<Byte>> {
    if k == 0 then Some([])
    else match Regions(m, iovs, k - 1)
      case None => None
      case Some(front) =>
        match Region(m, iovs, k - 1)
        case None => None
        case Some(r) => Some(front + r)
  }

  /** What the gather loop of `fd_write` collects; a non-positive count gathers nothing. */
  function Gather(m: seq<Byte>, iovs: int, n: int): Option<seq<Byte>> {
    if n <= 0 then Some([]) else Regions(m, iovs, n)
  }

  /** The sum of the lengths of the first `k` iovecs. */
  function TotalLength(m: seq<Byte>, iovs: int, k: nat): nat
    requires forall i :: 0 <= i < k ==> Iovec(m, iovs, i).Some?
  {
    if k == 0 then 0 else TotalLength(m, iovs, k - 1) + Iovec(m, iovs, k - 1).value.1
  }

  /** Gathering succeeds exactly when every iovec and every buffer lies inside memory. */
  lemma {:induction false} RegionsSucceedIff(m: seq<Byte>, iovs: int, k: nat)
    ensures Regions(m, iovs, k).Some? <==> RegionsOk(m, iovs, k)
  {
    if k > 0 {
      RegionsSucceedIff(m, iovs, k - 1);
      RegionsNext(m, iovs, k - 1);
      AllRegionsSplit(m, iovs, k);
    }
  }

  /** Every one of the first `k` iovecs and its buffer lies inside memory. */
  predicate RegionsOk(m: seq<Byte>, iovs: int, k: nat) {
    forall i :: 0 <= i < k ==> Region(m, iovs, i).Some?
  }

  lemma AllRegionsSplit(m: seq<Byte>, iovs: int, k: nat)
    requires k > 0
    ensures RegionsOk(m, iovs, k) <==> RegionsOk(m, iovs, k - 1) && Region(m, iovs, k - 1).Some?
  {
  }

  /** The count `fd_write` stores is the number of bytes it gathered. */
  lemma {:induction false} RegionsLength(m: seq<Byte>, iovs: int, k: nat)
    requires Regions(m, iovs, k).Some?
    ensures forall i :: 0 <= i < k ==> Iovec(m, iovs, i).Some?
    ensures |Regions(m, iovs, k).value| == TotalLength(m, iovs, k)
  {
    RegionsSucceedIff(m, iovs, k);
    if k > 0 {
      RegionsLength(m, iovs, k - 1);
    }
  }

  /** `fd_write` over one iovec writes exactly that buffer. */
  lemma SingleRegion(m: seq<Byte>, iovs: int, b: nat, l: nat)
    requires InBounds(m, iovs, 8) && Get32(m, iovs) == b && Get32(m, iovs + 4) == l
    requires b + l <= |m|
    ensures Gather(m, iovs, 1) == Some(m[b..b + l])
  {
    assert Iovec(m, iovs, 0) == Some((b, l));
    assert Region(m, iovs, 0) == Some(m[b..b + l]);
    assert Regions(m, iovs, 0) == Some([]);
    assert [] + m[b..b + l] == m[b..b + l];
  }

  lemma RegionsNext(m: seq<Byte>, iovs: int, i: nat)
    ensures Regions(m, iovs, i + 1) ==
      if Regions(m, iovs, i).None? || Region(m, iovs, i).None? then None
      else Some(Regions(m, iovs, i).value + Region(m, iovs, i).value)
  {
  }

  /** A fault in one iovec makes the whole gather fault. */
  lemma {:induction false} RegionsFaultPersists(m: seq<Byte>, iovs: int, i: nat, k: nat)
    requires i <= k && Regions(m, iovs, i).None?
    ensures Regions(m, iovs, k).None?
    decreases k
  {
    if k > i {
      RegionsFaultPersists(m, iovs, i, k - 1);
    }
  }

  /** The gather loop of `fd_write`, reading every iovec in turn. */
  method GatherIovecs(mem: array<Byte>, iovs: int, n: int) returns (r: Option<seq<Byte>>)
    ensures r == Gather(mem[..], iovs, n)
  {
    r := GatherFrom(mem[..], iovs, n);
  }

  /** The loop itself, over the memory as it stands while `fd_write` runs. */
  method GatherFrom(m: seq<Byte>, iovs: int, n: int) returns (r: Option<seq<Byte>>)
    ensures r == Gather(m, iovs, n)
  {
    if n <= 0 {
      return Some([]);
    }
    var out: seq<Byte> := [];
    var i: nat := 0;
    while i < n
      invariant i <= n
      invariant Regions(m, iovs, i) == Some(out)
    {
      var piece := Region(m, iovs, i);
      GatherStep(m, iovs, i, n, out, piece);
      if piece.None? {
        return None;
      }
      out := out + piece.value;
      i := i + 1;
    }
    r := Some(out);
  }

  /** What one iteration of the gather loop contributes. */
  lemma GatherStep(m: seq<Byte>, iovs: int, i: nat, n: nat, out: seq<Byte>, piece: Option<seq<Byte>>)
    requires i < n && Regions(m, iovs, i) == Some(out) && piece == Region(m, iovs, i)
    ensures piece.Some? ==> Regions(m, iovs, i + 1) == Some(out + piece.value)
    ensures piece.None? ==> Gather(m, iovs, n) == None
  {
    RegionsNext(m, iovs, i);
    if piece.None? {
      RegionsFaultPersists(m, iovs, i + 1, n);
    }
  }

  // ---- fd_read: scatter ----

  /** The state of a read loop: memory, position in the source, bytes delivered, and whether it threw. */
  datatype ReadState = ReadState(mem: seq<Byte>, pos: nat, tot: nat, fault: bool)

  /** Whether the loop goes on to iovec `i`: the worker's loop also stops once the line is used up. */
  predicate Continues(s: ReadState, src: seq<Byte>, early: bool) {
    !s.fault && !(early && s.pos >= |src|)
  }

  /** One iteration: copy the next at most `len` source bytes to the iovec's buffer. */
  function ReadStep(s: ReadState, src: seq<Byte>, iovs: int, i: nat, early: bool): (r: ReadState)
    requires s.pos <= |src| && |s.mem| > 0
    ensures r.pos <= |src| && |r.mem| == |s.mem|
    ensures r.pos - r.tot == s.pos - s.tot
  {
    if !Continues(s, src, early) then s
    else match Iovec(s.mem, iovs, i)
      case None => s.(fault := true)
      case Some((b, l)) =>
        var k := if s.pos + l <= |src| then l else |src| - s.pos;
        var chunk := src[s.pos..s.pos + k];
        if b + k > |s.mem| then s.(fault := true)
        else s.(mem := s.mem[..b] + chunk + s.mem[b + k..], pos := s.pos + k, tot := s.tot + k)
  }

  /** The state after the first `k` iterations. */
  function ReadUpTo(m: seq<Byte>, src: seq<Byte>, iovs: int, k: nat, pos0: nat, early: bool): (r: ReadState)
    requires pos0 <= |src| && |m| > 0
    ensures r.pos <= |src| && |r.mem| == |m| && r.pos == pos0 + r.tot
  {
    if k == 0 then ReadState(m, pos0, 0, false)
    else ReadStep(ReadUpTo(m, src, iovs, k - 1, pos0, early), src, iovs, k - 1, early)
  }

  /** Both read loops, `n` being the iovec count; a non-positive count reads nothing. */
  function Scatter(m: seq<Byte>, src: seq<Byte>, iovs: int, n: int, pos0: nat, early: bool): ReadState
    requires pos0 <= |src| && |m| > 0
  {
    if n <= 0 then ReadState(m, pos0, 0, false) else ReadUpTo(m, src, iovs, n, pos0, early)
  }

  lemma ReadUpToNext(m: seq<Byte>, src: seq<Byte>, iovs: int, i: nat, pos0: nat, early: bool)
    requires pos0 <= |src| && |m| > 0
    ensures ReadUpTo(m, src, iovs, i + 1, pos0, early) == ReadStep(ReadUpTo(m, src, iovs, i, pos0, early), src, iovs, i, early)
  {
  }

  /** Once the loop has stopped, later iterations change nothing. */
  lemma {:induction false} StoppedStaysStopped(m: seq<Byte>, src: seq<Byte>, iovs: int, i: nat, k: nat, pos0: nat, early: bool)
    requires pos0 <= |src| && |m| > 0 && i <= k
    requires !Continues(ReadUpTo(m, src, iovs, i, pos0, early), src, early)
    ensures ReadUpTo(m, src, iovs, k, pos0, early) == ReadUpTo(m, src, iovs, i, pos0, early)
    decreases k
  {
    if k > i {
      StoppedStaysStopped(m, src, iovs, i, k - 1, pos0, early);
      ReadUpToNext(m, src, iovs, k - 1, pos0, early);
      StoppedStep(ReadUpTo(m, src, iovs, k - 1, pos0, early), src, iovs, k - 1, early);
    }
  }

  lemma StoppedStep(s: ReadState, src: seq<Byte>, iovs: int, i: nat, early: bool)
    requires s.pos <= |src| && |s.mem| > 0 && !Continues(s, src, early)
    ensures ReadStep(s, src, iovs, i, early) == s
  {
  }

  /**
   * Reads take the source in order and never beyond its end: the delivered count is how far
   * the position moved, and at the end of the source nothing more is delivered.
   */
  lemma ReadAtEndDeliversNothing(m: seq<Byte>, src: seq<Byte>, iovs: int, n: int, early: bool)
    requires |m| > 0
    ensures Scatter(m, src, iovs, n, |src|, early).tot == 0
    ensures Scatter(m, src, iovs, n, |src|, early).pos == |src|
  {
  }

  /** One iovec that fits: its buffer receives the next bytes of the source, as many as it holds or remain. */
  lemma SingleIovecRead(m: seq<Byte>, src: seq<Byte>, iovs: int, pos0: nat, b: nat, l: nat, early: bool)
    requires |m| > 0 && pos0 <= |src|
    requires InBounds(m, iovs, 8) && Get32(m, iovs) == b && Get32(m, iovs + 4) == l
    requires !(early && pos0 >= |src|)
    requires var k := if pos0 + l <= |src| then l else |src| - pos0; b + k <= |m|
    ensures var k := if pos0 + l <= |src| then l else |src| - pos0;
      var s := Scatter(m, src, iovs, 1, pos0, early);
      && !s.fault && s.tot == k && s.pos == pos0 + k
      && s.mem[b..b + k] == src[pos0..pos0 + k]
      && s.mem[..b] == m[..b] && s.mem[b + k..] == m[b + k..]
  {
    var k := if pos0 + l <= |src| then l else |src| - pos0;
    var s0 := ReadState(m, pos0, 0, false);
    assert Iovec(m, iovs, 0) == Some((b, l));
    ScatterOnce(m, src, iovs, pos0, early);
    ReadStepCopies(s0, src, iovs, 0, early, b, l);
    SpliceParts(m, b, src[pos0..pos0 + k]);
  }

  lemma ScatterOnce(m: seq<Byte>, src: seq<Byte>, iovs: int, pos0: nat, early: bool)
    requires |m| > 0 && pos0 <= |src|
    ensures Scatter(m, src, iovs, 1, pos0, early) == ReadStep(ReadState(m, pos0, 0, false), src, iovs, 0, early)
  {
    ReadUpToNext(m, src, iovs, 0, pos0, early);
  }

  /** The parts of a memory with `chunk` copied in at `b`. */
  lemma SpliceParts(m: seq<Byte>, b: nat, chunk: seq<Byte>)
    requires b + |chunk| <= |m|
    ensures var r := m[..b] + chunk + m[b + |chunk|..];
      |r| == |m| && r[b..b + |chunk|] == chunk && r[..b] == m[..b] && r[b + |chunk|..] == m[b + |chunk|..]
  {
    var r := m[..b] + chunk + m[b + |chunk|..];
    assert r[..b] == m[..b];
    assert r[b..b + |chunk|] == chunk;
    assert r[b + |chunk|..] == m[b + |chunk|..];
  }

  lemma ReadStepCopies(s: ReadState, src: seq<Byte>, iovs: int, i: nat, early: bool, b: nat, l: nat)
    requires s.pos <= |src| && |s.mem| > 0 && Continues(s, src, early)
    requires Iovec(s.mem, iovs, i) == Some((b, l))
    requires var k := if s.pos + l <= |src| then l else |src| - s.pos; b + k <= |s.mem|
    ensures var k := if s.pos + l <= |src| then l else |src| - s.pos;
      ReadStep(s, src, iovs, i, early) ==
        ReadState(s.mem[..b] + src[s.pos..s.pos + k] + s.mem[b + k..], s.pos + k, s.tot + k, false)
  {
  }

  /** Copy `chunk` into memory at `p`, as `Uint8Array.set(chunk, p)` does once it is known to fit. */
  method Patch(mem: array<Byte>, p: nat, chunk: seq<Byte>)
    requires p + |chunk| <= mem.Length
    modifies mem
    ensures mem[..] == old(mem[..])[..p] + chunk + old(mem[..])[p + |chunk|..]
  {
    ghost var m0 := mem[..];
    forall j | 0 <= j < |chunk| {
      mem[p + j] := chunk[j];
    }
    assert mem[..] == m0[..p] + chunk + m0[p + |chunk|..] by {
      assert forall j :: 0 <= j < mem.Length ==> mem[j] == (m0[..p] + chunk + m0[p + |chunk|..])[j];
    }
  }

  /** One iteration of the scatter loop, on a state that has not stopped. */
  method ReadOne(mem: array<Byte>, src: seq<Byte>, iovs: int, i: nat, pos: nat, tot: nat, early: bool)
    returns (pos': nat, tot': nat, fault: bool)
    requires pos <= |src| && mem.Length > 0 && !(early && pos >= |src|)
    modifies mem
    ensures var s := ReadStep(ReadState(old(mem[..]), pos, tot, false), src, iovs, i, early);
      mem[..] == s.mem && pos' == s.pos && tot' == s.tot && fault == s.fault
  {
    ghost var s0 := ReadState(old(mem[..]), pos, tot, false);
    pos', tot', fault := pos, tot, true;
    var iov := Iovec(mem[..], iovs, i);
    if iov.Some? {
      var b, l := iov.value.0, iov.value.1;
      var k := if pos + l <= |src| then l else |src| - pos;
      if b + k <= mem.Length {
        var chunk := src[pos..pos + k];
        assert |chunk| == k;
        Patch(mem, b, chunk);
        CopiedStep(s0, src, iovs, i, early, b, l, mem[..]);
        pos', tot', fault := pos + k, tot + k, false;
      } else {
        ReadStepOverflows(s0, src, iovs, i, early, b, l);
      }
    }
  }

  /** The step that copies, stated for the memory `after` the copy. */
  lemma CopiedStep(s: ReadState, src: seq<Byte>, iovs: int, i: nat, early: bool, b: nat, l: nat, after: seq<Byte>)
    requires s.pos <= |src| && |s.mem| > 0 && Continues(s, src, early)
    requires Iovec(s.mem, iovs, i) == Some((b, l))
    requires var k := if s.pos + l <= |src| then l else |src| - s.pos;
      b + k <= |s.mem| && after == s.mem[..b] + src[s.pos..s.pos + k] + s.mem[b + k..]
    ensures var k := if s.pos + l <= |src| then l else |src| - s.pos;
      ReadStep(s, src, iovs, i, early) == ReadState(after, s.pos + k, s.tot + k, false)
  {
    ReadStepCopies(s, src, iovs, i, early, b, l);
  }

  /** The iovec is readable but its buffer does not hold the chunk: the step throws, memory untouched. */
  lemma ReadStepOverflows(s: ReadState, src: seq<Byte>, iovs: int, i: nat, early: bool, b: nat, l: nat)
    requires s.pos <= |src| && |s.mem| > 0 && Continues(s, src, early)
    requires Iovec(s.mem, iovs, i) == Some((b, l))
    requires var k := if s.pos + l <= |src| then l else |src| - s.pos; b + k > |s.mem|
    ensures ReadStep(s, src, iovs, i, early) == s.(fault := true)
  {
  }

  /** The scatter loop shared by both `fd_read`s; `early` selects the worker's stop-at-end-of-line test. */
  method ScatterIovecs(mem: array<Byte>, src: seq<Byte>, iovs: int, n: int, pos0: nat, early: bool)
    returns (pos: nat, tot: nat, fault: bool)
    requires pos0 <= |src| && mem.Length > 0
    modifies mem
    ensures ReadState(mem[..], pos, tot, fault) == Scatter(old(mem[..]), src, iovs, n, pos0, early)
  {
    if n <= 0 {
      return pos0, 0, false;
    }
    ghost var m0 := mem[..];
    pos, tot, fault := ScatterUntilStopped(mem, src, iovs, n, pos0, early);
    assert Scatter(m0, src, iovs, n, pos0, early) == ReadUpTo(m0, src, iovs, n, pos0, early);
  }

  /** The loop itself: it ends after the last iovec or as soon as the read stops, which leaves the rest undone. */
  method ScatterUntilStopped(mem: array<Byte>, src: seq<Byte>, iovs: int, n: nat, pos0: nat, early: bool)
    returns (pos: nat, tot: nat, fault: bool)
    requires pos0 <= |src| && mem.Length > 0
    modifies mem
    ensures ReadUpTo(old(mem[..]), src, iovs, n, pos0, early) == ReadState(mem[..], pos, tot, fault)
  {
    pos, tot, fault := pos0, 0, false;
    ghost var m0 := mem[..];
    var i := 0;
    while i < n && !fault && !(early && pos >= |src|)
      invariant i <= n
      invariant ReadUpTo(m0, src, iovs, i, pos0, early) == ReadState(mem[..], pos, tot, fault)
    {
      ReadUpToNext(m0, src, iovs, i, pos0, early);
      pos, tot, fault := ReadOne(mem, src, iovs, i, pos, tot, early);
      i := i + 1;
    }
    LoopExit(m0, src, iovs, i, n, pos0, early, ReadState(mem[..], pos, tot, fault));
  }

  /** Where the scatter loop leaves off, the remaining iterations would have changed nothing. */
  lemma LoopExit(m: seq<Byte>, src: seq<Byte>, iovs: int, i: nat, n: nat, pos0: nat, early: bool, s: ReadState)
    requires pos0 <= |src| && |m| > 0 && i <= n
    requires s == ReadUpTo(m, src, iovs, i, pos0, early) && (i == n || !Continues(s, src, early))
    ensures ReadUpTo(m, src, iovs, n, pos0, early) == s
  {
    if i < n {
      StoppedStaysStopped(m, src, iovs, i, n, pos0, early);
    }
  }

  /** `setUint32(p, v, true)` on the memory. */
  method Store32(mem: array<Byte>, p: nat, v: int)
    requires p + 4 <= mem.Length
    modifies mem
    ensures mem[..] == Put32(old(mem[..]), p, v)
  {
    Patch(mem, p, LE32(v));
  }

  // ---- the parts both runners share ----

  /**
   * The effect `fd_write` has on memory and output: `None` for the output when it throws
   * (nothing is printed), otherwise one chunk of all the gathered bytes, after the byte count
   * is stored, modulo 2^32, at `nw`.
   */
  function WriteEffect(m: seq<Byte>, fd: int, iovs: int, n: int, nw: int): (r: (Outcome, seq<Byte>, Option<Chunk>))
    ensures r.0 == Returned(ESUCCESS) || r.0 == Threw(RangeFault)
    ensures r.0.Threw? ==> r.1 == m && r.2 == None
    ensures r.0.Returned? <==> Gather(m, iovs, n).Some? && InBounds(m, nw, 4)
    ensures r.0.Returned? ==>
      r.2 == Some(Chunk(fd, Gather(m, iovs, n).value)) && r.1 == Put32(m, nw, |Gather(m, iovs, n).value|)
  {
    match Gather(m, iovs, n)
    case None => (Threw(RangeFault), m, None)
    case Some(bs) =>
      if InBounds(m, nw, 4) then (Returned(ESUCCESS), Put32(m, nw, |bs|), Some(Chunk(fd, bs)))
      else (Threw(RangeFault), m, None)
  }

  /** After a successful `fd_write` the word at `nw` reads back as the number of bytes written. */
  lemma WriteReportsCount(m: seq<Byte>, fd: int, iovs: int, n: int, nw: int)
    requires WriteEffect(m, fd, iovs, n, nw).0.Returned?
    ensures var r := WriteEffect(m, fd, iovs, n, nw);
      Get32(r.1, nw) == |r.2.value.bytes| % TWO32
  {
    var bs := Gather(m, iovs, n).value;
    GetPut32(m, nw, |bs|);
  }

  /** How a run ends: `proc_exit`'s code, 0 when `_start` returns, or 1 plus a trap message for any other exception. */
  function Settle(thrown: Option<Thrown>, exitCode: int, message: string): (r: (int, Option<string>))
    ensures thrown.None? ==> r == (exitCode, None)
    ensures thrown.Some? && thrown.value.ExitSignal? ==> r == (exitCode, None)
    ensures thrown.Some? && thrown.value.RangeFault? ==> r.0 == 1 && r.1.Some?
  {
    match thrown
    case None => (exitCode, None)
    case Some(ExitSignal(_)) => (exitCode, None)
    case Some(RangeFault) => (1, Some("Runtime trap: " + message + "\n"))
  }

  /**
   * The WASI imports of one program instance: its linear memory, everything printed so far and
   * the exit code `proc_exit` recorded. `stdin` supplies `fd_read` in the inline runner.
   */
  class Instance {
    const mem: array<Byte>
    var output: seq<Chunk>
    var exitCode: int
    /** The inline runner's pre-collected input bytes and how far they have been read. */
    const stdinBytes: seq<Byte>
    var stdinPos: nat

    predicate Valid()
      reads this
    {
      mem.Length > 0 && stdinPos <= |stdinBytes|
    }

    /** A fresh instance of the inline runner, its input text encoded with a final line feed added if missing. */
    constructor(memory: array<Byte>, stdin: string)
      requires memory.Length > 0
      ensures Valid() && mem == memory && output == [] && exitCode == 0 && stdinPos == 0
      ensures stdinBytes == Utf8(PreparedStdin(stdin))
    {
      mem := memory;
      output := [];
      exitCode := 0;
      stdinBytes := Utf8(PreparedStdin(stdin));
      stdinPos := 0;
    }

    method FdWrite(fd: int, iovs: int, n: int, nw: int) returns (o: Outcome)
      requires Valid()
      modifies this`output, mem
      ensures Valid()
      ensures var r := WriteEffect(old(mem[..]), fd, iovs, n, nw);
        o == r.0 && mem[..] == r.1 && output == old(output) + (if r.2.Some? then [r.2.value] else [])
    {
      var g := GatherIovecs(mem, iovs, n);
      if g.None? || !(0 <= nw && nw + 4 <= mem.Length) {
        return Threw(RangeFault);
      }
      Store32(mem, nw, |g.value|);
      output := output + [Chunk(fd, g.value)];
      o := Returned(ESUCCESS);
    }

    /** The inline `fd_read`: whatever the descriptor, hand out the next pre-collected bytes. */
    method FdRead(fd: int, iovs: int, n: int, nr: int) returns (o: Outcome)
      requires Valid()
      modifies this`stdinPos, mem
      ensures Valid()
      ensures var s := Scatter(old(mem[..]), stdinBytes, iovs, n, old(stdinPos), false);
        && stdinPos == s.pos
        && (if !s.fault && InBounds(s.mem, nr, 4)
            then o == Returned(ESUCCESS) && mem[..] == Put32(s.mem, nr, s.tot)
            else o == Threw(RangeFault) && mem[..] == s.mem)
    {
      var pos, tot, fault := ScatterIovecs(mem, stdinBytes, iovs, n, stdinPos, false);
      stdinPos := pos;
      if fault || !(0 <= nr && nr + 4 <= mem.Length) {
        return Threw(RangeFault);
      }
      Store32(mem, nr, tot);
      o := Returned(ESUCCESS);
    }

    method ProcExit(code: int) returns (o: Outcome)
      modifies this`exitCode
      ensures exitCode == code && o == Threw(ExitSignal(code))
    {
      exitCode := code;
      o := Threw(ExitSignal(code));
    }

    /** The `catch` around `_start`: record the trap, if any, and settle the exit code. */
    method Finish(thrown: Option<Thrown>, message: string)
      modifies this`exitCode, this`output
      ensures var r := Settle(thrown, old(exitCode), message);
        exitCode == r.0 && output == old(output) + (if r.1.Some? then [Chunk(2, Utf8(r.1.value))] else [])
    {
      var r := Settle(thrown, exitCode, message);
      exitCode := r.0;
      if r.1.Some? {
        output := output + [Chunk(2, Utf8(r.1.value))];
      }
    }
  }

  /** The input the inline runner feeds: the collected text with a line feed appended unless it already ends in one. */
  function PreparedStdin(stdin: string): (s: string)
    ensures s != [] && s[|s| - 1] == '\n'
    ensures |s| - 1 <= |stdin| <= |s|
  {
    if |stdin| > 0 && stdin[|stdin| - 1] == '\n' then stdin else stdin + "\n"
  }

  // ---- the stubs, identical in both runners ----

  function FdClose(): int { ESUCCESS }
  function FdSeek(): int { ESPIPE }
  function FdPrestatGet(): int { EBADF }
  function FdPrestatDirName(): int { EINVAL }
  function PathOpen(): int { EBADF }

  /** `fd_fdstat_get(fd, p)`: the filetype byte at `p`, or a fault. */
  function FdstatEffect(m: seq<Byte>, fd: int, p: int): (r: (Outcome, seq<Byte>))
    ensures r.0.Returned? <==> InBounds(m, p, 1)
    ensures r.0.Returned? ==> r.1 == m[p := FileType(fd)] && r.0.errno == ESUCCESS
    ensures r.0.Threw? ==> r.1 == m
  {
    if InBounds(m, p, 1) then (Returned(ESUCCESS), m[p := FileType(fd)]) else (Threw(RangeFault), m)
  }

  /**
   * `args_sizes_get(c, b)` and `environ_sizes_get(c, b)`: store 0 at both, or fault. A fault
   * at `b` comes after the store at `c`, so the first word stays stored.
   */
  function SizesEffect(m: seq<Byte>, c: int, b: int): (r: (Outcome, seq<Byte>))
    ensures |r.1| == |m|
    ensures r.0.Returned? <==> InBounds(m, c, 4) && InBounds(m, b, 4)
    ensures r.0.Returned? ==> Get32(r.1, c) == 0 && Get32(r.1, b) == 0
    ensures r.0.Threw? ==> r.0 == Threw(RangeFault)
    ensures !InBounds(m, c, 4) ==> r.1 == m
    ensures InBounds(m, c, 4) && !InBounds(m, b, 4) ==> r.1 == Put32(m, c, 0)
    ensures InBounds(m, c, 4) && InBounds(m, b, 4) ==> r.1 == Put32(Put32(m, c, 0), b, 0)
  {
    if !InBounds(m, c, 4) then (Threw(RangeFault), m)
    else
      var m1 := Put32(m, c, 0);
      if !InBounds(m1, b, 4) then (Threw(RangeFault), m1)
      else
        var m2 := Put32(m1, b, 0);
        GetPut32(m1, b, 0);
        ZeroWordsStayZero(m1, c, b);
        (Returned(ESUCCESS), m2)
  }

  /** Storing a zero word keeps a zero word anywhere else zero, overlapping or not. */
  lemma ZeroWordsStayZero(m: seq<Byte>, c: int, b: int)
    requires InBounds(m, c, 4) && InBounds(m, b, 4) && c + 4 <= |m|
    requires m[c] == 0 && m[c + 1] == 0 && m[c + 2] == 0 && m[c + 3] == 0
    ensures Get32(Put32(m, b, 0), c) == 0
  {
    var r := Put32(m, b, 0);
    forall k | c <= k < c + 4 ensures r[k] == 0 {
      if k < b {
        assert r[k] == r[..b][k];
      } else if k < b + 4 {
        assert r[k] == LE32(0)[k - b];
      } else {
        assert r[k] == r[b + 4..][k - b - 4];
      }
    }
  }
}
