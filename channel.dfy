/**
 * The shared stdin buffer between the page and the worker that runs an interactive program,
 * and the worker's side of the protocol.
 *
 * The buffer is 1 MiB. Bytes 0-3 and 4-7 are two 32-bit control words: word 0 says whether
 * the worker is idle (0), waiting for a line (1) or has one ready (2); word 1 is the line's
 * byte length. The line itself starts at byte 8.
 *
 * A read on stdin stores 1 in word 0, tells the page it is waiting and blocks while word 0
 * is 1. The page writes the line, its length, then 2, and wakes the worker, which takes the
 * line, stores 0 and copies it into the program's buffers.
 */
module StdinChannel {
  import opened Bytes
  import opened Wrappers
  import opened Text
  import opened Wasi

  const BUFFER_SIZE: nat := 1048576
  const DATA_OFFSET: nat := 8
  const DATA_CAPACITY: nat := BUFFER_SIZE - DATA_OFFSET

  const IDLE: int := 0
  const WAITING: int := 1
  const READY: int := 2

  predicate IsBuffer(buf: seq<Byte>) {
    |buf| == BUFFER_SIZE
  }

  /** Control word `k` as the `Int32Array` view reads it. */
  function Ctrl(buf: seq<Byte>, k: nat): int
    requires IsBuffer(buf) && k < 2
  {
    AsInt32(Get32(buf, 4 * k))
  }

  /** `Atomics.store(ctrl, k, v)`. */
  function StoreCtrl(buf: seq<Byte>, k: nat, v: int): (r: seq<Byte>)
    requires IsBuffer(buf) && k < 2
    ensures IsBuffer(r)
  {
    Put32(buf, 4 * k, v)
  }

  /** The page's half of a hand-over: the line at byte 8, its length in word 1, then READY in word 0; `None` when the line does not fit. */
  function PostLine(buf: seq<Byte>, encoded: seq<Byte>): (r: Option<seq<Byte>>)
    requires IsBuffer(buf)
    ensures r.Some? <==> |encoded| <= DATA_CAPACITY
    ensures r.Some? ==> IsBuffer(r.value)
  {
    if |encoded| > DATA_CAPACITY then None
    else
      var withData := buf[..DATA_OFFSET] + encoded + buf[DATA_OFFSET + |encoded|..];
      Some(StoreCtrl(StoreCtrl(withData, 1, |encoded|), 0, READY))
  }

  /** What the worker takes: `dataBuf.slice(0, len)` with `len` read from word 1. */
  function TakeLine(buf: seq<Byte>): seq<Byte>
    requires IsBuffer(buf)
  {
    Slice(buf[DATA_OFFSET..], 0, Ctrl(buf, 1))
  }

  lemma SmallWord(v: int)
    requires 0 <= v < TWO31
    ensures AsInt32(v % TWO32) == v
  {
  }

  /**
   * A posted line is what the worker then takes: word 0 reads READY, word 1 the length,
   * and the bytes from offset 8 are the line.
   */
  lemma PostThenTake(buf: seq<Byte>, encoded: seq<Byte>)
    requires IsBuffer(buf) && |encoded| <= DATA_CAPACITY
    ensures var b := PostLine(buf, encoded).value;
      Ctrl(b, 0) == READY && Ctrl(b, 1) == |encoded| && TakeLine(b) == encoded
  {
    var withData := buf[..DATA_OFFSET] + encoded + buf[DATA_OFFSET + |encoded|..];
    var b1 := StoreCtrl(withData, 1, |encoded|);
    var b := StoreCtrl(b1, 0, READY);
    GetPut32(withData, 4, |encoded|);
    GetPut32(b1, 0, READY);
    GetPut32Other(b1, 0, 4, READY);
    SmallWord(|encoded|);
    SmallWord(READY);
    assert b[DATA_OFFSET..] == b1[DATA_OFFSET..] == withData[DATA_OFFSET..];
    assert withData[DATA_OFFSET..][..|encoded|] == encoded;
  }

  /** Storing a control word leaves the line area untouched. */
  lemma StoreCtrlKeepsData(buf: seq<Byte>, k: nat, v: int)
    requires IsBuffer(buf) && k < 2
    ensures StoreCtrl(buf, k, v)[DATA_OFFSET..] == buf[DATA_OFFSET..]
  {
  }

  lemma StoreCtrlReads(buf: seq<Byte>, k: nat, v: int)
    requires IsBuffer(buf) && k < 2 && 0 <= v < TWO31
    ensures Ctrl(StoreCtrl(buf, k, v), k) == v
    ensures Ctrl(StoreCtrl(buf, k, v), 1 - k) == Ctrl(buf, 1 - k)
  {
    GetPut32(buf, 4 * k, v);
    GetPut32Other(buf, 4 * k, 4 * (1 - k), v);
  }

  // ---- the worker's `fd_read` on stdin, after it wakes ----

  /** The worker's read after it wakes: take the line, store IDLE, copy until the line runs out, store the count at `nr`. */
  function ResumeEffect(m: seq<Byte>, buf: seq<Byte>, iovs: int, n: int, nr: int): (r: (Outcome, seq<Byte>, seq<Byte>))
    requires IsBuffer(buf) && |m| > 0
    ensures IsBuffer(r.2) && Ctrl(r.2, 0) == IDLE && r.2[DATA_OFFSET..] == buf[DATA_OFFSET..]
    ensures r.0 == Returned(ESUCCESS) || r.0 == Threw(RangeFault)
  {
    var line := TakeLine(buf);
    var buf' := StoreCtrl(buf, 0, IDLE);
    StoreCtrlReads(buf, 0, IDLE);
    var s := Scatter(m, line, iovs, n, 0, true);
    if s.fault || !InBounds(s.mem, nr, 4) then (Threw(RangeFault), s.mem, buf')
    else (Returned(ESUCCESS), Put32(s.mem, nr, s.tot), buf')
  }

  /** A read into one buffer large enough for the line receives the whole line, and the count is its length. */
  lemma ResumeIntoOneBuffer(m: seq<Byte>, buf: seq<Byte>, iovs: int, nr: int, b: nat, cap: nat)
    requires IsBuffer(buf) && |m| > 0
    requires InBounds(m, iovs, 8) && Get32(m, iovs) == b && Get32(m, iovs + 4) == cap
    requires |TakeLine(buf)| > 0 && |TakeLine(buf)| <= cap && b + |TakeLine(buf)| <= |m|
    requires InBounds(m, nr, 4) && (nr + 4 <= b || b + |TakeLine(buf)| <= nr)
    ensures var r := ResumeEffect(m, buf, iovs, 1, nr);
      var len := |TakeLine(buf)|;
      && r.0 == Returned(ESUCCESS)
      && r.1[b..b + len] == TakeLine(buf)
      && Get32(r.1, nr) == len
  {
    var line := TakeLine(buf);
    OneBufferScatter(m, line, iovs, nr, b, cap);
    ResumeEffectOnSuccess(m, buf, iovs, 1, nr);
  }

  /** The copy and the count of a worker read of `line` into one buffer that holds it. */
  lemma OneBufferScatter(m: seq<Byte>, line: seq<Byte>, iovs: int, nr: int, b: nat, cap: nat)
    requires |m| > 0 && InBounds(m, iovs, 8) && Get32(m, iovs) == b && Get32(m, iovs + 4) == cap
    requires 0 < |line| <= cap && b + |line| <= |m|
    requires InBounds(m, nr, 4) && (nr + 4 <= b || b + |line| <= nr)
    ensures var s := Scatter(m, line, iovs, 1, 0, true);
      && !s.fault && s.tot == |line| && InBounds(s.mem, nr, 4)
      && Put32(s.mem, nr, s.tot)[b..b + |line|] == line
      && Get32(Put32(s.mem, nr, s.tot), nr) == |line|
  {
    var len := |line|;
    assert (if 0 + cap <= len then cap else len - 0) == len;
    SingleIovecRead(m, line, iovs, 0, b, cap, true);
    var s := Scatter(m, line, iovs, 1, 0, true);
    assert s == ReadUpTo(m, line, iovs, 1, 0, true);
    assert s.mem[b..b + len] == line by { assert line[0..len] == line; }
    StoreCountKeeps(s.mem, nr, b, line);
  }

  /** Storing the count beside the copied bytes keeps them and can be read back. */
  lemma StoreCountKeeps(mem: seq<Byte>, nr: int, b: nat, line: seq<Byte>)
    requires InBounds(mem, nr, 4) && b + |line| <= |mem| && mem[b..b + |line|] == line
    requires nr + 4 <= b || b + |line| <= nr
    requires |line| < TWO32
    ensures Put32(mem, nr, |line|)[b..b + |line|] == line
    ensures Get32(Put32(mem, nr, |line|), nr) == |line|
  {
    GetPut32(mem, nr, |line|);
    PutKeepsRange(mem, nr, |line|, b, |line|);
  }

  lemma ResumeEffectOnSuccess(m: seq<Byte>, buf: seq<Byte>, iovs: int, n: int, nr: int)
    requires IsBuffer(buf) && |m| > 0
    requires var s := Scatter(m, TakeLine(buf), iovs, n, 0, true); !s.fault && InBounds(s.mem, nr, 4)
    ensures var s := Scatter(m, TakeLine(buf), iovs, n, 0, true);
      ResumeEffect(m, buf, iovs, n, nr) == (Returned(ESUCCESS), Put32(s.mem, nr, s.tot), StoreCtrl(buf, 0, IDLE))
  {
  }

  /** Storing a word leaves every byte range that does not overlap it unchanged. */
  lemma PutKeepsRange(m: seq<Byte>, p: int, v: int, b: nat, len: nat)
    requires 0 <= p && p + 4 <= |m| && b + len <= |m| && (p + 4 <= b || b + len <= p)
    ensures Put32(m, p, v)[b..b + len] == m[b..b + len]
  {
    var r := Put32(m, p, v);
    forall k | b <= k < b + len
      ensures r[k] == m[k]
    {
      if p + 4 <= b {
        assert r[k] == r[p + 4..][k - p - 4];
      } else {
        assert r[k] == r[..p][k];
      }
    }
  }

  /** What the worker posts to the page. */
  datatype Message = WriteMsg(fd: int, bytes: seq<Byte>) | WaitingStdin | DoneMsg(exitCode: int)

  /** A stdin read the worker is blocked in: the iovecs to fill and where the count goes. */
  datatype PendingRead = PendingRead(iovs: int, n: int, nr: int)

  /** The shared buffer object both sides hold. */
  class SharedBuffer {
    const bytes: array<Byte>

    predicate Valid()
      reads this
    {
      bytes.Length == BUFFER_SIZE
    }

    /** `new SharedArrayBuffer(1024 * 1024)`: all zero. */
    constructor()
      ensures Valid() && fresh(bytes) && forall i :: 0 <= i < bytes.Length ==> bytes[i] == 0
    {
      bytes := new Byte[BUFFER_SIZE](_ => 0);
    }

    function Contents(): seq<Byte>
      reads this, bytes
    {
      bytes[..]
    }

    method Store(k: nat, v: int)
      requires Valid() && k < 2
      modifies bytes
      ensures Contents() == StoreCtrl(old(Contents()), k, v)
    {
      Store32(bytes, 4 * k, v);
    }

    /** The page's hand-over of one encoded line; `false` when `dataBuf.set` throws, in which case nothing is written. */
    method Post(encoded: seq<Byte>) returns (ok: bool)
      requires Valid()
      modifies bytes
      ensures ok <==> |encoded| <= DATA_CAPACITY
      ensures ok ==> Contents() == PostLine(old(Contents()), encoded).value
      ensures !ok ==> Contents() == old(Contents())
    {
      if |encoded| > DATA_CAPACITY {
        return false;
      }
      Patch(bytes, DATA_OFFSET, encoded);
      Store(1, |encoded|);
      Store(0, READY);
      ok := true;
    }
  }

  /** The worker running one interactive program: its memory, the shared buffer and the messages it has posted. */
  class Worker {
    const mem: array<Byte>
    const shared: SharedBuffer
    var posted: seq<Message>
    var exitCode: int
    var pending: Option<PendingRead>

    predicate Valid()
      reads this, shared
    {
      mem.Length > 0 && shared.Valid() && mem != shared.bytes
    }

    constructor(memory: array<Byte>, sb: SharedBuffer)
      requires memory.Length > 0 && sb.Valid() && memory != sb.bytes
      ensures Valid() && mem == memory && shared == sb && posted == [] && exitCode == 0 && pending == None
    {
      mem := memory;
      shared := sb;
      posted := [];
      exitCode := 0;
      pending := None;
    }

    /** The worker's `fd_write`: the gathered bytes go to the page as one `write` message. */
    method FdWrite(fd: int, iovs: int, n: int, nw: int) returns (o: Outcome)
      requires Valid()
      modifies this`posted, mem
      ensures var r := WriteEffect(old(mem[..]), fd, iovs, n, nw);
        o == r.0 && mem[..] == r.1 &&
        posted == old(posted) + (if r.2.Some? then [WriteMsg(fd, r.2.value.bytes)] else [])
    {
      var g := GatherIovecs(mem, iovs, n);
      if g.None? || !(0 <= nw && nw + 4 <= mem.Length) {
        return Threw(RangeFault);
      }
      Store32(mem, nw, |g.value|);
      posted := posted + [WriteMsg(fd, g.value)];
      o := Returned(ESUCCESS);
    }

    /**
     * The start of the worker's `fd_read`. Any descriptor but 0 reads nothing at once. On
     * descriptor 0 the worker stores WAITING, posts `waiting-stdin` and blocks; the result is
     * then `None` and the read is pending.
     */
    method FdRead(fd: int, iovs: int, n: int, nr: int) returns (o: Option<Outcome>)
      requires Valid() && pending.None?
      modifies this`posted, this`pending, mem, shared.bytes
      ensures fd != 0 ==>
        && unchanged(shared.bytes) && posted == old(posted) && pending == None
        && (if InBounds(old(mem[..]), nr, 4)
            then o == Some(Returned(ESUCCESS)) && mem[..] == Put32(old(mem[..]), nr, 0)
            else o == Some(Threw(RangeFault)) && unchanged(mem))
      ensures fd == 0 ==>
        && o == None && unchanged(mem)
        && shared.Contents() == StoreCtrl(old(shared.Contents()), 0, WAITING)
        && posted == old(posted) + [WaitingStdin] && pending == Some(PendingRead(iovs, n, nr))
    {
      if fd != 0 {
        if !(0 <= nr && nr + 4 <= mem.Length) {
          return Some(Threw(RangeFault));
        }
        Store32(mem, nr, 0);
        return Some(Returned(ESUCCESS));
      }
      shared.Store(0, WAITING);
      posted := posted + [WaitingStdin];
      pending := Some(PendingRead(iovs, n, nr));
      o := None;
    }

    /** `Atomics.wait(ctrl, 0, 1)` lets the worker go on only once word 0 no longer reads WAITING. */
    predicate CanResume()
      reads this, shared, shared.bytes
      requires Valid()
    {
      pending.Some? && Ctrl(shared.Contents(), 0) != WAITING
    }

    /** The rest of a pending stdin read, once the worker is woken. */
    method Resume() returns (o: Outcome)
      requires Valid() && CanResume()
      modifies this`pending, mem, shared.bytes
      ensures pending == None
      ensures var p := old(pending).value;
        var r := ResumeEffect(old(mem[..]), old(shared.Contents()), p.iovs, p.n, p.nr);
        o == r.0 && mem[..] == r.1 && shared.Contents() == r.2
    {
      var p := pending.value;
      var len := AsInt32(Get32(shared.bytes[..], 4));
      var line := Slice(shared.bytes[DATA_OFFSET..], 0, len);
      shared.Store(0, IDLE);
      pending := None;
      var pos, tot, fault := ScatterIovecs(mem, line, p.iovs, p.n, 0, true);
      if fault || !(0 <= p.nr && p.nr + 4 <= mem.Length) {
        return Threw(RangeFault);
      }
      Store32(mem, p.nr, tot);
      o := Returned(ESUCCESS);
    }

    method ProcExit(code: int) returns (o: Outcome)
      modifies this`exitCode
      ensures exitCode == code && o == Threw(ExitSignal(code))
    {
      exitCode := code;
      o := Threw(ExitSignal(code));
    }

    /** The end of the worker: report a trap on descriptor 2 if there was one, then post `done` with the exit code. */
    method Finish(thrown: Option<Thrown>, message: string)
      modifies this`exitCode, this`posted
      ensures var r := Settle(thrown, old(exitCode), message);
        && exitCode == r.0
        && posted == old(posted) + (if r.1.Some? then [WriteMsg(2, Utf8(r.1.value))] else []) + [DoneMsg(r.0)]
    {
      var r := Settle(thrown, exitCode, message);
      exitCode := r.0;
      if r.1.Some? {
        posted := posted + [WriteMsg(2, Utf8(r.1.value))];
      }
      posted := posted + [DoneMsg(exitCode)];
    }
  }
}
