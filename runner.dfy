/**
 * The page's side of an interactive run: how it handles the worker's messages, and how one
 * line travels from the keyboard into the program's memory.
 */
module InteractiveRun {
  import opened Wrappers
  import opened Bytes
  import opened Wasi
  import opened StdinChannel
  import opened Terminal

  /** The page while a worker runs: the console, the output shown, any error notices, the promise's value and whether the worker is still alive. */
  datatype Host = Host(console: Console, shown: seq<Chunk>, notices: seq<string>, result: Option<int>, live: bool)

  /** A new run: the console is not listening and nothing is resolved. */
  function Launched(buf: seq<Byte>, echo: string): (h: Host)
    ensures h.live && h.result.None? && !h.console.listening && h.console.buf == buf
  {
    Host(Console("", false, echo, buf), [], [], None, true)
  }

  /** `worker.onmessage`. Nothing arrives once the worker is terminated. */
  function Receive(h: Host, msg: Message): Host
    requires IsBuffer(h.console.buf)
  {
    if !h.live then h
    else match msg
      case WriteMsg(fd, bytes) => h.(shown := h.shown + [Chunk(fd, bytes)])
      case WaitingStdin => h.(console := Started(h.console))
      case DoneMsg(code) => h.(console := Stopped(h.console), live := false, result := Some(code))
  }

  /** `worker.onerror`: a notice, the console stops and the run resolves to 1. */
  function Failed(h: Host, message: string): (r: Host)
    ensures h.live ==> r.result == Some(1) && !r.live && !r.console.listening
    ensures !h.live ==> r == h
  {
    if !h.live then h
    else h.(notices := h.notices + ["Worker error: " + message], console := Stopped(h.console), live := false, result := Some(1))
  }

  function Receives(h: Host, msgs: seq<Message>, k: nat): (r: Host)
    requires IsBuffer(h.console.buf) && k <= |msgs|
    ensures IsBuffer(r.console.buf) && r.console.buf == h.console.buf
  {
    if k == 0 then h else Receive(Receives(h, msgs, k - 1), msgs[k - 1])
  }

  /** The output chunks a list of messages carries, in order. */
  function WritesOf(msgs: seq<Message>): (r: seq<Chunk>)
    ensures |r| <= |msgs|
  {
    if msgs == [] then []
    else
      var last := msgs[|msgs| - 1];
      WritesOf(msgs[..|msgs| - 1]) + (if last.WriteMsg? then [Chunk(last.fd, last.bytes)] else [])
  }

  predicate NoDone(msgs: seq<Message>) {
    forall i :: 0 <= i < |msgs| ==> !msgs[i].DoneMsg?
  }

  /** Before `done`, each write is shown in the order it was posted and the run stays unresolved. */
  lemma {:induction false} ReceivesBeforeDone(h: Host, msgs: seq<Message>, k: nat)
    requires IsBuffer(h.console.buf) && h.live && k <= |msgs| && NoDone(msgs[..k])
    ensures var r := Receives(h, msgs, k);
      r.live && r.result == h.result && r.shown == h.shown + WritesOf(msgs[..k])
    decreases k
  {
    if k > 0 {
      assert msgs[..k - 1] == msgs[..k][..k - 1];
      ReceivesBeforeDone(h, msgs, k - 1);
      assert !msgs[..k][k - 1].DoneMsg?;
      assert msgs[..k][k - 1] == msgs[k - 1];
    } else {
      assert msgs[..0] == [];
    }
  }

  lemma {:induction false} DeadHostIgnores(h: Host, msgs: seq<Message>, j: nat, k: nat)
    requires IsBuffer(h.console.buf) && j <= k <= |msgs| && !Receives(h, msgs, j).live
    ensures Receives(h, msgs, k) == Receives(h, msgs, j)
    decreases k
  {
    if k > j {
      DeadHostIgnores(h, msgs, j, k - 1);
    }
  }

  /**
   * The run resolves with the exit code of the first `done`: the console stops, the writes
   * before it are all shown, and whatever follows is ignored.
   */
  lemma ResolvesAtFirstDone(h: Host, msgs: seq<Message>, j: nat)
    requires IsBuffer(h.console.buf) && h.live && h.result.None?
    requires j < |msgs| && msgs[j].DoneMsg? && NoDone(msgs[..j])
    ensures var r := Receives(h, msgs, |msgs|);
      && r.result == Some(msgs[j].exitCode) && !r.live && !r.console.listening
      && r.shown == h.shown + WritesOf(msgs[..j])
  {
    ReceivesBeforeDone(h, msgs, j);
    DeadHostIgnores(h, msgs, j + 1, |msgs|);
  }

  /**
   * What the worker posts at the end of a run, after writes and stdin requests of its own,
   * makes the page resolve with the worker's exit code, a trap report included.
   */
  lemma HostSeesWorkerExit(h: Host, before: seq<Message>, thrown: Option<Thrown>, exitCode: int, message: string)
    requires IsBuffer(h.console.buf) && h.live && h.result.None? && NoDone(before)
    ensures var s := Settle(thrown, exitCode, message);
      var tail := (if s.1.Some? then [WriteMsg(2, Utf8(s.1.value))] else []) + [DoneMsg(s.0)];
      var r := Receives(h, before + tail, |before + tail|);
      r.result == Some(s.0) && !r.console.listening
  {
    var s := Settle(thrown, exitCode, message);
    var tail := (if s.1.Some? then [WriteMsg(2, Utf8(s.1.value))] else []) + [DoneMsg(s.0)];
    var msgs := before + tail;
    var j := |msgs| - 1;
    assert msgs[..j] == before + tail[..|tail| - 1];
    ResolvesAtFirstDone(h, msgs, j);
  }

  /**
   * One line from the keyboard into the program. The worker marks the buffer WAITING; on
   * `waiting-stdin` the page starts the console; the user types `t` and Enter; the worker
   * may go on (word 0 is no longer WAITING) and copies the encoded line with its line feed
   * into a buffer large enough, storing its length, and marks the buffer IDLE.
   */
  lemma LineRoundTrip(m: seq<Byte>, buf0: seq<Byte>, echo: string, t: string, iovs: int, nr: int, b: nat, cap: nat)
    requires IsBuffer(buf0) && |m| > 0 && AllPrintable(t)
    requires |Utf8(t + "\n")| <= DATA_CAPACITY
    requires InBounds(m, iovs, 8) && Get32(m, iovs) == b && Get32(m, iovs + 4) == cap
    requires |Utf8(t + "\n")| <= cap && b + |Utf8(t + "\n")| <= |m|
    requires InBounds(m, nr, 4) && (nr + 4 <= b || b + |Utf8(t + "\n")| <= nr)
    ensures var waiting := StoreCtrl(buf0, 0, WAITING);
      var h := Receive(Launched(waiting, echo), WaitingStdin);
      var typed := Delivered(h.console, t + "\r");
      var len := |Utf8(t + "\n")|;
      && Ctrl(waiting, 0) == WAITING
      && Ctrl(typed.buf, 0) != WAITING
      && var r := ResumeEffect(m, typed.buf, iovs, 1, nr);
        && r.0 == Returned(ESUCCESS) && r.1[b..b + len] == Utf8(t + "\n")
        && Get32(r.1, nr) == len && Ctrl(r.2, 0) == IDLE
  {
    var waiting := StoreCtrl(buf0, 0, WAITING);
    var h := Receive(Launched(waiting, echo), WaitingStdin);
    var typed := Delivered(h.console, t + "\r");
    TypedWhileWaiting(buf0, echo, t);
    ResumeIntoOneBuffer(m, typed.buf, iovs, nr, b, cap);
  }

  /** The console side of the round trip: the line typed while the worker waits is posted to the buffer. */
  lemma TypedWhileWaiting(buf0: seq<Byte>, echo: string, t: string)
    requires IsBuffer(buf0) && AllPrintable(t)
    requires |Utf8(t + "\n")| <= DATA_CAPACITY
    ensures var waiting := StoreCtrl(buf0, 0, WAITING);
      var h := Receive(Launched(waiting, echo), WaitingStdin);
      var typed := Delivered(h.console, t + "\r");
      && Ctrl(waiting, 0) == WAITING
      && IsBuffer(typed.buf) && Ctrl(typed.buf, 0) != WAITING
      && TakeLine(typed.buf) == Utf8(t + "\n") && |TakeLine(typed.buf)| > 0
  {
    var waiting := StoreCtrl(buf0, 0, WAITING);
    StoreCtrlReads(buf0, 0, WAITING);
    var h := Receive(Launched(waiting, echo), WaitingStdin);
    assert h.console == Console("", true, echo, waiting);
    assert "" + t + "\n" == t + "\n";
    TypedLineDelivered(h.console, t);
    Utf8EndsWithNewline(t);
  }

  /** Ctrl+C while the worker waits leaves word 0 at WAITING for good: the worker is never released. */
  lemma CtrlCLeavesWorkerBlocked(c: Console, later: string)
    requires IsBuffer(c.buf) && c.listening && Ctrl(c.buf, 0) == WAITING
    ensures var stopped := Delivered(c, [CTRL_C]);
      Ctrl(Delivered(stopped, later).buf, 0) == WAITING
  {
    CtrlCStops(c, later);
  }

  /** The host object for one interactive run. */
  class HostRun {
    const console: InteractiveConsole
    var shown: seq<Chunk>
    var notices: seq<string>
    var result: Option<int>
    var live: bool

    predicate Valid()
      reads this, console, console.shared
    {
      console.Valid()
    }

    function State(): Host
      reads this, console, console.shared, console.shared.bytes
    {
      Host(console.State(), shown, notices, result, live)
    }

    constructor(c: InteractiveConsole)
      requires c.Valid() && !c.listening && c.line == ""
      ensures Valid() && console == c && State() == Launched(c.shared.bytes[..], c.echo)
    {
      console := c;
      shown := [];
      notices := [];
      result := None;
      live := true;
    }

    method OnMessage(msg: Message)
      requires Valid()
      modifies this`shown, this`result, this`live, console`line, console`listening
      ensures Valid() && State() == Receive(old(State()), msg)
    {
      if !live {
        return;
      }
      match msg {
        case WriteMsg(fd, bytes) =>
          shown := shown + [Chunk(fd, bytes)];
        case WaitingStdin =>
          console.Start();
        case DoneMsg(code) =>
          console.Stop();
          live := false;
          result := Some(code);
      }
    }

    method OnError(message: string)
      requires Valid()
      modifies this`notices, this`result, this`live, console`listening
      ensures Valid() && State() == Failed(old(State()), message)
    {
      if !live {
        return;
      }
      notices := notices + ["Worker error: " + message];
      console.Stop();
      live := false;
      result := Some(1);
    }
  }
}
