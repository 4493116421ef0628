/**
 * The two terminal line editors.
 *
 * The interactive console runs while the worker waits for a line: it echoes what is typed,
 * edits the line on Backspace and hands the line (with a line feed) to the worker through
 * the shared buffer on Enter. The prompt collector gathers all of stdin before an inline
 * run, one line per Enter, until Ctrl+D.
 *
 * Each `onData` event carries a chunk of text; both editors walk it character by character.
 */
module Terminal {
  import opened Wrappers
  import opened Bytes
  import opened StdinChannel

  predicate IsEnter(ch: char) { ch == '\r' || ch == '\n' }
  predicate IsBackspace(ch: char) { ch == '\U{7F}' || ch == '\U{8}' }
  const CTRL_C: char := '\U{3}'
  const CTRL_D: char := '\U{4}'

  /** A character both editors append to the line and echo. */
  predicate Printable(ch: char) { ch as int >= 32 && ch != '\U{7F}' }

  predicate AllPrintable(t: string) { forall i :: 0 <= i < |t| ==> Printable(t[i]) }

  const RUB_OUT: string := "\U{8} \U{8}"

  // ---- the interactive console ----

  /** The console: the line being typed, whether the handler is subscribed, what it has echoed, and the shared buffer. */
  datatype Console = Console(line: string, listening: bool, echo: string, buf: seq<Byte>)

  /** `startInteractiveInput`: a fresh empty line, subscribed. */
  function Started(c: Console): (r: Console)
    ensures r.listening && r.line == "" && r.echo == c.echo && r.buf == c.buf
  {
    c.(line := "", listening := true)
  }

  /** `stopInteractiveInput`: unsubscribed, everything else kept, so stopping twice is stopping once. */
  function Stopped(c: Console): (r: Console)
    ensures !r.listening && r.line == c.line && r.echo == c.echo && r.buf == c.buf
  {
    c.(listening := false)
  }

  /**
   * One character, with whether it threw. Enter echoes a line break and posts the line;
   * when the encoded line is too long for the buffer the copy throws, which ends the handler
   * for the rest of the chunk and leaves the line as it was. Ctrl+C unsubscribes the
   * handler; the characters after it in the same chunk are still handled.
   */
  function Key(c: Console, ch: char): (r: (Console, bool))
    requires IsBuffer(c.buf)
    ensures IsBuffer(r.0.buf)
  {
    if IsEnter(ch) then
      var echoed := c.(echo := c.echo + "\r\n");
      match PostLine(c.buf, Utf8(c.line + "\n"))
      case None => (echoed, true)
      case Some(b) => (echoed.(buf := b, line := ""), false)
    else if IsBackspace(ch) then
      if |c.line| > 0 then (c.(line := c.line[..|c.line| - 1], echo := c.echo + RUB_OUT), false)
      else (c, false)
    else if ch == CTRL_C then (Stopped(c), false)
    else if ch as int >= 32 then (c.(line := c.line + [ch], echo := c.echo + [ch]), false)
    else (c, false)
  }

  /** The first `k` characters of a chunk, stopping at the first that throws. */
  function Feed(c: Console, data: string, k: nat): (r: (Console, bool))
    requires IsBuffer(c.buf) && k <= |data|
    ensures IsBuffer(r.0.buf)
  {
    if k == 0 then (c, false)
    else
      var p := Feed(c, data, k - 1);
      if p.1 then p else Key(p.0, data[k - 1])
  }

  /** A chunk arriving: ignored unless the handler is subscribed. */
  function Delivered(c: Console, data: string): (r: Console)
    requires IsBuffer(c.buf)
    ensures IsBuffer(r.buf)
  {
    if !c.listening then c else Feed(c, data, |data|).0
  }

  /** After a throw the rest of the chunk changes nothing. */
  lemma {:induction false} FeedAbortedStays(c: Console, data: string, k: nat, m: nat)
    requires IsBuffer(c.buf) && k <= m <= |data| && Feed(c, data, k).1
    ensures Feed(c, data, m) == Feed(c, data, k)
    decreases m
  {
    if m > k {
      FeedAbortedStays(c, data, k, m - 1);
    }
  }

  lemma {:induction false} FeedPrefix(c: Console, data: string, extra: string, k: nat)
    requires IsBuffer(c.buf) && k <= |data|
    ensures Feed(c, data + extra, k) == Feed(c, data, k)
    decreases k
  {
    if k > 0 {
      FeedPrefix(c, data, extra, k - 1);
      assert (data + extra)[k - 1] == data[k - 1];
    }
  }

  /** Typing printable characters appends them to the line and to the echo and touches nothing else. */
  lemma {:induction false} TypingAppends(c: Console, t: string, k: nat)
    requires IsBuffer(c.buf) && AllPrintable(t) && k <= |t|
    ensures Feed(c, t, k) == (c.(line := c.line + t[..k], echo := c.echo + t[..k]), false)
    decreases k
  {
    if k > 0 {
      TypingAppends(c, t, k - 1);
      var before := c.(line := c.line + t[..k - 1], echo := c.echo + t[..k - 1]);
      assert Printable(t[k - 1]);
      assert Key(before, t[k - 1]) == (before.(line := before.line + [t[k - 1]], echo := before.echo + [t[k - 1]]), false);
      assert t[..k] == t[..k - 1] + [t[k - 1]];
      assert c.line + t[..k] == before.line + [t[k - 1]];
      assert c.echo + t[..k] == before.echo + [t[k - 1]];
    } else {
      assert c.line + t[..0] == c.line && c.echo + t[..0] == c.echo;
    }
  }

  /**
   * A typed line followed by Enter reaches the buffer: the line becomes empty, the echo shows
   * the text and a line break, and the worker will take exactly the encoded line and a line feed.
   */
  lemma TypedLineDelivered(c: Console, t: string)
    requires IsBuffer(c.buf) && c.listening && AllPrintable(t)
    requires |Utf8(c.line + t + "\n")| <= DATA_CAPACITY
    ensures var r := Delivered(c, t + "\r");
      && r.line == "" && r.listening && r.echo == c.echo + t + "\r\n"
      && Ctrl(r.buf, 0) == READY && TakeLine(r.buf) == Utf8(c.line + t + "\n")
  {
    var data := t + "\r";
    FeedPrefix(c, t, "\r", |t|);
    TypingAppends(c, t, |t|);
    assert t[..|t|] == t;
    assert data[|t|] == '\r';
    var typed := c.(line := c.line + t, echo := c.echo + t);
    assert Feed(c, data, |data|) == Key(typed, '\r');
    PostThenTake(c.buf, Utf8(c.line + t + "\n"));
    assert c.echo + t + "\r\n" == typed.echo + "\r\n";
  }

  /**
   * Enter overwrites whatever the buffer held, whether or not the worker took the last line:
   * a line typed ahead of the next read replaces the one before it.
   */
  lemma EnterOverwrites(c: Console)
    requires IsBuffer(c.buf) && |Utf8(c.line + "\n")| <= DATA_CAPACITY
    ensures var r := Key(c, '\r');
      !r.1 && Ctrl(r.0.buf, 0) == READY && TakeLine(r.0.buf) == Utf8(c.line + "\n")
  {
    PostThenTake(c.buf, Utf8(c.line + "\n"));
  }

  /** A line too long for the buffer is not sent: the rest of the chunk is dropped and the line stays as typed. */
  lemma OverflowAborts(c: Console, rest: string)
    requires IsBuffer(c.buf) && c.listening && |Utf8(c.line + "\n")| > DATA_CAPACITY
    ensures Delivered(c, "\r" + rest) == c.(echo := c.echo + "\r\n")
  {
    var data := "\r" + rest;
    assert Feed(c, data, 1).1;
    FeedAbortedStays(c, data, 1, |data|);
  }

  /** Backspace after a printable character restores the line; only the echo remembers it. */
  lemma BackspaceUndoes(c: Console, ch: char)
    requires IsBuffer(c.buf) && Printable(ch)
    ensures Key(Key(c, ch).0, '\U{7F}') == (c.(echo := c.echo + [ch] + RUB_OUT), false)
  {
    assert (c.line + [ch])[..|c.line|] == c.line;
  }

  /** Ctrl+C unsubscribes: every later chunk is ignored. */
  lemma CtrlCStops(c: Console, later: string)
    requires IsBuffer(c.buf) && c.listening
    ensures var r := Delivered(c, [CTRL_C]);
      !r.listening && r.line == c.line && r.buf == c.buf && Delivered(r, later) == r
  {
    assert Feed(c, [CTRL_C], 1) == Key(c, CTRL_C);
  }

  /** The console object; the shared buffer is the one the worker blocks on. */
  class InteractiveConsole {
    const shared: SharedBuffer
    var line: string
    var listening: bool
    var echo: string

    predicate Valid()
      reads this, shared
    {
      shared.Valid()
    }

    function State(): Console
      reads this, shared, shared.bytes
    {
      Console(line, listening, echo, shared.bytes[..])
    }

    constructor(sb: SharedBuffer)
      requires sb.Valid()
      ensures Valid() && shared == sb && line == "" && !listening && echo == ""
    {
      shared := sb;
      line := "";
      listening := false;
      echo := "";
    }

    /** `startInteractiveInput`: subscribe with an empty line. */
    method Start()
      modifies this`line, this`listening
      ensures State() == Started(old(State()))
    {
      line := "";
      listening := true;
    }

    /** `stopInteractiveInput`. */
    method Stop()
      modifies this`listening
      ensures State() == Stopped(old(State()))
    {
      listening := false;
    }

    method HandleKey(ch: char) returns (threw: bool)
      requires Valid()
      modifies this`line, this`listening, this`echo, shared.bytes
      ensures Valid() && (State(), threw) == Key(old(State()), ch)
    {
      if IsEnter(ch) {
        echo := echo + "\r\n";
        var ok := shared.Post(Utf8(line + "\n"));
        if !ok {
          return true;
        }
        line := "";
      } else if IsBackspace(ch) {
        if |line| > 0 {
          line := line[..|line| - 1];
          echo := echo + RUB_OUT;
        }
      } else if ch == CTRL_C {
        Stop();
      } else if ch as int >= 32 {
        line := line + [ch];
        echo := echo + [ch];
      }
      threw := false;
    }

    /** One `onData` event. */
    method OnData(data: string)
      requires Valid()
      modifies this`line, this`listening, this`echo, shared.bytes
      ensures Valid() && State() == Delivered(old(State()), data)
    {
      if !listening {
        return;
      }
      var i := 0;
      while i < |data|
        invariant 0 <= i <= |data| && Valid()
        invariant Feed(old(State()), data, i) == (State(), false)
      {
        var threw := HandleKey(data[i]);
        i := i + 1;
        if threw {
          FeedAbortedStays(old(State()), data, i, |data|);
          return;
        }
      }
    }
  }

  // ---- the prompt collector ----

  const PROMPT: string := "\U{1B}[38;5;220m> \U{1B}[0m"
  const BANNER: string := "\U{1B}[38;5;69m── stdin: type input below, Ctrl+D when done ──\U{1B}[0m\r\n"
  const EOF_BANNER: string := "\U{1B}[38;5;69m── EOF ──\U{1B}[0m\r\n"

  /** The collector: the finished lines, the line being typed, the resolved input once Ctrl+D came, and the echo. */
  datatype Prompt = Prompt(input: string, current: string, result: Option<string>, echo: string)

  /** `promptStdin` as it starts; without a terminal it resolves to the empty input at once. */
  function PromptStart(hasTerminal: bool, echo: string): (p: Prompt)
    ensures !hasTerminal <==> p.result == Some("")
  {
    if !hasTerminal then Prompt("", "", Some(""), echo)
    else Prompt("", "", None, echo + BANNER + PROMPT)
  }

  /** One character. Once resolved the handler is gone; control characters other than the four handled ones are ignored. */
  function PromptKey(p: Prompt, ch: char): Prompt {
    if p.result.Some? then p
    else if ch == CTRL_D then
      var input := if |p.current| > 0 then p.input + p.current + "\n" else p.input;
      var shown := if |p.current| > 0 then "\r\n" else "";
      p.(input := input, result := Some(input), echo := p.echo + shown + EOF_BANNER)
    else if IsEnter(ch) then
      p.(input := p.input + p.current + "\n", current := "", echo := p.echo + "\r\n" + PROMPT)
    else if IsBackspace(ch) then
      if |p.current| > 0 then p.(current := p.current[..|p.current| - 1], echo := p.echo + RUB_OUT) else p
    else if ch as int >= 32 then p.(current := p.current + [ch], echo := p.echo + [ch])
    else p
  }

  function PromptFeed(p: Prompt, data: string, k: nat): Prompt
    requires k <= |data|
  {
    if k == 0 then p else PromptKey(PromptFeed(p, data, k - 1), data[k - 1])
  }

  /** What the collector accumulates: empty, or whole lines each ending in a line feed. */
  predicate WholeLines(s: string) {
    s == "" || s[|s| - 1] == '\n'
  }

  predicate PromptInvariant(p: Prompt) {
    WholeLines(p.input) && (p.result.Some? ==> p.result.value == p.input)
  }

  lemma PromptKeyKeepsInvariant(p: Prompt, ch: char)
    requires PromptInvariant(p)
    ensures PromptInvariant(PromptKey(p, ch))
  {
  }

  lemma {:induction false} PromptFeedKeepsInvariant(p: Prompt, data: string, k: nat)
    requires PromptInvariant(p) && k <= |data|
    ensures PromptInvariant(PromptFeed(p, data, k))
    decreases k
  {
    if k > 0 {
      PromptFeedKeepsInvariant(p, data, k - 1);
      PromptKeyKeepsInvariant(PromptFeed(p, data, k - 1), data[k - 1]);
    }
  }

  /** Whatever the collector resolves to needs no extra line feed from the inline runner, except the empty input. */
  lemma CollectedInputIsLines(p: Prompt, data: string)
    requires PromptInvariant(p)
    ensures var r := PromptFeed(p, data, |data|).result;
      r.Some? ==> (WholeLines(r.value) &&
        Wasi.PreparedStdin(r.value) == (if r.value == "" then "\n" else r.value))
  {
    PromptFeedKeepsInvariant(p, data, |data|);
    var q := PromptFeed(p, data, |data|);
    if q.result.Some? {
      LinesArePrepared(q.result.value);
    }
  }

  /** Text ending in a line feed is handed over unchanged; the empty text becomes one line feed. */
  lemma LinesArePrepared(s: string)
    requires WholeLines(s)
    ensures Wasi.PreparedStdin(s) == (if s == "" then "\n" else s)
  {
  }

  lemma {:induction false} PromptTypingAppends(p: Prompt, t: string, k: nat)
    requires p.result.None? && AllPrintable(t) && k <= |t|
    ensures PromptFeed(p, t, k) == p.(current := p.current + t[..k], echo := p.echo + t[..k])
    decreases k
  {
    if k > 0 {
      PromptTypingAppends(p, t, k - 1);
      assert t[..k] == t[..k - 1] + [t[k - 1]];
    }
  }

  lemma {:induction false} PromptFeedPrefix(p: Prompt, data: string, extra: string, k: nat)
    requires k <= |data|
    ensures PromptFeed(p, data + extra, k) == PromptFeed(p, data, k)
    decreases k
  {
    if k > 0 {
      PromptFeedPrefix(p, data, extra, k - 1);
      assert (data + extra)[k - 1] == data[k - 1];
    }
  }

  /** A typed line and Enter add that line, with a line feed, to the collected input. */
  lemma PromptLineCollected(p: Prompt, t: string)
    requires p.result.None? && AllPrintable(t)
    ensures var r := PromptFeed(p, t + "\r", |t| + 1);
      r.input == p.input + p.current + t + "\n" && r.current == "" && r.result.None?
  {
    PromptFeedPrefix(p, t, "\r", |t|);
    PromptTypingAppends(p, t, |t|);
    assert t[..|t|] == t;
    assert (t + "\r")[|t|] == '\r';
  }

  /** Ctrl+D resolves with the collected lines, plus the unfinished line when there is one; later characters change nothing. */
  lemma PromptEofResolves(p: Prompt, later: string)
    requires p.result.None?
    ensures var r := PromptKey(p, CTRL_D);
      && r.result == Some(if p.current == "" then p.input else p.input + p.current + "\n")
      && PromptFeed(r, later, |later|) == r
  {
    var r := PromptKey(p, CTRL_D);
    ResolvedIgnores(r, later, |later|);
  }

  lemma {:induction false} ResolvedIgnores(r: Prompt, data: string, k: nat)
    requires r.result.Some? && k <= |data|
    ensures PromptFeed(r, data, k) == r
    decreases k
  {
    if k > 0 {
      ResolvedIgnores(r, data, k - 1);
    }
  }

  /** The collector object; `result` is the promise's value once it resolves. */
  class PromptCollector {
    var input: string
    var current: string
    var result: Option<string>
    var echo: string

    function State(): Prompt
      reads this
    {
      Prompt(input, current, result, echo)
    }

    constructor(hasTerminal: bool, shown: string)
      ensures State() == PromptStart(hasTerminal, shown)
    {
      input := "";
      current := "";
      if !hasTerminal {
        result := Some("");
        echo := shown;
      } else {
        result := None;
        echo := shown + BANNER + PROMPT;
      }
    }

    method OnData(data: string)
      modifies this
      ensures State() == PromptFeed(old(State()), data, |data|)
    {
      if result.Some? {
        ResolvedIgnores(State(), data, |data|);
        return;
      }
      var i := 0;
      while i < |data|
        invariant 0 <= i <= |data|
        invariant State() == PromptFeed(old(State()), data, i)
        invariant result.None?
      {
        var ch := data[i];
        ghost var before := State();
        if ch == CTRL_D {
          if |current| > 0 {
            input := input + current + "\n";
            echo := echo + "\r\n";
          }
          echo := echo + EOF_BANNER;
          result := Some(input);
          assert State() == PromptKey(before, ch);
          PromptEofEnds(old(State()), data, i);
          return;
        }
        if IsEnter(ch) {
          input := input + current + "\n";
          current := "";
          echo := echo + "\r\n" + PROMPT;
        } else if IsBackspace(ch) {
          if |current| > 0 {
            current := current[..|current| - 1];
            echo := echo + RUB_OUT;
          }
        } else if ch as int >= 32 {
          current := current + [ch];
          echo := echo + [ch];
        }
        assert State() == PromptKey(before, ch);
        i := i + 1;
      }
    }
  }

  /** A Ctrl+D at index `i` of a chunk decides the state the whole chunk ends in. */
  lemma PromptEofEnds(p: Prompt, data: string, i: nat)
    requires i < |data| && data[i] == CTRL_D && PromptFeed(p, data, i).result.None?
    ensures PromptFeed(p, data, |data|) == PromptKey(PromptFeed(p, data, i), CTRL_D)
  {
    assert PromptFeed(p, data, i + 1) == PromptKey(PromptFeed(p, data, i), CTRL_D);
    PromptFeedSplit(p, data, i + 1);
  }

  /** Once the first `k` characters resolve the prompt, the whole chunk ends in the same state. */
  lemma {:induction false} PromptFeedSplit(p: Prompt, data: string, k: nat)
    requires k <= |data| && PromptFeed(p, data, k).result.Some?
    ensures PromptFeed(p, data, |data|) == PromptFeed(p, data, k)
    decreases |data| - k
  {
    if k < |data| {
      PromptFeedSplit(p, data, k + 1);
    }
  }
}
