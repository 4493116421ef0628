/**
 * The git panel (`js/git.js`): how a typed command becomes the argument list sent to the
 * server, how the server's reply or a failed request becomes a result, how a result is
 * printed, how `git status --short --branch` output becomes classified rows, the HTML
 * escaping of those rows, and the panel state that `refresh` and the commands update.
 */
module Git {
  import opened Wrappers
  import opened Text
  import Paths
  import Server

  // ---- talking to the server ----

  /** What `_run` returns: `{ ok, stdout, stderr, code }`. */
  datatype RunResult = RunResult(ok: bool, stdout: string, stderr: string, code: int)

  /** How the request went: `fetch` raised, or an HTTP status arrived with a JSON body (`None` when the body is not JSON). */
  datatype Fetch = FetchFailed | Responded(status: int, body: Option<RunResult>)

  const NOT_RUNNING := "Server not running"
  const NO_ENDPOINT := "Git endpoint not found — please update server.py"

  /** `_run`: errors become results with `ok` false; a 2xx reply is passed through. */
  function Run(f: Fetch): RunResult {
    match f
    case FetchFailed => RunResult(false, "", NOT_RUNNING, -1)
    case Responded(status, body) =>
      if !(200 <= status <= 299) then
        if status == 404 then RunResult(false, "", NO_ENDPOINT, 404)
        else RunResult(false, "", "HTTP " + Decimal(status), status)
      else if body.None? then RunResult(false, "", NOT_RUNNING, -1)
      else body.value
  }

  /** Every failed request gives `ok` false with empty stdout: code 404 for a missing endpoint, the status for any other HTTP error, and -1 when nothing usable came back. */
  lemma RunErrors(f: Fetch)
    ensures f.FetchFailed? ==> Run(f) == RunResult(false, "", NOT_RUNNING, -1)
    ensures f.Responded? && !(200 <= f.status <= 299) ==>
      !Run(f).ok && Run(f).stdout == "" && Run(f).code == f.status &&
      Run(f).stderr == (if f.status == 404 then NO_ENDPOINT else "HTTP " + Decimal(f.status))
    ensures f.Responded? && 200 <= f.status <= 299 && f.body.None? ==> Run(f).code == -1 && !Run(f).ok
    ensures f.Responded? && 200 <= f.status <= 299 && f.body.Some? ==> Run(f) == f.body.value
  {
  }

  /** The result the panel sees for a request the server answered. */
  function FromServer(r: Server.GitResponse): RunResult {
    Run(Responded(r.status, Some(RunResult(r.ok, r.stdout, r.stderr, r.code))))
  }

  /**
   * What the panel sees of the server: `ok` exactly when git ran and exited with 0, git's
   * own output and exit code when it ran, and a refused request only as "HTTP 400", the
   * server's reason being dropped with the body.
   */
  lemma PanelSeesServer(args: Server.GitArgs, run: Server.GitRun)
    ensures var res := FromServer(Server.HandleGit(args, run));
      && (res.ok <==> Server.GitCommandGiven(args, true).Some? && run.GitExited? && run.returnCode == 0)
      && (Server.GitCommandGiven(args, true).None? ==> res == RunResult(false, "", "HTTP 400", 400))
      && (Server.GitCommandGiven(args, true).Some? && run.GitExited? ==>
            res == RunResult(run.returnCode == 0, run.stdout, run.stderr, run.returnCode))
      && (Server.GitCommandGiven(args, true).Some? && run.GitRaised? ==> res.code == 500)
  {
    Server.GitOutcome(args, run);
    HttpCodes();
  }

  lemma HttpCodes()
    ensures Decimal(400) == "400" && Decimal(500) == "500"
  {
    assert Decimal(400) == "400" by {
      assert Decimal(40) == "40" by {
        assert Decimal(4) == "4";
      }
    }
    assert Decimal(500) == "500" by {
      assert Decimal(50) == "50" by {
        assert Decimal(5) == "5";
      }
    }
  }

  // ---- typed commands ----

  /**
   * `runCmd`'s arguments: the whitespace-separated words (trimming first drops only
   * characters the split treats as separators anyway), with one leading `git` removed;
   * `None` when nothing was typed, and then no request is made.
   */
  function NormaliseArgs(s: string): Option<seq<string>> {
    var w := Words(s, JsSpace);
    if w == [] then None
    else if w[0] == "git" then Some(w[1..])
    else Some(w)
  }

  /** Nothing is sent exactly when the input is blank; what is sent is a list of words. */
  lemma NormaliseArgsBlank(s: string)
    ensures NormaliseArgs(s).None? <==> forall i :: 0 <= i < |s| ==> s[i] in JsSpace
    ensures NormaliseArgs(s).Some? ==> AreWords(NormaliseArgs(s).value, JsSpace)
  {
    WordsEmptyIff(s, JsSpace);
    WordsAreWords(s, JsSpace);
  }

  /** Typing `git` and then words separated by spaces sends exactly those words, even when the first of them is `git` again. */
  lemma TypedCommandRoundTrip(a: seq<string>)
    requires AreWords(a, JsSpace)
    ensures NormaliseArgs(JoinWith(["git"] + a, " ")) == Some(a)
  {
    assert NoneIn("git", JsSpace) by {
      assert forall i :: 0 <= i < 3 ==> "git"[i] in {'g', 'i', 't'};
    }
    var w := ["git"] + a;
    assert AreWords(w, JsSpace) by {
      forall i | 0 <= i < |w|
        ensures w[i] != [] && NoneIn(w[i], JsSpace)
      {
        if i > 0 {
          assert w[i] == a[i - 1];
        }
      }
    }
    assert " " == [' '];
    WordsOfJoin(w, ' ', JsSpace);
    assert w[1..] == a;
  }

  /** Words typed without a leading `git` are sent unchanged. */
  lemma BareCommandRoundTrip(a: seq<string>)
    requires AreWords(a, JsSpace) && a != [] && a[0] != "git"
    ensures NormaliseArgs(JoinWith(a, " ")) == Some(a)
  {
    assert " " == [' '];
    WordsOfJoin(a, ' ', JsSpace);
  }

  // ---- printing a result ----

  datatype Style = Plain | ErrorStyle | Dim | CommandStyle

  /** One line of the output pane. */
  datatype OutLine = OutLine(text: string, style: Style)

  /** Each text as a line in `style`. */
  function Styled(texts: seq<string>, style: Style): (r: seq<OutLine>)
    ensures |r| == |texts|
    ensures forall i :: 0 <= i < |r| ==> r[i] == OutLine(texts[i], style)
  {
    if texts == [] then [] else [OutLine(texts[0], style)] + Styled(texts[1..], style)
  }

  /** `s.split('\n')`, each part a line in `style`. */
  function LinesOf(s: string, style: Style): (r: seq<OutLine>)
    ensures |r| == |Paths.SplitChar(s, '\n')|
  {
    Styled(Paths.SplitChar(s, '\n'), style)
  }

  function Texts(ls: seq<OutLine>): (r: seq<string>)
    ensures |r| == |ls| && forall i :: 0 <= i < |ls| ==> r[i] == ls[i].text
  {
    if ls == [] then [] else [ls[0].text] + Texts(ls[1..])
  }

  const NO_OUTPUT := OutLine("(no output)", Dim)

  /** `_printResult`: the trimmed stdout line by line, the trimmed stderr line by line as errors, and `(no output)` for a failure with both empty. */
  function PrintResult(res: RunResult): seq<OutLine> {
    var out := Trim(res.stdout, JsSpace);
    var err := Trim(res.stderr, JsSpace);
    (if out != "" then LinesOf(out, Plain) else [])
      + (if err != "" then LinesOf(err, ErrorStyle) else [])
      + (if !res.ok && res.stderr == "" && res.stdout == "" then [NO_OUTPUT] else [])
  }

  /** The printed lines are the stdout lines, then the stderr lines, then possibly `(no output)`. */
  lemma PrintResultShape(res: RunResult)
    ensures var p := PrintResult(res);
      var out := Trim(res.stdout, JsSpace);
      var err := Trim(res.stderr, JsSpace);
      var k := if out != "" then |Paths.SplitChar(out, '\n')| else 0;
      var m := if err != "" then |Paths.SplitChar(err, '\n')| else 0;
      && |p| == k + m + (if !res.ok && res.stderr == "" && res.stdout == "" then 1 else 0)
      && (out != "" ==> p[..k] == LinesOf(out, Plain))
      && (err != "" ==> p[k..k + m] == LinesOf(err, ErrorStyle))
      && (forall i :: 0 <= i < k + m ==> p[i].style != Dim)
  {
  }

  /** The texts of the lines printed for an output join back to the trimmed output. */
  lemma LinesJoinBack(s: string, style: Style)
    ensures JoinWith(Texts(LinesOf(s, style)), "\n") == s
  {
    var parts := Paths.SplitChar(s, '\n');
    assert Texts(LinesOf(s, style)) == parts;
    Paths.JoinSplitChar(s, '\n');
    assert "\n" == ['\n'];
  }

  /**
   * `(no output)` ends the print exactly for a failure with both outputs empty, and then it
   * is all that is printed; the stdout and stderr lines give back the trimmed outputs.
   */
  lemma PrintResultParts(res: RunResult)
    ensures var p := PrintResult(res);
      var out := Trim(res.stdout, JsSpace);
      var err := Trim(res.stderr, JsSpace);
      var k := if out != "" then |Paths.SplitChar(out, '\n')| else 0;
      var m := if err != "" then |Paths.SplitChar(err, '\n')| else 0;
      && (out != "" ==> JoinWith(Texts(p[..k]), "\n") == out)
      && (err != "" ==> JoinWith(Texts(p[k..k + m]), "\n") == err)
      && ((p != [] && p[|p| - 1] == NO_OUTPUT) <==> !res.ok && res.stderr == "" && res.stdout == "")
  {
    PrintResultShape(res);
    var out := Trim(res.stdout, JsSpace);
    var err := Trim(res.stderr, JsSpace);
    if out != "" {
      LinesJoinBack(out, Plain);
    }
    if err != "" {
      LinesJoinBack(err, ErrorStyle);
    }
  }

  /** A failure with both outputs empty prints `(no output)` and nothing else. */
  lemma EmptyFailurePrintsNoOutput(res: RunResult)
    requires !res.ok && res.stdout == "" && res.stderr == ""
    ensures PrintResult(res) == [NO_OUTPUT]
  {
    assert Trim("", JsSpace) == "";
  }

  /** A failure whose outputs are only blanks prints nothing at all, not even `(no output)`. */
  lemma BlankFailurePrintsNothing()
    ensures PrintResult(RunResult(false, " ", "", 1)) == []
  {
    assert Trim(" ", JsSpace) == "" by {
      assert " "[0] in JsSpace;
      assert " "[1..] == "";
    }
  }

  // ---- status lines ----

  datatype StatusClass = Untracked | Modified | Added | Deleted | Unclassified

  /** One row of the status list: the two status letters, the file text and its class. */
  datatype StatusRow = StatusRow(xy: string, file: string, cls: StatusClass)

  /** The class of the two status letters: untracked, then modified, then added, then deleted. */
  function Classify(xy: string): (c: StatusClass)
    ensures c == Untracked <==> StartsWith(Trim(xy, JsSpace), "?")
    ensures c == Modified <==> !StartsWith(Trim(xy, JsSpace), "?") && 'M' in xy
    ensures c == Added <==> !StartsWith(Trim(xy, JsSpace), "?") && 'M' !in xy && 'A' in xy
    ensures c == Deleted <==> !StartsWith(Trim(xy, JsSpace), "?") && 'M' !in xy && 'A' !in xy && 'D' in xy
  {
    if StartsWith(Trim(xy, JsSpace), "?") then Untracked
    else if 'M' in xy then Modified
    else if 'A' in xy then Added
    else if 'D' in xy then Deleted
    else Unclassified
  }

  /** Trimming two status letters leaves a leading `?` exactly when the first non-blank letter is `?`. */
  lemma TrimTwo(xy: string)
    requires |xy| == 2
    ensures StartsWith(Trim(xy, JsSpace), "?") <==> xy[0] == '?' || (xy[0] in JsSpace && xy[1] == '?')
  {
    var t := TrimStart(xy, JsSpace);
    if xy[0] in JsSpace {
      assert t == TrimStart(xy[1..], JsSpace);
      if xy[1] in JsSpace {
        assert xy[1..][1..] == [];
        assert TrimStart(xy[1..], JsSpace) == TrimStart(xy[1..][1..], JsSpace);
        assert t == [];
      } else {
        assert t == xy[1..];
        assert TrimEnd(t, JsSpace) == t;
      }
    } else {
      assert t == xy;
      var e := TrimEnd(xy, JsSpace);
      if xy[1] in JsSpace {
        assert e == TrimEnd(xy[..1], JsSpace);
        assert e == xy[..1];
      } else {
        assert e == xy;
      }
    }
  }

  /** The codes `git status --short` prints fall in the expected classes, a file changed in both index and work tree by its higher-priority letter. */
  lemma ClassifyPorcelain()
    ensures Classify("??") == Untracked
    ensures Classify(" M") == Modified && Classify("M ") == Modified && Classify("AM") == Modified && Classify("MD") == Modified
    ensures Classify("A ") == Added && Classify("AD") == Added
    ensures Classify(" D") == Deleted && Classify("D ") == Deleted
    ensures Classify("R ") == Unclassified
  {
    ClassifyModified();
    ClassifyStaged();
  }

  lemma ClassifyModified()
    ensures Classify("??") == Untracked
    ensures Classify(" M") == Modified && Classify("M ") == Modified && Classify("AM") == Modified && Classify("MD") == Modified
  {
    assert ' ' in JsSpace;
    TrimTwo("??");
    TrimTwo(" M");
    TrimTwo("M ");
    TrimTwo("AM");
    TrimTwo("MD");
  }

  lemma ClassifyStaged()
    ensures Classify("A ") == Added && Classify("AD") == Added
    ensures Classify(" D") == Deleted && Classify("D ") == Deleted
    ensures Classify("R ") == Unclassified
  {
    assert ' ' in JsSpace;
    TrimTwo("A ");
    TrimTwo("AD");
    TrimTwo(" D");
    TrimTwo("D ");
    TrimTwo("R ");
  }

  /** One line of status output: `None` for an empty line or the `##` branch line; otherwise the first two characters and the text from index 3. */
  function ParseStatusLine(line: string): Option<StatusRow> {
    var xy := Slice(line, 0, 2);
    if line == "" || xy == "##" then None
    else Some(StatusRow(xy, Slice(line, 3, |line|), Classify(xy)))
  }

  /** A row is made exactly for a non-empty line not starting `##`; a row of a line of three or more characters puts the line back together around its separator. */
  lemma ParseStatusLineParts(line: string)
    ensures ParseStatusLine(line).None? <==> line == "" || StartsWith(line, "##")
    ensures ParseStatusLine(line).Some? && |line| >= 3 ==>
      var r := ParseStatusLine(line).value;
      |r.xy| == 2 && line == r.xy + [line[2]] + r.file
    ensures ParseStatusLine(line).Some? && |line| < 3 ==>
      ParseStatusLine(line).value.xy == line && ParseStatusLine(line).value.file == ""
  {
    if |line| >= 2 {
      assert Slice(line, 0, 2) == line[..2];
    } else {
      assert Slice(line, 0, 2) == line;
    }
    if |line| >= 3 {
      assert Slice(line, 3, |line|) == line[3..];
      assert line == line[..2] + [line[2]] + line[3..];
    } else {
      assert Slice(line, 3, |line|) == "";
    }
  }

  /** The rows of a list of status lines, in order. */
  function StatusRows(lines: seq<string>): (r: seq<StatusRow>)
    ensures |r| <= |lines|
  {
    if lines == [] then []
    else
      var last := ParseStatusLine(lines[|lines| - 1]);
      StatusRows(lines[..|lines| - 1]) + (if last.Some? then [last.value] else [])
  }

  lemma {:induction false} StatusRowsAppend(a: seq<string>, b: seq<string>)
    ensures StatusRows(a + b) == StatusRows(a) + StatusRows(b)
    decreases |b|
  {
    if b == [] {
      assert a + b == a;
    } else {
      var b' := b[..|b| - 1];
      assert (a + b)[..|a + b| - 1] == a + b';
      StatusRowsAppend(a, b');
    }
  }

  /** Each line whose row is made contributes that row, in the lines' order; the branch line contributes nothing. */
  lemma StatusRowsOfLines(a: seq<string>, line: string, b: seq<string>)
    ensures ParseStatusLine(line).Some? ==>
      StatusRows(a + [line] + b) == StatusRows(a) + [ParseStatusLine(line).value] + StatusRows(b)
    ensures ParseStatusLine(line).None? ==> StatusRows(a + [line] + b) == StatusRows(a) + StatusRows(b)
  {
    StatusRowsAppend(a + [line], b);
    StatusRowsAppend(a, [line]);
    assert StatusRows(a + [line] + b) == StatusRows(a) + StatusRows([line]) + StatusRows(b);
    RowsOfOne(line);
  }

  lemma RowsOfOne(line: string)
    ensures StatusRows([line]) == if ParseStatusLine(line).Some? then [ParseStatusLine(line).value] else []
  {
    StatusRowsNext([line]);
    assert [line][..0] == [];
  }

  lemma StatusRowsNext(lines: seq<string>)
    requires lines != []
    ensures StatusRows(lines) == StatusRows(lines[..|lines| - 1])
      + (if ParseStatusLine(lines[|lines| - 1]).Some? then [ParseStatusLine(lines[|lines| - 1]).value] else [])
  {
  }

  /** No row comes from the `##` line: every row's letters differ from `##`, and every row's class agrees with its letters. */
  lemma {:induction false} RowsAreFiles(lines: seq<string>)
    ensures forall i :: 0 <= i < |StatusRows(lines)| ==>
      StatusRows(lines)[i].xy != "##" && StatusRows(lines)[i].cls == Classify(StatusRows(lines)[i].xy)
  {
    if lines != [] {
      RowsAreFiles(lines[..|lines| - 1]);
    }
  }

  // ---- HTML escaping ----

  function ReplaceChar(s: string, c: char, entity: string): string {
    if s == [] then ""
    else (if s[0] == c then entity else [s[0]]) + ReplaceChar(s[1..], c, entity)
  }

  lemma {:induction false} ReplaceCharAppend(a: string, b: string, c: char, entity: string)
    ensures ReplaceChar(a + b, c, entity) == ReplaceChar(a, c, entity) + ReplaceChar(b, c, entity)
  {
    if a != [] {
      assert (a + b)[1..] == a[1..] + b;
      ReplaceCharAppend(a[1..], b, c, entity);
    } else {
      assert a + b == b;
    }
  }

  lemma {:induction false} ReplaceCharAbsent(s: string, c: char, entity: string)
    requires c !in s
    ensures ReplaceChar(s, c, entity) == s
  {
    if s != [] {
      ReplaceCharAbsent(s[1..], c, entity);
    }
  }

  lemma ReplaceCharOne(c: char, d: char, entity: string)
    ensures ReplaceChar([c], d, entity) == if c == d then entity else [c]
  {
    assert [c][1..] == [];
  }

  /** `_escHtml`: `&` first, then `<`, then `>`. */
  function EscHtml(s: string): string {
    ReplaceChar(ReplaceChar(ReplaceChar(s, '&', "&amp;"), '<', "&lt;"), '>', "&gt;")
  }

  /** The entity for one character. */
  function EscChar(c: char): string {
    if c == '&' then "&amp;" else if c == '<' then "&lt;" else if c == '>' then "&gt;" else [c]
  }

  /** Escaping character by character. */
  function EscChars(s: string): string {
    if s == [] then "" else EscChar(s[0]) + EscChars(s[1..])
  }

  lemma EscHtmlOne(c: char)
    ensures EscHtml([c]) == EscChar(c)
  {
    ReplaceCharOne(c, '&', "&amp;");
    if c == '&' {
      ReplaceCharAbsent("&amp;", '<', "&lt;");
      ReplaceCharAbsent("&amp;", '>', "&gt;");
    } else {
      ReplaceCharOne(c, '<', "&lt;");
      if c == '<' {
        ReplaceCharAbsent("&lt;", '>', "&gt;");
      } else {
        ReplaceCharOne(c, '>', "&gt;");
      }
    }
  }

  /** Replacing `&` first makes the three passes agree with escaping each character once: no entity's own `&` is escaped again. */
  lemma {:induction false} EscHtmlPerChar(s: string)
    ensures EscHtml(s) == EscChars(s)
  {
    if s != [] {
      var c, t := s[0], s[1..];
      assert s == [c] + t;
      ReplaceCharAppend([c], t, '&', "&amp;");
      ReplaceCharAppend(ReplaceChar([c], '&', "&amp;"), ReplaceChar(t, '&', "&amp;"), '<', "&lt;");
      ReplaceCharAppend(ReplaceChar(ReplaceChar([c], '&', "&amp;"), '<', "&lt;"),
                        ReplaceChar(ReplaceChar(t, '&', "&amp;"), '<', "&lt;"), '>', "&gt;");
      assert EscHtml(s) == EscHtml([c]) + EscHtml(t);
      EscHtmlOne(c);
      EscHtmlPerChar(t);
    }
  }

  /** Decoding the three entities, left to right. */
  function Unescape(s: string): string
    decreases |s|
  {
    if s == [] then ""
    else if StartsWith(s, "&amp;") then "&" + Unescape(s[5..])
    else if StartsWith(s, "&lt;") then "<" + Unescape(s[4..])
    else if StartsWith(s, "&gt;") then ">" + Unescape(s[4..])
    else [s[0]] + Unescape(s[1..])
  }

  lemma UnescapeStep(c: char, rest: string)
    ensures Unescape(EscChar(c) + rest) == [c] + Unescape(rest)
  {
    if c == '&' {
      UnescapeAmp(rest);
    } else if c == '<' {
      UnescapeLt(rest);
    } else if c == '>' {
      UnescapeGt(rest);
    } else {
      UnescapePlain(c, rest);
    }
  }

  lemma UnescapeAmp(rest: string)
    ensures Unescape("&amp;" + rest) == "&" + Unescape(rest)
  {
    var s := "&amp;" + rest;
    assert s[..5] == "&amp;" && s[5..] == rest;
  }

  lemma UnescapeLt(rest: string)
    ensures Unescape("&lt;" + rest) == "<" + Unescape(rest)
  {
    var s := "&lt;" + rest;
    assert s[..4] == "&lt;" && s[4..] == rest;
    assert !StartsWith(s, "&amp;") by { assert s[1] == 'l'; }
  }

  lemma UnescapeGt(rest: string)
    ensures Unescape("&gt;" + rest) == ">" + Unescape(rest)
  {
    var s := "&gt;" + rest;
    assert s[..4] == "&gt;" && s[4..] == rest;
    assert !StartsWith(s, "&amp;") by { assert s[1] == 'g'; }
    assert !StartsWith(s, "&lt;") by { assert s[1] == 'g'; }
  }

  lemma UnescapePlain(c: char, rest: string)
    requires c != '&' && c != '<' && c != '>'
    ensures Unescape([c] + rest) == [c] + Unescape(rest)
  {
    var s := [c] + rest;
    assert s[0] == c && s[1..] == rest;
  }

  /** Escaped text holds no raw `<` or `>`. */
  lemma {:induction false} EscHtmlNoTags(s: string)
    ensures '<' !in EscHtml(s) && '>' !in EscHtml(s)
  {
    EscHtmlPerChar(s);
    EscCharsNoTags(s);
  }

  lemma {:induction false} EscCharsNoTags(s: string)
    ensures '<' !in EscChars(s) && '>' !in EscChars(s)
  {
    if s != [] {
      EscCharsNoTags(s[1..]);
      assert '<' !in EscChar(s[0]) && '>' !in EscChar(s[0]);
    }
  }

  /** Unescaping gives back the text that was escaped. */
  lemma {:induction false} EscHtmlRoundTrip(s: string)
    ensures Unescape(EscHtml(s)) == s
  {
    EscHtmlPerChar(s);
    EscCharsRoundTrip(s);
  }

  lemma {:induction false} EscCharsRoundTrip(s: string)
    ensures Unescape(EscChars(s)) == s
  {
    if s != [] {
      UnescapeStep(s[0], EscChars(s[1..]));
      EscCharsRoundTrip(s[1..]);
    }
  }

  // ---- the panel ----

  /** What the status list shows. */
  datatype StatusView = Loading | NotARepo | Clean | Rows(rows: seq<StatusRow>)

  /** The branch label: the trimmed output of `rev-parse`, or `HEAD` when it is blank. */
  function BranchLabel(stdout: string): (b: string)
    ensures b != ""
    ensures Trim(stdout, JsSpace) != "" ==> b == Trim(stdout, JsSpace)
  {
    var t := Trim(stdout, JsSpace);
    if t != "" then t else "HEAD"
  }

  /** The status list `refresh` shows for the status command's result. */
  function StatusViewOf(statusRes: RunResult): StatusView {
    var t := Trim(statusRes.stdout, JsSpace);
    if t == "" then Clean else Rows(StatusRows(Paths.SplitChar(t, '\n')))
  }

  const REV_PARSE: seq<string> := ["rev-parse", "--abbrev-ref", "HEAD"]
  const STATUS: seq<string> := ["status", "--short", "--branch"]

  /** The buttons that send a fixed command. */
  datatype Button = StageAll | Push | Pull | Log | Diff

  function ButtonArgs(b: Button): seq<string> {
    match b
    case StageAll => ["add", "-A"]
    case Push => ["push"]
    case Pull => ["pull"]
    case Log => ["log", "--oneline", "-20"]
    case Diff => ["diff", "--stat"]
  }

  /** The module flag `_available`, the branch label, the status list, the output pane, the commit message box (`None` when the page has none) and the argument lists sent to the server, in order. */
  class GitPanel {
    var available: bool
    var branch: string
    var status: StatusView
    var output: seq<OutLine>
    var message: Option<string>
    var sent: seq<seq<string>>

    constructor(message: Option<string>)
      ensures !available && status == Loading && output == [] && this.message == message && sent == []
    {
      available := false;
      branch := "";
      status := Loading;
      output := [];
      this.message := message;
      sent := [];
    }

    /** `refresh`: ask for the branch; without one the panel is not a repository, otherwise ask for the status and list its rows. */
    method Refresh(branchRes: RunResult, statusRes: RunResult)
      modifies this
      ensures available == branchRes.ok
      ensures !branchRes.ok ==> status == NotARepo && branch == "not a repo" && sent == old(sent) + [REV_PARSE]
      ensures branchRes.ok ==>
        branch == BranchLabel(branchRes.stdout) && status == StatusViewOf(statusRes) && sent == old(sent) + [REV_PARSE, STATUS]
      ensures output == old(output) && message == old(message)
    {
      branch := "…";
      status := Loading;
      sent := sent + [REV_PARSE];
      if !branchRes.ok {
        available := false;
        branch := "not a repo";
        status := NotARepo;
        return;
      }
      available := true;
      branch := BranchLabel(branchRes.stdout);
      sent := sent + [STATUS];
      var t := Trim(statusRes.stdout, JsSpace);
      if t == "" {
        status := Clean;
        return;
      }
      var rows := ParseRows(Paths.SplitChar(t, '\n'));
      status := Rows(rows);
    }

    /** Clear the output, echo the command, send it and print the result. */
    method Issue(echo: string, args: seq<string>, res: RunResult)
      modifies this
      ensures output == [OutLine(echo, CommandStyle)] + PrintResult(res)
      ensures sent == old(sent) + [args]
      ensures available == old(available) && branch == old(branch) && status == old(status) && message == old(message)
    {
      sent := sent + [args];
      output := [OutLine(echo, CommandStyle)] + PrintResult(res);
    }

    /** `runCmd`: a blank input clears the output and sends nothing; otherwise the normalised arguments are sent. */
    method RunCmd(typed: string, res: RunResult)
      modifies this
      ensures NormaliseArgs(typed).None? ==> output == [] && sent == old(sent)
      ensures NormaliseArgs(typed).Some? ==>
        var a := NormaliseArgs(typed).value;
        output == [OutLine("$ git " + JoinWith(a, " "), CommandStyle)] + PrintResult(res) && sent == old(sent) + [a]
      ensures available == old(available) && branch == old(branch) && status == old(status) && message == old(message)
    {
      output := [];
      var args := Words(typed, JsSpace);
      if |args| == 0 {
        return;
      }
      var finalArgs := if args[0] == "git" then args[1..] else args;
      Issue("$ git " + JoinWith(finalArgs, " "), finalArgs, res);
    }

    /** `stageFile`, from a row of the status list: stage the trimmed file text. */
    method StageFile(row: StatusRow, res: RunResult)
      modifies this
      ensures var f := Trim(row.file, JsSpace);
        output == [OutLine("$ git add " + f, CommandStyle)] + PrintResult(res) && sent == old(sent) + [["add", f]]
      ensures available == old(available) && branch == old(branch) && status == old(status) && message == old(message)
    {
      var f := Trim(row.file, JsSpace);
      Issue("$ git add " + f, ["add", f], res);
    }

    /** A fixed-command button. */
    method Press(b: Button, res: RunResult)
      modifies this
      ensures output == [OutLine("$ git " + JoinWith(ButtonArgs(b), " "), CommandStyle)] + PrintResult(res)
      ensures sent == old(sent) + [ButtonArgs(b)]
      ensures available == old(available) && branch == old(branch) && status == old(status) && message == old(message)
    {
      Issue("$ git " + JoinWith(ButtonArgs(b), " "), ButtonArgs(b), res);
    }

    /** `commit`: a blank message prints an error and sends nothing; otherwise the trimmed message is committed, and the box is cleared when the commit succeeded. */
    method Commit(res: RunResult)
      modifies this
      ensures var msg := if old(message).Some? then Trim(old(message).value, JsSpace) else "";
        && (msg == "" ==> output == [OutLine("✗ Please enter a commit message.", ErrorStyle)] && sent == old(sent) && message == old(message))
        && (msg != "" ==>
          && sent == old(sent) + [["commit", "-m", msg]]
          && output == [OutLine("$ git commit -m \"" + msg + "\"", CommandStyle)] + PrintResult(res)
          && message == (if res.ok then Some("") else old(message)))
      ensures available == old(available) && branch == old(branch) && status == old(status)
    {
      var msg := if message.Some? then Trim(message.value, JsSpace) else "";
      if msg == "" {
        output := [OutLine("✗ Please enter a commit message.", ErrorStyle)];
        return;
      }
      Issue("$ git commit -m \"" + msg + "\"", ["commit", "-m", msg], res);
      if res.ok && message.Some? {
        message := Some("");
      }
    }
  }

  /** The `forEach` over the status lines in `refresh`, collecting the rows it renders. */
  method ParseRows(lines: seq<string>) returns (rows: seq<StatusRow>)
    ensures rows == StatusRows(lines)
  {
    rows := [];
    for i := 0 to |lines|
      invariant rows == StatusRows(lines[..i])
    {
      assert lines[..i + 1][..i] == lines[..i];
      StatusRowsNext(lines[..i + 1]);
      var r := ParseStatusLine(lines[i]);
      if r.Some? {
        rows := rows + [r.value];
      }
    }
    assert lines[..|lines|] == lines;
  }

  /** Refreshing lists one row per file line of the status output, in order, and none for the branch line. */
  lemma RefreshListsFiles(header: string, files: seq<string>)
    requires StartsWith(header, "##")
    requires forall i :: 0 <= i < |files| ==> ParseStatusLine(files[i]).Some?
    ensures |StatusRows([header] + files)| == |files|
    ensures forall i :: 0 <= i < |files| ==> StatusRows([header] + files)[i] == ParseStatusLine(files[i]).value
  {
    ParseStatusLineParts(header);
    StatusRowsOfLines([], header, files);
    assert [] + [header] + files == [header] + files;
    AllRows(files);
  }

  lemma {:induction false} AllRows(files: seq<string>)
    requires forall i :: 0 <= i < |files| ==> ParseStatusLine(files[i]).Some?
    ensures |StatusRows(files)| == |files|
    ensures forall i :: 0 <= i < |files| ==> StatusRows(files)[i] == ParseStatusLine(files[i]).value
  {
    if files != [] {
      var n := |files| - 1;
      var init := files[..n];
      assert forall i :: 0 <= i < |init| ==> init[i] == files[i];
      AllRows(init);
      StatusRowsNext(files);
      var rows := StatusRows(files);
      var last := ParseStatusLine(files[n]);
      assert rows == StatusRows(init) + [last.value];
      forall i | 0 <= i < |files|
        ensures rows[i] == ParseStatusLine(files[i]).value
      {
        if i < n {
          assert rows[i] == StatusRows(init)[i];
        }
      }
    }
  }
}
