/**
 * The local compile-and-git server (`server.py`): how a `/compile` request becomes a
 * clang command line and a JSON reply, how a `/git` request is validated and how the
 * result of running git is reported. The HTTP plumbing, the temporary directory, the
 * file writes and the subprocess itself are parameters: a `CompileRun` or `GitRun`
 * says how the process ended.
 */
module Server {
  import opened Wrappers
  import opened Text
  import opened Assoc
  import Orchestrator

  // ---- /compile ----

  /** The JSON body of `/compile`; a field the client left out is `None`. */
  datatype CompileRequest = CompileRequest(
    files: Dict, std: Option<string>, opt: Option<string>, flags: Option<string>, entry: Option<string>)

  /** Where the wasi-sdk lives (`CONFIG["clang"]` and `CONFIG["sysroot"]`). */
  datatype Config = Config(clang: string, sysroot: string)

  const DEFAULT_STD := "-std=c++17"
  const DEFAULT_OPT := "-O1"
  const DEFAULT_FLAGS := "-Wall"
  const NO_FILES := "No files provided"
  const NO_ENTRY := "No .cpp or .c entry point found"
  const TIMED_OUT := "Compilation timed out (30s limit)"

  /** `body.get(name, default)`. */
  function Field(v: Option<string>, default: string): (r: string)
    ensures v.None? ==> r == default
    ensures v.Some? ==> r == v.value
  {
    v.GetOr(default)
  }

  /** The entry compiled: a non-empty `entry` field, else the first C++ source key, else the first C source key. */
  function CompileEntry(req: CompileRequest): Option<string> {
    if req.entry.Some? && req.entry.value != "" then req.entry
    else
      var cpp := Orchestrator.FindKey(Keys(req.files), Orchestrator.IsCppSource);
      if cpp.Some? then cpp else Orchestrator.FindKey(Keys(req.files), Orchestrator.IsCSource)
  }

  /**
   * The explicit entry wins. Otherwise the first C++ source in key order is chosen, and only
   * when no key is a C++ source the first C source; an entry is missing only when no key is
   * a source at all.
   */
  lemma CompileEntryChoice(req: CompileRequest)
    ensures req.entry.Some? && req.entry.value != "" ==> CompileEntry(req) == req.entry
    ensures !(req.entry.Some? && req.entry.value != "") ==>
      && (CompileEntry(req).None? <==> forall k :: k in Keys(req.files) ==> !Orchestrator.IsSource(k))
      && (CompileEntry(req).Some? ==> CompileEntry(req).value in Keys(req.files))
      && (CompileEntry(req).Some? && Orchestrator.IsCSource(CompileEntry(req).value) &&
          !Orchestrator.IsCppSource(CompileEntry(req).value) ==>
            forall k :: k in Keys(req.files) ==> !Orchestrator.IsCppSource(k))
      && ((exists k :: k in Keys(req.files) && Orchestrator.IsCppSource(k)) ==>
            CompileEntry(req).Some? && Orchestrator.FirstWith(Keys(req.files), Orchestrator.IsCppSource, CompileEntry(req).value))
      && ((forall k :: k in Keys(req.files) ==> !Orchestrator.IsCppSource(k)) && (exists k :: k in Keys(req.files) && Orchestrator.IsCSource(k)) ==>
            CompileEntry(req).Some? && Orchestrator.FirstWith(Keys(req.files), Orchestrator.IsCSource, CompileEntry(req).value))
  {
    if !(req.entry.Some? && req.entry.value != "") {
      var ks := Keys(req.files);
      var cpp := Orchestrator.FindKey(ks, Orchestrator.IsCppSource);
      var c := Orchestrator.FindKey(ks, Orchestrator.IsCSource);
      if cpp.None? {
        assert forall k :: k in ks ==> !Orchestrator.IsCppSource(k);
        if c.None? {
          assert forall k :: k in ks ==> !Orchestrator.IsCSource(k);
        } else {
          assert Orchestrator.IsSource(c.value);
        }
      } else {
        assert Orchestrator.IsSource(cpp.value);
      }
    }
  }

  /** `os.path.join(a, b)` on a POSIX system, where `name.replace("/", os.sep)` changes nothing. */
  function Join(a: string, b: string): (r: string)
    ensures StartsWith(b, "/") ==> r == b
    ensures !StartsWith(b, "/") && a != "" && !EndsWith(a, "/") ==> r == a + "/" + b
  {
    if StartsWith(b, "/") then b
    else if a == "" || EndsWith(a, "/") then a + b
    else a + "/" + b
  }

  /** The compiler: `clang++` for a C++ entry when it exists beside `clang`, else `clang`. */
  function Compiler(cfg: Config, isCpp: bool, hasClangxx: bool): string {
    if isCpp && hasClangxx then cfg.clang + "++" else cfg.clang
  }

  /** The command line the server runs for `entry` in the temporary directory `tmp`. */
  function ServerCmd(cfg: Config, tmp: string, hasClangxx: bool, entry: string, std: string, opt: string, flags: string): seq<string> {
    var isCpp := Orchestrator.IsCppSource(entry);
    var words := Words(flags, PySpace);
    [Compiler(cfg, isCpp, hasClangxx), Join(tmp, entry), "--target=wasm32-wasi", "--sysroot=" + cfg.sysroot, "-I" + tmp, std, opt]
      + (if isCpp then Orchestrator.CppFlags(words) else []) + words + ["-o", Join(tmp, "output.wasm")]
  }

  /** `cmd` as `_handle_compile` builds it with `+=`. */
  method BuildServerCmd(cfg: Config, tmp: string, hasClangxx: bool, entry: string, std: string, opt: string, flags: string)
    returns (cmd: seq<string>)
    ensures cmd == ServerCmd(cfg, tmp, hasClangxx, entry, std, opt, flags)
  {
    var outWasm := Join(tmp, "output.wasm");
    var entryPath := Join(tmp, entry);
    var isCpp := EndsWith(entry, ".cpp") || EndsWith(entry, ".cc");
    var compiler := cfg.clang + (if isCpp then "++" else "");
    if !(isCpp && hasClangxx) {
      compiler := cfg.clang;
    }
    cmd := [compiler, entryPath, "--target=wasm32-wasi", "--sysroot=" + cfg.sysroot, "-I" + tmp, std, opt];
    ghost var head := cmd;
    ghost var words := Words(flags, PySpace);
    assert flags == "" ==> words == [];
    if isCpp {
      var userFlags := if flags != "" then Words(flags, PySpace) else [];
      if "-fexceptions" !in userFlags {
        cmd := cmd + ["-fno-exceptions", "-fno-rtti"];
      }
      cmd := cmd + ["-lc++", "-lc++abi"];
    }
    assert cmd == head + (if isCpp then Orchestrator.CppFlags(words) else []);
    if flags != "" {
      cmd := cmd + Words(flags, PySpace);
    }
    assert cmd == head + (if isCpp then Orchestrator.CppFlags(words) else []) + words;
    cmd := cmd + ["-o", outWasm];
  }

  /**
   * The command starts with the compiler, the entry's path, the target, the sysroot, the
   * include path, the standard and the optimisation level; for C++ the exception and RTTI
   * flags appear exactly when the user flags lack `-fexceptions`, followed by the C++
   * libraries; then come the user flags, each non-empty and free of whitespace, in order;
   * and it ends with the output file.
   */
  lemma ServerCmdShape(cfg: Config, tmp: string, hasClangxx: bool, entry: string, std: string, opt: string, flags: string)
    ensures var c := ServerCmd(cfg, tmp, hasClangxx, entry, std, opt, flags);
      var words := Words(flags, PySpace);
      var isCpp := Orchestrator.IsCppSource(entry);
      && c[..7] == [Compiler(cfg, isCpp, hasClangxx), Join(tmp, entry), "--target=wasm32-wasi", "--sysroot=" + cfg.sysroot, "-I" + tmp, std, opt]
      && c[|c| - 2..] == ["-o", Join(tmp, "output.wasm")]
      && c[|c| - 2 - |words|..|c| - 2] == words
      && AreWords(words, PySpace)
      && (isCpp ==> ("-fno-exceptions" in c[7..|c| - 2 - |words|] <==> "-fexceptions" !in words))
      && (isCpp ==> c[|c| - 4 - |words|..|c| - 2 - |words|] == ["-lc++", "-lc++abi"])
      && (!isCpp ==> |c| == 9 + |words|)
  {
    WordsAreWords(flags, PySpace);
    var words := Words(flags, PySpace);
    var isCpp := Orchestrator.IsCppSource(entry);
    var mid := if isCpp then Orchestrator.CppFlags(words) else [];
    var head := [Compiler(cfg, isCpp, hasClangxx), Join(tmp, entry), "--target=wasm32-wasi", "--sysroot=" + cfg.sysroot, "-I" + tmp, std, opt];
    var tail := ["-o", Join(tmp, "output.wasm")];
    var c := ServerCmd(cfg, tmp, hasClangxx, entry, std, opt, flags);
    assert c == head + mid + words + tail;
    Orchestrator.Segments(head, mid, words, tail);
    assert c[7..|c| - 2 - |words|] == mid;
    if isCpp {
      Orchestrator.CppFlagsShape(words);
      Orchestrator.LastTwoOfMiddle(c, mid, 7, |c| - 2 - |words|);
    }
  }


  /** `clang++` is used exactly for a C++ entry when it exists. */
  lemma CompilerChoice(cfg: Config, isCpp: bool, hasClangxx: bool)
    ensures Compiler(cfg, isCpp, hasClangxx) == cfg.clang + "++" <==> isCpp && hasClangxx
  {
    if !(isCpp && hasClangxx) {
      assert |cfg.clang| != |cfg.clang + "++"|;
    }
  }

  /** How the compile step ended: the process exited (after the files were written), it timed out, or something raised. */
  datatype CompileRun = Exited(returnCode: int, stdout: string, stderr: string) | TimedOutRun | Raised(message: string)

  /** The JSON reply: 400 with an error, 200 with `success` false and an exit code, 200 with `success` true, a timeout, or 500. */
  datatype CompileResponse =
    | Rejected(error: string)
    | CompileError(exitCode: int, stderr: string)
    | Built(stderr: string, entry: string)
    | Timeout(stderr: string)
    | Crashed(stderr: string)

  function Status(r: CompileResponse): int {
    match r
    case Rejected(_) => 400
    case Crashed(_) => 500
    case _ => 200
  }

  /** `"\n".join(filter(None, [stdout.strip(), stderr.strip()]))`. */
  function Combined(stdout: string, stderr: string): string {
    var o := Trim(stdout, PySpace);
    var e := Trim(stderr, PySpace);
    JoinWith(NonEmptyParts([o, e]), "\n")
  }

  function NonEmptyParts(parts: seq<string>): (r: seq<string>)
    ensures forall i :: 0 <= i < |r| ==> r[i] != ""
  {
    if parts == [] then []
    else if parts[0] == "" then NonEmptyParts(parts[1..])
    else [parts[0]] + NonEmptyParts(parts[1..])
  }

  /** Two parts joined by a newline, an empty part dropped with its separator. */
  lemma TwoParts(o: string, e: string)
    ensures JoinWith(NonEmptyParts([o, e]), "\n") == if o == "" then e else if e == "" then o else o + "\n" + e
  {
    assert [o, e][1..] == [e];
    assert NonEmptyParts([e][1..]) == [];
    if o != "" && e != "" {
      assert NonEmptyParts([o, e]) == [o, e];
      assert JoinWith([o, e], "\n") == o + "\n" + JoinWith([e], "\n");
    }
  }

  /** The combined text is the stripped stdout and the stripped stderr, separated by a newline only when both are non-empty. */
  lemma CombinedParts(stdout: string, stderr: string)
    ensures var o := Trim(stdout, PySpace);
      var e := Trim(stderr, PySpace);
      var c := Combined(stdout, stderr);
      && (o == "" ==> c == e)
      && (e == "" ==> c == o)
      && (o != "" && e != "" ==> c == o + "\n" + e)
  {
    TwoParts(Trim(stdout, PySpace), Trim(stderr, PySpace));
  }

  /** The combined text neither begins nor ends with a blank. */
  lemma CombinedTrimmed(stdout: string, stderr: string)
    ensures var c := Combined(stdout, stderr);
      c != "" ==> c[0] !in PySpace && c[|c| - 1] !in PySpace
  {
    CombinedParts(stdout, stderr);
    TrimShape(stdout, PySpace);
    TrimShape(stderr, PySpace);
    var o := Trim(stdout, PySpace);
    var e := Trim(stderr, PySpace);
    if o != "" && e != "" {
      var c := o + "\n" + e;
      assert c[0] == o[0];
      assert c[|c| - 1] == e[|e| - 1];
    }
  }

  /** `_handle_compile`: the validation, then the reply the finished run produces. */
  function HandleCompile(req: CompileRequest, run: CompileRun): CompileResponse {
    if req.files == [] then Rejected(NO_FILES)
    else match CompileEntry(req)
      case None => Rejected(NO_ENTRY)
      case Some(entry) =>
        match run
        case Exited(code, out, err) =>
          var c := Combined(out, err);
          if code != 0 then CompileError(code, c) else Built(c, entry)
        case TimedOutRun => Timeout(TIMED_OUT)
        case Raised(m) => Crashed(m)
  }

  /** The command run for a request, or `None` when it is rejected before anything is written. */
  function CompileCommand(req: CompileRequest, cfg: Config, tmp: string, hasClangxx: bool): Option<seq<string>> {
    if req.files == [] then None
    else match CompileEntry(req)
      case None => None
      case Some(entry) =>
        Some(ServerCmd(cfg, tmp, hasClangxx, entry, Field(req.std, DEFAULT_STD), Field(req.opt, DEFAULT_OPT), Field(req.flags, DEFAULT_FLAGS)))
  }

  /**
   * A request is rejected, with the reason, exactly when it has no files or no entry, and
   * then no command is run whatever the run would have done; otherwise `success` is true
   * exactly when the compiler exited with 0, an exit code is reported exactly for a
   * non-zero exit, and a built reply names the entry compiled.
   */
  lemma CompileOutcome(req: CompileRequest, cfg: Config, tmp: string, hasClangxx: bool, run: CompileRun)
    ensures var r := HandleCompile(req, run);
      && (r.Rejected? <==> CompileCommand(req, cfg, tmp, hasClangxx).None?)
      && (r.Rejected? <==> req.files == [] || CompileEntry(req).None?)
      && (req.files == [] ==> r == Rejected(NO_FILES))
      && (req.files != [] && CompileEntry(req).None? ==> r == Rejected(NO_ENTRY))
      && (!r.Rejected? ==>
        && (r.Built? <==> run.Exited? && run.returnCode == 0)
        && (r.CompileError? <==> run.Exited? && run.returnCode != 0)
        && (r.CompileError? ==> r.exitCode == run.returnCode && r.exitCode != 0)
        && (r.Built? ==> Some(r.entry) == CompileEntry(req))
        && (run.Exited? ==> (r.Built? || r.CompileError?) && r.stderr == Combined(run.stdout, run.stderr))
        && (run.TimedOutRun? ==> r == Timeout(TIMED_OUT))
        && (run.Raised? ==> r == Crashed(run.message) && Status(r) == 500))
  {
  }

  /**
   * A request with no options compiles with `-std=c++17 -O1` and ends its flags with
   * `-Wall`; given options are passed through unchanged.
   */
  lemma RequestDefaults(req: CompileRequest, cfg: Config, tmp: string, hasClangxx: bool)
    requires CompileCommand(req, cfg, tmp, hasClangxx).Some?
    ensures var c := CompileCommand(req, cfg, tmp, hasClangxx).value;
      && c[5] == Field(req.std, DEFAULT_STD) && c[6] == Field(req.opt, DEFAULT_OPT)
      && (req.std.None? ==> c[5] == "-std=c++17")
      && (req.opt.None? ==> c[6] == "-O1")
      && (req.flags.None? ==> c[|c| - 3] == "-Wall")
  {
    var entry := CompileEntry(req).value;
    var flags := Field(req.flags, DEFAULT_FLAGS);
    CommandOf(req, cfg, tmp, hasClangxx);
    CmdDefaults(cfg, tmp, hasClangxx, entry, Field(req.std, DEFAULT_STD), Field(req.opt, DEFAULT_OPT), flags);
  }

  lemma CommandOf(req: CompileRequest, cfg: Config, tmp: string, hasClangxx: bool)
    requires CompileCommand(req, cfg, tmp, hasClangxx).Some?
    ensures req.files != [] && CompileEntry(req).Some?
    ensures CompileCommand(req, cfg, tmp, hasClangxx).value ==
      ServerCmd(cfg, tmp, hasClangxx, CompileEntry(req).value, Field(req.std, DEFAULT_STD), Field(req.opt, DEFAULT_OPT), Field(req.flags, DEFAULT_FLAGS))
  {
  }

  lemma CmdDefaults(cfg: Config, tmp: string, hasClangxx: bool, entry: string, std: string, opt: string, flags: string)
    ensures var c := ServerCmd(cfg, tmp, hasClangxx, entry, std, opt, flags);
      && c[5] == std && c[6] == opt
      && (flags == DEFAULT_FLAGS ==> c[|c| - 3] == "-Wall")
  {
    ServerCmdShape(cfg, tmp, hasClangxx, entry, std, opt, flags);
    if flags == DEFAULT_FLAGS {
      WallWords();
      var c := ServerCmd(cfg, tmp, hasClangxx, entry, std, opt, flags);
      assert c[|c| - 3..|c| - 2] == ["-Wall"];
    }
  }

  lemma WallWords()
    ensures Words(DEFAULT_FLAGS, PySpace) == [DEFAULT_FLAGS]
  {
    assert NoneIn(DEFAULT_FLAGS, PySpace) by {
      forall i | 0 <= i < |DEFAULT_FLAGS| ensures DEFAULT_FLAGS[i] !in PySpace {
        assert DEFAULT_FLAGS[i] in {'-', 'W', 'a', 'l'};
      }
    }
    SingleWord(DEFAULT_FLAGS, PySpace);
  }

  /** What the browser makes of the reply: any non-2xx status looks like no server at all; `success` false gives a compile failure with the exit code, if any. */
  function ClientReply(r: CompileResponse, runExit: int): (v: Orchestrator.ServerReply)
    ensures v.NoServer? <==> Status(r) != 200
  {
    match r
    case Rejected(_) => Orchestrator.NoServer
    case Crashed(_) => Orchestrator.NoServer
    case CompileError(code, _) => Orchestrator.CompileFailed(Some(code))
    case Timeout(_) => Orchestrator.CompileFailed(None)
    case Built(_, _) => Orchestrator.Compiled(runExit)
  }

  /** The browser always sends the entry it chose, so the server compiles that entry with the options sent. */
  lemma BrowserRequest(files: Dict, entry: string, std: string, opt: string, flags: string,
                       cfg: Config, tmp: string, hasClangxx: bool)
    requires entry != ""
    ensures var req := CompileRequest(files, Some(std), Some(opt), Some(flags), Some(entry));
      && CompileEntry(req) == Some(entry)
      && (files != [] ==> CompileCommand(req, cfg, tmp, hasClangxx) == Some(ServerCmd(cfg, tmp, hasClangxx, entry, std, opt, flags)))
  {
  }

  /**
   * A rejected or crashed request looks to the browser like no server at all, so it goes on
   * to its own compiler, and only then; a timeout shows as exit 1.
   */
  lemma BrowserFallback(req: CompileRequest, run: CompileRun, runExit: int, wasmerOk: bool, w: Orchestrator.WasmerOutcome)
    ensures var r := HandleCompile(req, run);
      var reply := ClientReply(r, runExit);
      var c := Orchestrator.RunCpp(Keys(req.files), reply, wasmerOk, w);
      && (r.Rejected? ==> reply.NoServer?)
      && (run.Raised? ==> reply.NoServer?)
      && (Orchestrator.SelectEntry(Keys(req.files)).Some? ==> (c.fellBack <==> reply.NoServer?))
      && (!r.Rejected? && run.TimedOutRun? && Orchestrator.SelectEntry(Keys(req.files)).Some? ==> c.badges == [1])
  {
    var reply := ClientReply(HandleCompile(req, run), runExit);
    ReplyOf(req, run, runExit);
    Orchestrator.FallbackOnlyWithoutServer(Keys(req.files), reply, wasmerOk, w);
  }

  lemma ReplyOf(req: CompileRequest, run: CompileRun, runExit: int)
    ensures var r := HandleCompile(req, run);
      var reply := ClientReply(r, runExit);
      && (r.Rejected? ==> reply.NoServer?)
      && (run.Raised? ==> reply.NoServer?)
      && (!r.Rejected? && run.TimedOutRun? ==> reply == Orchestrator.CompileFailed(None) && Orchestrator.ServerBadges(reply) == [1])
  {
  }

  // ---- /git ----

  /** The `args` field: a JSON list of strings, or some other JSON value. A missing field is the empty list. */
  datatype GitArgs = ArgList(items: seq<string>) | NotAList

  /** How running git ended. */
  datatype GitRun = GitExited(returnCode: int, stdout: string, stderr: string) | GitMissing | GitTimedOut | GitRaised(message: string)

  datatype GitResponse = GitResponse(status: int, ok: bool, stdout: string, stderr: string, code: int)

  const BLOCKED: set<string> := {"--exec", "--upload-pack", "--receive-pack"}
  const NO_ARGS := "No git args provided"
  const BLOCKED_ARG := "Blocked argument"

  /** The guard as written: only an argument spelled exactly like a blocked option is refused. */
  predicate BlockedAsWritten(a: string) {
    a in BLOCKED
  }

  /**
   * A blocked option spelled in full, alone or with an attached value (`--upload-pack=<program>`),
   * which git accepts too. Git also accepts unambiguous abbreviations of long options
   * (`--upload-pa=<program>`); this guard does not cover those.
   */
  predicate Blocked(a: string) {
    a in BLOCKED || StartsWith(a, "--exec=") || StartsWith(a, "--upload-pack=") || StartsWith(a, "--receive-pack=")
  }

  predicate Refused(a: string, strict: bool) {
    if strict then Blocked(a) else BlockedAsWritten(a)
  }

  /** The git command run, or `None` when the request is refused before git starts. */
  function GitCommandGiven(args: GitArgs, strict: bool): Option<seq<string>> {
    match args
    case NotAList => None
    case ArgList(items) =>
      if items == [] then None
      else if exists i :: 0 <= i < |items| && Refused(items[i], strict) then None
      else Some(["git"] + items)
  }

  /** `_handle_git` given how git ran; `strict` selects the corrected guard. */
  function HandleGitGiven(args: GitArgs, run: GitRun, strict: bool): GitResponse {
    if args.NotAList? || args.items == [] then GitResponse(400, false, "", NO_ARGS, 1)
    else if GitCommandGiven(args, strict).None? then GitResponse(400, false, "", BLOCKED_ARG, 1)
    else match run
      case GitExited(rc, out, err) => GitResponse(200, rc == 0, out, err, rc)
      case GitMissing => GitResponse(200, false, "", "git not found — is Git installed and on your PATH?", 127)
      case GitTimedOut => GitResponse(200, false, "", "git command timed out (30s)", 1)
      case GitRaised(m) => GitResponse(500, false, "", m, 1)
  }

  function HandleGitAsWritten(args: GitArgs, run: GitRun): GitResponse { HandleGitGiven(args, run, false) }

  function HandleGit(args: GitArgs, run: GitRun): GitResponse { HandleGitGiven(args, run, true) }

  /**
   * A request is refused with 400 exactly when its arguments are not a non-empty list or
   * one of them is blocked, and then git is never run; otherwise git runs as `git` followed
   * by the arguments, and `ok` holds exactly when git exited with 0.
   */
  lemma GitOutcome(args: GitArgs, run: GitRun)
    ensures var r := HandleGit(args, run);
      && (r.status == 400 <==> GitCommandGiven(args, true).None?)
      && (r.status == 400 <==> args.NotAList? || args.items == [] || exists i :: 0 <= i < |args.items| && Blocked(args.items[i]))
      && (args.NotAList? || args.items == [] ==> r == GitResponse(400, false, "", NO_ARGS, 1))
      && (GitCommandGiven(args, true).Some? ==> GitCommandGiven(args, true).value == ["git"] + args.items)
      && (r.ok <==> r.status == 200 && run.GitExited? && run.returnCode == 0)
      && (r.ok ==> r.code == 0)
      && (r.status != 400 && run.GitMissing? ==> r.code == 127)
      && (r.status != 400 && run.GitExited? ==> r.code == run.returnCode && r.stdout == run.stdout && r.stderr == run.stderr)
  {
  }

  /** As written, the guard lets the attached-value spelling of `--upload-pack` through, so git runs with it. */
  lemma UploadPackValueSlipsThrough(run: GitRun)
    ensures var args := ArgList(["fetch", "--upload-pack=touch pwned", "origin"]);
      && HandleGitAsWritten(args, run).status != 400
      && GitCommandGiven(args, false) == Some(["git", "fetch", "--upload-pack=touch pwned", "origin"])
      && HandleGit(args, run).status == 400
  {
    var items := ["fetch", "--upload-pack=touch pwned", "origin"];
    assert "--upload-pack=touch pwned" !in BLOCKED by {
      assert |"--upload-pack=touch pwned"| != |"--exec"|;
      assert |"--upload-pack=touch pwned"| != |"--upload-pack"|;
      assert |"--upload-pack=touch pwned"| != |"--receive-pack"|;
    }
    assert "fetch" !in BLOCKED by {
      assert "fetch"[0] != '-';
    }
    assert "origin" !in BLOCKED by {
      assert "origin"[0] != '-';
    }
    assert forall i :: 0 <= i < |items| ==> !Refused(items[i], false);
    assert !(exists i :: 0 <= i < |items| && Refused(items[i], false));
    assert GitCommandGiven(ArgList(items), false) == Some(["git"] + items);
    assert ["git"] + items == ["git", "fetch", "--upload-pack=touch pwned", "origin"];
    assert Blocked(items[1]) by {
      assert items[1][..|"--upload-pack="|] == "--upload-pack=";
    }
  }

  /**
   * With the corrected guard no argument reaching git is a blocked option in either of its two
   * full spellings (abbreviations are not covered); both guards agree on every argument list
   * the corrected one lets through.
   */
  lemma GitGuardSound(args: GitArgs)
    ensures GitCommandGiven(args, true).Some? ==>
      forall i :: 1 <= i < |GitCommandGiven(args, true).value| ==>
        var a := GitCommandGiven(args, true).value[i];
        a !in BLOCKED && !StartsWith(a, "--exec=") && !StartsWith(a, "--upload-pack=") && !StartsWith(a, "--receive-pack=")
    ensures GitCommandGiven(args, true).Some? ==> GitCommandGiven(args, false) == GitCommandGiven(args, true)
  {
    if GitCommandGiven(args, true).Some? {
      var c := GitCommandGiven(args, true).value;
      forall i | 1 <= i < |c|
        ensures !Blocked(c[i])
      {
        assert c[i] == args.items[i - 1];
      }
    }
  }
}
