# octaneide C/C++ run pipeline — a Dafny model

octaneide is a browser IDE. Its project is a flat map from slash-separated paths to file
texts, with open tabs, an active file, a set of open folders and the editor's buffer. The
"Run" button of a C or C++ project does the following:

- It picks an entry file.
- It asks the local Python server (`server.py`) to compile and run the project.
- When no server answers, it falls back to compiling in the browser with the Wasmer SDK,
  running the program under a small WASI shim.
- The shim gives the program its standard input one of two ways. A single line can come
  from the terminal while a Web Worker waits on a `SharedArrayBuffer`. Otherwise the input
  is collected up front and the program runs inline.
- A Git panel sends git commands to the same server.

The project models that pipeline and proves what each step promises. It is organised as
one module per component:

| module | file | what it models |
|---|---|---|
| `Orchestrator` | `orchestrator.dfy` | `runCpp` and the pieces around it (`js/compiler.js`): entry selection, C/C++ flags, the library splice, the one-time loads of Wasmer and clang, the course of a run and the exit badges |
| `Server` | `server.dfy` | `/compile` and `/git` in `server.py`: defaults, the command line, the combined output and the git argument guard |
| `Wasi` | `wasi.dfy` | the inline WASI shim: the gather in `fd_write`, the scatter in `fd_read`, the word stores; a class over a byte `array` for memory |
| `StdinChannel` | `channel.dfy` | the worker's shim and the shared buffer's layout: two control words (IDLE/WAITING/READY and the length), then the line |
| `InteractiveRun` | `runner.dfy` | the page side of the worker run (`onmessage`, `onerror`) and the round trip of a typed line |
| `Terminal` | `terminal.dfy` | the two line editors in `js/terminal.js`: interactive input and the pre-collect prompt |
| `Workspace` | `workspace.dfy` | `State` (`js/state.js`), the editor's `open`/`closeTab`/`renderTabs` and the file tree's create/delete/drag operations, as a class over the state's fields |
| `FileTreeBuild` | `filetree_build.dfy` | `buildTree` |
| `Paths` | `paths.dfy` | the path helpers and `LANG_META` of `js/filetree.js` |
| `LangTables` | `langtables.dfy` | the language tables of `js/state.js` |
| `Git` | `git.dfy` | the Git panel (`js/git.js`) |
| `Text`, `Bytes`, `Assoc`, `Wrappers` | `text.dfy`, `bytes.dfy`, `assoc.dfy`, `wrappers.dfy` | JavaScript and Python string operations, little-endian words and UTF-8, JavaScript objects as ordered key lists, `Option` |

Some conventions run through the whole model:

- **Whitespace.** It is JavaScript's set for `trim`/`\s` and Python's set for `str.strip`.
- **Case.** Lower-casing is exact for the ASCII keys it is compared with.
- **Objects.** A JavaScript object is an association list. Its keys keep insertion order,
  as `Object.keys` does for non-integer keys.
- **Memory.** WebAssembly memory is a byte `array`. `DataView` and typed-array bounds
  errors are faults. A fault throws out of the import and ends the run as a trap.
- **Blocking.** `Atomics.wait` is an enabling condition of the worker's resume step: the
  read completes only once word 0 is no longer WAITING.
- **Outside inputs.** Everything that comes from outside is a parameter of the operation
  that receives it:
  - the editor's text (`None` when there is no editor);
  - the answer to `confirm`;
  - the server's reply;
  - what Wasmer, clang or the program did;
  - the keys typed at the terminal.

Stateful parts of the source keep their form. `Workspace.IdeState` holds the state's
fields. `Wasi.Instance` and `StdinChannel.Worker` own memory arrays, and
`StdinChannel.SharedBuffer` owns the shared buffer's array. `Terminal.InteractiveConsole`,
`Terminal.PromptCollector`, `InteractiveRun.HostRun`, `Git.GitPanel` and
`Orchestrator.Compiler` keep the handlers' closures and module variables as fields. Each
method takes its object to the state that a pure function of the old state describes. The
promises of the source are lemmas about those functions.

## Model

| member | source | states |
|---|---|---|
| Orchestrator.ExitBadge | js/compiler.js:14-19 | the badge is empty exactly for a missing code and green exactly for exit code 0 |
| Orchestrator.BadgeIdentifiesCode | js/compiler.js:14-19 | two exit codes that show the same badge are equal |
| Orchestrator.OrOne | js/compiler.js:220-224 | `code \|\| 1` is never 0 and keeps any non-zero code |
| Orchestrator.FindKey | js/compiler.js:125-129 | `find` gives nothing exactly when no key matches; otherwise it gives a key that matches and that no earlier key (in key order) matches |
| Orchestrator.FirstWithUnique | js/compiler.js:125-129 | at most one key is the first match of a test in key order, so the first match determines `find`'s answer |
| Orchestrator.EntryExistsIff | js/compiler.js:125-130 | an entry is chosen exactly when some file is a `.cpp`, `.cc` or `.c` source |
| Orchestrator.EntryIsSource | js/compiler.js:125-129 | the chosen entry is a project file and a C or C++ source |
| Orchestrator.EntryPrefersMain | js/compiler.js:125-129 | the entry is the first key (in key order) named `main.cpp` when there is one; otherwise the first named `main.c`; otherwise the first C++ source (`.cpp`/`.cc`); otherwise the first C source |
| Orchestrator.CppBeatsEarlierC | js/compiler.js:125-129 | a C++ source wins over a C source listed before it, when neither is named `main` |
| Orchestrator.MainCppIsCpp | js/compiler.js:126 | a file named `main.cpp` is a C++ source |
| Orchestrator.MainCIsC | js/compiler.js:127 | a file named `main.c` is a C source |
| Orchestrator.CAndCppExclusive | js/compiler.js:129-132 | a C entry is never treated as C++ |
| Orchestrator.SelectsLoneMainCpp | js/compiler.js:125-129 | a project holding only `main.cpp` compiles `main.cpp` |
| Orchestrator.BuildWasmerArgs | js/compiler.js:172-184 | the `push` sequence builds exactly the argument list of the model |
| Orchestrator.WasmerArgsShape | js/compiler.js:172-184 | the arguments start with entry, output, standard, optimisation and include path; for C++ the no-exceptions flags appear exactly when the user flags lack `-fexceptions` and `-lc++ -lc++abi` follow; then the user flags, split on whitespace with empty pieces dropped, in order |
| Orchestrator.CppFlagsShape | js/compiler.js:180-183 | the C++ flags hold `-fno-exceptions` exactly when the user flags lack `-fexceptions` and end with the two C++ libraries |
| Orchestrator.WithLibraries | js/compiler.js:163-167 | adding the libraries keeps every project file and keeps unique keys unique |
| Orchestrator.LibrariesKeepProject | js/compiler.js:163-167 | the project's keys come first in their order, and a file at no library path keeps its content |
| Orchestrator.LibraryIsSent | js/compiler.js:163-167 | a downloaded library whose stored header is non-empty is sent at its path with that header |
| Orchestrator.SpliceLibraries | js/compiler.js:163-167 | the loop over the downloaded libraries builds exactly the files of the model |
| Orchestrator.EnsureWasmerCalls | js/compiler.js:52-71 | a run of calls gives one answer per call |
| Orchestrator.WasmerLoadsOnce | js/compiler.js:52-71 | from a fresh page the SDK import is tried exactly once, every call answers what that first import gave, and a failure is not retried |
| Orchestrator.ClangLoadsUntilSuccess | js/compiler.js:75-121 | over a run of `ensureClang` calls from a fresh page: a load is tried on every call up to and including the first successful one and on none after it; every call before it fails and every call from it on returns the loaded package; a failed load is tried again on the next call |
| Orchestrator.Compiler.EnsureWasmer | js/compiler.js:52-71 | the two flags and the import count move as one `ensureWasmer` step says |
| Orchestrator.Compiler.EnsureClang | js/compiler.js:75-121 | the cached package and the load count move as one `ensureClang` step says |
| Orchestrator.ServerReturns | js/compiler.js:261-262 | as the comment above `runCppServer` promises, it yields true exactly when the server answered |
| Orchestrator.CompileErrorFallsThrough | js/compiler.js:286-289 | as written, a compile error reported by the server still goes on to the browser compiler, whose badges follow the server's |
| Orchestrator.CompileErrorEndsGreen | js/compiler.js:137-148 | as written, after a server compile error the last badge is the browser run's exit code, green when that is 0 |
| Orchestrator.FallbackOnlyWithoutServer | js/compiler.js:124-154 | with the promised return value the browser compiler is tried exactly when there is an entry and no server; without an entry the badge is 1; a server's badges are the only ones |
| Orchestrator.FinalBadge | js/compiler.js:124-154 | the last badge is the program's exit code after a run, and non-zero after any failure |
| Orchestrator.ChooseRunMode | js/compiler.js:241-251 | the shared buffer is used exactly when the setting is on and the page can create one; otherwise stdin is collected first, with a warning exactly when the setting was on |
| Orchestrator.Compiler.constructor | js/compiler.js:5-7 | the page starts with no SDK loaded, no failure recorded and no clang package |
| Server.Field | server.py:124-128 | a field the request leaves out takes its default; a given field is used as sent |
| Server.CompileEntryChoice | server.py:134-139 | an explicit non-empty entry wins; otherwise the entry is the first C++ source in key order, and only when no key is a C++ source the first C source; it is missing exactly when no key is a source |
| Server.Join | server.py:151-152 | joining onto an absolute name gives that name; otherwise the two parts are separated by one `/` |
| Server.BuildServerCmd | server.py:160-183 | the `+=` sequence builds exactly the command of the model |
| Server.ServerCmdShape | server.py:154-183 | the command starts with the compiler, the entry's path, the target, the sysroot, the include path, standard and optimisation; for C++ the no-exceptions flags appear exactly when the user flags lack `-fexceptions` and the two C++ libraries follow; then the user flags split on whitespace without empty pieces, in order; it ends with `-o` and the output file |
| Server.CompilerChoice | server.py:154-158 | `clang++` is used exactly for a C++ entry when it exists beside `clang` |
| Server.CombinedParts | server.py:194-196 | the combined output is the stripped stdout and stderr, joined by a newline only when both are non-empty |
| Server.CombinedTrimmed | server.py:194-196 | the combined output neither begins nor ends with whitespace |
| Server.CompileOutcome | server.py:120-220 | a request is rejected with its reason exactly when it has no files or no entry, and then nothing is compiled; otherwise `success` holds exactly for exit status 0, the exit code is reported exactly for a non-zero status, a success names the entry, a timeout and an exception give their own replies, the latter with status 500 |
| Server.RequestDefaults | server.py:124-127 | a request without options compiles with `-std=c++17` and `-O1` and ends its flags with `-Wall`; given options are passed unchanged |
| Server.CommandOf | server.py:130-183 | a command is built only for a request with files and an entry, from that entry and the request's fields |
| Server.WallWords | server.py:180-181 | the default flags split into the single word `-Wall` |
| Server.ClientReply | js/compiler.js:271-289 | the browser treats every status but 200 as having no server, and `success` false as a compile failure with the exit code sent |
| Server.BrowserRequest | js/compiler.js:272-276 | the browser always names its entry, so the server compiles that entry with the options sent |
| Server.BrowserFallback | js/compiler.js:137-148 | a rejected or crashed request looks to the browser like no server, so it falls back to its own compiler, and only then; a server timeout shows as exit 1 |
| Server.GitOutcome | server.py:230-264 | with the corrected guard a request is refused with 400 exactly when its arguments are not a non-empty list or hold a blocked option in either spelling, and git does not run; otherwise git runs with the arguments as given, `ok` holds exactly for exit status 0, a missing git gives code 127 and stdout, stderr and code are passed back |
| Server.UploadPackValueSlipsThrough | server.py:237-239 | as written, `--upload-pack=<program>` passes the guard and reaches git; the corrected guard refuses it |
| Server.GitGuardSound | server.py:237-241 | with the corrected guard no blocked option reaches git in either of its two full spellings (`--upload-pack`, `--upload-pack=...`), and it agrees with the guard as written on every list that the latter lets through without an attached-value spelling |
| StdinChannel.StoreCtrl | js/compiler.js:400 | storing a control word keeps the buffer's size |
| StdinChannel.StoreCtrlKeepsData | js/compiler.js:405 | storing a control word leaves the line area untouched |
| StdinChannel.StoreCtrlReads | js/compiler.js:400-405 | a stored control word reads back as stored and the other word is unchanged |
| StdinChannel.PostLine | js/terminal.js:60-63 | a line is handed over exactly when its encoding fits behind the eight control bytes |
| StdinChannel.PostThenTake | js/terminal.js:60-63 | after the page posts a line, word 0 reads READY, word 1 the length, and the worker takes exactly the line |
| StdinChannel.ResumeEffect | js/compiler.js:403-413 | after the worker wakes, word 0 reads IDLE and the line area is unchanged, and the read returns 0 or throws |
| StdinChannel.ResumeEffectOnSuccess | js/compiler.js:403-413 | a read that does not fault stores the count of bytes copied and leaves the buffer IDLE |
| StdinChannel.ResumeIntoOneBuffer | js/compiler.js:403-413 | a read into one buffer large enough for the line copies the whole line, and the stored count is its length |
| StdinChannel.OneBufferScatter | js/compiler.js:408-413 | the worker's copy of a line into one buffer that holds it moves every byte and counts them |
| StdinChannel.StoreCountKeeps | js/compiler.js:413 | storing the count beside the copied bytes keeps them, and the count reads back |
| StdinChannel.SmallWord | js/compiler.js:403 | a length below 2^31 reads back unchanged through the signed view |
| StdinChannel.SharedBuffer.constructor | js/compiler.js:311 | the shared buffer starts as one mebibyte of zeros |
| StdinChannel.SharedBuffer.Store | js/compiler.js:400 | `Atomics.store` changes the buffer as the model says |
| StdinChannel.SharedBuffer.Post | js/terminal.js:60-63 | the page's hand-over writes the line, its length and READY exactly when the line fits, and nothing otherwise |
| StdinChannel.Worker.constructor | js/compiler.js:384-389 | a new worker has posted nothing, has exit code 0 and no pending read |
| StdinChannel.Worker.FdWrite | js/compiler.js:392-397 | the worker's `fd_write` changes memory as the model says and posts one `write` message of the gathered bytes, or throws and posts nothing |
| StdinChannel.Worker.FdRead | js/compiler.js:398-402 | any descriptor but 0 stores a count of 0 at once; descriptor 0 stores WAITING, posts `waiting-stdin` and blocks |
| StdinChannel.Worker.Resume | js/compiler.js:402-413 | once word 0 is no longer WAITING the read completes as the model says |
| StdinChannel.Worker.ProcExit | js/compiler.js:422 | `proc_exit` records the code and throws the exit signal |
| StdinChannel.Worker.Finish | js/compiler.js:429-437 | the worker reports a trap on descriptor 2 if there was one, then posts `done` with the exit code |
| InteractiveRun.Launched | js/compiler.js:309-314 | a new run is alive, unresolved, and the console is not listening |
| InteractiveRun.Failed | js/compiler.js:330-335 | a worker error on a live run stops the console, ends the run and resolves to 1; a finished run is unaffected |
| InteractiveRun.Receives | js/compiler.js:316-328 | the page's messages never change the shared buffer |
| InteractiveRun.WritesOf | js/compiler.js:317-320 | at most one chunk is shown per message |
| InteractiveRun.ReceivesBeforeDone | js/compiler.js:316-328 | before `done`, every write is shown in the order it was posted and the run stays unresolved |
| InteractiveRun.DeadHostIgnores | js/compiler.js:323-326 | once the worker is terminated, later messages change nothing |
| InteractiveRun.ResolvesAtFirstDone | js/compiler.js:323-326 | the run resolves with the exit code of the first `done`, the console stops, every earlier write is shown and whatever follows is ignored |
| InteractiveRun.HostSeesWorkerExit | js/compiler.js:429-437 | what the worker posts at the end of a run makes the page resolve with the worker's exit code, a trap included |
| InteractiveRun.LineRoundTrip | js/terminal.js:57-65 | a line typed while the worker waits reaches the program: the worker may go on, its buffer receives the encoded line and a line feed, the count is the length, and the shared buffer is IDLE again |
| InteractiveRun.TypedWhileWaiting | js/terminal.js:57-65 | the line typed while the worker waits is posted to the shared buffer and releases the worker |
| InteractiveRun.CtrlCLeavesWorkerBlocked | js/terminal.js:73-75 | Ctrl+C while the worker waits leaves word 0 at WAITING for good, so the worker is never released |
| InteractiveRun.HostRun.constructor | js/compiler.js:309-314 | a host run starts as the model's new run |
| InteractiveRun.HostRun.OnMessage | js/compiler.js:316-328 | `onmessage` changes the page as the model says |
| InteractiveRun.HostRun.OnError | js/compiler.js:330-335 | `onerror` changes the page as the model says |
| Terminal.Started | js/terminal.js:47-54 | starting subscribes with an empty line and keeps the echo and the buffer |
| Terminal.Stopped | js/terminal.js:84-86 | stopping unsubscribes and keeps everything else, so stopping twice is stopping once |
| Terminal.FeedAbortedStays | js/terminal.js:54-81 | once a character throws, the rest of the chunk changes nothing |
| Terminal.FeedPrefix | js/terminal.js:55 | the first characters of a chunk are handled the same whatever follows them |
| Terminal.TypingAppends | js/terminal.js:76-79 | typing printable characters appends them to the line and to the echo and touches nothing else |
| Terminal.TypedLineDelivered | js/terminal.js:57-65 | a typed line and Enter empty the line, echo the text and a line break, and leave exactly the encoded line and a line feed for the worker |
| Terminal.EnterOverwrites | js/terminal.js:57-63 | Enter overwrites what the buffer held, so a line typed ahead of the next read replaces the one before it |
| Terminal.OverflowAborts | js/terminal.js:60-61 | a line too long for the buffer is not sent: the rest of the chunk is dropped and the line stays as typed |
| Terminal.BackspaceUndoes | js/terminal.js:67-72 | backspace after a printable character restores the line; only the echo remembers it |
| Terminal.CtrlCStops | js/terminal.js:73-75 | Ctrl+C unsubscribes, so every later chunk is ignored |
| Terminal.InteractiveConsole.constructor | js/terminal.js:45 | the console starts unsubscribed with an empty line |
| Terminal.InteractiveConsole.Start | js/terminal.js:47-54 | `startInteractiveInput` changes the console as the model says |
| Terminal.InteractiveConsole.Stop | js/terminal.js:84-86 | `stopInteractiveInput` changes the console as the model says |
| Terminal.InteractiveConsole.HandleKey | js/terminal.js:56-79 | one character changes the console and the shared buffer as the model says |
| Terminal.InteractiveConsole.OnData | js/terminal.js:54-81 | one `onData` chunk changes the console and the shared buffer as the model says |
| Terminal.PromptStart | js/terminal.js:89-94 | without a terminal the prompt resolves at once, and only then, to the empty input |
| Terminal.PromptKeyKeepsInvariant | js/terminal.js:96-111 | every character keeps the collected input made of whole lines, and a resolved prompt holds exactly that input |
| Terminal.PromptFeedKeepsInvariant | js/terminal.js:95-112 | every chunk keeps the collected input made of whole lines |
| Terminal.CollectedInputIsLines | js/terminal.js:95-112 | what the prompt resolves to is whole lines, so the inline runner adds a line feed only to the empty input |
| Terminal.LinesArePrepared | js/compiler.js:345 | text ending in a line feed is fed unchanged, and the empty text becomes one line feed |
| Terminal.PromptTypingAppends | js/terminal.js:110 | typing printable characters appends them to the current line and to the echo |
| Terminal.PromptFeedPrefix | js/terminal.js:96 | the first characters of a chunk are handled the same whatever follows them |
| Terminal.PromptLineCollected | js/terminal.js:105-107 | a typed line and Enter add that line and a line feed to the collected input |
| Terminal.PromptEofResolves | js/terminal.js:98-104 | Ctrl+D resolves with the collected lines plus the unfinished line when there is one, and later characters change nothing |
| Terminal.ResolvedIgnores | js/terminal.js:101-103 | a resolved prompt ignores every later character |
| Terminal.PromptEofEnds | js/terminal.js:98-104 | a Ctrl+D in a chunk decides the state the whole chunk ends in |
| Terminal.PromptFeedSplit | js/terminal.js:101-103 | once part of a chunk resolves the prompt, the whole chunk ends in the same state |
| Terminal.PromptCollector.constructor | js/terminal.js:89-94 | the collector starts as the model's start says |
| Terminal.PromptCollector.OnData | js/terminal.js:95-112 | one `onData` chunk changes the collector as the model says |
| Git.RunErrors | js/git.js:36-51 | a request that raised gives "Server not running" and code -1; an HTTP error gives `ok` false, empty stdout, the status as code and the endpoint message for 404 or "HTTP " and the status otherwise; a 2xx reply without a JSON body gives code -1; a 2xx JSON reply is passed on unchanged |
| Git.PanelSeesServer | js/git.js:36-51 | for a request the server answered, the panel's result is `ok` exactly when git ran and exited with 0, carries git's output and code when git ran, is exactly "HTTP 400" for a refused request, and has code 500 when git could not be started |
| Git.HttpCodes | js/git.js:45 | the status codes the server sends print as "400" and "500" |
| Git.NormaliseArgsBlank | js/git.js:118-123 | nothing is sent exactly when the typed input is all whitespace; what is sent is a list of words |
| Git.TypedCommandRoundTrip | js/git.js:120-123 | `git` and words joined by spaces sends exactly those words, even when the first of them is `git` again |
| Git.BareCommandRoundTrip | js/git.js:120-123 | words typed without a leading `git` are sent unchanged |
| Git.Styled | js/git.js:56-59 | each text becomes one line in the given style, in order |
| Git.LinesOf | js/git.js:56 | an output prints one line per part of its split at line feeds |
| Git.Texts | js/git.js:56-59 | the texts of printed lines, in order |
| Git.PrintResultShape | js/git.js:54-64 | `_printResult` prints the trimmed stdout's lines, then the trimmed stderr's lines as errors, then `(no output)` exactly for a failure with both outputs empty, and only that line is dimmed |
| Git.LinesJoinBack | js/git.js:56 | the printed lines of an output join back to that output |
| Git.PrintResultParts | js/git.js:54-64 | the stdout lines give back the trimmed stdout, the stderr lines the trimmed stderr, and the print ends with `(no output)` exactly for a failure with both outputs empty |
| Git.EmptyFailurePrintsNoOutput | js/git.js:61-63 | a failure with both outputs empty prints `(no output)` and nothing else |
| Git.BlankFailurePrintsNothing | js/git.js:55-63 | a failure whose output is only blanks prints nothing, because the `(no output)` test looks at the untrimmed text |
| Git.Classify | js/git.js:98-101 | a row is untracked exactly when its trimmed letters start with `?`; otherwise modified when they hold `M`, else added when they hold `A`, else deleted when they hold `D` |
| Git.TrimTwo | js/git.js:98 | two trimmed status letters start with `?` exactly when the first non-blank letter is `?` |
| Git.ClassifyPorcelain | js/git.js:98-101 | the codes of `git status --short` fall in the expected classes, a file changed in index and work tree by its higher-priority letter, and a rename in none |
| Git.ClassifyModified | js/git.js:98-99 | untracked and modified codes are classified as such |
| Git.ClassifyStaged | js/git.js:100-101 | added and deleted codes are classified as such, and a rename has no class |
| Git.ParseStatusLineParts | js/git.js:93-97 | a row is made exactly for a non-empty line not starting `##`; its letters and file text put the line back together around the separator |
| Git.StatusRows | js/git.js:92-110 | no more rows than lines |
| Git.StatusRowsAppend | js/git.js:92-110 | the rows of two runs of lines are the rows of the first then those of the second |
| Git.StatusRowsOfLines | js/git.js:92-110 | each line contributes its row in place, and a skipped line contributes nothing |
| Git.RowsOfOne | js/git.js:93-97 | one line gives its row when it makes one and nothing otherwise |
| Git.StatusRowsNext | js/git.js:92-110 | the rows of the lines are the rows before the last line followed by the last line's row |
| Git.RowsAreFiles | js/git.js:97-101 | no row has the letters `##`, and every row's class agrees with its letters |
| Git.ParseRows | js/git.js:92-110 | the `forEach` over the status lines collects exactly the rows of the lines |
| Git.RefreshListsFiles | js/git.js:92-110 | after the `##` branch line, every file line gives its own row, in order, and nothing else is listed |
| Git.AllRows | js/git.js:92-110 | lines that each make a row give exactly those rows, in order |
| Git.BranchLabel | js/git.js:82 | the branch label is never empty, and is the trimmed `rev-parse` output whenever that is not blank |
| Git.ReplaceCharAppend | js/git.js:114 | a global replace of one character works piece by piece |
| Git.ReplaceCharAbsent | js/git.js:114 | replacing a character the text does not hold changes nothing |
| Git.ReplaceCharOne | js/git.js:114 | one character becomes the entity when it is the one replaced and stays otherwise |
| Git.EscHtmlOne | js/git.js:113-115 | the three passes turn one character into its own entity |
| Git.EscHtmlPerChar | js/git.js:113-115 | replacing `&` first makes the three passes equal to escaping each character once |
| Git.UnescapeStep | js/git.js:113-115 | decoding an escaped character gives the character back, whatever follows |
| Git.UnescapeAmp | js/git.js:114 | `&amp;` decodes to `&` |
| Git.UnescapeLt | js/git.js:114 | `&lt;` decodes to `<` |
| Git.UnescapeGt | js/git.js:114 | `&gt;` decodes to `>` |
| Git.UnescapePlain | js/git.js:114 | any other character decodes to itself |
| Git.EscHtmlNoTags | js/git.js:104 | escaped status text holds no raw `<` or `>`, so a file name cannot open a tag in the list |
| Git.EscCharsNoTags | js/git.js:113-115 | escaping character by character leaves no `<` or `>` |
| Git.EscHtmlRoundTrip | js/git.js:113-115 | decoding the escaped text gives back the text, so the list shows file names as they are |
| Git.EscCharsRoundTrip | js/git.js:113-115 | decoding text escaped character by character gives it back |
| Git.GitPanel.constructor | js/git.js:3 | the panel starts unavailable and loading, with no output and nothing sent |
| Git.GitPanel.Refresh | js/git.js:67-111 | `refresh` asks for the branch; on failure it marks the panel unavailable and not a repository and asks nothing more; otherwise it shows the branch label, asks for the status and shows clean or the rows of its lines |
| Git.GitPanel.Issue | js/git.js:130-136 | a command clears the output, echoes itself, is sent, and its result is printed |
| Git.GitPanel.RunCmd | js/git.js:118-128 | `runCmd` clears the output and sends nothing for blank input; otherwise it echoes and sends the normalised words and prints the result |
| Git.GitPanel.StageFile | js/git.js:130-136 | clicking a row stages its trimmed file text |
| Git.GitPanel.Press | js/git.js:138-194 | each button echoes and sends its fixed command and prints the result |
| Git.GitPanel.Commit | js/git.js:146-158 | a blank message prints an error and sends nothing; otherwise the trimmed message is committed and the box is cleared only when the commit succeeded |
| Wasi.Iovec | js/compiler.js:351 | an iovec is readable exactly when its eight bytes lie inside memory |
| Wasi.Region | js/compiler.js:351 | a readable buffer has the length its iovec names |
| Wasi.RegionsSucceedIff | js/compiler.js:351 | gathering succeeds exactly when every iovec and every buffer lies inside memory |
| Wasi.RegionsLength | js/compiler.js:351-352 | the count `fd_write` stores is the sum of the iovec lengths, which is the number of bytes gathered |
| Wasi.SingleRegion | js/compiler.js:351 | `fd_write` over one iovec writes exactly that buffer |
| Wasi.RegionsFaultPersists | js/compiler.js:351 | a fault in one iovec makes the whole gather fault |
| Wasi.RegionsNext | js/compiler.js:351 | one more iovec appends its buffer, or faults |
| Wasi.GatherIovecs | js/compiler.js:351 | the gather loop over memory collects exactly the bytes of the model, or faults as it does |
| Wasi.GatherFrom | js/compiler.js:393-394 | the loop collects exactly the bytes of the model, or faults as it does |
| Wasi.GatherStep | js/compiler.js:394 | each iteration appends the next buffer, and a fault ends the gather |
| Wasi.ReadStep | js/compiler.js:358 | one iteration keeps the memory size, never moves past the end of the input, and counts exactly the bytes it moves |
| Wasi.ReadUpTo | js/compiler.js:358 | the delivered count is how far the input position moved |
| Wasi.ReadUpToNext | js/compiler.js:408-412 | one more iteration is one more step of the model |
| Wasi.StoppedStaysStopped | js/compiler.js:408 | once the loop has stopped, later iterations change nothing |
| Wasi.ReadAtEndDeliversNothing | js/compiler.js:358 | at the end of the input a read delivers nothing and the position stays |
| Wasi.SingleIovecRead | js/compiler.js:358 | a read into one fitting iovec copies the next bytes of the input, as many as the buffer holds or remain, and leaves the rest of memory unchanged |
| Wasi.ReadStepCopies | js/compiler.js:410-411 | a fitting chunk is copied at the buffer's address and advances the position and the count by its length |
| Wasi.ReadStepOverflows | js/compiler.js:411 | a chunk that does not fit in memory throws and leaves memory untouched |
| Wasi.CopiedStep | js/compiler.js:410-411 | the copying step, stated for the memory after the copy |
| Wasi.Patch | js/compiler.js:411 | writing a chunk at an address changes exactly those bytes |
| Wasi.ReadOne | js/compiler.js:409-411 | one iteration on memory does what one step of the model says |
| Wasi.ScatterIovecs | js/compiler.js:356-360 | both read loops on memory give the state of the model |
| Wasi.ScatterUntilStopped | js/compiler.js:408-412 | the loop ends after the last iovec or once the read stops, with the state of the model |
| Wasi.LoopExit | js/compiler.js:408 | where the loop leaves off, the remaining iterations would change nothing |
| Wasi.Store32 | js/compiler.js:352 | a 32-bit store changes memory as the model of the store says |
| Wasi.WriteEffect | js/compiler.js:349-355 | `fd_write` either returns 0 or throws; a throw prints nothing and leaves memory unchanged; it returns exactly when every buffer and the count word are inside memory, and then prints one chunk of all the gathered bytes after storing their count |
| Wasi.WriteReportsCount | js/compiler.js:352 | after a successful `fd_write` the count word reads back as the number of bytes printed, modulo 2^32 |
| Wasi.Settle | js/compiler.js:373-379 | a run that returns or calls `proc_exit` ends with the recorded code and no message; any other exception ends with 1 and a trap message |
| Wasi.Instance.constructor | js/compiler.js:343-346 | a fresh inline instance has printed nothing, has exit code 0, and holds its input encoded with a final line feed, read from the start |
| Wasi.Instance.FdWrite | js/compiler.js:349-355 | `fd_write` changes memory and the output as the model says |
| Wasi.Instance.FdRead | js/compiler.js:356-360 | the inline `fd_read` hands out the next input bytes, whatever the descriptor, and stores the count, or throws on a fault |
| Wasi.Instance.ProcExit | js/compiler.js:366 | `proc_exit` records the code and throws the exit signal |
| Wasi.Instance.Finish | js/compiler.js:378-379 | the `catch` around `_start` settles the exit code and prints the trap message, if any, on stderr |
| Wasi.PreparedStdin | js/compiler.js:345 | the input fed ends in a line feed and is at most one character longer than the text collected |
| Wasi.FdstatEffect | js/compiler.js:362 | `fd_fdstat_get` stores the file type byte exactly when the address is inside memory, and faults otherwise |
| Wasi.SizesEffect | js/compiler.js:364-365 | `args_sizes_get` and `environ_sizes_get` return 0 and store zero at both addresses when both are inside memory; otherwise they throw a range error, memory is unchanged when the first address is outside it, and only the first word is stored when just the second is |
| Wasi.ZeroWordsStayZero | js/compiler.js:364-365 | storing the second zero word keeps the first one zero, overlapping or not |
| Workspace.Flushed | js/editor.js:110 | with an active file and an editor, the active file holds the editor's text; every other file is unchanged and no key is lost |
| Workspace.FlushEffect | js/editor.js:110 | `flush` stores the editor's text in the active file, touches nothing else, and adds no key when the active file exists |
| Workspace.OpenIgnoresMissing | js/editor.js:62 | opening an empty or unknown path changes nothing |
| Workspace.OpenShowsFile | js/editor.js:61-77 | opening a file makes it active and appends it to the tabs only when it is not open, so tabs stay free of repeats; only the outgoing active file's content changes, to the editor's text |
| Workspace.ReopenActiveIsNoop | js/editor.js:61-65 | reopening the active tab while the editor shows its content changes nothing |
| Workspace.CloseTabEffect | js/editor.js:87-95 | closing removes every occurrence of the path from the tabs and keeps the open folders; closing another tab changes nothing else; closing the active tab with no tab left, or with an empty last tab, clears the active file; when the last remaining tab is a file it becomes active and the editor's text is written back first; when it names no file `open` returns early and the closed path stays active |
| Workspace.ClosedActiveOpensNext | js/editor.js:87-95 | closing the active tab onto a file gives the written-back files, the remaining tabs, that file active and the same open folders |
| Workspace.FlushedIgnoresTabs | js/editor.js:61-63 | writing the editor's text back does not depend on the tabs |
| Workspace.TabStrip | js/editor.js:97-108 | every drawn tab is an open path that is a file, named by its base name and highlighted exactly when active, and there are no more tabs than open paths |
| Workspace.TabStripComplete | js/editor.js:97-108 | every open path that is still a file gets a tab |
| Workspace.IdeState.RenderTabs | js/editor.js:97-108 | the loop over the open paths draws exactly the tab strip of the model |
| Workspace.CreateFileEffect | js/filetree.js:208-213 | an existing path is only opened; a new path gets the given content or the template for its name, every ancestor folder is marked open, and it becomes active, with only the outgoing active file changed besides |
| Workspace.CreateFileKeepsExisting | js/filetree.js:209 | creating an existing file never overwrites its content, unless it is the file being edited |
| Workspace.DelFileKeepsLastFile | js/filetree.js:215-216 | deleting the only file does nothing, in either version |
| Workspace.DelFileResurrectsActive | js/filetree.js:218-220 | as written, deleting the active file while the editor exists puts it back, holding the editor's text, at the end of the key order |
| Workspace.DelFileResurrectsExample | js/filetree.js:214-223 | as written, deleting the active `main.cpp` of a two-file project leaves `main.cpp` in the files, after `util.h` |
| Workspace.DelFileFixedEffect | js/filetree.js:214-223 | corrected: unless it is the last file, the path leaves the files and the tabs, every other file keeps its content and key order, the first remaining file becomes active when the deleted one was, and the active file is unchanged otherwise |
| Workspace.IdeState.DelFile | js/filetree.js:214-223 | the corrected `delFile` changes the state as the model says |
| Workspace.DirDeletedTailEffect | js/filetree.js:232-235 | after the loop only the write-back of the active file may change a file, a tab may only be added by an opened file, and the folder is closed |
| Workspace.DelDirFixedEffect | js/filetree.js:224-237 | corrected: once confirmed, or when the folder holds only placeholders, no key of the folder remains a file or a tab, every other file keeps its content unless it is the active file written back, and the folder is no longer open |
| Workspace.DelDirConfirmation | js/filetree.js:226-227 | the user is asked only when the folder holds a file other than a `.gitkeep`, and a refusal changes nothing |
| Workspace.DelDirResurrectsActive | js/filetree.js:228-234 | as written, deleting the folder of the active file with the editor present brings that file back with the editor's text |
| Workspace.IdeState.DelDir | js/filetree.js:224-237 | the corrected `delDir` changes the state as the model says |
| Workspace.IdeState.RemoveEach | js/filetree.js:228-231 | deleting the folder's keys one at a time from the files and the tabs gives the model's result |
| Workspace.RemoveAll | js/filetree.js:228-231 | after the loop a key of the folder is gone and every other key keeps its value |
| Workspace.WithoutAll | js/filetree.js:230 | after the loop a path is a tab exactly when it was and is not a deleted key |
| Workspace.KeysInDir | js/filetree.js:225 | the deleted keys are exactly the folder itself and the keys under it |
| Workspace.DropOnRootEffect | js/filetree.js:158-167 | a drop on the root never overwrites and changes nothing when refused; otherwise the content moves to the base name, the old key is gone, every other file keeps its content, the number of files is kept, the tabs are renamed and the active file follows |
| Workspace.MovedSize | js/filetree.js:148 | moving a file to a free path keeps the number of files |
| Workspace.DropOnDirRefused | js/filetree.js:145-147 | a drop on a folder that already holds the file, or holds a file of that name, changes nothing |
| Workspace.DropOnDirMoves | js/filetree.js:143-155 | otherwise the content moves (as the editor's text when the new path ends up active), the old key is gone, every other file keeps its content, the number of files is kept, the renamed tabs come first, the active file follows and the folder is marked open |
| Workspace.DropOnOwnFolderIsNoop | js/filetree.js:145-146 | dropping a file on the folder that holds it is a no-op |
| Workspace.IdeState.constructor | js/state.js:2-5 | the state starts with the given files, no tabs, no active file and no open folder |
| Workspace.IdeState.Open | js/editor.js:61-77 | `open` changes the state as the model says and keeps keys unique |
| Workspace.IdeState.Flush | js/editor.js:110 | `flush` changes only the files, as the model says |
| Workspace.IdeState.CloseTab | js/editor.js:87-95 | `closeTab` changes the state as the model says |
| Workspace.IdeState.CreateFile | js/filetree.js:208-213 | `createFile` changes the state as the model says |
| Workspace.IdeState.OpenAncestors | js/filetree.js:211 | the `reduce` adds exactly the ancestor folders to the open folders and changes nothing else |
| Workspace.IdeState.AncestorDirs | js/filetree.js:211 | the loop collects exactly the ancestor folders of the path |
| Workspace.IdeState.DropOnDir | js/filetree.js:143-155 | a drop on a folder changes the state as the model says and reports "already exists" exactly when another file has the new path |
| Workspace.IdeState.DropOnRoot | js/filetree.js:158-167 | a drop on the root changes the state as the model says and reports "already exists" exactly when another file has the new path |
| Workspace.IdeState.MoveFile | js/filetree.js:148-151 | the shared move steps give the model's move and keep keys unique |
| Workspace.IdeState.ConfirmModal | js/filetree.js:361-367 | the dialog does nothing for a blank name and otherwise creates the file, or the folder's placeholder, the model names |
| Paths.Basename | js/filetree.js:6 | the base name holds no `/`, is the whole path when it has none, and follows the directory part and one `/` otherwise |
| Paths.Dirname | js/filetree.js:7 | the directory part is empty for a path without `/` and shorter than any non-empty path |
| Paths.NonEmpty | js/filetree.js:8 | `filter(Boolean)` keeps only non-empty segments |
| Paths.JoinDirnameBasename | js/filetree.js:6-8 | joining the directory part and the base name gives the path back, unless a `/` stands at either end |
| Paths.JoinTwo | js/filetree.js:8 | two non-empty segments are joined by one `/` |
| Paths.JoinEmptyFirst | js/filetree.js:8 | an empty first segment is dropped |
| Paths.MetaFor | js/filetree.js:112 | an entry is found exactly for a key of the table, and it is that key's entry |
| Paths.GetLangMetaIgnoresCase | js/filetree.js:105-113 | a name and its lower-case form get the same entry |
| Paths.MetaKeyIgnoresCase | js/filetree.js:105-113 | a name and its lower-case form consult the same key |
| Paths.GetLangMetaByExtension | js/filetree.js:110-112 | apart from the three whole names, the lower-cased text after the last dot decides the entry, whatever precedes it |
| Paths.NoDotNoMeta | js/filetree.js:110-111 | a name without a dot, other than the three whole names, has no entry |
| Paths.SpecialNames | js/filetree.js:106-109 | `Dockerfile`, `Makefile` and `.gitignore` are recognised by whole name in any case |
| Paths.SplitChar | js/filetree.js:211 | `split` gives at least one piece and no piece holds the separator |
| Paths.JoinSplitChar | js/filetree.js:124 | joining the pieces of a split with the separator gives the string back |
| Paths.OpenedDirs | js/filetree.js:211 | the `reduce` yields one folder per segment |
| Paths.OpenedDirsAt | js/filetree.js:211 | the k-th folder the `reduce` yields is the first k+1 segments joined by `/` |
| Paths.AncestorsArePrefixes | js/filetree.js:211 | for a path whose segments are all non-empty, `createFile` opens exactly the proper prefixes ending at a `/`, shortest first |
| Paths.ChildPath | js/filetree.js:364 | the path the dialog builds ends with the name typed |
| Paths.ConfirmModal | js/filetree.js:361-367 | nothing is created exactly for a blank name; a folder asks for its `.gitkeep` placeholder with empty content, a file for the trimmed name under the parent with the default template |
| FileTreeBuild.SetChild | js/filetree.js:126 | setting a sub-folder sets that name and no other |
| FileTreeBuild.Placed | js/filetree.js:121-132 | the reference placement lists in a folder only keys whose folder names are that folder, under their last segment; lists every such key; and lists none twice when the keys are distinct |
| FileTreeBuild.InsertFilesAt | js/filetree.js:124-129 | one pass of the outer loop adds the entry at the end of exactly the folder its path names, creating missing folders, and to no other folder |
| FileTreeBuild.BuildTree | js/filetree.js:121-132 | every folder of the built tree lists exactly the reference placement, in key order, and the only folders are the root and those along some key's directory path |
| FileTreeBuild.InsertHasFolder | js/filetree.js:123-130 | placing one file adds exactly the folders along its directory path |
| FileTreeBuild.Along | js/filetree.js:121-131 | a chain is along the keys exactly when it is a prefix of some key's directory chain |
| FileTreeBuild.FoldersAlongKeys | js/filetree.js:121-131 | a tree whose folders are those along the keys has a folder for a chain exactly when it is the root or a prefix of some key's directory chain |
| FileTreeBuild.PlacedExactlyOnce | js/filetree.js:121-132 | every file is listed exactly once: in the folder its path names, under its last segment, and in no other folder |
| FileTreeBuild.InsertPlaced | js/filetree.js:123-130 | inserting the next key extends the placement by that key |
| FileTreeBuild.PlacedSnoc | js/filetree.js:123-130 | the placement of one more key is the old placement plus that key in its own folder |
| Text.LastIndexOf | js/filetree.js:6-7 | the result is -1 exactly when the character is absent, and otherwise the last position holding it |
| Text.Token | js/compiler.js:184 | the token is the longest prefix free of whitespace |
| Text.WordsAreWords | js/compiler.js:184 | splitting on whitespace and dropping empty pieces gives only non-empty pieces free of whitespace |
| Text.WordsEmptyIff | js/compiler.js:184 | no flags are added exactly when the flag string is all whitespace |
| Text.WordsOfJoin | js/compiler.js:184 | splitting a list of words joined by one blank gives the list back |
| Text.SingleWord | server.py:180-181 | a non-empty string without whitespace splits into itself |
| Text.WholeToken | server.py:180-181 | a string without whitespace is its own token |
| Text.TrimShape | server.py:194-195 | the stripped text is a slice `s[i..j]` of the input, every character removed at either end is whitespace, the result neither begins nor ends with whitespace, and it is empty exactly when the input is all whitespace |
| Text.TrimStartShape | server.py:194-195 | stripping the start leaves a suffix of the input that does not begin with whitespace, and every removed character is whitespace |
| Text.TrimEndShape | server.py:194-195 | stripping the end leaves a prefix of the input that does not end with whitespace, and every removed character is whitespace |
| Text.Lower | js/state.js:33 | lowering keeps the length and maps each character on its own |
| Text.LastIndexOfLower | js/state.js:33 | lowering a name does not move its last dot |
| Text.DecimalRoundTrip | js/compiler.js:17 | the decimal text of an exit code reads back as that code, so distinct codes print differently |
| Text.NaturalRoundTrip | js/compiler.js:17 | the decimal text of a natural number reads back as that number and has no sign |
| Text.NegativeRoundTrip | js/compiler.js:17 | the decimal text of a negative number reads back as that number |
| Bytes.Get32 | js/compiler.js:351 | a little-endian 32-bit read is below 2^32 |
| Bytes.LE32Decodes | js/compiler.js:352 | the four bytes stored for a value read back as that value modulo 2^32 |
| Bytes.GetPut32 | js/compiler.js:352 | a stored 32-bit word reads back as the value modulo 2^32 |
| Bytes.GetPut32Other | js/compiler.js:352 | storing a word leaves every word that does not overlap it unchanged |
| Bytes.Put32 | js/compiler.js:352 | storing a word changes only its four bytes |
| Bytes.AsInt32 | js/compiler.js:386 | an `Int32Array` element lies in the signed 32-bit range and equals the unsigned word when non-negative |
| Bytes.Utf8Char | js/compiler.js:345 | a character encodes to one to four bytes, one byte exactly for ASCII |
| Bytes.Utf8Append | js/compiler.js:345 | encoding a concatenation concatenates the encodings |
| Bytes.Utf8Length | js/compiler.js:345 | the encoding has between one and four bytes per character |
| Bytes.Utf8EndsWithNewline | js/compiler.js:345 | text ending in a line feed encodes to bytes ending in byte 10 |
| Assoc.Keys | js/filetree.js:121-132 | the key list has one key per entry |
| Assoc.Lookup | js/filetree.js:208-213 | a lookup finds a value exactly for a present key |
| Assoc.Set | js/filetree.js:208-213 | assigning sets that key alone, keeps the key order and appends a new key at the end, and never repeats a key |
| Assoc.Remove | js/filetree.js:214-223 | deleting removes that key alone, keeps the order of the rest and never repeats a key |
| Assoc.Without | js/editor.js:87-95 | filtering removes every occurrence of the value and keeps every other value |
| Assoc.Rename | js/filetree.js:148-152 | renaming keeps the length and replaces exactly the occurrences of the old path |
| Assoc.SetSame | js/editor.js:63 | writing back the content a file already has changes nothing, not even the key order |
| Assoc.RemoveAbsent | js/filetree.js:214-223 | deleting an absent key changes nothing |
| Assoc.RemoveThenSet | js/filetree.js:214-220 | deleting a key and assigning it again moves it to the end of the key order |
| Assoc.RemovePresentSize | js/filetree.js:148-152 | deleting a present key loses exactly one entry |
| Assoc.UniqueKeysDistinct | js/filetree.js:121-132 | the key list of an object has no repetition |
| LangTables.DetectLang | js/state.js:32-42 | the language is one of the known names: the table entry for the lower-cased extension, and `text` for a name without a dot or an unknown extension |
| LangTables.ExtensionWithoutDot | js/state.js:33 | a name without a dot has no table extension, for either table |
| LangTables.MonacoLang | js/state.js:45-53 | the editor language is the table entry for the detected language |
| LangTables.LangLabel | js/state.js:56-64 | the label is the table entry for the detected language and is never empty |
| LangTables.DefaultContent | js/state.js:67-83 | a new file starts with the template for its lower-cased extension, or empty |
| LangTables.LookupsIgnoreCase | js/state.js:32-83 | a name and its lower-case form get the same language and the same template |
| LangTables.ExtensionIgnoresCase | js/state.js:33 | the extension of a lower-cased name is the extension of the name |
| LangTables.DetectLangIgnoresCase | js/state.js:32-42 | a name and its lower-case form get the same language |
| LangTables.ExtensionOfSuffix | js/state.js:32-42 | for a name ending in an extension that holds its last dot, the lookup uses that extension whatever precedes it |
| LangTables.HeadersAreCpp | js/state.js:35 | header files are C++, whatever their case |
| LangTables.HeaderIsCpp | js/state.js:35 | a name ending in `.h` or `.HPP` is C++ |
| LangTables.FindLibrary | js/compiler.js:165 | a found library has the asked id, and none is found exactly when no library has it |
| Orchestrator.FirstIndex | js/compiler.js:126-129 | `find` stops at the first key that satisfies the test: no earlier key does, and the one found does |
| Orchestrator.FallbackFor | js/compiler.js:124-154 | for any entry choice: the fallback is taken exactly when there is an entry and no server, the browser compile runs exactly when Wasmer also loaded, and the badges of the other courses are fixed |
| Orchestrator.FinalBadgeFor | js/compiler.js:124-154 | for any entry choice, the last badge is the server's or the browser run's exit code when a program ran, and non-zero after any failure |
| Workspace.MovedEffect | js/filetree.js:147 | moving a file puts its content under the new key, removes the old key, keeps every other file and the number of files |
| Workspace.OpenedMovedActive | js/filetree.js:151 | reopening the moved active file stores the editor's text under it, keeps every other file and the tabs already open, and keeps the active file and the open folders |
| Workspace.IdeState.RemoveKeys | js/filetree.js:228-231 | the loop of `delDir` removes every doomed key from the files and from the tabs and leaves the active file and the open folders alone |

## Left out

- Networking is left out: `fetch` and the HTTP transport. A reply is a parameter: no server, an HTTP status, or a JSON body.
- `RunErrors`: `r.ok` accepts any 2xx status, and the model does too. The server only ever sends 200, 400 and 500.
- `server.py` file handling is left out: writing the temporary files, `os.sep` and the `shutil` cleanup. Only the decisions they feed are modelled.
- The server's request log line (`print`) is left out.
- Base64 and `atob` are left out: the wasm bytes are opaque, and payloads are already-decoded values.
- `TextDecoder` is not modelled. Decoding each iovec separately can split a multi-byte character, and the model keeps the gathered bytes as bytes.
- WebAssembly execution and the Wasmer SDK are not modelled. What the program and the compiler did are parameters.
- `memory.grow` is left out: memory has a fixed size.
- `clock_time_get`, `clock_res_get` and `random_get` are left out, because they are clocks and randomness.
- `sched_yield`, `environ_get` and `args_get` only return 0 and get no row. The constant stubs `fd_close`, `fd_seek`, `fd_prestat_get`, `fd_prestat_dir_name` and `path_open` are constant functions with no row.
- The DOM is left out:
  - element look-ups, `innerHTML`;
  - `setStatus`, `_setLoading`;
  - the terminal's ANSI colours and styling;
  - `Preview`.
- `Persist.save` is left out; browser storage is I/O.
- Disposing Monaco models (`editorModels`) is left out. `closeTab`, `delFile`, `delDir` and the drag handlers dispose the closed path's model before `Editor.open` reads the editor's value; what the editor returns then is Monaco's behaviour, so it is the free parameter `ed` of those operations.
- Server.GitGuardSound: covers the two full spellings of `--upload-pack`, not the abbreviations git also accepts for long options (such as `--upload-pa=`).
- A failed clang load throws in `ensureClang`; the model writes it as a `None` result and leaves the thrown error to the caller's `catch`.
- The Pyodide, JavaScript and TypeScript runners are not part of this model.
- `renderNode` is left out. That covers its `localeCompare` sort and its hiding of `.gitkeep` entries; only `buildTree`'s placement is modelled.
- `Object.keys` puts integer-like keys first, and prototype-named keys such as `constructor` behave oddly. Neither is modelled: keys keep insertion order.
- Terminal.Started: `startInteractiveInput` returns early when the page has no terminal (`State.term`); the interactive console is always modelled with one.
- A second `startInteractiveInput` without a stop leaves the old `onData` handler subscribed. The model keeps one handler.
- Backspace drops one UTF-16 code unit, which can split a surrogate pair. The model's line is a sequence of characters.
- The `/git` body is assumed well formed. An `args` list holding non-strings, or a non-list `files` body, is not modelled.
- `Git.GitPanel.RunCmd`, `StageFile`, `Press` and `Commit` do not include the `refresh` that follows most commands in the source. It is the separate `Git.GitPanel.Refresh`.
- `Workspace.IdeState.DropOnDir` and `DropOnRoot` require the dragged path to be a file. `dragSrc` is only ever set from a file entry.

## Findings

| source | as written | input that shows it | evidently intended | confidence | as-written member | corrected member |
|---|---|---|---|---|---|---|
| js/compiler.js:286-289 | when the server reports a compile error, `runCppServer` returns nothing, so `runCpp` goes on to the in-browser compiler | any project with an entry file, when the server replies `success: false` | the compile error ends the run, as the comment at js/compiler.js:261-262 promises (a reply means `true`) | high; not executed | Orchestrator.CompileErrorFallsThrough (Orchestrator.RunCppAsWritten) | Orchestrator.FallbackOnlyWithoutServer (Orchestrator.RunCpp) |
| js/filetree.js:218-220 | deleting the active file calls `Editor.open` while `activeFile` still names it, and `open` writes the editor's text back under the deleted path (js/editor.js:63) | files `main.cpp` and `util.h`, `main.cpp` active, editor loaded; delete `main.cpp` | the deleted file stays deleted and `util.h` becomes active | high; not executed | Workspace.DelFileResurrectsExample (Workspace.FileDeleted) | Workspace.DelFileFixedEffect (Workspace.FileDeletedFixed, Workspace.IdeState.DelFile) |
| js/filetree.js:228-234 | deleting the folder holding the active file opens the next file with `activeFile` still naming the deleted one, which is written back | files `src/main.cpp` and `util.h`, `src/main.cpp` active, editor loaded; delete folder `src` | no key of the folder survives | high; not executed | Workspace.DelDirResurrectsActive (Workspace.DirDeleted) | Workspace.DelDirFixedEffect (Workspace.DirDeletedFixed, Workspace.IdeState.DelDir) |
| server.py:237-239 | the guard compares each argument whole against the blocked options, so the attached form `--upload-pack=<program>` passes | `["fetch", "--upload-pack=touch pwned", "origin"]` | both full spellings of a blocked option, bare and with an attached `=value`, are refused (abbreviations are under Left out) | medium; not executed | Server.UploadPackValueSlipsThrough (Server.HandleGitAsWritten) | Server.GitGuardSound (Server.HandleGit) |
