/**
 * The decisions of the C/C++ run: which file is compiled, the clang arguments for the
 * in-browser compiler, the library headers sent along, the load-once caches for the Wasmer
 * SDK and the clang package, the local-server-then-Wasmer fallback, the choice of runner and
 * the exit badge.
 *
 * What the server, the SDK and the compiler do is not modelled; their outcomes are inputs.
 */
module Orchestrator {
  import opened Wrappers
  import opened Text
  import opened Assoc
  import Paths
  import opened LangTables

  // ---- the exit badge ----

  /** The badge `setExit` shows: empty for `null`, otherwise "exit <code>", green only for 0. */
  datatype Badge = Badge(text: string, green: bool)

  function ExitBadge(code: Option<int>): (b: Badge)
    ensures code.None? <==> b.text == ""
    ensures b.green <==> code == Some(0)
  {
    match code
    case None => Badge("", false)
    case Some(c) => Badge("exit " + Decimal(c), c == 0)
  }

  /** Distinct exit codes show distinct badges. */
  lemma BadgeIdentifiesCode(a: int, b: int)
    requires ExitBadge(Some(a)) == ExitBadge(Some(b))
    ensures a == b
  {
    var s := "exit ";
    assert (s + Decimal(a))[|s|..] == Decimal(a);
    assert (s + Decimal(b))[|s|..] == Decimal(b);
    DecimalRoundTrip(a);
    DecimalRoundTrip(b);
  }

  /** `code || 1`: a missing or zero code becomes 1. */
  function OrOne(code: Option<int>): (c: int)
    ensures c != 0
    ensures code.Some? && code.value != 0 ==> c == code.value
  {
    if code.None? || code.value == 0 then 1 else code.value
  }

  // ---- the entry file ----

  /** The index of the first key satisfying `p`, or the length when there is none: `Array.prototype.find`. */
  function FirstIndex(keys: seq<string>, p: string -> bool): (i: nat)
    ensures i <= |keys|
    ensures forall j :: 0 <= j < i ==> !p(keys[j])
    ensures i < |keys| ==> p(keys[i])
  {
    if keys == [] then 0
    else if p(keys[0]) then 0
    else 1 + FirstIndex(keys[1..], p)
  }

  /** `k` is the first of `keys` that satisfies `p`: it is at some position, and no key before that position satisfies `p`. */
  ghost predicate FirstWith(keys: seq<string>, p: string -> bool, k: string) {
    exists i :: 0 <= i < |keys| && keys[i] == k && p(k) && forall j :: 0 <= j < i ==> !p(keys[j])
  }

  /** At most one key is the first to satisfy a test. */
  lemma FirstWithUnique(keys: seq<string>, p: string -> bool, a: string, b: string)
    requires FirstWith(keys, p, a) && FirstWith(keys, p, b)
    ensures a == b
  {
    var i :| 0 <= i < |keys| && keys[i] == a && p(a) && forall j :: 0 <= j < i ==> !p(keys[j]);
    var i' :| 0 <= i' < |keys| && keys[i'] == b && p(b) && forall j :: 0 <= j < i' ==> !p(keys[j]);
    if i < i' {
      assert false;
    } else if i' < i {
      assert false;
    }
  }

  /** `keys.find(p)`: the first key in key order that satisfies `p`, or none when no key does. */
  function FindKey(keys: seq<string>, p: string -> bool): (r: Option<string>)
    ensures r.None? <==> forall k :: k in keys ==> !p(k)
    ensures r.Some? ==> r.value in keys && FirstWith(keys, p, r.value)
  {
    var i := FirstIndex(keys, p);
    if i < |keys| then
      assert keys[i] == keys[i] && p(keys[i]) && forall j :: 0 <= j < i ==> !p(keys[j]);
      Some(keys[i])
    else None
  }

  predicate IsCppSource(k: string) { EndsWith(k, ".cpp") || EndsWith(k, ".cc") }
  predicate IsCSource(k: string) { EndsWith(k, ".c") }
  predicate IsSource(k: string) { IsCppSource(k) || IsCSource(k) }
  predicate IsMainCpp(k: string) { Paths.Basename(k) == "main.cpp" }
  predicate IsMainC(k: string) { Paths.Basename(k) == "main.c" }

  /** The entry `runCpp` compiles: a `main.cpp`, else a `main.c`, else the first C++ source, else the first C source, in key order. */
  function SelectEntry(keys: seq<string>): Option<string> {
    var mainCpp := FindKey(keys, IsMainCpp);
    var mainC := FindKey(keys, IsMainC);
    var cpp := FindKey(keys, IsCppSource);
    if mainCpp.Some? then mainCpp
    else if mainC.Some? then mainC
    else if cpp.Some? then cpp
    else FindKey(keys, IsCSource)
  }

  /** `isCpp`. */
  predicate IsCpp(entry: string) { IsCppSource(entry) }

  lemma NamedSuffix(k: string, name: string, ext: string)
    requires Paths.Basename(k) == name && EndsWith(name, ext)
    ensures EndsWith(k, ext)
  {
    if '/' in k {
      var d := Paths.Dirname(k);
      assert k == d + "/" + name;
      assert k[|k| - |ext|..] == name[|name| - |ext|..];
    }
  }

  /** There is an entry exactly when some key is a C or C++ source. */
  lemma EntryExistsIff(keys: seq<string>)
    ensures SelectEntry(keys).None? <==> forall k :: k in keys ==> !IsSource(k)
  {
    var mainCpp := FindKey(keys, IsMainCpp);
    var mainC := FindKey(keys, IsMainC);
    var cpp := FindKey(keys, IsCppSource);
    var c := FindKey(keys, IsCSource);
    if SelectEntry(keys).None? {
      assert mainCpp.None? && mainC.None? && cpp.None? && c.None?;
      forall k | k in keys ensures !IsSource(k) {
        assert !IsCppSource(k);
        assert !IsCSource(k);
      }
    } else if forall k :: k in keys ==> !IsSource(k) {
      EntryIsSource(keys);
    }
  }

  /** The entry is always a C or C++ source among the keys. */
  lemma EntryIsSource(keys: seq<string>)
    requires SelectEntry(keys).Some?
    ensures SelectEntry(keys).value in keys && IsSource(SelectEntry(keys).value)
  {
    var mainCpp := FindKey(keys, IsMainCpp);
    var mainC := FindKey(keys, IsMainC);
    if mainCpp.Some? {
      MainCppIsCpp(mainCpp.value);
    } else if mainC.Some? {
      MainCIsC(mainC.value);
    }
  }

  lemma StemAndExt(stem: string, ext: string)
    ensures EndsWith(stem + ext, ext)
  {
    assert (stem + ext)[|stem|..] == ext;
  }

  lemma MainCppIsCpp(k: string)
    requires Paths.Basename(k) == "main.cpp"
    ensures IsCppSource(k)
  {
    StemAndExt("main", ".cpp");
    NamedSuffix(k, "main" + ".cpp", ".cpp");
  }

  lemma MainCIsC(k: string)
    requires Paths.Basename(k) == "main.c"
    ensures IsCSource(k)
  {
    StemAndExt("main", ".c");
    NamedSuffix(k, "main" + ".c", ".c");
  }

  /**
   * The four stages of the choice, each taking the first matching key in key order: the
   * first `main.cpp`; without one, the first `main.c`; without either, the first C++ source;
   * and only when no key is a C++ source or a `main.c`, the first C source.
   */
  lemma EntryPrefersMain(keys: seq<string>)
    ensures (exists k :: k in keys && IsMainCpp(k)) ==>
      SelectEntry(keys).Some? && FirstWith(keys, IsMainCpp, SelectEntry(keys).value)
    ensures (forall k :: k in keys ==> !IsMainCpp(k)) && (exists k :: k in keys && IsMainC(k)) ==>
      SelectEntry(keys).Some? && FirstWith(keys, IsMainC, SelectEntry(keys).value)
    ensures (forall k :: k in keys ==> !IsMainCpp(k) && !IsMainC(k)) && (exists k :: k in keys && IsCppSource(k)) ==>
      SelectEntry(keys).Some? && FirstWith(keys, IsCppSource, SelectEntry(keys).value)
    ensures (forall k :: k in keys ==> !IsCppSource(k) && !IsMainC(k)) && (exists k :: k in keys && IsCSource(k)) ==>
      SelectEntry(keys).Some? && FirstWith(keys, IsCSource, SelectEntry(keys).value)
  {
    if exists k :: k in keys && IsMainCpp(k) {
      StageMainCpp(keys);
    }
    if (forall k :: k in keys ==> !IsMainCpp(k)) && (exists k :: k in keys && IsMainC(k)) {
      StageMainC(keys);
    }
    if (forall k :: k in keys ==> !IsMainCpp(k) && !IsMainC(k)) && (exists k :: k in keys && IsCppSource(k)) {
      StageCpp(keys);
    }
    if (forall k :: k in keys ==> !IsCppSource(k) && !IsMainC(k)) && (exists k :: k in keys && IsCSource(k)) {
      StageC(keys);
    }
  }

  lemma StageMainCpp(keys: seq<string>)
    requires exists k :: k in keys && IsMainCpp(k)
    ensures SelectEntry(keys).Some? && FirstWith(keys, IsMainCpp, SelectEntry(keys).value)
  {
  }

  lemma StageMainC(keys: seq<string>)
    requires forall k :: k in keys ==> !IsMainCpp(k)
    requires exists k :: k in keys && IsMainC(k)
    ensures SelectEntry(keys).Some? && FirstWith(keys, IsMainC, SelectEntry(keys).value)
  {
    assert FindKey(keys, IsMainCpp).None?;
  }

  lemma StageCpp(keys: seq<string>)
    requires forall k :: k in keys ==> !IsMainCpp(k) && !IsMainC(k)
    requires exists k :: k in keys && IsCppSource(k)
    ensures SelectEntry(keys) == FindKey(keys, IsCppSource) && SelectEntry(keys).Some?
    ensures FirstWith(keys, IsCppSource, SelectEntry(keys).value)
  {
    assert FindKey(keys, IsMainCpp).None? && FindKey(keys, IsMainC).None?;
  }

  lemma StageC(keys: seq<string>)
    requires forall k :: k in keys ==> !IsCppSource(k) && !IsMainC(k)
    requires exists k :: k in keys && IsCSource(k)
    ensures SelectEntry(keys).Some? && FirstWith(keys, IsCSource, SelectEntry(keys).value)
  {
    forall k | k in keys ensures !IsMainCpp(k) {
      if IsMainCpp(k) {
        MainCppIsCpp(k);
      }
    }
    assert FindKey(keys, IsMainCpp).None? && FindKey(keys, IsMainC).None? && FindKey(keys, IsCppSource).None?;
  }

  /** Two sources and no `main.*`: a C++ source is chosen over a C source that comes first. */
  lemma CppBeatsEarlierC(c: string, cpp: string)
    requires '/' !in c && '/' !in cpp && IsCSource(c) && IsCppSource(cpp)
    requires c != "main.c" && cpp != "main.cpp"
    ensures SelectEntry([c, cpp]) == Some(cpp)
  {
    var keys := [c, cpp];
    assert Paths.Basename(c) == c && Paths.Basename(cpp) == cpp;
    assert forall k :: k in keys ==> !IsMainCpp(k) && !IsMainC(k);
    CAndCppExclusive(c);
    StageCpp(keys);
    var i := FirstIndex(keys, IsCppSource);
    assert i != 0;
  }

  /** A C entry is never taken for C++: the two suffix tests exclude each other. */
  lemma CAndCppExclusive(k: string)
    requires IsCSource(k)
    ensures !IsCpp(k)
  {
    var n := |k|;
    var tail := k[n - 2..];
    assert tail == ".c";
    assert k[n - 1] == tail[1];
    assert k[n - 2] == tail[0];
    assert !EndsWith(k, ".cpp") by {
      if n >= 4 {
        assert k[n - 4..][3] == k[n - 1];
        assert ".cpp"[3] == 'p';
      }
    }
    assert !EndsWith(k, ".cc") by {
      if n >= 3 {
        assert k[n - 3..][1] == k[n - 2];
        assert ".cc"[1] == 'c';
      }
    }
  }

  // ---- the in-browser clang arguments ----

  /** The C++ runtime flags: no exceptions and no RTTI unless the user asked for exceptions, then the C++ libraries. */
  function CppFlags(userFlags: seq<string>): seq<string> {
    (if "-fexceptions" in userFlags then [] else ["-fno-exceptions", "-fno-rtti"]) + ["-lc++", "-lc++abi"]
  }

  function WasmerArgs(entry: string, s: Settings, isCpp: bool): seq<string> {
    var words := Words(s.flags, JsSpace);
    ["/project/" + entry, "-o", "/project/a.out", s.std, s.opt, "-I/project"]
      + (if isCpp then CppFlags(words) else []) + words
  }

  /** `args` as `runCppWasmer` builds it with `push`. */
  method BuildWasmerArgs(entry: string, s: Settings, isCpp: bool) returns (args: seq<string>)
    ensures args == WasmerArgs(entry, s, isCpp)
  {
    args := ["/project/" + entry, "-o", "/project/a.out", s.std, s.opt, "-I/project"];
    if isCpp {
      var userFlags := Words(s.flags, JsSpace);
      if "-fexceptions" !in userFlags {
        args := args + ["-fno-exceptions", "-fno-rtti"];
      }
      args := args + ["-lc++", "-lc++abi"];
    }
    if s.flags != "" {
      args := args + Words(s.flags, JsSpace);
    } else {
      assert Words(s.flags, JsSpace) == [];
    }
  }

  /**
   * The arguments start with the entry, the output, the standard, the optimisation level
   * and the include path; for C++ the exception and RTTI flags appear exactly when the user
   * flags lack `-fexceptions`; and they end with the user flags, each non-empty and free
   * of whitespace, in order.
   */
  lemma WasmerArgsShape(entry: string, s: Settings, isCpp: bool)
    ensures var a := WasmerArgs(entry, s, isCpp);
      var words := Words(s.flags, JsSpace);
      && a[..6] == ["/project/" + entry, "-o", "/project/a.out", s.std, s.opt, "-I/project"]
      && a[|a| - |words|..] == words
      && AreWords(words, JsSpace)
      && (isCpp ==> ("-fno-exceptions" in a[6..|a| - |words|] <==> "-fexceptions" !in words))
      && (isCpp ==> a[|a| - |words| - 2..|a| - |words|] == ["-lc++", "-lc++abi"])
      && (!isCpp ==> |a| == 6 + |words|)
  {
    WordsAreWords(s.flags, JsSpace);
    var words := Words(s.flags, JsSpace);
    var mid := if isCpp then CppFlags(words) else [];
    var head := ["/project/" + entry, "-o", "/project/a.out", s.std, s.opt, "-I/project"];
    var a := WasmerArgs(entry, s, isCpp);
    assert a == head + mid + words + [];
    Segments(head, mid, words, []);
    assert a[6..|a| - |words|] == mid;
    if isCpp {
      CppFlagsShape(words);
      LastTwoOfMiddle(a, mid, 6, |a| - |words|);
    }
  }

  lemma LastTwoOfMiddle(c: seq<string>, mid: seq<string>, i: nat, j: nat)
    requires i <= j <= |c| && c[i..j] == mid && |mid| >= 2
    ensures c[j - 2..j] == mid[|mid| - 2..]
  {
    assert forall k :: j - 2 <= k < j ==> c[k] == mid[k - i];
  }

  lemma CppFlagsShape(words: seq<string>)
    ensures var f := CppFlags(words);
      && |f| >= 2
      && ("-fno-exceptions" in f <==> "-fexceptions" !in words)
      && f[|f| - 2..] == ["-lc++", "-lc++abi"]
  {
    var f := CppFlags(words);
    assert "-lc++"[2] != "-fno-exceptions"[2];
    assert "-lc++abi"[2] != "-fno-exceptions"[2];
    assert "-fno-rtti"[5] != "-fno-exceptions"[5];
  }

  /** Slicing a command made of four consecutive parts gives each part back. */
  lemma Segments(head: seq<string>, mid: seq<string>, words: seq<string>, tail: seq<string>)
    ensures var a := head + mid + words + tail;
      && a[..|head|] == head
      && a[|head|..|a| - |tail| - |words|] == mid
      && a[|a| - |tail| - |words|..|a| - |tail|] == words
      && a[|a| - |tail|..] == tail
  {
    var a := head + mid + words + tail;
    assert a == head + (mid + (words + tail));
  }

  // ---- library headers sent along ----

  /** The files sent to a compiler: the project, then each downloaded library's header that storage holds, at the library's path. */
  function WithLibraries(files: Dict, ids: seq<string>, libs: seq<Library>, stored: map<string, string>): (r: Dict)
    ensures Unique(files) ==> Unique(r)
    ensures |r| >= |files|
  {
    if ids == [] then files
    else
      var d := WithLibraries(files, ids[..|ids| - 1], libs, stored);
      var id := ids[|ids| - 1];
      var lib := FindLibrary(libs, id);
      if lib.Some? && id in stored && stored[id] != "" then Set(d, lib.value.path, stored[id]) else d
  }

  predicate IsLibraryPath(libs: seq<Library>, k: string) {
    exists l :: l in libs && l.path == k
  }

  /** The project's own keys come first and keep their order; a file at no library path keeps its content. */
  lemma {:induction false} LibrariesKeepProject(files: Dict, ids: seq<string>, libs: seq<Library>, stored: map<string, string>, k: string)
    ensures Keys(WithLibraries(files, ids, libs, stored))[..|files|] == Keys(files)
    ensures !IsLibraryPath(libs, k) ==> Lookup(WithLibraries(files, ids, libs, stored), k) == Lookup(files, k)
    decreases |ids|
  {
    if ids != [] {
      LibrariesKeepProject(files, ids[..|ids| - 1], libs, stored, k);
      var d := WithLibraries(files, ids[..|ids| - 1], libs, stored);
      var r := WithLibraries(files, ids, libs, stored);
      assert Keys(r)[..|files|] == Keys(d)[..|files|];
    }
  }

  predicate DistinctLibraries(libs: seq<Library>) {
    forall i, j :: 0 <= i < j < |libs| ==> libs[i].id != libs[j].id && libs[i].path != libs[j].path
  }

  lemma FindDistinct(libs: seq<Library>, i: nat)
    requires DistinctLibraries(libs) && i < |libs|
    ensures FindLibrary(libs, libs[i].id) == Some(libs[i])
  {
    if i > 0 {
      assert libs[0].id != libs[i].id;
      assert DistinctLibraries(libs[1..]) by {
        forall a, b | 0 <= a < b < |libs| - 1 ensures libs[1..][a].id != libs[1..][b].id && libs[1..][a].path != libs[1..][b].path {
          assert libs[1..][a] == libs[a + 1] && libs[1..][b] == libs[b + 1];
        }
      }
      FindDistinct(libs[1..], i - 1);
    }
  }

  /** A downloaded library whose header storage holds is sent at its path with that content. */
  lemma {:induction false} LibraryIsSent(files: Dict, ids: seq<string>, libs: seq<Library>, stored: map<string, string>, i: nat)
    requires DistinctLibraries(libs) && i < |libs|
    requires libs[i].id in ids && libs[i].id in stored && stored[libs[i].id] != ""
    ensures Lookup(WithLibraries(files, ids, libs, stored), libs[i].path) == Some(stored[libs[i].id])
    decreases |ids|
  {
    var lib := libs[i];
    var id := ids[|ids| - 1];
    var front := ids[..|ids| - 1];
    FindDistinct(libs, i);
    if id != lib.id {
      assert lib.id in front by { assert ids == front + [id]; }
      LibraryIsSent(files, front, libs, stored, i);
      var found := FindLibrary(libs, id);
      if found.Some? {
        var j :| 0 <= j < |libs| && libs[j] == found.value;
        assert j != i;
        assert found.value.path != lib.path by {
          if j < i { assert libs[j].path != libs[i].path; } else { assert libs[i].path != libs[j].path; }
        }
      }
    }
  }

  lemma ShippedLibrariesDistinct()
    ensures DistinctLibraries(Libraries)
  {
  }

  /** The loop over `downloadedLibs`. */
  method SpliceLibraries(files: Dict, ids: seq<string>, libs: seq<Library>, stored: map<string, string>) returns (toSend: Dict)
    ensures toSend == WithLibraries(files, ids, libs, stored)
  {
    toSend := files;
    for i := 0 to |ids|
      invariant toSend == WithLibraries(files, ids[..i], libs, stored)
    {
      assert ids[..i + 1][..i] == ids[..i];
      var lib := FindLibrary(libs, ids[i]);
      if lib.Some? && ids[i] in stored && stored[ids[i]] != "" {
        toSend := Set(toSend, lib.value.path, stored[ids[i]]);
      }
    }
    assert ids[..|ids|] == ids;
  }

  // ---- the load-once caches ----

  /** `_wasmerReady` and `_wasmerFailed`. */
  datatype WasmerCache = WasmerCache(ready: bool, failed: bool)

  /** One `ensureWasmer` call given whether the import would succeed: new cache, result, and whether it imported. */
  function EnsureWasmerStep(c: WasmerCache, importOk: bool): (WasmerCache, bool, bool) {
    if c.ready then (c, true, false)
    else if c.failed then (c, false, false)
    else if importOk then (c.(ready := true), true, true)
    else (c.(failed := true), false, true)
  }

  /** A run of calls: the final cache, each call's result, and how many imports were tried. */
  function EnsureWasmerCalls(c: WasmerCache, outcomes: seq<bool>): (r: (WasmerCache, seq<bool>, nat))
    ensures |r.1| == |outcomes|
  {
    if outcomes == [] then (c, [], 0)
    else
      var p := EnsureWasmerCalls(c, outcomes[..|outcomes| - 1]);
      var s := EnsureWasmerStep(p.0, outcomes[|outcomes| - 1]);
      (s.0, p.1 + [s.1], p.2 + if s.2 then 1 else 0)
  }

  /**
   * From a fresh page the SDK is imported at most once, and every call answers what that
   * first import gave: a failure is never retried.
   */
  lemma {:induction false} WasmerLoadsOnce(outcomes: seq<bool>)
    requires outcomes != []
    ensures var r := EnsureWasmerCalls(WasmerCache(false, false), outcomes);
      && r.2 == 1
      && (forall i :: 0 <= i < |outcomes| ==> r.1[i] == outcomes[0])
      && r.0 == WasmerCache(outcomes[0], !outcomes[0])
    decreases |outcomes|
  {
    var front := outcomes[..|outcomes| - 1];
    if front != [] {
      WasmerLoadsOnce(front);
      assert front[0] == outcomes[0];
    }
  }

  /**
   * One `ensureClang` call given what a load would give (`None` when the fetch or the
   * package parse throws): the new `_clang`, the call's result, and whether a load was tried.
   */
  function EnsureClangStep(cached: Option<nat>, loaded: Option<nat>): (r: (Option<nat>, Option<nat>, bool))
    ensures r.1 == r.0
  {
    if cached.Some? then (cached, cached, false)
    else (loaded, loaded, true)
  }

  /** A run of `ensureClang` calls: the final `_clang`, each call's result, and how many loads were tried. */
  function EnsureClangCalls(c: Option<nat>, loads: seq<Option<nat>>): (r: (Option<nat>, seq<Option<nat>>, nat))
    ensures |r.1| == |loads|
  {
    if loads == [] then (c, [], 0)
    else
      var p := EnsureClangCalls(c, loads[..|loads| - 1]);
      var s := EnsureClangStep(p.0, loads[|loads| - 1]);
      (s.0, p.1 + [s.1], p.2 + if s.2 then 1 else 0)
  }

  /**
   * From a fresh page, with the first `n` loads failing and load `n` (if any) succeeding:
   * a load is tried on every call up to and including the first success and never after,
   * every call before it fails, and every call from it on answers the package it loaded.
   * Unlike the Wasmer SDK, a failed clang load is not remembered and is tried again.
   */
  lemma {:induction false} ClangLoadsUntilSuccess(loads: seq<Option<nat>>, n: nat)
    requires n <= |loads|
    requires forall j :: 0 <= j < n ==> loads[j].None?
    requires n < |loads| ==> loads[n].Some?
    ensures var r := EnsureClangCalls(None, loads);
      && r.2 == (if n < |loads| then n + 1 else n)
      && (forall i :: 0 <= i < n ==> r.1[i] == None)
      && (forall i :: n <= i < |loads| ==> r.1[i] == loads[n])
      && r.0 == (if n < |loads| then loads[n] else None)
    decreases |loads|
  {
    if loads != [] {
      var front := loads[..|loads| - 1];
      var p := EnsureClangCalls(None, front);
      var r := EnsureClangCalls(None, loads);
      if n < |front| {
        ClangLoadsUntilSuccess(front, n);
        assert front[n] == loads[n];
        assert r.1 == p.1 + [p.0];
      } else {
        ClangLoadsUntilSuccess(front, |front|);
        assert p.0 == None;
        assert r.1 == p.1 + [loads[|loads| - 1]];
      }
    }
  }

  // ---- the fallback ----

  /** What the local server did with a compile request. */
  datatype ServerReply = NoServer | CompileFailed(exitCode: Option<int>) | Compiled(runExit: int)

  /** A JavaScript return value where the caller only tests truthiness. */
  datatype Returned = ReturnedTrue | ReturnedFalse | ReturnedUndefined

  /** How the in-browser compile and run ended. */
  datatype WasmerOutcome =
    | ClangUnavailable
    | TimedOut
    | CompileError(code: Option<int>)
    | OutputMissing
    | Ran(exitCode: int)
    | Crashed

  /** The badges `runCppServer` sets. */
  function ServerBadges(r: ServerReply): seq<int> {
    match r
    case NoServer => []
    case CompileFailed(c) => [OrOne(c)]
    case Compiled(e) => [e]
  }

  /** What `runCppServer` returns as written: a compile error ends in a bare `return`. */
  function ServerReturnsAsWritten(r: ServerReply): Returned {
    match r
    case NoServer => ReturnedFalse
    case CompileFailed(_) => ReturnedUndefined
    case Compiled(_) => ReturnedTrue
  }

  /** What the comment above `runCppServer` promises: true whenever the server answered. */
  function ServerReturns(r: ServerReply): (v: Returned)
    ensures v == ReturnedTrue <==> !r.NoServer?
  {
    if r.NoServer? then ReturnedFalse else ReturnedTrue
  }

  /** The badges `runCppWasmer` sets; when it fails before compiling or crashes it sets none. */
  function WasmerBadges(w: WasmerOutcome): seq<int> {
    match w
    case ClangUnavailable => []
    case TimedOut => [1]
    case CompileError(c) => [OrOne(c)]
    case OutputMissing => [1]
    case Ran(e) => [e]
    case Crashed => []
  }

  /** The course of one `runCpp`: the entry, whether it fell back to Wasmer, whether it compiled in the browser, and the badges set in order. */
  datatype Course = Course(entry: Option<string>, fellBack: bool, compiledInBrowser: bool, badges: seq<int>)

  function RunCppGiven(keys: seq<string>, reply: ServerReply, handled: Returned, wasmerOk: bool, w: WasmerOutcome): Course {
    CourseOf(SelectEntry(keys), reply, handled, wasmerOk, w)
  }

  /** The course once the entry is chosen. */
  function CourseOf(entry: Option<string>, reply: ServerReply, handled: Returned, wasmerOk: bool, w: WasmerOutcome): Course {
    match entry
    case None => Course(None, false, false, [1])
    case Some(e) =>
      var sb := ServerBadges(reply);
      if handled == ReturnedTrue then Course(Some(e), false, false, sb)
      else if !wasmerOk then Course(Some(e), true, false, sb + [1])
      else Course(Some(e), true, true, sb + WasmerBadges(w))
  }

  /** `runCpp` as written. */
  function RunCppAsWritten(keys: seq<string>, reply: ServerReply, wasmerOk: bool, w: WasmerOutcome): Course {
    RunCppGiven(keys, reply, ServerReturnsAsWritten(reply), wasmerOk, w)
  }

  /** `runCpp` with `runCppServer` returning true on a compile error. */
  function RunCpp(keys: seq<string>, reply: ServerReply, wasmerOk: bool, w: WasmerOutcome): Course {
    RunCppGiven(keys, reply, ServerReturns(reply), wasmerOk, w)
  }

  /** As written, a compile error reported by the server still goes on to the in-browser compiler, whose badge replaces the server's. */
  lemma CompileErrorFallsThrough(keys: seq<string>, code: Option<int>, w: WasmerOutcome)
    requires SelectEntry(keys).Some?
    ensures var c := RunCppAsWritten(keys, CompileFailed(code), true, w);
      c.fellBack && c.compiledInBrowser && c.badges == [OrOne(code)] + WasmerBadges(w)
  {
  }

  /**
   * So a compile error the server reports is always followed by the browser's badge: with the
   * browser's program exiting 0 the run ends green although the server refused the code.
   */
  lemma CompileErrorEndsGreen(keys: seq<string>, code: Option<int>, exit: int)
    requires SelectEntry(keys).Some?
    ensures var c := RunCppAsWritten(keys, CompileFailed(code), true, Ran(exit));
      c.badges == [OrOne(code), exit] && (ExitBadge(Some(c.badges[|c.badges| - 1])).green <==> exit == 0)
  {
    CompileErrorFallsThrough(keys, code, Ran(exit));
    TwoBadges(RunCppAsWritten(keys, CompileFailed(code), true, Ran(exit)).badges, code, exit);
  }

  lemma TwoBadges(badges: seq<int>, code: Option<int>, exit: int)
    requires badges == [OrOne(code)] + WasmerBadges(Ran(exit))
    ensures badges == [OrOne(code), exit] && (ExitBadge(Some(badges[|badges| - 1])).green <==> exit == 0)
  {
  }

  lemma SelectsLoneMainCpp()
    ensures SelectEntry(["main.cpp"]) == Some("main.cpp")
  {
    var keys := ["main.cpp"];
    assert '/' !in keys[0];
    assert IsMainCpp(keys[0]);
    var m := FindKey(keys, IsMainCpp);
    assert m.Some? && m.value in keys;
  }

  /**
   * With the promised return value the browser compiler is tried exactly when there is an
   * entry and no server; a server's verdict is the last badge.
   */
  lemma FallbackOnlyWithoutServer(keys: seq<string>, reply: ServerReply, wasmerOk: bool, w: WasmerOutcome)
    ensures var c := RunCpp(keys, reply, wasmerOk, w);
      && (c.fellBack <==> SelectEntry(keys).Some? && reply.NoServer?)
      && (c.compiledInBrowser <==> SelectEntry(keys).Some? && reply.NoServer? && wasmerOk)
      && (SelectEntry(keys).None? ==> c.badges == [1])
      && (SelectEntry(keys).Some? && !reply.NoServer? ==> c.badges == ServerBadges(reply))
      && (SelectEntry(keys).Some? && reply.NoServer? && !wasmerOk ==> c.badges == [1])
  {
    FallbackFor(SelectEntry(keys), reply, wasmerOk, w);
  }

  lemma FallbackFor(entry: Option<string>, reply: ServerReply, wasmerOk: bool, w: WasmerOutcome)
    ensures var c := CourseOf(entry, reply, ServerReturns(reply), wasmerOk, w);
      && (c.fellBack <==> entry.Some? && reply.NoServer?)
      && (c.compiledInBrowser <==> entry.Some? && reply.NoServer? && wasmerOk)
      && (entry.None? ==> c.badges == [1])
      && (entry.Some? && !reply.NoServer? ==> c.badges == ServerBadges(reply))
      && (entry.Some? && reply.NoServer? && !wasmerOk ==> c.badges == [1])
  {
  }

  /** The final badge, when there is one, is the program's exit code after a run and non-zero after any failure. */
  lemma FinalBadge(keys: seq<string>, reply: ServerReply, wasmerOk: bool, w: WasmerOutcome)
    ensures var c := RunCpp(keys, reply, wasmerOk, w);
      c.badges != [] ==>
        var last := c.badges[|c.badges| - 1];
        (reply.Compiled? && SelectEntry(keys).Some? ==> last == reply.runExit) &&
        (reply.NoServer? && wasmerOk && w.Ran? && SelectEntry(keys).Some? ==> last == w.exitCode) &&
        (!reply.Compiled? && !(reply.NoServer? && wasmerOk && w.Ran?) ==> last != 0)
  {
    FinalBadgeFor(SelectEntry(keys), reply, wasmerOk, w);
  }

  lemma FinalBadgeFor(entry: Option<string>, reply: ServerReply, wasmerOk: bool, w: WasmerOutcome)
    ensures var c := CourseOf(entry, reply, ServerReturns(reply), wasmerOk, w);
      c.badges != [] ==>
        var last := c.badges[|c.badges| - 1];
        (reply.Compiled? && entry.Some? ==> last == reply.runExit) &&
        (reply.NoServer? && wasmerOk && w.Ran? && entry.Some? ==> last == w.exitCode) &&
        (!reply.Compiled? && !(reply.NoServer? && wasmerOk && w.Ran?) ==> last != 0)
  {
  }

  // ---- the runner ----

  datatype RunMode = Interactive | PreCollect(warned: bool)

  /** The shared buffer is used when the setting asks for it and the page may create one; otherwise stdin is collected first, with a warning if the setting was on. */
  function ChooseRunMode(interactiveSetting: bool, sharedBuffers: bool): (m: RunMode)
    ensures m.Interactive? <==> interactiveSetting && sharedBuffers
    ensures m.PreCollect? ==> (m.warned <==> interactiveSetting)
  {
    if interactiveSetting && sharedBuffers then Interactive else PreCollect(interactiveSetting)
  }

  // ---- the compiler object ----

  /** The module-level state of the compiler: the two SDK flags, the clang handle, and counts of the loads tried. */
  class Compiler {
    var wasmerReady: bool
    var wasmerFailed: bool
    var clang: Option<nat>
    var imports: nat
    var clangLoads: nat

    function Cache(): WasmerCache
      reads this
    {
      WasmerCache(wasmerReady, wasmerFailed)
    }

    constructor()
      ensures Cache() == WasmerCache(false, false) && clang == None && imports == 0 && clangLoads == 0
    {
      wasmerReady := false;
      wasmerFailed := false;
      clang := None;
      imports := 0;
      clangLoads := 0;
    }

    /** `ensureWasmer`; `importOk` is whether the SDK import and `init` would succeed. */
    method EnsureWasmer(importOk: bool) returns (ok: bool)
      modifies this`wasmerReady, this`wasmerFailed, this`imports
      ensures var s := EnsureWasmerStep(old(Cache()), importOk);
        Cache() == s.0 && ok == s.1 && imports == old(imports) + (if s.2 then 1 else 0)
    {
      if wasmerReady {
        return true;
      }
      if wasmerFailed {
        return false;
      }
      imports := imports + 1;
      if importOk {
        wasmerReady := true;
        return true;
      }
      wasmerFailed := true;
      return false;
    }

    /** `ensureClang`; `loaded` is the package the fetch and `Wasmer.fromFile` would give, `None` when either throws. */
    method EnsureClang(loaded: Option<nat>) returns (r: Option<nat>)
      modifies this`clang, this`clangLoads
      ensures var s := EnsureClangStep(old(clang), loaded);
        clang == s.0 && r == s.1 && clangLoads == old(clangLoads) + (if s.2 then 1 else 0)
    {
      if clang.Some? {
        return clang;
      }
      clangLoads := clangLoads + 1;
      clang := loaded;
      r := loaded;
    }
  }
}
