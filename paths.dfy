/**
 * The pure helpers of the file tree: path splitting and joining, the language metadata
 * table shown in the new-file dialog, the directories `createFile` marks open, and the path
 * the dialog builds from the typed name.
 */
module Paths {
  import opened Text
  import opened Wrappers

  /** `p.slice(p.lastIndexOf('/') + 1)`. */
  function Basename(p: string): (b: string)
    ensures '/' !in b
    ensures '/' !in p ==> b == p
    ensures '/' in p ==> p == Dirname(p) + "/" + b
  {
    var i := LastIndexOf(p, '/');
    assert p == p[..i + 1] + p[i + 1..];
    p[i + 1..]
  }

  /** The text before the last '/', or '' when there is none. */
  function Dirname(p: string): (d: string)
    ensures '/' !in p ==> d == ""
    ensures |d| < |p| || p == ""
  {
    var i := LastIndexOf(p, '/');
    if i < 0 then "" else p[..i]
  }

  /** `(...a) => a.filter(Boolean).join('/')`: empty segments are dropped. */
  function Join(parts: seq<string>): string {
    JoinWith(NonEmpty(parts), "/")
  }

  function NonEmpty(parts: seq<string>): (r: seq<string>)
    ensures forall i :: 0 <= i < |r| ==> r[i] != ""
    ensures |r| <= |parts|
  {
    if parts == [] then []
    else if parts[0] == "" then NonEmpty(parts[1..])
    else [parts[0]] + NonEmpty(parts[1..])
  }

  /** Splitting a path and joining the two halves gives the path back, unless a '/' stands at either end. */
  lemma JoinDirnameBasename(p: string)
    requires p == "" || (p[0] != '/' && p[|p| - 1] != '/')
    ensures Join([Dirname(p), Basename(p)]) == p
  {
    if '/' in p {
      var i := LastIndexOf(p, '/');
      assert i > 0;
      assert Basename(p) == p[i + 1..] && Basename(p) != "";
      assert Dirname(p) == p[..i] && Dirname(p) != "";
      JoinTwo(Dirname(p), Basename(p));
    } else {
      JoinEmptyFirst(Basename(p));
    }
  }

  /** Two non-empty segments are joined by one '/'. */
  lemma JoinTwo(d: string, b: string)
    requires d != "" && b != ""
    ensures Join([d, b]) == d + "/" + b
  {
    assert [d, b][1..] == [b] && [b][1..] == [];
    assert NonEmpty([b]) == [b];
    assert NonEmpty([d, b]) == [d, b];
    assert JoinWith([d, b], "/") == d + "/" + JoinWith([b], "/");
  }

  /** An empty first segment is dropped. */
  lemma JoinEmptyFirst(b: string)
    ensures Join(["", b]) == b
  {
    assert ["", b][1..] == [b] && [b][1..] == [];
    assert NonEmpty(["", b]) == NonEmpty([b]);
  }

  // ---- language metadata (caption and support level per extension) ----

  datatype Support = Supported | ViewOnly | Unsupported
  datatype Meta = Meta(caption: string, support: Support)

  const LangMeta: map<string, Meta> := map[
    "c" := Meta("C", Supported),
    "h" := Meta("C/C++ Header", Supported),
    "cpp" := Meta("C++", Supported),
    "cc" := Meta("C++", Supported),
    "cxx" := Meta("C++", Supported),
    "hpp" := Meta("C++ Header", Supported),
    "cs" := Meta("C#", Unsupported),
    "py" := Meta("Python", Supported),
    "pyw" := Meta("Python", Supported),
    "ipynb" := Meta("Jupyter", Unsupported),
    "rs" := Meta("Rust", Unsupported),
    "toml" := Meta("TOML", ViewOnly),
    "rb" := Meta("Ruby", Unsupported),
    "erb" := Meta("Ruby ERB", Unsupported),
    "go" := Meta("Go", Unsupported),
    "html" := Meta("HTML", Supported),
    "htm" := Meta("HTML", Supported),
    "css" := Meta("CSS", Supported),
    "scss" := Meta("SCSS", ViewOnly),
    "sass" := Meta("Sass", ViewOnly),
    "less" := Meta("Less", ViewOnly),
    "js" := Meta("JavaScript", Supported),
    "mjs" := Meta("JS Module", Supported),
    "ts" := Meta("TypeScript", Supported),
    "tsx" := Meta("TypeScript JSX", Supported),
    "jsx" := Meta("React JSX", Supported),
    "vue" := Meta("Vue", ViewOnly),
    "svelte" := Meta("Svelte", ViewOnly),
    "swift" := Meta("Swift", Unsupported),
    "php" := Meta("PHP", Unsupported),
    "lua" := Meta("Lua", Unsupported),
    "java" := Meta("Java", Unsupported),
    "groovy" := Meta("Groovy", Unsupported),
    "scala" := Meta("Scala", Unsupported),
    "r" := Meta("R", Unsupported),
    "rmd" := Meta("R Markdown", Unsupported),
    "sql" := Meta("SQL", ViewOnly),
    "sqlite" := Meta("SQLite", ViewOnly),
    "kt" := Meta("Kotlin", Unsupported),
    "kts" := Meta("Kotlin Script", Unsupported),
    "ex" := Meta("Elixir", Unsupported),
    "exs" := Meta("Elixir Script", Unsupported),
    "heex" := Meta("HEEx Template", Unsupported),
    "sas" := Meta("SAS", Unsupported),
    "sh" := Meta("Shell", Unsupported),
    "bash" := Meta("Bash", Unsupported),
    "zsh" := Meta("Zsh", Unsupported),
    "ps1" := Meta("PowerShell", Unsupported),
    "json" := Meta("JSON", ViewOnly),
    "yaml" := Meta("YAML", ViewOnly),
    "yml" := Meta("YAML", ViewOnly),
    "xml" := Meta("XML", ViewOnly),
    "csv" := Meta("CSV", ViewOnly),
    "env" := Meta(".env", ViewOnly),
    "md" := Meta("Markdown", ViewOnly),
    "mdx" := Meta("MDX", ViewOnly),
    "tex" := Meta("LaTeX", Unsupported),
    "dart" := Meta("Dart", Unsupported),
    "nim" := Meta("Nim", Unsupported),
    "zig" := Meta("Zig", Unsupported),
    "hs" := Meta("Haskell", Unsupported),
    "ml" := Meta("OCaml", Unsupported),
    "fs" := Meta("F#", Unsupported),
    "clj" := Meta("Clojure", Unsupported),
    "elm" := Meta("Elm", Unsupported),
    "erl" := Meta("Erlang", Unsupported),
    "jl" := Meta("Julia", Unsupported),
    "pl" := Meta("Perl", Unsupported),
    "cr" := Meta("Crystal", Unsupported),
    "d" := Meta("D", Unsupported),
    "fortran" := Meta("Fortran", Unsupported),
    "f90" := Meta("Fortran", Unsupported),
    "rkt" := Meta("Racket", Unsupported),
    "lisp" := Meta("Lisp", Unsupported),
    "jl2" := Meta("Julia", Unsupported),
    "asm" := Meta("Assembly", Unsupported),
    "wasm" := Meta("WebAssembly", ViewOnly),
    "glsl" := Meta("GLSL", Unsupported),
    "tf" := Meta("Terraform", ViewOnly),
    "dockerfile" := Meta("Dockerfile", ViewOnly),
    "makefile" := Meta("Makefile", ViewOnly),
    "graphql" := Meta("GraphQL", ViewOnly),
    "gql" := Meta("GraphQL", ViewOnly),
    "proto" := Meta("Protobuf", ViewOnly),
    "txt" := Meta("Plain Text", ViewOnly),
    "log" := Meta("Log", ViewOnly),
    "gitignore" := Meta(".gitignore", ViewOnly),
    "svg" := Meta("SVG", ViewOnly),
    "lock" := Meta("Lock File", ViewOnly)
  ]

  /** `LANG_META[key] || null`. */
  function MetaFor(key: string): (r: Option<Meta>)
    ensures r.Some? <==> key in LangMeta
    ensures r.Some? ==> r.value == LangMeta[key]
  {
    if key in LangMeta then Some(LangMeta[key]) else None
  }

  predicate IsSpecialName(lname: string) {
    lname == "dockerfile" || lname == "makefile" || lname == ".gitignore"
  }

  /**
   * `getLangMeta(name)`: `Dockerfile`, `Makefile` and `.gitignore` by whole name (any case),
   * otherwise the lower-cased text after the last '.', or nothing.
   */
  function GetLangMeta(name: string): Option<Meta> {
    match MetaKey(name)
    case None => None
    case Some(key) => MetaFor(key)
  }

  /** The `LANG_META` key `getLangMeta` consults, if any. */
  function MetaKey(name: string): Option<string> {
    var lname := Lower(name);
    if lname == "dockerfile" then Some("dockerfile")
    else if lname == "makefile" then Some("makefile")
    else if lname == ".gitignore" then Some("gitignore")
    else
      var dot := LastIndexOf(name, '.');
      if dot < 0 then None
      else Some(Lower(name[dot + 1..]))
  }

  /** The file's case does not matter: a name and its lower-case form get the same entry. */
  lemma GetLangMetaIgnoresCase(name: string)
    ensures GetLangMeta(Lower(name)) == GetLangMeta(name)
  {
    MetaKeyIgnoresCase(name);
  }

  lemma MetaKeyIgnoresCase(name: string)
    ensures MetaKey(Lower(name)) == MetaKey(name)
  {
    LowerIdempotent(name);
    if !IsSpecialName(Lower(name)) {
      MetaKeyByDot(name);
    }
  }

  lemma MetaKeyByDot(name: string)
    requires Lower(Lower(name)) == Lower(name) && !IsSpecialName(Lower(name))
    ensures MetaKey(Lower(name)) == MetaKey(name)
  {
    var lname := Lower(name);
    LastIndexOfLower(name);
    var dot := LastIndexOf(name, '.');
    if dot >= 0 {
      LowerSuffix(name, dot + 1);
      LowerIdempotent(name[dot + 1..]);
      assert Lower(lname[dot + 1..]) == Lower(name[dot + 1..]);
    }
  }

  /**
   * Apart from the three whole names, the text after the last dot decides the entry,
   * whatever comes before it; a name without a dot has none.
   */
  lemma GetLangMetaByExtension(stem: string, ext: string)
    requires '.' !in ext && !IsSpecialName(Lower(stem + "." + ext))
    ensures GetLangMeta(stem + "." + ext) == MetaFor(Lower(ext))
  {
    var name := stem + "." + ext;
    assert name == stem + ("." + ext);
    assert ("." + ext)[1..] == ext;
    LastIndexOfAppend(stem, "." + ext, '.');
    assert name[|stem| + 1..] == ext;
  }

  lemma NoDotNoMeta(name: string)
    requires '.' !in name && !IsSpecialName(Lower(name))
    ensures GetLangMeta(name).None?
  {
  }

  /** `Dockerfile`, `Makefile` and `.gitignore` are recognised by whole name in any case. */
  lemma SpecialNames(name: string)
    requires IsSpecialName(Lower(name))
    ensures GetLangMeta(name).Some?
  {
    var lname := Lower(name);
    if lname == "dockerfile" {
      assert "dockerfile" in LangMeta;
    } else if lname == "makefile" {
      assert "makefile" in LangMeta;
    } else {
      assert "gitignore" in LangMeta;
    }
  }

  // ---- directories createFile opens ----

  /** `s.split(c)` for a one-character separator. */
  function SplitChar(s: string, c: char): (r: seq<string>)
    ensures |r| >= 1
    ensures forall i :: 0 <= i < |r| ==> c !in r[i]
  {
    if s == [] then [""]
    else if s[0] == c then [""] + SplitChar(s[1..], c)
    else
      var t := SplitChar(s[1..], c);
      [[s[0]] + t[0]] + t[1..]
  }

  lemma {:induction false} JoinSplitChar(s: string, c: char)
    ensures JoinWith(SplitChar(s, c), [c]) == s
  {
    if s != [] {
      JoinSplitChar(s[1..], c);
      var t := SplitChar(s[1..], c);
      if s[0] != c {
        if |t| > 1 {
          assert ([[s[0]] + t[0]] + t[1..])[1..] == t[1..];
          assert JoinWith(t, [c]) == t[0] + [c] + JoinWith(t[1..], [c]);
        }
      }
    }
  }

  /** The `full` values the `reduce` in `createFile` adds to the open directories, in order. */
  function OpenedDirs(parts: seq<string>, acc: string): (r: seq<string>)
    ensures |r| == |parts|
  {
    if parts == [] then []
    else
      var full := if acc != "" then acc + "/" + parts[0] else parts[0];
      [full] + OpenedDirs(parts[1..], full)
  }

  lemma OpenedDirsStep(parts: seq<string>, i: nat, acc: string)
    requires i < |parts|
    ensures OpenedDirs(parts[i..], acc) ==
      var full := if acc != "" then acc + "/" + parts[i] else parts[i];
      [full] + OpenedDirs(parts[i + 1..], full)
  {
    assert parts[i..][1..] == parts[i + 1..];
  }

  /** Every directory on the way to a path: `path.split('/').slice(0, -1)` folded into prefixes. */
  function Ancestors(path: string): seq<string> {
    var segs := SplitChar(path, '/');
    OpenedDirs(segs[..|segs| - 1], "")
  }

  lemma {:induction false} OpenedDirsAt(done: seq<string>, parts: seq<string>, k: nat)
    requires done != [] && done[0] != ""
    requires k < |parts|
    ensures OpenedDirs(parts, JoinWith(done, "/"))[k] == JoinWith(done + parts[..k + 1], "/")
    decreases k
  {
    JoinNonEmptyNotEmpty(done);
    JoinSnoc(done, parts[0]);
    if k == 0 {
      assert done + parts[..1] == done + [parts[0]];
    } else {
      OpenedDirsAt(done + [parts[0]], parts[1..], k - 1);
      assert done + [parts[0]] + parts[1..][..k] == done + parts[..k + 1];
    }
  }

  lemma JoinNonEmptyNotEmpty(w: seq<string>)
    requires w != [] && w[0] != ""
    ensures JoinWith(w, "/") != ""
  {
  }

  lemma {:induction false} JoinSnoc(w: seq<string>, x: string)
    requires w != []
    ensures JoinWith(w + [x], "/") == JoinWith(w, "/") + "/" + x
  {
    if |w| > 1 {
      assert (w + [x])[1..] == w[1..] + [x];
      JoinSnoc(w[1..], x);
    }
  }

  /**
   * For a path whose '/'-separated segments are all non-empty, `createFile` opens exactly the
   * proper prefixes that end at a '/', shortest first.
   */
  lemma AncestorsArePrefixes(path: string)
    requires forall i :: 0 <= i < |SplitChar(path, '/')| ==> SplitChar(path, '/')[i] != ""
    ensures |Ancestors(path)| == |SplitChar(path, '/')| - 1
    ensures forall k :: 0 <= k < |Ancestors(path)| ==>
      Ancestors(path)[k] == JoinWith(SplitChar(path, '/')[..k + 1], "/")
  {
    var segs := SplitChar(path, '/');
    if |segs| > 1 {
      var rest := segs[1..|segs| - 1];
      assert Ancestors(path) == [segs[0]] + OpenedDirs(rest, JoinWith([segs[0]], "/"));
      forall k | 0 <= k < |Ancestors(path)|
        ensures Ancestors(path)[k] == JoinWith(segs[..k + 1], "/")
      {
        if k == 0 {
          assert segs[..1] == [segs[0]];
        } else {
          OpenedDirsAt([segs[0]], rest, k - 1);
          assert [segs[0]] + rest[..k] == segs[..k + 1];
        }
      }
    }
  }

  // ---- the new-file dialog ----

  datatype ModalMode = FileMode | FolderMode

  /** The path the dialog builds from the parent directory and the trimmed name. */
  function ChildPath(parent: string, name: string): (path: string)
    ensures EndsWith(path, name)
  {
    var path := if parent != "" then parent + "/" + name else name;
    assert path[|path| - |name|..] == name;
    path
  }

  /** What `confirmModal` asks `createFile` for: a path, with '' content for a folder's placeholder, or nothing. */
  function ConfirmModal(mode: ModalMode, parent: string, input: string): (r: Option<(string, Option<string>)>)
    ensures r.None? <==> Trim(input, JsSpace) == ""
    ensures r.Some? && mode == FolderMode ==>
      r.value == (ChildPath(parent, Trim(input, JsSpace)) + "/.gitkeep", Some(""))
    ensures r.Some? && mode == FileMode ==> r.value == (ChildPath(parent, Trim(input, JsSpace)), None)
  {
    var name := Trim(input, JsSpace);
    if name == "" then None
    else if mode == FolderMode then Some((ChildPath(parent, name) + "/.gitkeep", Some("")))
    else Some((ChildPath(parent, name), None))
  }
}
