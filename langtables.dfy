/**
 * The language tables of the IDE's global state: which language a file name belongs to,
 * the editor's language id and label for it, the template a new file starts from, the
 * default settings and the downloadable header-only libraries.
 */
module LangTables {
  import opened Text
  import Wrappers

  /** The language names `DetectLang` can produce. */
  const Langs: set<string> :=
    {"cpp", "c", "web", "css", "js", "ts", "python", "csharp", "json", "markdown", "text"}

  const ExtLang: map<string, string> := map[
    ".cpp" := "cpp", ".cc" := "cpp", ".c" := "c", ".h" := "cpp", ".hpp" := "cpp",
    ".html" := "web", ".htm" := "web",
    ".css" := "css", ".js" := "js", ".ts" := "ts",
    ".py" := "python", ".cs" := "csharp",
    ".json" := "json", ".md" := "markdown"]

  const MonacoIds: map<string, string> := map[
    "cpp" := "cpp", "c" := "cpp", "web" := "html", "css" := "css",
    "js" := "javascript", "ts" := "typescript", "python" := "python",
    "csharp" := "csharp", "json" := "json", "markdown" := "markdown", "text" := "plaintext"]

  const Labels: map<string, string> := map[
    "cpp" := "C++", "c" := "C", "web" := "HTML", "css" := "CSS", "js" := "JavaScript",
    "ts" := "TypeScript", "python" := "Python", "csharp" := "C#", "json" := "JSON",
    "markdown" := "Markdown", "text" := "Text"]

  const Templates: map<string, string> := map[
    ".cpp" := "#include <iostream>\n\nint main() {\n    std::cout << \"Hello, World!\" << std::endl;\n    return 0;\n}\n",
    ".c" := "#include <stdio.h>\n\nint main() {\n    printf(\"Hello, World!\\n\");\n    return 0;\n}\n",
    ".h" := "#pragma once\n\n",
    ".hpp" := "#pragma once\n\n",
    ".py" := "def main():\n    print(\"Hello, World!\")\n\nif __name__ == \"__main__\":\n    main()\n",
    ".html" := "<!DOCTYPE html>\n<html>\n<head><meta charset=\"UTF-8\"/><title>App</title><link rel=\"stylesheet\" href=\"style.css\"/></head>\n<body>\n\n<script src=\"app.js\"></script>\n</body>\n</html>\n",
    ".css" := "/* styles */\nbody {\n    font-family: system-ui, sans-serif;\n}\n",
    ".js" := "// app.js\nconsole.log(\"Hello!\");\n",
    ".ts" := "// main.ts\nconst greet = (name: string): string => `Hello, ${name}!`;\nconsole.log(greet(\"World\"));\n",
    ".cs" := "using System;\n\nclass Program {\n    static void Main() {\n        Console.WriteLine(\"Hello, World!\");\n    }\n}\n",
    ".json" := "{\n  \n}\n"]

  /**
   * The lower-cased suffix from the last '.' on. Without a '.', `slice(-1)` gives the last
   * character, which can never be a table key since every key starts with '.'.
   */
  function Extension(name: string): string {
    Lower(SliceFrom(name, LastIndexOf(name, '.')))
  }

  lemma ExtensionWithoutDot(name: string)
    requires '.' !in name
    ensures Extension(name) !in ExtLang && Extension(name) !in Templates
  {
    var e := SliceFrom(name, -1);
    assert |e| <= 1;
    if |e| == 1 {
      assert e[0] == name[|name| - 1];
      assert Lower(e)[0] != '.';
    }
  }

  function DetectLang(path: string): (l: string)
    ensures l in Langs
    ensures '.' !in path ==> l == "text"
    ensures Extension(path) in ExtLang ==> l == ExtLang[Extension(path)]
    ensures Extension(path) !in ExtLang ==> l == "text"
  {
    if '.' !in path then ExtensionWithoutDot(path); "text"
    else
      var ext := Extension(path);
      if ext in ExtLang then ExtLang[ext] else "text"
  }

  /** The editor's language id: the table entry for the detected language, `plaintext` otherwise. */
  function MonacoLang(path: string): (id: string)
    ensures DetectLang(path) in MonacoIds && id == MonacoIds[DetectLang(path)]
  {
    var l := DetectLang(path);
    if l in MonacoIds then MonacoIds[l] else "plaintext"
  }

  /** The label next to the Run button; never empty because every language has one. */
  function LangLabel(path: string): (caption: string)
    ensures DetectLang(path) in Labels && caption == Labels[DetectLang(path)]
    ensures caption != ""
  {
    var l := DetectLang(path);
    if l in Labels then Labels[l] else ""
  }

  /** The contents a new file starts with: the template for its extension, or nothing. */
  function DefaultContent(name: string): (content: string)
    ensures Extension(name) in Templates ==> content == Templates[Extension(name)]
    ensures Extension(name) !in Templates ==> content == ""
  {
    var ext := Extension(name);
    if ext in Templates then Templates[ext] else ""
  }

  lemma {:induction false} ExtensionIgnoresCase(name: string)
    ensures Extension(Lower(name)) == Extension(name)
  {
    LastIndexOfLower(name);
    var k := SliceIndex(|name|, LastIndexOf(name, '.'));
    LowerSuffix(name, k);
    LowerIdempotent(name[k..]);
  }

  /** Both lookups ignore case: a name and its lower-case form get the same language and template. */
  lemma LookupsIgnoreCase(name: string)
    ensures DetectLang(Lower(name)) == DetectLang(name)
    ensures DefaultContent(Lower(name)) == DefaultContent(name)
  {
    DetectLangIgnoresCase(name);
    ExtensionIgnoresCase(name);
  }

  lemma DetectLangIgnoresCase(name: string)
    ensures DetectLang(Lower(name)) == DetectLang(name)
  {
    ExtensionIgnoresCase(name);
    LastIndexOfLower(name);
    assert ('.' in Lower(name)) == ('.' in name);
  }

  /** For a name `stem + ext` whose `ext` holds its last dot, the lookups use `ext`, whatever `stem` is. */
  lemma {:induction false} ExtensionOfSuffix(stem: string, ext: string)
    requires ext != [] && ext[0] == '.' && '.' !in ext[1..]
    ensures Extension(stem + ext) == Lower(ext)
    ensures DetectLang(stem + ext) == (if Lower(ext) in ExtLang then ExtLang[Lower(ext)] else "text")
  {
    LastIndexOfAppend(stem, ext, '.');
    assert (stem + ext)[|stem|..] == ext;
    assert (stem + ext)[|stem|] == '.';
  }

  /** Header files are C++ for the editor and the Run button, whatever their case. */
  lemma HeadersAreCpp(stem: string)
    ensures DetectLang(stem + ".h") == "cpp" && DetectLang(stem + ".HPP") == "cpp"
  {
    HeaderIsCpp(stem, ".h");
    HeaderIsCpp(stem, ".HPP");
  }

  lemma HeaderIsCpp(stem: string, ext: string)
    requires ext == ".h" || ext == ".HPP"
    ensures DetectLang(stem + ext) == "cpp"
  {
    ExtensionOfSuffix(stem, ext);
    if ext == ".h" {
      DotH();
    } else {
      DotHpp();
    }
  }

  lemma DotH()
    ensures Lower(".h") == ".h" && ExtLang[".h"] == "cpp"
  {
  }

  lemma DotHpp()
    ensures Lower(".HPP") == ".hpp" && ExtLang[".hpp"] == "cpp"
  {
    assert Lower(".HPP") == [LowerChar('.')] + Lower("HPP");
  }

  // ---- settings and libraries ----

  datatype Settings = Settings(
    fontSize: int, theme: string, std: string, opt: string, flags: string,
    liveReload: bool, reloadDelay: int, cppBackend: string, interactiveStdin: bool,
    wordWrap: bool, downloadedLibs: seq<string>, downloadedRuntimes: seq<string>,
    showDevErrors: bool)

  const DefaultSettings: Settings := Settings(
    13, "vs-dark", "-std=c++17", "-O1", "-Wall",
    true, 600, "browsercc", true,
    false, [], [], false)

  /** A downloadable header-only library: its id and the project path it is spliced in at. */
  datatype Library = Library(id: string, path: string)

  const Libraries: seq<Library> := [
    Library("nlohmann-json", "nlohmann/json.hpp"),
    Library("fmt", "fmt/format.h")]

  /** `LIBRARIES.find(l => l.id === id)`. */
  function FindLibrary(libs: seq<Library>, id: string): (r: Wrappers.Option<Library>)
    ensures r.Some? ==> r.value in libs && r.value.id == id
    ensures r.None? ==> forall l :: l in libs ==> l.id != id
  {
    if libs == [] then Wrappers.None
    else if libs[0].id == id then Wrappers.Some(libs[0])
    else FindLibrary(libs[1..], id)
  }
}
