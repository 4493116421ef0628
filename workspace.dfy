/**
 * The IDE's workspace state — the files, the open tabs, the active file and the set of
 * expanded directories — and the editor and file-tree operations that change it.
 *
 * The text the code editor would hand back from `getValue()` at the moment an operation
 * needs it is a parameter `ed`: `None` when no editor has been created, `Some(text)` otherwise.
 */
module Workspace {
  import opened Wrappers
  import opened Text
  import opened Assoc
  import Paths
  import LangTables

  datatype Project = Project(files: Dict, tabs: seq<string>, active: Option<string>, openDirs: set<string>)

  /** A JavaScript truthiness test of `activeFile`: `null` and `''` are both false. */
  predicate Truthy(a: Option<string>) {
    a.Some? && a.value != ""
  }

  /** Whether an operation writes the editor's text back into the active file. */
  predicate WritesBack(w: Project, ed: Option<string>) {
    Truthy(w.active) && ed.Some?
  }

  /** `files` after the editor's text is written back to the active file, as `flush` and `open` do. */
  function Flushed(w: Project, ed: Option<string>): (files: Dict)
    ensures WritesBack(w, ed) ==> Lookup(files, w.active.value) == ed
    ensures forall k :: !(WritesBack(w, ed) && k == w.active.value) ==> Lookup(files, k) == Lookup(w.files, k)
    ensures Keys(w.files) <= Keys(files)
  {
    if WritesBack(w, ed) then Set(w.files, w.active.value, ed.value) else w.files
  }

  /** `Editor.open(path)`. */
  function Opened(w: Project, path: string, ed: Option<string>): Project {
    if path == "" || Lookup(w.files, path).None? then w
    else Project(Flushed(w, ed), if path in w.tabs then w.tabs else w.tabs + [path], Some(path), w.openDirs)
  }

  /** `Editor.closeTab(path)`; `ed` is what the editor holds when the next tab is opened. */
  function TabClosed(w: Project, path: string, ed: Option<string>): Project {
    var tabs := Without(w.tabs, path);
    var w1 := w.(tabs := tabs);
    if w.active == Some(path) then
      if tabs != [] && tabs[|tabs| - 1] != "" then Opened(w1, tabs[|tabs| - 1], ed)
      else w1.(active := None)
    else w1
  }

  /** `FileTree.createFile(path, content)`, `None` standing for an `undefined` content. */
  function FileCreated(w: Project, path: string, content: Option<string>, ed: Option<string>): Project {
    if Lookup(w.files, path).Some? then Opened(w, path, ed)
    else
      var text := content.GetOr(LangTables.DefaultContent(Paths.Basename(path)));
      var dirs := Paths.Ancestors(path);
      var w1 := w.(files := Set(w.files, path, text), openDirs := w.openDirs + set x | x in dirs);
      Opened(w1, path, ed)
  }

  /** `FileTree.delFile(path)` as the code is written. */
  function FileDeleted(w: Project, path: string, ed: Option<string>): Project {
    var rest := Without(Keys(w.files), path);
    if rest == [] then w
    else
      var w1 := w.(files := Remove(w.files, path), tabs := Without(w.tabs, path));
      if w.active == Some(path) then Opened(w1, rest[0], ed) else w1
  }

  /** `delFile` with the deleted path cleared from `activeFile` before the next file is opened. */
  function FileDeletedFixed(w: Project, path: string, ed: Option<string>): Project {
    var rest := Without(Keys(w.files), path);
    if rest == [] then w
    else
      var w1 := w.(files := Remove(w.files, path), tabs := Without(w.tabs, path));
      if w.active == Some(path) then Opened(w1.(active := None), rest[0], ed) else w1
  }

  /** The keys `delDir(dir)` removes: `dir` itself and every key under `dir + '/'`. */
  predicate InDir(k: string, dir: string) {
    k == dir || StartsWith(k, dir + "/")
  }

  function KeysInDir(ks: seq<string>, dir: string): (r: seq<string>)
    ensures forall k :: k in r <==> k in ks && InDir(k, dir)
  {
    if ks == [] then []
    else (if InDir(ks[0], dir) then [ks[0]] else []) + KeysInDir(ks[1..], dir)
  }

  /** Whether some key differs from a `.gitkeep` placeholder, which makes `delDir` ask first. */
  predicate HasRealFile(ks: seq<string>) {
    exists i :: 0 <= i < |ks| && !EndsWith(ks[i], ".gitkeep")
  }

  /** The files after each key of `ps` is deleted in turn. */
  function RemoveAll(d: Dict, ps: seq<string>): (r: Dict)
    ensures forall k :: Lookup(r, k) == if k in ps then None else Lookup(d, k)
    ensures Unique(d) ==> Unique(r)
  {
    if ps == [] then d else Remove(RemoveAll(d, ps[..|ps| - 1]), ps[|ps| - 1])
  }

  /** The tabs after each key of `ps` is filtered out in turn. */
  function WithoutAll(xs: seq<string>, ps: seq<string>): (r: seq<string>)
    ensures forall k :: k in r <==> k in xs && k !in ps
  {
    if ps == [] then xs else Without(WithoutAll(xs, ps[..|ps| - 1]), ps[|ps| - 1])
  }

  lemma RemoveStep(d: Dict, xs: seq<string>, ps: seq<string>, i: nat)
    requires i < |ps|
    ensures RemoveAll(d, ps[..i + 1]) == Remove(RemoveAll(d, ps[..i]), ps[i])
    ensures WithoutAll(xs, ps[..i + 1]) == Without(WithoutAll(xs, ps[..i]), ps[i])
  {
    assert ps[..i + 1] == ps[..i] + [ps[i]];
    RemoveAllSnoc(d, ps[..i], ps[i]);
    WithoutAllSnoc(xs, ps[..i], ps[i]);
  }

  lemma RemoveAllSnoc(d: Dict, ps: seq<string>, p: string)
    ensures RemoveAll(d, ps + [p]) == Remove(RemoveAll(d, ps), p)
  {
    assert (ps + [p])[..|ps|] == ps;
  }

  lemma WithoutAllSnoc(xs: seq<string>, ps: seq<string>, p: string)
    ensures WithoutAll(xs, ps + [p]) == Without(WithoutAll(xs, ps), p)
  {
    assert (ps + [p])[..|ps|] == ps;
  }

  /** What `delDir` consults once the loop is over: `State.files[State.activeFile]`, where `null` becomes the key `"null"`. */
  function ActiveKey(a: Option<string>): string {
    if a.Some? then a.value else "null"
  }

  /** The tail of `delDir` after its loop: forget the directory, then reopen if the active file is gone or empty. */
  function DirDeletedTail(w: Project, dir: string, cleared: Project, ed: Option<string>): Project {
    var w2 := cleared.(openDirs := cleared.openDirs - {dir});
    var remaining := Keys(w2.files);
    var act := Lookup(w2.files, ActiveKey(w2.active));
    if act.None? || act.value == "" then
      if remaining == [] then w2 else Opened(w2, remaining[0], ed)
    else w2
  }

  /** `FileTree.delDir(dir)` as written, `confirmed` being the user's answer to the dialog. */
  function DirDeleted(w: Project, dir: string, confirmed: bool, ed: Option<string>): Project {
    var doomed := KeysInDir(Keys(w.files), dir);
    if HasRealFile(doomed) && !confirmed then w
    else DirDeletedTail(w, dir, w.(files := RemoveAll(w.files, doomed), tabs := WithoutAll(w.tabs, doomed)), ed)
  }

  /** `delDir` with a deleted active file cleared before the next file is opened. */
  function DirDeletedFixed(w: Project, dir: string, confirmed: bool, ed: Option<string>): Project {
    var doomed := KeysInDir(Keys(w.files), dir);
    if HasRealFile(doomed) && !confirmed then w
    else
      var active := if w.active.Some? && InDir(w.active.value, dir) then None else w.active;
      DirDeletedTail(w, dir, w.(files := RemoveAll(w.files, doomed), tabs := WithoutAll(w.tabs, doomed), active := active), ed)
  }

  /** The common part of both drop handlers: move the content, rename the tabs, let `activeFile` follow. */
  function Moved(w: Project, src: string, newPath: string): Project
    requires Lookup(w.files, src).Some?
  {
    w.(files := Remove(Set(w.files, newPath, Lookup(w.files, src).value), src),
       tabs := Rename(w.tabs, src, newPath),
       active := if w.active == Some(src) then Some(newPath) else w.active)
  }

  lemma MovedKeepsUnique(w: Project, src: string, newPath: string)
    requires Unique(w.files) && Lookup(w.files, src).Some?
    ensures Unique(Moved(w, src, newPath).files)
  {
  }

  /** Why a drop is refused: the message printed to the terminal. */
  function ExistsMessage(newPath: string): string {
    "✗ \"" + newPath + "\" already exists."
  }

  /** Dropping the file `src` on the folder `target`. */
  function DroppedOnDir(w: Project, src: string, target: string, ed: Option<string>): Project
    requires Lookup(w.files, src).Some?
  {
    var newPath := Paths.Join([target, Paths.Basename(src)]);
    if newPath == src || Lookup(w.files, newPath).Some? then w
    else
      var m := Moved(w, src, newPath).(openDirs := w.openDirs + {target});
      if m.active == Some(newPath) then Opened(m, newPath, ed) else m
  }

  /** Dropping the file `src` on the empty area of the tree, which moves it to the top level. */
  function DroppedOnRoot(w: Project, src: string): Project
    requires Lookup(w.files, src).Some?
  {
    var newPath := Paths.Basename(src);
    if newPath == src || Lookup(w.files, newPath).Some? then w
    else Moved(w, src, newPath)
  }

  lemma SnocAssoc(xs: seq<string>, y: string, zs: seq<string>)
    ensures xs + ([y] + zs) == (xs + [y]) + zs
  {
  }

  lemma SetOfSnoc(xs: seq<string>, y: string)
    ensures (set x | x in xs + [y]) == (set x | x in xs) + {y}
  {
  }

  /** One tab of the tab bar: the file name shown, the path and whether it is highlighted. */
  datatype Tab = Tab(name: string, path: string, highlighted: bool)

  /** The tabs `renderTabs` draws, skipping open paths that are no longer files. */
  function TabStrip(files: Dict, tabs: seq<string>, active: Option<string>): (r: seq<Tab>)
    ensures forall i :: 0 <= i < |r| ==> ShowsFile(files, tabs, active, r[i])
    ensures |r| <= |tabs|
  {
    if tabs == [] then []
    else
      var p := tabs[|tabs| - 1];
      var front := TabStrip(files, tabs[..|tabs| - 1], active);
      if Lookup(files, p).None? then front
      else front + [Tab(Paths.Basename(p), p, active == Some(p))]
  }

  /** A tab drawn for an open path that is a file, named by its base name, highlighted iff active. */
  predicate ShowsFile(files: Dict, tabs: seq<string>, active: Option<string>, t: Tab) {
    t.path in tabs && Lookup(files, t.path).Some? &&
    t.name == Paths.Basename(t.path) && t.highlighted == (active == Some(t.path))
  }

  /** Every open path that is still a file gets a tab. */
  lemma {:induction false} TabStripComplete(files: Dict, tabs: seq<string>, active: Option<string>, p: string)
    requires p in tabs && Lookup(files, p).Some?
    ensures exists i :: 0 <= i < |TabStrip(files, tabs, active)| && TabStrip(files, tabs, active)[i].path == p
  {
    var r := TabStrip(files, tabs, active);
    var q := tabs[|tabs| - 1];
    var front := TabStrip(files, tabs[..|tabs| - 1], active);
    TabStripLast(files, tabs, active);
    if p == q {
      assert r[|front|].path == p;
    } else {
      InFront(tabs, p);
      TabStripComplete(files, tabs[..|tabs| - 1], active, p);
      var i :| 0 <= i < |front| && front[i].path == p;
      assert r[i].path == p by {
        assert r[..|front|][i] == front[i];
      }
    }
  }

  lemma InFront(tabs: seq<string>, p: string)
    requires p in tabs && p != tabs[|tabs| - 1]
    ensures p in tabs[..|tabs| - 1]
  {
    var j :| 0 <= j < |tabs| && tabs[j] == p;
    assert tabs[..|tabs| - 1][j] == p;
  }

  lemma TabStripLast(files: Dict, tabs: seq<string>, active: Option<string>)
    requires tabs != []
    ensures var r := TabStrip(files, tabs, active);
      var q := tabs[|tabs| - 1];
      var front := TabStrip(files, tabs[..|tabs| - 1], active);
      && |front| <= |r| && r[..|front|] == front
      && (Lookup(files, q).Some? ==> |r| == |front| + 1 && r[|front|].path == q)
  {
  }

  // ---- properties of the operations ----

  /** `open` on an absent or empty path changes nothing. */
  lemma OpenIgnoresMissing(w: Project, path: string, ed: Option<string>)
    requires path == "" || Lookup(w.files, path).None?
    ensures Opened(w, path, ed) == w
  {
  }

  /**
   * `open` on a file makes it active; it joins the tabs only if it was not among them, so no
   * tab is duplicated; at most the outgoing active file's content changes, to the editor's text.
   */
  lemma OpenShowsFile(w: Project, path: string, ed: Option<string>)
    requires path != "" && Lookup(w.files, path).Some?
    ensures var r := Opened(w, path, ed);
      && r.active == Some(path)
      && r.tabs == (if path in w.tabs then w.tabs else w.tabs + [path])
      && path in r.tabs
      && (Distinct(w.tabs) ==> Distinct(r.tabs))
      && r.files == Flushed(w, ed)
      && r.openDirs == w.openDirs
  {
    var r := Opened(w, path, ed);
    if Distinct(w.tabs) && path !in w.tabs {
      DistinctSnoc(w.tabs, path);
    }
  }

  lemma DistinctSnoc(xs: seq<string>, x: string)
    requires Distinct(xs) && x !in xs
    ensures Distinct(xs + [x])
  {
  }

  /** Re-opening the active tab while the editor shows its content changes nothing. */
  lemma ReopenActiveIsNoop(w: Project, path: string, text: string)
    requires path != "" && w.active == Some(path) && path in w.tabs
    requires Lookup(w.files, path) == Some(text)
    ensures Opened(w, path, Some(text)) == w
  {
    SetSame(w.files, path, text);
  }

  /**
   * `closeTab` removes every occurrence of the path from the tabs; closing another tab changes
   * nothing else. Closing the active tab opens the last remaining tab when that names an
   * existing file: the editor's text is first written back to the closed file, which is still
   * active at that moment. When no tab remains, or the last tab is the empty path, the active
   * file is cleared. When the last tab names no file, `open` returns early and the closed
   * path stays active.
   */
  lemma CloseTabEffect(w: Project, path: string, ed: Option<string>)
    ensures var r := TabClosed(w, path, ed);
      && r.tabs == Without(w.tabs, path)
      && path !in r.tabs
      && r.openDirs == w.openDirs
      && (w.active != Some(path) ==> r == w.(tabs := Without(w.tabs, path)))
      && (w.active == Some(path) && Without(w.tabs, path) == [] ==> r == w.(tabs := [], active := None))
      && (w.active == Some(path) && Without(w.tabs, path) != [] ==>
            var next := Without(w.tabs, path)[|Without(w.tabs, path)| - 1];
            && (next == "" ==> r == w.(tabs := Without(w.tabs, path), active := None))
            && (next != "" && Lookup(w.files, next).Some? ==>
                  r.active == Some(next) && r.files == Flushed(w, ed))
            && (next != "" && Lookup(w.files, next).None? ==> r == w.(tabs := Without(w.tabs, path))))
  {
    var tabs := Without(w.tabs, path);
    if w.active == Some(path) && tabs != [] && tabs[|tabs| - 1] != "" && Lookup(w.files, tabs[|tabs| - 1]).Some? {
      ClosedActiveOpensNext(w, path, ed);
    }
  }

  /** Closing the active tab when the last remaining tab is a file: that file is opened after the write-back. */
  lemma ClosedActiveOpensNext(w: Project, path: string, ed: Option<string>)
    requires w.active == Some(path) && Without(w.tabs, path) != []
    requires var tabs := Without(w.tabs, path); tabs[|tabs| - 1] != "" && Lookup(w.files, tabs[|tabs| - 1]).Some?
    ensures var tabs := Without(w.tabs, path);
      TabClosed(w, path, ed) == Project(Flushed(w, ed), tabs, Some(tabs[|tabs| - 1]), w.openDirs)
  {
    var tabs := Without(w.tabs, path);
    assert tabs[|tabs| - 1] in tabs;
    FlushedIgnoresTabs(w, tabs, ed);
  }

  lemma FlushedIgnoresTabs(w: Project, tabs: seq<string>, ed: Option<string>)
    ensures Flushed(w.(tabs := tabs), ed) == Flushed(w, ed)
  {
    assert WritesBack(w.(tabs := tabs), ed) == WritesBack(w, ed);
  }

  /**
   * `createFile` on an existing path only opens it; on a new path it stores the given content,
   * or the template for its name, marks every ancestor directory open and makes it active.
   */
  lemma CreateFileEffect(w: Project, path: string, content: Option<string>, ed: Option<string>)
    ensures var r := FileCreated(w, path, content, ed);
      && (Lookup(w.files, path).Some? ==> r == Opened(w, path, ed))
      && (Lookup(w.files, path).None? ==>
            && (forall d :: d in Paths.Ancestors(path) ==> d in r.openDirs)
            && w.openDirs <= r.openDirs
            && (path != "" ==> r.active == Some(path))
            && (!WritesBack(w, ed) || w.active.value != path ==>
                  Lookup(r.files, path) == Some(content.GetOr(LangTables.DefaultContent(Paths.Basename(path)))))
            && (forall k :: k != path && !(WritesBack(w, ed) && k == w.active.value) ==>
                  Lookup(r.files, k) == Lookup(w.files, k)))
  {
    if Lookup(w.files, path).None? {
      var text := content.GetOr(LangTables.DefaultContent(Paths.Basename(path)));
      var w1 := w.(files := Set(w.files, path, text), openDirs := w.openDirs + set x | x in Paths.Ancestors(path));
      assert FileCreated(w, path, content, ed) == Opened(w1, path, ed);
      StoredThenOpened(w, w1, path, text, ed);
    }
  }

  /** Opening a path just stored: it becomes active, and only the outgoing active file may change besides. */
  lemma StoredThenOpened(w: Project, w1: Project, path: string, text: string, ed: Option<string>)
    requires w1.files == Set(w.files, path, text) && w1.active == w.active && w.openDirs <= w1.openDirs
    ensures var r := Opened(w1, path, ed);
      && w1.openDirs == r.openDirs
      && (path != "" ==> r.active == Some(path))
      && (!WritesBack(w, ed) || w.active.value != path ==> Lookup(r.files, path) == Some(text))
      && (forall k :: k != path && !(WritesBack(w, ed) && k == w.active.value) ==>
            Lookup(r.files, k) == Lookup(w.files, k))
  {
    assert WritesBack(w1, ed) == WritesBack(w, ed);
  }

  /** `createFile` never overwrites the content of a path that is not being edited. */
  lemma CreateFileKeepsExisting(w: Project, path: string, content: Option<string>, ed: Option<string>)
    requires Lookup(w.files, path).Some?
    requires !(WritesBack(w, ed) && w.active.value == path)
    ensures Lookup(FileCreated(w, path, content, ed).files, path) == Lookup(w.files, path)
  {
  }

  /** `delFile` refuses to delete the only file, whichever version. */
  lemma DelFileKeepsLastFile(w: Project, path: string, ed: Option<string>)
    requires Keys(w.files) == [path]
    ensures FileDeleted(w, path, ed) == w && FileDeletedFixed(w, path, ed) == w
  {
    assert Without(Keys(w.files), path) == [];
  }

  /**
   * As written, deleting the active file while the editor exists puts the deleted path back:
   * `open` writes the editor's text into `files[activeFile]`, which still names it.
   */
  lemma DelFileResurrectsActive(w: Project, path: string, text: string)
    requires w.active == Some(path) && path != ""
    requires Lookup(w.files, path).Some?
    requires var rest := Without(Keys(w.files), path); rest != [] && rest[0] != ""
    ensures Lookup(FileDeleted(w, path, Some(text)).files, path) == Some(text)
    ensures Keys(FileDeleted(w, path, Some(text)).files) == Without(Keys(w.files), path) + [path]
  {
    var rest := Without(Keys(w.files), path);
    assert rest[0] in rest;
    assert Lookup(Remove(w.files, path), rest[0]).Some?;
  }

  /** A concrete instance: two files, the active one deleted, and it is back at the end. */
  lemma DelFileResurrectsExample()
    ensures FileDeleted(Project([("main.cpp", "int main(){}"), ("util.h", "")], ["main.cpp"], Some("main.cpp"), {}),
                        "main.cpp", Some("int main(){}")).files
            == [("util.h", ""), ("main.cpp", "int main(){}")]
  {
    var w := Project([("main.cpp", "int main(){}"), ("util.h", "")], ["main.cpp"], Some("main.cpp"), {});
    assert Keys(w.files) == ["main.cpp", "util.h"];
    assert Without(Keys(w.files), "main.cpp") == ["util.h"];
    assert Remove(w.files, "main.cpp") == [("util.h", "")];
  }

  /**
   * Fixed `delFile`: unless it is the last file, the path is gone from the files and the tabs,
   * every other file keeps its content, and the first remaining file becomes active when the
   * deleted one was.
   */
  lemma DelFileFixedEffect(w: Project, path: string, ed: Option<string>)
    requires Without(Keys(w.files), path) != []
    ensures var r := FileDeletedFixed(w, path, ed);
      && Lookup(r.files, path) == None
      && (forall k :: k != path ==> Lookup(r.files, k) == Lookup(w.files, k))
      && Keys(r.files) == Without(Keys(w.files), path)
      && path !in r.tabs
      && (w.active == Some(path) && Without(Keys(w.files), path)[0] != "" ==>
            r.active == Some(Without(Keys(w.files), path)[0]))
      && (w.active != Some(path) ==> r.active == w.active)
  {
    var rest := Without(Keys(w.files), path);
    assert rest[0] in rest;
  }

  /** What the tail of `delDir` changes: at most the write-back of the active file, and tabs only by an opened file. */
  lemma DirDeletedTailEffect(w: Project, dir: string, c: Project, ed: Option<string>)
    ensures var r := DirDeletedTail(w, dir, c, ed);
      && (forall k :: !(WritesBack(c, ed) && k == c.active.value) ==> Lookup(r.files, k) == Lookup(c.files, k))
      && (forall t :: t in r.tabs ==> t in c.tabs || Lookup(c.files, t).Some?)
      && dir !in r.openDirs
  {
    var w2 := c.(openDirs := c.openDirs - {dir});
    var remaining := Keys(w2.files);
    if remaining != [] {
      assert remaining[0] in Keys(c.files);
    }
  }

  /**
   * `delDir` (fixed): after the user agrees, or when the folder holds only placeholders, no key
   * in the folder remains a file or an open tab, every other file keeps its content unless it
   * is the active file being written back, and the folder is no longer marked open.
   */
  lemma DelDirFixedEffect(w: Project, dir: string, confirmed: bool, ed: Option<string>)
    requires confirmed || !HasRealFile(KeysInDir(Keys(w.files), dir))
    ensures var r := DirDeletedFixed(w, dir, confirmed, ed);
      && (forall k :: InDir(k, dir) ==> Lookup(r.files, k) == None)
      && (forall k :: InDir(k, dir) && Lookup(w.files, k).Some? ==> k !in r.tabs)
      && (forall k :: !InDir(k, dir) && !(WritesBack(w, ed) && k == w.active.value) ==>
            Lookup(r.files, k) == Lookup(w.files, k))
      && dir !in r.openDirs
  {
    var doomed := KeysInDir(Keys(w.files), dir);
    var active := if w.active.Some? && InDir(w.active.value, dir) then None else w.active;
    var c := w.(files := RemoveAll(w.files, doomed), tabs := WithoutAll(w.tabs, doomed), active := active);
    assert DirDeletedFixed(w, dir, confirmed, ed) == DirDeletedTail(w, dir, c, ed);
    DirDeletedTailEffect(w, dir, c, ed);
    forall k | InDir(k, dir) ensures Lookup(c.files, k) == None {
      if k !in doomed {
        assert k !in Keys(w.files);
      }
    }
  }

  /** `delDir` asks nothing when the folder holds only placeholders, and a refusal changes nothing. */
  lemma DelDirConfirmation(w: Project, dir: string, ed: Option<string>)
    ensures !HasRealFile(KeysInDir(Keys(w.files), dir)) ==>
      DirDeleted(w, dir, false, ed) == DirDeleted(w, dir, true, ed)
    ensures HasRealFile(KeysInDir(Keys(w.files), dir)) ==> DirDeleted(w, dir, false, ed) == w
  {
  }

  /** As written, deleting the folder of the active file with the editor present brings that file back. */
  lemma DelDirResurrectsActive(w: Project, dir: string, text: string)
    requires w.active.Some? && w.active.value != "" && InDir(w.active.value, dir)
    requires Lookup(w.files, w.active.value).Some?
    requires var rest := Keys(RemoveAll(w.files, KeysInDir(Keys(w.files), dir))); rest != [] && rest[0] != ""
    ensures Lookup(DirDeleted(w, dir, true, Some(text)).files, w.active.value) == Some(text)
  {
    var a := w.active.value;
    var doomed := KeysInDir(Keys(w.files), dir);
    var c := w.(files := RemoveAll(w.files, doomed), tabs := WithoutAll(w.tabs, doomed));
    assert DirDeleted(w, dir, true, Some(text)) == DirDeletedTail(w, dir, c, Some(text));
    assert a in doomed;
    assert Lookup(c.files, a) == None;
    var w2 := c.(openDirs := c.openDirs - {dir});
    var rest := Keys(w2.files);
    assert rest[0] in rest;
    assert DirDeletedTail(w, dir, c, Some(text)) == Opened(w2, rest[0], Some(text));
  }

  /**
   * A drop onto a folder or the root never overwrites: when it is refused or the file is
   * already there nothing changes. Otherwise the content moves, the source key is gone, the
   * other files keep their content, the number of files is unchanged, every tab naming the
   * source is renamed and the active file follows.
   */
  lemma DropOnRootEffect(w: Project, src: string)
    requires Unique(w.files) && Lookup(w.files, src).Some?
    ensures var newPath := Paths.Basename(src);
      var r := DroppedOnRoot(w, src);
      && (newPath == src || Lookup(w.files, newPath).Some? ==> r == w)
      && (newPath != src && Lookup(w.files, newPath).None? ==>
            && Lookup(r.files, newPath) == Lookup(w.files, src)
            && Lookup(r.files, src) == None
            && (forall k :: k != src && k != newPath ==> Lookup(r.files, k) == Lookup(w.files, k))
            && |r.files| == |w.files|
            && r.tabs == Rename(w.tabs, src, newPath)
            && r.active == (if w.active == Some(src) then Some(newPath) else w.active))
  {
    var newPath := Paths.Basename(src);
    if newPath != src && Lookup(w.files, newPath).None? {
      MovedSize(w, src, newPath);
    }
  }

  lemma MovedSize(w: Project, src: string, newPath: string)
    requires Unique(w.files) && Lookup(w.files, src).Some? && Lookup(w.files, newPath).None?
    requires newPath != src
    ensures |Moved(w, src, newPath).files| == |w.files|
  {
    var s := Set(w.files, newPath, Lookup(w.files, src).value);
    assert |Keys(s)| == |Keys(w.files)| + 1;
    RemovePresentSize(s, src);
  }

  /** A drop onto a folder that holds the file already, or a file of the same name, changes nothing. */
  lemma DropOnDirRefused(w: Project, src: string, target: string, ed: Option<string>)
    requires Lookup(w.files, src).Some?
    requires var newPath := Paths.Join([target, Paths.Basename(src)]);
      newPath == src || Lookup(w.files, newPath).Some?
    ensures DroppedOnDir(w, src, target, ed) == w
  {
  }

  /**
   * Otherwise the content moves (as the editor's text, if the new path ends up active), the
   * source key is gone, the other files keep their content, the number of files is unchanged,
   * the renamed tabs come first, the active file follows and the folder is marked open.
   */
  lemma DropOnDirMoves(w: Project, src: string, target: string, ed: Option<string>)
    requires Unique(w.files) && Lookup(w.files, src).Some?
    requires var newPath := Paths.Join([target, Paths.Basename(src)]);
      newPath != src && Lookup(w.files, newPath).None?
    ensures var newPath := Paths.Join([target, Paths.Basename(src)]);
      var r := DroppedOnDir(w, src, target, ed);
      && Lookup(r.files, newPath) ==
           (if (w.active == Some(src) || w.active == Some(newPath)) && ed.Some? && newPath != "" then ed
            else Lookup(w.files, src))
      && Lookup(r.files, src) == None
      && (forall k :: k != src && k != newPath ==> Lookup(r.files, k) == Lookup(w.files, k))
      && |r.files| == |w.files|
      && |w.tabs| <= |r.tabs| && r.tabs[..|w.tabs|] == Rename(w.tabs, src, newPath)
      && r.active == (if w.active == Some(src) then Some(newPath) else w.active)
      && target in r.openDirs
  {
    var newPath := Paths.Join([target, Paths.Basename(src)]);
    DropOutcomeHolds(w, src, target, newPath, ed);
  }

  /** What a successful drop makes of the project `w`: the conclusion of `DropOnDirMoves`. */
  ghost predicate DropOutcome(w: Project, src: string, target: string, newPath: string, r: Project, ed: Option<string>) {
    && Lookup(r.files, newPath) ==
         (if (w.active == Some(src) || w.active == Some(newPath)) && ed.Some? && newPath != "" then ed
          else Lookup(w.files, src))
    && Lookup(r.files, src) == None
    && (forall k :: k != src && k != newPath ==> Lookup(r.files, k) == Lookup(w.files, k))
    && |r.files| == |w.files|
    && |w.tabs| <= |r.tabs| && r.tabs[..|w.tabs|] == Rename(w.tabs, src, newPath)
    && r.active == (if w.active == Some(src) then Some(newPath) else w.active)
    && target in r.openDirs
  }

  lemma DropOutcomeHolds(w: Project, src: string, target: string, newPath: string, ed: Option<string>)
    requires Unique(w.files) && Lookup(w.files, src).Some?
    requires newPath == Paths.Join([target, Paths.Basename(src)])
    requires newPath != src && Lookup(w.files, newPath).None?
    ensures DropOutcome(w, src, target, newPath, DroppedOnDir(w, src, target, ed), ed)
  {
    var m := Moved(w, src, newPath).(openDirs := w.openDirs + {target});
    if m.active == Some(newPath) && newPath != "" {
      DropOpened(w, src, target, newPath, m, ed);
    } else {
      DropClosed(w, src, target, newPath, m, ed);
    }
  }

  lemma DropOpened(w: Project, src: string, target: string, newPath: string, m: Project, ed: Option<string>)
    requires Unique(w.files) && Lookup(w.files, src).Some? && Lookup(w.files, newPath).None?
    requires newPath != src && newPath != ""
    requires m == Moved(w, src, newPath).(openDirs := w.openDirs + {target})
    requires m.active == Some(newPath)
    ensures DropOutcome(w, src, target, newPath, Opened(m, newPath, ed), ed)
  {
    MovedOpenedCase(w, src, newPath, m, ed);
  }

  lemma DropClosed(w: Project, src: string, target: string, newPath: string, m: Project, ed: Option<string>)
    requires Unique(w.files) && Lookup(w.files, src).Some? && Lookup(w.files, newPath).None?
    requires newPath != src
    requires m == Moved(w, src, newPath).(openDirs := w.openDirs + {target})
    requires m.active != Some(newPath) || newPath == ""
    ensures DropOutcome(w, src, target, newPath, m, ed)
  {
    MovedClosedCase(w, src, newPath, m);
    assert m.active == (if w.active == Some(src) then Some(newPath) else w.active);
    assert !((w.active == Some(src) || w.active == Some(newPath)) && ed.Some? && newPath != "");
    assert m.tabs == Rename(w.tabs, src, newPath);
    assert m.tabs[..|w.tabs|] == m.tabs;
  }

  /** The moved file ends up active: it is reopened, and the editor's text is written to it. */
  lemma MovedOpenedCase(w: Project, src: string, newPath: string, m: Project, ed: Option<string>)
    requires Unique(w.files) && Lookup(w.files, src).Some? && Lookup(w.files, newPath).None?
    requires newPath != src && newPath != ""
    requires m.files == Moved(w, src, newPath).files && m.tabs == Moved(w, src, newPath).tabs
    requires m.active == Some(newPath)
    ensures var r := Opened(m, newPath, ed);
      && Lookup(r.files, newPath) == (if ed.Some? then ed else Lookup(w.files, src))
      && Lookup(r.files, src) == None
      && (forall k :: k != src && k != newPath ==> Lookup(r.files, k) == Lookup(w.files, k))
      && |r.files| == |w.files|
      && |m.tabs| <= |r.tabs| && r.tabs[..|m.tabs|] == m.tabs
      && r.active == m.active && r.openDirs == m.openDirs
  {
    MovedEffect(w, src, newPath);
    OpenedMovedActive(m, newPath, ed);
  }

  /** Otherwise the move alone is the result. */
  lemma MovedClosedCase(w: Project, src: string, newPath: string, m: Project)
    requires Unique(w.files) && Lookup(w.files, src).Some? && Lookup(w.files, newPath).None?
    requires newPath != src
    requires m.files == Moved(w, src, newPath).files
    ensures && Lookup(m.files, newPath) == Lookup(w.files, src)
      && Lookup(m.files, src) == None
      && (forall k :: k != src && k != newPath ==> Lookup(m.files, k) == Lookup(w.files, k))
      && |m.files| == |w.files|
  {
    MovedEffect(w, src, newPath);
  }

  lemma MovedEffect(w: Project, src: string, newPath: string)
    requires Unique(w.files) && Lookup(w.files, src).Some? && Lookup(w.files, newPath).None?
    requires newPath != src
    ensures var m := Moved(w, src, newPath);
      && Lookup(m.files, newPath) == Lookup(w.files, src)
      && Lookup(m.files, src) == None
      && (forall k :: k != src && k != newPath ==> Lookup(m.files, k) == Lookup(w.files, k))
      && |m.files| == |w.files|
      && Unique(m.files)
  {
    MovedSize(w, src, newPath);
  }

  lemma OpenedMovedActive(m: Project, newPath: string, ed: Option<string>)
    requires newPath != "" && m.active == Some(newPath) && Lookup(m.files, newPath).Some?
    ensures var r := Opened(m, newPath, ed);
      && Lookup(r.files, newPath) == (if ed.Some? then ed else Lookup(m.files, newPath))
      && (forall k :: k != newPath ==> Lookup(r.files, k) == Lookup(m.files, k))
      && |r.files| == |m.files|
      && |m.tabs| <= |r.tabs| && r.tabs[..|m.tabs|] == m.tabs
      && r.active == m.active && r.openDirs == m.openDirs
  {
    var r := Opened(m, newPath, ed);
    assert Keys(r.files) == Keys(m.files);
    assert |Keys(r.files)| == |Keys(m.files)|;
    if newPath !in m.tabs {
      assert (m.tabs + [newPath])[..|m.tabs|] == m.tabs;
    }
  }

  /** Dropping a file on the folder that already holds it is a no-op. */
  lemma DropOnOwnFolderIsNoop(w: Project, src: string, ed: Option<string>)
    requires Lookup(w.files, src).Some?
    requires src != "" && src[0] != '/' && src[|src| - 1] != '/'
    ensures DroppedOnDir(w, src, Paths.Dirname(src), ed) == w
  {
    Paths.JoinDirnameBasename(src);
  }

  /** `flush` stores the editor's text in the active file and touches nothing else. */
  lemma FlushEffect(w: Project, ed: Option<string>)
    ensures WritesBack(w, ed) ==> Lookup(Flushed(w, ed), w.active.value) == ed
    ensures forall k :: !(WritesBack(w, ed) && k == w.active.value) ==> Lookup(Flushed(w, ed), k) == Lookup(w.files, k)
    ensures Truthy(w.active) && Lookup(w.files, w.active.value).Some? ==> Keys(Flushed(w, ed)) == Keys(w.files)
  {
  }

  /** The state shared by the editor and the file tree: `State.files`, `openTabs`, `activeFile` and the tree's `openDirs`. */
  class IdeState {
    var files: Dict
    var openTabs: seq<string>
    var activeFile: Option<string>
    var openDirs: set<string>

    predicate Valid()
      reads this
    {
      Unique(files)
    }

    function Snapshot(): Project
      reads this
    {
      Project(files, openTabs, activeFile, openDirs)
    }

    /** The state after the saved files are loaded: no tab open, no active file, every folder closed. */
    constructor(saved: Dict)
      requires Unique(saved)
      ensures Valid() && Snapshot() == Project(saved, [], None, {})
    {
      files := saved;
      openTabs := [];
      activeFile := None;
      openDirs := {};
    }

    method Open(path: string, ed: Option<string>)
      requires Valid()
      modifies this
      ensures Valid() && Snapshot() == Opened(old(Snapshot()), path, ed)
    {
      if path == "" || Lookup(files, path).None? {
        return;
      }
      ghost var want := Opened(Snapshot(), path, ed);
      if Truthy(activeFile) && ed.Some? {
        files := Set(files, activeFile.value, ed.value);
      }
      assert files == want.files;
      activeFile := Some(path);
      if path !in openTabs {
        openTabs := openTabs + [path];
      }
      assert Snapshot() == want;
    }

    method Flush(ed: Option<string>)
      requires Valid()
      modifies this
      ensures Valid() && Snapshot() == old(Snapshot()).(files := Flushed(old(Snapshot()), ed))
    {
      if Truthy(activeFile) && ed.Some? {
        files := Set(files, activeFile.value, ed.value);
      }
    }

    method CloseTab(path: string, ed: Option<string>)
      requires Valid()
      modifies this
      ensures Valid() && Snapshot() == TabClosed(old(Snapshot()), path, ed)
    {
      ghost var w0 := Snapshot();
      openTabs := Without(openTabs, path);
      ghost var w1 := Snapshot();
      assert w1 == w0.(tabs := Without(w0.tabs, path));
      if activeFile == Some(path) {
        if openTabs != [] && openTabs[|openTabs| - 1] != "" {
          assert TabClosed(w0, path, ed) == Opened(w1, w1.tabs[|w1.tabs| - 1], ed);
          Open(openTabs[|openTabs| - 1], ed);
        } else {
          assert TabClosed(w0, path, ed) == w1.(active := None);
          activeFile := None;
        }
      } else {
        assert TabClosed(w0, path, ed) == w1;
      }
    }

    /** The tab bar, built by walking the open paths and skipping those that are no longer files. */
    method RenderTabs() returns (strip: seq<Tab>)
      ensures strip == TabStrip(files, openTabs, activeFile)
    {
      strip := [];
      var i := 0;
      while i < |openTabs|
        invariant 0 <= i <= |openTabs|
        invariant strip == TabStrip(files, openTabs[..i], activeFile)
      {
        var path := openTabs[i];
        assert openTabs[..i + 1][..i] == openTabs[..i];
        if Lookup(files, path).Some? {
          strip := strip + [Tab(Paths.Basename(path), path, activeFile == Some(path))];
        }
        i := i + 1;
      }
      assert openTabs[..|openTabs|] == openTabs;
    }

    method CreateFile(path: string, content: Option<string>, ed: Option<string>)
      requires Valid()
      modifies this
      ensures Valid() && Snapshot() == FileCreated(old(Snapshot()), path, content, ed)
    {
      if Lookup(files, path).Some? {
        Open(path, ed);
        return;
      }
      ghost var w := Snapshot();
      var text := content.GetOr(LangTables.DefaultContent(Paths.Basename(path)));
      files := Set(files, path, text);
      OpenAncestors(path);
      assert Snapshot() == w.(files := Set(w.files, path, text), openDirs := w.openDirs + set x | x in Paths.Ancestors(path));
      Open(path, ed);
    }

    /** The `reduce` of `createFile`: mark open every directory on the way to `path`. */
    method OpenAncestors(path: string)
      modifies this
      ensures openDirs == old(openDirs) + set x | x in Paths.Ancestors(path)
      ensures files == old(files) && openTabs == old(openTabs) && activeFile == old(activeFile)
    {
      var dirs := AncestorDirs(path);
      openDirs := openDirs + dirs;
    }

    /** The loop of `createFile` that adds each folder on the way to `path`, collected into a set. */
    static method AncestorDirs(path: string) returns (dirs: set<string>)
      ensures dirs == set x | x in Paths.Ancestors(path)
    {
      var segs := Paths.SplitChar(path, '/');
      var parts := segs[..|segs| - 1];
      var acc := "";
      var i := 0;
      dirs := {};
      ghost var done: seq<string> := [];
      while i < |parts|
        invariant 0 <= i <= |parts|
        invariant Paths.OpenedDirs(parts, "") == done + Paths.OpenedDirs(parts[i..], acc)
        invariant dirs == set x | x in done
      {
        var full := if acc != "" then acc + "/" + parts[i] else parts[i];
        Paths.OpenedDirsStep(parts, i, acc);
        SnocAssoc(done, full, Paths.OpenedDirs(parts[i + 1..], full));
        SetOfSnoc(done, full);
        dirs := dirs + {full};
        done := done + [full];
        acc := full;
        i := i + 1;
      }
    }

    /** `delFile` in its fixed form: the deleted path is no longer active when the next file opens. */
    method DelFile(path: string, ed: Option<string>)
      requires Valid()
      modifies this
      ensures Valid() && Snapshot() == FileDeletedFixed(old(Snapshot()), path, ed)
    {
      var rest := Without(Keys(files), path);
      if rest == [] {
        return;
      }
      files := Remove(files, path);
      openTabs := Without(openTabs, path);
      if activeFile == Some(path) {
        activeFile := None;
        Open(rest[0], ed);
      }
    }

    /** `delDir` in its fixed form, deleting the folder's keys one at a time. */
    method DelDir(dir: string, confirmed: bool, ed: Option<string>)
      requires Valid()
      modifies this
      ensures Valid() && Snapshot() == DirDeletedFixed(old(Snapshot()), dir, confirmed, ed)
    {
      var doomed := KeysInDir(Keys(files), dir);
      if HasRealFile(doomed) && !confirmed {
        return;
      }
      RemoveKeys(doomed);
      if activeFile.Some? && InDir(activeFile.value, dir) {
        activeFile := None;
      }
      ghost var c := Snapshot();
      assert DirDeletedFixed(old(Snapshot()), dir, confirmed, ed) == DirDeletedTail(old(Snapshot()), dir, c, ed);
      openDirs := openDirs - {dir};
      var remaining := Keys(files);
      var act := Lookup(files, ActiveKey(activeFile));
      if (act.None? || act.value == "") && remaining != [] {
        Open(remaining[0], ed);
      }
    }

    /** The loop of `delDir`: delete each key in turn from the files and the tabs. */
    method RemoveKeys(doomed: seq<string>)
      requires Valid()
      modifies this
      ensures Valid()
      ensures files == RemoveAll(old(files), doomed) && openTabs == WithoutAll(old(openTabs), doomed)
      ensures activeFile == old(activeFile) && openDirs == old(openDirs)
    {
      files, openTabs := RemoveEach(files, openTabs, doomed);
    }

    /** The loop itself, on the two values it changes. */
    static method RemoveEach(files0: Dict, tabs0: seq<string>, doomed: seq<string>) returns (fs: Dict, tabs: seq<string>)
      ensures fs == RemoveAll(files0, doomed) && tabs == WithoutAll(tabs0, doomed)
    {
      fs, tabs := files0, tabs0;
      var i := 0;
      while i < |doomed|
        invariant 0 <= i <= |doomed|
        invariant fs == RemoveAll(files0, doomed[..i]) && tabs == WithoutAll(tabs0, doomed[..i])
      {
        RemoveStep(files0, tabs0, doomed, i);
        fs := Remove(fs, doomed[i]);
        tabs := Without(tabs, doomed[i]);
        i := i + 1;
      }
      assert doomed[..|doomed|] == doomed;
    }

    /** Dropping `src` on the folder `target`; the result is the message printed when refused. */
    method DropOnDir(src: string, target: string, ed: Option<string>) returns (refusal: Option<string>)
      requires Valid() && Lookup(files, src).Some?
      modifies this
      ensures Valid() && Snapshot() == DroppedOnDir(old(Snapshot()), src, target, ed)
      ensures var newPath := Paths.Join([target, Paths.Basename(src)]);
        refusal == if newPath != src && Lookup(old(files), newPath).Some? then Some(ExistsMessage(newPath)) else None
    {
      refusal := None;
      var newPath := Paths.Join([target, Paths.Basename(src)]);
      if newPath == src {
        return;
      }
      if Lookup(files, newPath).Some? {
        refusal := Some(ExistsMessage(newPath));
        return;
      }
      ghost var w := Snapshot();
      MoveFile(src, newPath);
      openDirs := openDirs + {target};
      ghost var m := Moved(w, src, newPath).(openDirs := w.openDirs + {target});
      assert Snapshot() == m;
      if activeFile == Some(newPath) {
        Open(newPath, ed);
      }
    }

    /** Dropping `src` on the empty part of the tree, which moves it to the top level. */
    method DropOnRoot(src: string) returns (refusal: Option<string>)
      requires Valid() && Lookup(files, src).Some?
      modifies this
      ensures Valid() && Snapshot() == DroppedOnRoot(old(Snapshot()), src)
      ensures var newPath := Paths.Basename(src);
        refusal == if newPath != src && Lookup(old(files), newPath).Some? then Some(ExistsMessage(newPath)) else None
    {
      refusal := None;
      var newPath := Paths.Basename(src);
      if newPath == src {
        return;
      }
      if Lookup(files, newPath).Some? {
        refusal := Some(ExistsMessage(newPath));
        return;
      }
      MoveFile(src, newPath);
    }

    /** The steps both drop handlers share: copy the content, delete the old key, rename the tabs, let `activeFile` follow. */
    method MoveFile(src: string, newPath: string)
      requires Valid() && Lookup(files, src).Some?
      modifies this
      ensures Valid() && Snapshot() == Moved(old(Snapshot()), src, newPath)
    {
      ghost var m := Moved(Snapshot(), src, newPath);
      MovedKeepsUnique(Snapshot(), src, newPath);
      files := Set(files, newPath, Lookup(files, src).value);
      files := Remove(files, src);
      assert files == m.files;
      openTabs := Rename(openTabs, src, newPath);
      if activeFile == Some(src) {
        activeFile := Some(newPath);
      }
      assert Snapshot() == Project(m.files, m.tabs, m.active, m.openDirs);
    }

    /** The new-file dialog's confirm button: build the path and create the file or the folder's placeholder. */
    method ConfirmModal(mode: Paths.ModalMode, parent: string, input: string, ed: Option<string>)
      requires Valid()
      modifies this
      ensures Valid()
      ensures var req := Paths.ConfirmModal(mode, parent, input);
        Snapshot() == if req.None? then old(Snapshot()) else FileCreated(old(Snapshot()), req.value.0, req.value.1, ed)
    {
      var req := Paths.ConfirmModal(mode, parent, input);
      if req.Some? {
        CreateFile(req.value.0, req.value.1, ed);
      }
    }
  }
}
