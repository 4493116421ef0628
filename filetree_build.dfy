/**
 * `buildTree`: the nested folder structure the file tree is drawn from. Every key of the
 * files is split on '/', the folders along the way are created on demand, and the key is
 * appended as a file entry to the folder its prefixes name.
 */
module FileTreeBuild {
  import opened Wrappers
  import opened Assoc
  import Paths

  datatype FileEntry = FileEntry(name: string, path: string)

  /** A folder: its sub-folders by name, in the order they were first needed, and its file entries in order. */
  datatype Folder = Folder(dirs: seq<(string, Folder)>, files: seq<FileEntry>)

  const EmptyFolder := Folder([], [])

  /** `node.dirs[name]`. */
  function Child(dirs: seq<(string, Folder)>, name: string): Option<Folder> {
    if dirs == [] then None
    else if dirs[0].0 == name then Some(dirs[0].1)
    else Child(dirs[1..], name)
  }

  /** `node.dirs[name] = f`. */
  function SetChild(dirs: seq<(string, Folder)>, name: string, f: Folder): (r: seq<(string, Folder)>)
    ensures Child(r, name) == Some(f)
    ensures forall n :: n != name ==> Child(r, n) == Child(dirs, n)
  {
    if dirs == [] then [(name, f)]
    else if dirs[0].0 == name then [(name, f)] + dirs[1..]
    else [dirs[0]] + SetChild(dirs[1..], name, f)
  }

  /** The file entries of the folder reached by following `chain` from `t`, or none when it does not exist. */
  function FilesAt(t: Folder, chain: seq<string>): seq<FileEntry>
    decreases |chain|
  {
    if chain == [] then t.files
    else
      match Child(t.dirs, chain[0])
      case None => []
      case Some(c) => FilesAt(c, chain[1..])
  }

  /** Whether the folder reached by following `chain` from `t` exists. */
  function HasFolder(t: Folder, chain: seq<string>): bool
    decreases |chain|
  {
    if chain == [] then true
    else
      match Child(t.dirs, chain[0])
      case None => false
      case Some(c) => HasFolder(c, chain[1..])
  }

  /** Some key's folder names start with `chain`: the folder `chain` lies on that key's path. */
  function Along(keys: seq<string>, chain: seq<string>): (b: bool)
    ensures b <==> exists k :: k in keys && chain <= DirChain(k)
  {
    if keys == [] then false
    else
      var front := keys[..|keys| - 1];
      assert keys == front + [keys[|keys| - 1]];
      Along(front, chain) || chain <= DirChain(keys[|keys| - 1])
  }

  /** One pass of the outer loop: walk `dirs` from `t`, creating missing folders, and append `e` at the end. */
  function Insert(t: Folder, dirs: seq<string>, e: FileEntry): Folder
    decreases |dirs|
  {
    if dirs == [] then Folder(t.dirs, t.files + [e])
    else
      var child := Child(t.dirs, dirs[0]).GetOr(EmptyFolder);
      Folder(SetChild(t.dirs, dirs[0], Insert(child, dirs[1..], e)), t.files)
  }

  /** The folder names of a path: every '/'-separated segment but the last. */
  function DirChain(path: string): seq<string> {
    var segs := Paths.SplitChar(path, '/');
    segs[..|segs| - 1]
  }

  /** The last '/'-separated segment of a path. */
  function LeafName(path: string): string {
    var segs := Paths.SplitChar(path, '/');
    segs[|segs| - 1]
  }

  /**
   * The reference placement: the entries the folder `chain` should list, one per key whose
   * folder names are `chain`, in key order.
   */
  function Placed(keys: seq<string>, chain: seq<string>): (r: seq<FileEntry>)
    ensures forall i :: 0 <= i < |r| ==>
      r[i].path in keys && DirChain(r[i].path) == chain && r[i].name == LeafName(r[i].path)
    ensures forall k :: k in keys && DirChain(k) == chain ==> FileEntry(LeafName(k), k) in r
    ensures Distinct(keys) ==> forall i, j :: 0 <= i < j < |r| ==> r[i].path != r[j].path
  {
    if keys == [] then []
    else
      var k := keys[|keys| - 1];
      var front := keys[..|keys| - 1];
      var r0 := Placed(front, chain);
      assert keys == front + [k];
      assert Distinct(keys) ==> Distinct(front) && k !in front;
      if DirChain(k) == chain then r0 + [FileEntry(LeafName(k), k)] else r0
  }

  lemma {:induction false} FilesAtEmpty(chain: seq<string>)
    ensures FilesAt(EmptyFolder, chain) == []
  {
  }

  /** Inserting an entry along `dirs` adds it to exactly that folder, at the end, and to no other. */
  lemma {:induction false} InsertFilesAt(t: Folder, dirs: seq<string>, e: FileEntry, chain: seq<string>)
    ensures FilesAt(Insert(t, dirs, e), chain) == FilesAt(t, chain) + (if chain == dirs then [e] else [])
    decreases |dirs|
  {
    if dirs != [] && chain != [] && chain[0] == dirs[0] {
      var child := Child(t.dirs, dirs[0]).GetOr(EmptyFolder);
      InsertFilesAt(child, dirs[1..], e, chain[1..]);
      if Child(t.dirs, dirs[0]).None? {
        FilesAtEmpty(chain[1..]);
      }
      assert (chain[1..] == dirs[1..]) == (chain == dirs) by {
        if chain[1..] == dirs[1..] {
          assert chain == [chain[0]] + chain[1..] && dirs == [dirs[0]] + dirs[1..];
        }
      }
    }
  }

  lemma {:induction false} HasFolderEmpty(chain: seq<string>)
    ensures HasFolder(EmptyFolder, chain) <==> chain == []
  {
  }

  /** Inserting an entry along `dirs` creates exactly the folders that `dirs` passes through. */
  lemma {:induction false} InsertHasFolder(t: Folder, dirs: seq<string>, e: FileEntry, chain: seq<string>)
    ensures HasFolder(Insert(t, dirs, e), chain) <==> HasFolder(t, chain) || chain <= dirs
    decreases |dirs|
  {
    if dirs != [] && chain != [] {
      if chain[0] == dirs[0] {
        var child := Child(t.dirs, dirs[0]).GetOr(EmptyFolder);
        InsertHasFolder(child, dirs[1..], e, chain[1..]);
        if Child(t.dirs, dirs[0]).None? {
          HasFolderEmpty(chain[1..]);
        }
        assert (chain <= dirs) == (chain[1..] <= dirs[1..]);
      } else {
        assert !(chain <= dirs);
      }
    } else if dirs == [] && chain != [] {
      assert !(chain <= dirs);
    }
  }

  lemma AlongSnoc(keys: seq<string>, i: nat, chain: seq<string>)
    requires i < |keys|
    ensures Along(keys[..i + 1], chain) == (Along(keys[..i], chain) || chain <= DirChain(keys[i]))
  {
    var ks := keys[..i + 1];
    assert ks[..|ks| - 1] == keys[..i];
    assert ks[|ks| - 1] == keys[i];
  }

  /** One step of the loop: inserting the next key adds the folders along its path. */
  lemma InsertAlong(t: Folder, keys: seq<string>, i: nat)
    requires i < |keys|
    requires forall chain :: HasFolder(t, chain) == (chain == [] || Along(keys[..i], chain))
    ensures forall chain ::
      HasFolder(Insert(t, DirChain(keys[i]), FileEntry(LeafName(keys[i]), keys[i])), chain) == (chain == [] || Along(keys[..i + 1], chain))
  {
    var e := FileEntry(LeafName(keys[i]), keys[i]);
    forall chain ensures HasFolder(Insert(t, DirChain(keys[i]), e), chain) == (chain == [] || Along(keys[..i + 1], chain)) {
      InsertHasFolder(t, DirChain(keys[i]), e, chain);
      AlongSnoc(keys, i, chain);
    }
  }

  /**
   * `buildTree` over the files' keys in order: every folder lists exactly the reference
   * placement, and the only folders are the root and those along some key's path.
   */
  method BuildTree(files: Dict) returns (root: Folder)
    ensures forall chain :: FilesAt(root, chain) == Placed(Keys(files), chain)
    ensures forall chain :: HasFolder(root, chain) <==> chain == [] || exists k :: k in Keys(files) && chain <= DirChain(k)
  {
    var keys := Keys(files);
    root := EmptyFolder;
    var i := 0;
    while i < |keys|
      invariant 0 <= i <= |keys|
      invariant forall chain :: FilesAt(root, chain) == Placed(keys[..i], chain)
      invariant forall chain :: HasFolder(root, chain) == (chain == [] || Along(keys[..i], chain))
    {
      var path := keys[i];
      var segs := Paths.SplitChar(path, '/');
      assert segs[..|segs| - 1] == DirChain(path) && segs[|segs| - 1] == LeafName(path);
      InsertPlaced(root, keys, i);
      InsertAlong(root, keys, i);
      root := Insert(root, segs[..|segs| - 1], FileEntry(segs[|segs| - 1], path));
      i := i + 1;
    }
    assert keys[..|keys|] == keys;
    FoldersAlongKeys(root, keys);
  }

  lemma FoldersAlongKeys(t: Folder, keys: seq<string>)
    requires forall chain :: HasFolder(t, chain) == (chain == [] || Along(keys, chain))
    ensures forall chain :: HasFolder(t, chain) <==> chain == [] || exists k :: k in keys && chain <= DirChain(k)
  {
    forall chain ensures HasFolder(t, chain) <==> chain == [] || exists k :: k in keys && chain <= DirChain(k) {
      assert Along(keys, chain) <==> exists k :: k in keys && chain <= DirChain(k);
    }
  }

  /** One step of the loop: inserting the next key extends the placement by that key. */
  lemma InsertPlaced(t: Folder, keys: seq<string>, i: nat)
    requires i < |keys|
    requires forall chain :: FilesAt(t, chain) == Placed(keys[..i], chain)
    ensures forall chain :: FilesAt(Insert(t, DirChain(keys[i]), FileEntry(LeafName(keys[i]), keys[i])), chain) == Placed(keys[..i + 1], chain)
  {
    var e := FileEntry(LeafName(keys[i]), keys[i]);
    forall chain ensures FilesAt(Insert(t, DirChain(keys[i]), e), chain) == Placed(keys[..i + 1], chain) {
      InsertFilesAt(t, DirChain(keys[i]), e, chain);
      PlacedSnoc(keys, i, chain);
    }
  }

  lemma PlacedSnoc(keys: seq<string>, i: nat, chain: seq<string>)
    requires i < |keys|
    ensures Placed(keys[..i + 1], chain) ==
      Placed(keys[..i], chain) + (if DirChain(keys[i]) == chain then [FileEntry(LeafName(keys[i]), keys[i])] else [])
  {
    var ks := keys[..i + 1];
    assert ks[..|ks| - 1] == keys[..i];
    assert ks[|ks| - 1] == keys[i];
  }

  /**
   * With the keys of a real dictionary every key is listed exactly once: in the folder its
   * prefixes name, under its last segment, and in no other folder.
   */
  lemma PlacedExactlyOnce(files: Dict, k: string, chain: seq<string>)
    requires Unique(files) && k in Keys(files)
    ensures DirChain(k) == chain ==>
      exists i :: 0 <= i < |Placed(Keys(files), chain)| && Placed(Keys(files), chain)[i] == FileEntry(LeafName(k), k)
    ensures forall i, j :: 0 <= i < j < |Placed(Keys(files), chain)| ==>
      Placed(Keys(files), chain)[i].path != Placed(Keys(files), chain)[j].path
    ensures DirChain(k) != chain ==> forall i :: 0 <= i < |Placed(Keys(files), chain)| ==> Placed(Keys(files), chain)[i].path != k
  {
    UniqueKeysDistinct(files);
    var r := Placed(Keys(files), chain);
    if DirChain(k) == chain {
      var e := FileEntry(LeafName(k), k);
      assert e in r;
      var i :| 0 <= i < |r| && r[i] == e;
    }
  }
}
