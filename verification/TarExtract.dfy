/** Extracting an archive onto a disk: the loop over archive entries, its path check, and the
    directories and files it creates. */
module TarExtract {
  import opened Seqs
  import opened Bytes
  import opened Paths
  import opened BufferPool
  import opened TarArchive

  datatype Kind = TypeReg | TypeDir | TypeOther

  datatype Item = Item(name: string, kind: Kind, content: seq<byte>)

  datatype Node = Folder | Document(content: seq<byte>)

  /** A disk maps the components leading to a node to the node; the root is always a folder. */
  type Tree = map<seq<string>, Node>

  function At(disk: Tree, key: seq<string>): Option<Node> {
    if key == [] then Some(Folder) else if key in disk then Some(disk[key]) else None
  }

  /** Creating a directory and its missing parents; stops at the first parent that is a file. */
  function MkdirAll(disk: Tree, key: seq<string>): (Tree, bool) {
    if key == [] then (disk, true) else
      var (d, ok) := MkdirAll(disk, key[..|key| - 1]);
      if !ok then (d, false)
      else
        match At(d, key)
        case Some(Folder) => (d, true)
        case Some(Document(_)) => (d, false)
        case None => (d[key := Folder], true)
  }

  /** Creating or truncating a file and copying its contents. */
  function CreateFile(disk: Tree, key: seq<string>, content: seq<byte>): (Tree, bool) {
    if key == [] || At(disk, key) == Some(Folder) || At(disk, key[..|key| - 1]) != Some(Folder) then (disk, false)
    else (disk[key := Document(content)], true)
  }

  function TargetPath(targetDir: string, name: string): string { JoinPath(targetDir, name) }

  /** The check every entry has to pass before anything is created for it. */
  predicate Inside(targetDir: string, name: string) {
    HasPrefix(Clean(TargetPath(targetDir, name)), JoinPath(Clean(targetDir), "/"))
  }

  function ExtractItem(cwd: seq<string>, targetDir: string, disk: Tree, item: Item): (Tree, bool) {
    if !Inside(targetDir, item.name) then (disk, false) else
      var path := TargetPath(targetDir, item.name);
      match item.kind
      case TypeDir => MkdirAll(disk, Locate(cwd, path))
      case TypeReg =>
        var (d, ok) := MkdirAll(disk, Locate(cwd, Dir(path)));
        if !ok then (d, false) else CreateFile(d, Locate(cwd, path), item.content)
      case TypeOther => (disk, true)
  }

  /** All entries in order, up to the first that fails. */
  function ExtractItems(cwd: seq<string>, targetDir: string, disk: Tree, items: seq<Item>): (Tree, bool) {
    if items == [] then (disk, true) else
      var (d, ok) := ExtractItems(cwd, targetDir, disk, items[..|items| - 1]);
      if !ok then (d, false) else ExtractItem(cwd, targetDir, d, items[|items| - 1])
  }

  class Disk {
    const cwd: seq<string>
    var tree: Tree

    constructor (cwd: seq<string>, tree: Tree)
      ensures this.cwd == cwd && this.tree == tree
    {
      this.cwd := cwd;
      this.tree := tree;
    }

    method MakeDirectories(key: seq<string>) returns (ok: bool)
      modifies this
      ensures (tree, ok) == MkdirAll(old(tree), key)
    {
      ok := true;
      var i := 0;
      while i < |key| && ok
        invariant 0 <= i <= |key|
        invariant ok ==> (tree, true) == MkdirAll(old(tree), key[..i])
        invariant !ok ==> (tree, false) == MkdirAll(old(tree), key[..i])
      {
        assert key[..i + 1][..i] == key[..i];
        match At(tree, key[..i + 1]) {
          case Some(Folder) =>
          case Some(Document(_)) => ok := false;
          case None => tree := tree[key[..i + 1] := Folder];
        }
        i := i + 1;
      }
      if ok {
        assert key[..i] == key;
      } else {
        MkdirStopped(old(tree), key, i);
      }
    }

    /** The extraction loop. `intact` says whether the archive reads to its end without an error. */
    method ExtractTar(items: seq<Item>, intact: bool, targetDir: string) returns (ok: bool)
      modifies this
      ensures tree == ExtractItems(cwd, targetDir, old(tree), items).0
      ensures ok == (ExtractItems(cwd, targetDir, old(tree), items).1 && intact)
    {
      var i := 0;
      while i < |items|
        invariant 0 <= i <= |items|
        invariant (tree, true) == ExtractItems(cwd, targetDir, old(tree), items[..i])
      {
        assert items[..i + 1][..i] == items[..i];
        var item := items[i];
        var targetPath := JoinPath(targetDir, item.name);
        ok := HasPrefix(Clean(targetPath), JoinPath(Clean(targetDir), "/"));
        if ok {
          match item.kind {
            case TypeDir => ok := MakeDirectories(Locate(cwd, targetPath));
            case TypeReg =>
              ok := MakeDirectories(Locate(cwd, Dir(targetPath)));
              if ok {
                ok := WriteFile(Locate(cwd, targetPath), item.content);
              }
            case TypeOther =>
          }
        }
        i := i + 1;
        if !ok {
          ExtractStopped(cwd, targetDir, old(tree), items, i);
          return false;
        }
      }
      assert items[..i] == items;
      return intact;
    }

    method WriteFile(key: seq<string>, content: seq<byte>) returns (ok: bool)
      modifies this
      ensures (tree, ok) == CreateFile(old(tree), key, content)
    {
      if key == [] || At(tree, key) == Some(Folder) || At(tree, key[..|key| - 1]) != Some(Folder) {
        return false;
      }
      tree := tree[key := Document(content)];
      return true;
    }
  }

  lemma {:induction false} MkdirStopped(disk: Tree, key: seq<string>, i: nat)
    requires i <= |key| && !MkdirAll(disk, key[..i]).1
    ensures MkdirAll(disk, key) == MkdirAll(disk, key[..i])
  {
    if i == |key| {
      assert key[..i] == key;
    } else {
      assert key[..|key| - 1][..i] == key[..i];
      MkdirStopped(disk, key[..|key| - 1], i);
    }
  }

  lemma {:induction false} ExtractStopped(cwd: seq<string>, targetDir: string, disk: Tree, items: seq<Item>, i: nat)
    requires i <= |items| && !ExtractItems(cwd, targetDir, disk, items[..i]).1
    ensures ExtractItems(cwd, targetDir, disk, items) == ExtractItems(cwd, targetDir, disk, items[..i])
  {
    if i == |items| {
      assert items[..i] == items;
    } else {
      assert items[..|items| - 1][..i] == items[..i];
      ExtractStopped(cwd, targetDir, disk, items[..|items| - 1], i);
    }
  }

  // ---------- the path check ----------

  /** For an absolute target directory, what an entry's name leads to, and what the check compares. */
  lemma TargetLocated(cwd: seq<string>, targetDir: string, name: string)
    requires Rooted(targetDir)
    ensures AllPlain(Locate(cwd, targetDir))
    ensures var key := Reduce(Split(targetDir) + Split(name), true);
            && AllPlain(key)
            && TargetPath(targetDir, name) == "/" + Join(key)
            && Locate(cwd, TargetPath(targetDir, name)) == key
            && (Inside(targetDir, name) <==> "/" + Join(Locate(cwd, targetDir)) <= "/" + Join(key))
  {
    var base, key := Locate(cwd, targetDir), Reduce(Split(targetDir) + Split(name), true);
    RootedReducesToPlain(Split(targetDir));
    RootedReducesToPlain(Split(targetDir) + Split(name));
    JoinLocates(targetDir, name);
    LocateSpelled(cwd, key);
    CleanSpelled(key);
    PrefixCompared(base);
    assert Clean(targetDir) == "/" + Join(base);
  }

  /** The right-hand side of the check: the trailing separator is cleaned away again. */
  lemma PrefixCompared(base: seq<string>)
    requires AllPlain(base)
    ensures JoinPath("/" + Join(base), "/") == "/" + Join(base)
  {
    LocateSpelled([], base);
    JoinLocates("/" + Join(base), "/");
    assert Split("/") == ["", ""] by {
      SplitSlash("", "");
      assert "" + "/" + "" == "/";
    }
    var parts := Split("/" + Join(base));
    assert parts + ["", ""] == (parts + [""]) + [""];
    assert ((parts + [""]) + [""])[..|parts| + 1] == parts + [""];
    assert (parts + [""])[..|parts|] == parts;
  }

  /** Since the separator is cleaned away, the check compares strings, not components: it admits
      exactly the names that lead to a path whose components agree with the target directory's, the
      last of them up to an extension. */
  lemma WhatTheCheckAdmits(cwd: seq<string>, targetDir: string, name: string)
    requires Rooted(targetDir)
    ensures Inside(targetDir, name) <==>
            ExtendsLast(Locate(cwd, TargetPath(targetDir, name)), Locate(cwd, targetDir))
  {
    TargetLocated(cwd, targetDir, name);
    var base, key := Locate(cwd, targetDir), Locate(cwd, TargetPath(targetDir, name));
    PrefixOfConcat("/", Join(base), Join(key));
    JoinedPrefix(key, base);
  }

  /** An admitted name can still lead outside the target directory: exactly when the target is not the
      root and the path's component in the place of the target's last one is longer. */
  lemma AdmittedOutsideIff(cwd: seq<string>, targetDir: string, name: string, base: seq<string>, path: seq<string>)
    requires Rooted(targetDir) && Inside(targetDir, name)
    requires base == Locate(cwd, targetDir) && path == Locate(cwd, TargetPath(targetDir, name))
    ensures !(base <= path) <==> base != [] && |base| <= |path| && base[|base| - 1] < path[|base| - 1]
  {
    WhatTheCheckAdmits(cwd, targetDir, name);
    ProperExtensionIff(path, base);
  }

  /** For example, the check for target "/t" admits a name that leads beside the target. */
  lemma OneNameAdmittedOutside(cwd: seq<string>)
    ensures Inside("/t", "../tx/f")
    ensures Locate(cwd, "/t") == ["t"] && Locate(cwd, TargetPath("/t", "../tx/f")) == ["tx", "f"]
  {
    SpelledOut();
    ReduceSpelledOut();
    TargetLocated(cwd, "/t", "../tx/f");
    assert ExtendsLast(["tx", "f"], ["t"]);
    WhatTheCheckAdmits(cwd, "/t", "../tx/f");
  }

  lemma SpelledOut()
    ensures Split("/t") == ["", "t"]
    ensures Split("/t") + Split("../tx/f") == ["", "t", "..", "tx", "f"]
  {
    var target, name := ["", "t"], ["..", "tx", "f"];
    SplitJoin(target);
    SplitJoin(name);
    assert target[1..] == ["t"] && "" + "/" + "t" == "/t";
    assert name[1..] == ["tx", "f"] && ["tx", "f"][1..] == ["f"];
    assert Join(["tx", "f"]) == "tx/f";
    assert Join(name) == "../tx/f";
    assert target + name == ["", "t", "..", "tx", "f"];
  }

  lemma ReducePush(parts: seq<string>, stack: seq<string>, part: string)
    requires Reduce(parts, true) == stack && Plain(part)
    ensures Reduce(parts + [part], true) == stack + [part]
  {
    assert (parts + [part])[..|parts|] == parts;
  }

  lemma ReducePop(parts: seq<string>, stack: seq<string>, part: string)
    requires Reduce(parts, true) == stack + [part] && Plain(part)
    ensures Reduce(parts + [".."], true) == stack
  {
    assert (parts + [".."])[..|parts|] == parts;
    assert (stack + [part])[..|stack|] == stack;
  }

  lemma ReduceSpelledOut()
    ensures Reduce(["", "t"], true) == ["t"]
    ensures Reduce(["", "t", "..", "tx", "f"], true) == ["tx", "f"]
  {
    assert [""][..0] == [] && Reduce([""], true) == [];
    assert [""] + ["t"] == ["", "t"] && [] + ["t"] == ["t"];
    ReducePush([""], [], "t");
    assert ["", "t"] + [".."] == ["", "t", ".."];
    ReducePop(["", "t"], [], "t");
    assert ["", "t", ".."] + ["tx"] == ["", "t", "..", "tx"] && [] + ["tx"] == ["tx"];
    ReducePush(["", "t", ".."], [], "tx");
    assert ["", "t", "..", "tx"] + ["f"] == ["", "t", "..", "tx", "f"] && ["tx"] + ["f"] == ["tx", "f"];
    ReducePush(["", "t", "..", "tx"], ["tx"], "f");
  }

  predicate NoDotDot(name: string) { ".." !in Split(name) }

  lemma {:induction false} ReduceWithoutDotDot(base: seq<string>, parts: seq<string>)
    requires ".." !in parts
    ensures Reduce(base, true) <= Reduce(base + parts, true)
  {
    if parts == [] {
      assert base + parts == base;
    } else {
      var n := |parts| - 1;
      assert (base + parts)[..|base + parts| - 1] == base + parts[..n];
      assert parts[n] in parts;
      ReduceWithoutDotDot(base, parts[..n]);
    }
  }

  /** A name without ".." always passes the check and leads to the target directory or below it. */
  lemma NamesWithoutDotDotStayInside(cwd: seq<string>, targetDir: string, name: string)
    requires Rooted(targetDir) && NoDotDot(name)
    ensures Inside(targetDir, name)
    ensures Locate(cwd, targetDir) <= Locate(cwd, TargetPath(targetDir, name))
  {
    TargetLocated(cwd, targetDir, name);
    ReduceWithoutDotDot(Split(targetDir), Split(name));
    PrefixExtends(Locate(cwd, TargetPath(targetDir, name)), Locate(cwd, targetDir));
    WhatTheCheckAdmits(cwd, targetDir, name);
  }

  lemma PlainHasNoDotDot(rel: seq<string>)
    requires AllPlain(rel) && rel != []
    ensures NoDotDot(Join(rel)) && Split(Join(rel)) == rel
  {
    assert forall i :: 0 <= i < |rel| ==> Plain(rel[i]);
    SplitJoin(rel);
  }

  /** Where a relative path in clean form is extracted. */
  lemma RelativeName(cwd: seq<string>, targetDir: string, rel: seq<string>)
    requires Rooted(targetDir) && AllPlain(rel) && rel != []
    ensures var base, path := Locate(cwd, targetDir), TargetPath(targetDir, Join(rel));
            && Inside(targetDir, Join(rel))
            && Locate(cwd, path) == base + rel
            && Locate(cwd, Dir(path)) == base + rel[..|rel| - 1]
  {
    PlainHasNoDotDot(rel);
    NamesWithoutDotDotStayInside(cwd, targetDir, Join(rel));
    TargetLocated(cwd, targetDir, Join(rel));
    ReduceConcatPlain(Split(targetDir), rel, true);
    DirectoryLocated(cwd, Locate(cwd, targetDir), rel);
  }

  lemma DirectoryLocated(cwd: seq<string>, base: seq<string>, rel: seq<string>)
    requires AllPlain(base) && AllPlain(rel) && rel != []
    ensures Locate(cwd, Dir("/" + Join(base + rel))) == base + rel[..|rel| - 1]
  {
    assert (base + rel)[..|base + rel| - 1] == base + rel[..|rel| - 1];
    ParentLocated(cwd, base + rel);
  }

  lemma ParentLocated(cwd: seq<string>, path: seq<string>)
    requires AllPlain(path) && path != []
    ensures Locate(cwd, Dir("/" + Join(path))) == path[..|path| - 1]
  {
    DirSpelled(path);
    LocateSpelled(cwd, path[..|path| - 1]);
  }

  // ---------- what each entry does to the disk ----------

  /** Making directories succeeds exactly when no file is at the key or on the way to it; either way
      the directories up to the first such file are there afterwards, and nothing else changes. */
  lemma {:induction false} MkdirExactly(disk: Tree, key: seq<string>)
    ensures MkdirAll(disk, key).1 <==> forall j :: j <= key ==> At(disk, j) == None || At(disk, j) == Some(Folder)
    ensures forall k :: At(MkdirAll(disk, key).0, k) ==
              if k <= key && forall j :: j <= k ==> At(disk, j) == None || At(disk, j) == Some(Folder)
              then Some(Folder) else At(disk, k)
  {
    if key != [] {
      var parent := key[..|key| - 1];
      var d, made := MkdirAll(disk, parent).0, MkdirAll(disk, key).0;
      MkdirExactly(disk, parent);
      PassableStep(disk, key);
      PrefixOrWhole(key, key);
      assert At(d, key) == At(disk, key);
      assert made == d || made == d[key := Folder];
      forall k
        ensures At(made, k) == if k <= key && Passable(disk, k) then Some(Folder) else At(disk, k)
      {
        PrefixOrWhole(key, k);
        assert k != key ==> At(made, k) == At(d, k);
        if k <= key {
          PassablePrefix(disk, key, k);
        }
      }
    }
  }

  ghost predicate Passable(disk: Tree, key: seq<string>) {
    forall j :: j <= key ==> At(disk, j) == None || At(disk, j) == Some(Folder)
  }

  lemma PassablePrefix(disk: Tree, key: seq<string>, k: seq<string>)
    requires k <= key
    ensures Passable(disk, key) ==> Passable(disk, k)
  {
  }

  lemma PassableStep(disk: Tree, key: seq<string>)
    requires key != []
    ensures Passable(disk, key) <==>
            Passable(disk, key[..|key| - 1]) && (At(disk, key) == None || At(disk, key) == Some(Folder))
  {
    forall j | j <= key && Passable(disk, key[..|key| - 1])
      ensures j == key || At(disk, j) == None || At(disk, j) == Some(Folder)
    {
      PrefixOrWhole(key, j);
    }
    PassablePrefix(disk, key, key[..|key| - 1]);
  }

  lemma PrefixOrWhole(key: seq<string>, k: seq<string>)
    requires key != []
    ensures k <= key <==> k <= key[..|key| - 1] || k == key
    ensures !(key <= key[..|key| - 1])
  {
    if k <= key && k != key {
      assert k == key[..|k|] == key[..|key| - 1][..|k|];
    }
  }

  /** An entry whose path does not continue the target's components, the last of them up to an
      extension, is refused and leaves the disk alone. */
  lemma OutsideIsRefused(cwd: seq<string>, targetDir: string, disk: Tree, item: Item)
    requires Rooted(targetDir)
    requires !ExtendsLast(Locate(cwd, JoinPath(targetDir, item.name)), Locate(cwd, targetDir))
    ensures ExtractItem(cwd, targetDir, disk, item) == (disk, false)
  {
    WhatTheCheckAdmits(cwd, targetDir, item.name);
  }

  /** What a directory entry does: it makes the directories on its path that are missing. */
  lemma DirectoryEntry(cwd: seq<string>, targetDir: string, disk: Tree, item: Item, path: seq<string>)
    requires Rooted(targetDir) && item.kind.TypeDir?
    requires path == Locate(cwd, JoinPath(targetDir, item.name)) && ExtendsLast(path, Locate(cwd, targetDir))
    ensures ExtractItem(cwd, targetDir, disk, item).1 <==>
            forall j :: j <= path ==> At(disk, j) == None || At(disk, j) == Some(Folder)
    ensures forall k :: At(ExtractItem(cwd, targetDir, disk, item).0, k) ==
              if k <= path && forall j :: j <= k ==> At(disk, j) == None || At(disk, j) == Some(Folder)
              then Some(Folder) else At(disk, k)
  {
    WhatTheCheckAdmits(cwd, targetDir, item.name);
    MkdirExactly(disk, path);
  }

  /** What a file entry does: it succeeds exactly when no file is on the way and no directory in its
      place; then its content is there. The directories above it are made in any case. */
  lemma FileEntry(cwd: seq<string>, targetDir: string, disk: Tree, item: Item, path: seq<string>)
    requires Rooted(targetDir) && item.kind.TypeReg?
    requires path == Locate(cwd, JoinPath(targetDir, item.name)) && ExtendsLast(path, Locate(cwd, targetDir))
    ensures ExtractItem(cwd, targetDir, disk, item).1 <==>
            path != [] && At(disk, path) != Some(Folder) &&
            forall j :: j <= path[..|path| - 1] ==> At(disk, j) == None || At(disk, j) == Some(Folder)
    ensures forall k :: At(ExtractItem(cwd, targetDir, disk, item).0, k) ==
              if k == path && ExtractItem(cwd, targetDir, disk, item).1 then Some(Document(item.content))
              else if k < path && forall j :: j <= k ==> At(disk, j) == None || At(disk, j) == Some(Folder)
              then Some(Folder) else At(disk, k)
  {
    WhatTheCheckAdmits(cwd, targetDir, item.name);
    FileEntryIs(cwd, targetDir, disk, item, path);
    if path == [] {
      MkdirExactly(disk, []);
    } else {
      FileBelow(disk, path, item.content);
    }
  }

  /** An admitted entry of any other kind is passed over. */
  lemma OtherEntry(cwd: seq<string>, targetDir: string, disk: Tree, item: Item)
    requires Rooted(targetDir) && item.kind.TypeOther?
    requires ExtendsLast(Locate(cwd, JoinPath(targetDir, item.name)), Locate(cwd, targetDir))
    ensures ExtractItem(cwd, targetDir, disk, item) == (disk, true)
  {
    WhatTheCheckAdmits(cwd, targetDir, item.name);
  }

  /** The directory an entry's file goes to; for the root it is the root itself. */
  function ParentOf(path: seq<string>): seq<string> { if path == [] then [] else path[..|path| - 1] }

  lemma ParentIs(cwd: seq<string>, targetDir: string, name: string)
    requires Rooted(targetDir)
    ensures Locate(cwd, Dir(JoinPath(targetDir, name))) == ParentOf(Locate(cwd, JoinPath(targetDir, name)))
  {
    TargetLocated(cwd, targetDir, name);
    if Locate(cwd, JoinPath(targetDir, name)) == [] {
      RootIsItsDirectory(cwd);
    } else {
      ParentLocated(cwd, Locate(cwd, JoinPath(targetDir, name)));
    }
  }

  lemma FileEntryIs(cwd: seq<string>, targetDir: string, disk: Tree, item: Item, path: seq<string>)
    requires Rooted(targetDir) && item.kind.TypeReg? && Inside(targetDir, item.name)
    requires path == Locate(cwd, JoinPath(targetDir, item.name))
    ensures ExtractItem(cwd, targetDir, disk, item) == FileInto(disk, ParentOf(path), path, item.content)
  {
    ParentIs(cwd, targetDir, item.name);
  }

  function FileInto(disk: Tree, parent: seq<string>, path: seq<string>, content: seq<byte>): (Tree, bool) {
    var (d, ok) := MkdirAll(disk, parent);
    if !ok then (d, false) else CreateFile(d, path, content)
  }

  lemma RootIsItsDirectory(cwd: seq<string>)
    ensures Join([]) == "" && Locate(cwd, Dir("/")) == []
  {
    LocateSpelled(cwd, []);
    CleanSpelled([]);
    DirAtLast("/", "", "");
  }

  lemma FileBelow(disk: Tree, path: seq<string>, content: seq<byte>)
    requires path != []
    ensures var (after, done) := FileInto(disk, ParentOf(path), path, content);
            && (done <==> At(disk, path) != Some(Folder) && Passable(disk, ParentOf(path)))
            && (done ==> At(after, path) == Some(Document(content)))
            && forall k :: k != path || !done ==>
                 At(after, k) == if k < path && Passable(disk, k) then Some(Folder) else At(disk, k)
  {
    var parent := ParentOf(path);
    var d := MkdirAll(disk, parent).0;
    var after := FileInto(disk, parent, path, content).0;
    MkdirExactly(disk, parent);
    PrefixOrWhole(path, path);
    forall k
      ensures At(d, k) == if k < path && Passable(disk, k) then Some(Folder) else At(disk, k)
      ensures k != path ==> At(after, k) == At(d, k)
    {
      PrefixOrWhole(path, k);
    }
  }

  /** One entry changes the disk at or below paths the check admits and on the way there; it turns no
      directory into anything else and no file into a directory. */
  lemma ItemStaysNear(cwd: seq<string>, targetDir: string, disk: Tree, item: Item, k: seq<string>)
    requires Rooted(targetDir)
    ensures var after, base := ExtractItem(cwd, targetDir, disk, item).0, Locate(cwd, targetDir);
            && (At(after, k) != At(disk, k) ==> ExtendsLast(k, base) || k < base)
            && (At(disk, k) == Some(Folder) ==> At(after, k) == Some(Folder))
            && (At(disk, k).Some? && At(disk, k).value.Document? ==> At(after, k).Some? && At(after, k).value.Document?)
  {
    var base, path := Locate(cwd, targetDir), Locate(cwd, JoinPath(targetDir, item.name));
    if !ExtendsLast(path, base) {
      OutsideIsRefused(cwd, targetDir, disk, item);
    } else {
      OnTheWay(path, base, k);
      match item.kind
      case TypeDir => DirectoryEntry(cwd, targetDir, disk, item, path);
      case TypeReg => FileEntry(cwd, targetDir, disk, item, path);
      case TypeOther =>
    }
  }

  lemma OnTheWay(path: seq<string>, base: seq<string>, k: seq<string>)
    requires ExtendsLast(path, base)
    ensures k <= path ==> ExtendsLast(k, base) || k < base
  {
    if k <= path && base != [] {
      var n := |base| - 1;
      if |k| <= n {
        assert k == path[..n][..|k|] == base[..n][..|k|] == base[..|k|];
      } else {
        assert k[..n] == path[..|k|][..n] == path[..n];
        assert k[n] == path[n];
      }
    }
  }

  /** However an extraction ends, it changes the disk only at or below paths that continue the target's
      components, the last of them up to an extension, and on the way to the target; directories stay
      directories and files stay files. */
  lemma {:induction false} ExtractionStaysNear(cwd: seq<string>, targetDir: string, disk: Tree, items: seq<Item>,
                                               k: seq<string>)
    requires Rooted(targetDir)
    ensures var after, base := ExtractItems(cwd, targetDir, disk, items).0, Locate(cwd, targetDir);
            && (At(after, k) != At(disk, k) ==> ExtendsLast(k, base) || k < base)
            && (At(disk, k) == Some(Folder) ==> At(after, k) == Some(Folder))
            && (At(disk, k).Some? && At(disk, k).value.Document? ==> At(after, k).Some? && At(after, k).value.Document?)
  {
    if items != [] {
      var init, last := items[..|items| - 1], items[|items| - 1];
      ExtractionStaysNear(cwd, targetDir, disk, init, k);
      ItemStaysNear(cwd, targetDir, ExtractItems(cwd, targetDir, disk, init).0, last, k);
    }
  }

  /** An extraction that meets such a name fails. */
  lemma {:induction false} OutsideEntryFails(cwd: seq<string>, targetDir: string, disk: Tree, items: seq<Item>, i: nat)
    requires Rooted(targetDir) && i < |items|
    requires !ExtendsLast(Locate(cwd, JoinPath(targetDir, items[i].name)), Locate(cwd, targetDir))
    ensures !ExtractItems(cwd, targetDir, disk, items).1
  {
    var init, last := items[..|items| - 1], items[|items| - 1];
    if i < |init| {
      OutsideEntryFails(cwd, targetDir, disk, init, i);
    } else {
      OutsideIsRefused(cwd, targetDir, ExtractItems(cwd, targetDir, disk, init).0, last);
    }
  }
}
