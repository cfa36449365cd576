/** From a directory tree through its walk and its archive onto an empty directory of a disk. */
module TarRoundTrip {
  import opened Seqs
  import opened Bytes
  import opened Paths
  import opened BufferPool
  import opened TarArchive
  import opened TarExtract
  import TarTheorems

  /** A directory tree. A file's own `path` field is filled in by the walk. */
  datatype Source = Leaf(file: File) | Inner(readable: bool, children: seq<Child>)
  datatype Child = Child(name: string, tree: Source)

  /** How a walk names what it finds: the components from the root, or "." for the root itself. */
  function PathOf(at: seq<string>): string { if at == [] then "." else Join(at) }

  function Walk(tree: Source, at: seq<string>): seq<WalkItem>
    decreases tree, 1
  {
    match tree
    case Leaf(f) => [Regular(f.(path := PathOf(at)))]
    case Inner(readable, children) =>
      [Directory(PathOf(at))] + if readable then WalkChildren(children, at) else [Unreadable(PathOf(at))]
  }

  function WalkChildren(children: seq<Child>, at: seq<string>): seq<WalkItem>
    decreases children, 0
  {
    if children == [] then []
    else Walk(children[0].tree, at + [children[0].name]) + WalkChildren(children[1..], at)
  }

  /** The files of a tree and where they are, in walk order. */
  datatype Spot = Spot(path: seq<string>, file: File)

  function Spots(tree: Source, at: seq<string>): seq<Spot>
    decreases tree, 1
  {
    match tree
    case Leaf(f) => [Spot(at, f)]
    case Inner(_, children) => SpotsBelow(children, at)
  }

  function SpotsBelow(children: seq<Child>, at: seq<string>): seq<Spot>
    decreases children, 0
  {
    if children == [] then []
    else Spots(children[0].tree, at + [children[0].name]) + SpotsBelow(children[1..], at)
  }

  /** Names are plain, siblings are distinct, and every directory can be read. */
  predicate WellFormed(tree: Source)
    decreases tree, 1
  {
    match tree
    case Leaf(_) => true
    case Inner(readable, children) => readable && WellFormedChildren(children)
  }

  predicate WellFormedChildren(children: seq<Child>)
    decreases children, 0
  {
    children == [] ||
    (Plain(children[0].name) && WellFormed(children[0].tree) && WellFormedChildren(children[1..])
     && children[0].name !in Names(children[1..]))
  }

  function Names(children: seq<Child>): set<string> {
    set c | c in children :: c.name
  }

  // ---------- the walk finds every file where it is ----------

  function NamedFiles(spots: seq<Spot>): seq<File> {
    if spots == [] then [] else NamedFiles(spots[..|spots| - 1]) + [Named(spots[|spots| - 1])]
  }

  function Named(s: Spot): File { s.file.(path := PathOf(s.path)) }

  lemma {:induction false} NamedConcat(a: seq<Spot>, b: seq<Spot>)
    ensures NamedFiles(a + b) == NamedFiles(a) + NamedFiles(b)
  {
    if b == [] {
      NilRight(a);
      NilRight(NamedFiles(a));
    } else {
      assert (a + b)[..|a + b| - 1] == a + b[..|b| - 1];
      NamedConcat(a, b[..|b| - 1]);
    }
  }

  lemma {:induction false} FilesConcat(a: seq<WalkItem>, b: seq<WalkItem>)
    ensures Files(a + b) == Files(a) + Files(b)
  {
    if b == [] {
      NilRight(a);
      NilRight(Files(a));
    } else {
      assert (a + b)[..|a + b| - 1] == a + b[..|b| - 1];
      FilesConcat(a, b[..|b| - 1]);
    }
  }

  lemma OneItem(item: WalkItem)
    ensures Files([item]) == match item case Regular(f) => [f] case _ => []
  {
    assert [item][..0] == [];
  }

  lemma ReadableConcat(a: seq<WalkItem>, b: seq<WalkItem>)
    ensures TarTheorems.AllReadable(a + b) <==> TarTheorems.AllReadable(a) && TarTheorems.AllReadable(b)
  {
    assert forall i :: 0 <= i < |a| ==> (a + b)[i] == a[i];
    assert forall i :: 0 <= i < |b| ==> (a + b)[|a| + i] == b[i];
  }

  lemma {:induction false} WalkFindsTheFiles(tree: Source, at: seq<string>)
    requires WellFormed(tree)
    ensures Files(Walk(tree, at)) == NamedFiles(Spots(tree, at)) && TarTheorems.AllReadable(Walk(tree, at))
    decreases tree, 1
  {
    match tree
    case Leaf(f) =>
      OneItem(Regular(f.(path := PathOf(at))));
      assert [Spot(at, f)][..0] == [];
    case Inner(_, children) =>
      WalkFindsTheChildren(children, at);
      OneItem(Directory(PathOf(at)));
      FilesConcat([Directory(PathOf(at))], WalkChildren(children, at));
      ReadableConcat([Directory(PathOf(at))], WalkChildren(children, at));
  }

  lemma {:induction false} WalkFindsTheChildren(children: seq<Child>, at: seq<string>)
    requires WellFormedChildren(children)
    ensures Files(WalkChildren(children, at)) == NamedFiles(SpotsBelow(children, at))
    ensures TarTheorems.AllReadable(WalkChildren(children, at))
    decreases children, 0
  {
    if children != [] {
      var here, first, rest := at + [children[0].name], children[0].tree, children[1..];
      WalkFindsTheFiles(first, here);
      WalkFindsTheChildren(rest, at);
      FilesConcat(Walk(first, here), WalkChildren(rest, at));
      ReadableConcat(Walk(first, here), WalkChildren(rest, at));
      NamedConcat(Spots(first, here), SpotsBelow(rest, at));
    }
  }

  /** A walk goes through a directory's children in their order. */
  lemma {:induction false} WalkInOrder(a: seq<Child>, b: seq<Child>, at: seq<string>)
    ensures WalkChildren(a + b, at) == WalkChildren(a, at) + WalkChildren(b, at)
  {
    if a == [] {
      assert a + b == b;
      assert WalkChildren(a, at) + WalkChildren(b, at) == WalkChildren(b, at);
    } else {
      assert (a + b)[1..] == a[1..] + b;
      WalkInOrder(a[1..], b, at);
      Assoc(Walk(a[0].tree, at + [a[0].name]), WalkChildren(a[1..], at), WalkChildren(b, at));
    }
  }

  /** Every directory of the tree can be read. */
  predicate DirectoriesReadable(tree: Source)
    decreases tree, 1
  {
    tree.Inner? ==> tree.readable && AllDirectoriesReadable(tree.children)
  }

  predicate AllDirectoriesReadable(children: seq<Child>)
    decreases children, 0
  {
    children == [] || (DirectoriesReadable(children[0].tree) && AllDirectoriesReadable(children[1..]))
  }

  /** A tree with a directory that cannot be read is not archived. */
  lemma UnreadableIsNotArchived(tree: Source)
    requires !DirectoriesReadable(tree)
    ensures TarTheorems.TarDirResult(Walk(tree, [])) == None
  {
    WalkReadableIff(tree, []);
  }

  lemma {:induction false} WalkReadableIff(tree: Source, at: seq<string>)
    ensures TarTheorems.AllReadable(Walk(tree, at)) <==> DirectoriesReadable(tree)
    decreases tree, 1
  {
    if tree.Inner? {
      ReadableConcat([Directory(PathOf(at))],
                     if tree.readable then WalkChildren(tree.children, at) else [Unreadable(PathOf(at))]);
      if tree.readable {
        WalkChildrenReadableIff(tree.children, at);
      } else {
        assert [Unreadable(PathOf(at))][0].Unreadable?;
      }
    }
  }

  lemma {:induction false} WalkChildrenReadableIff(children: seq<Child>, at: seq<string>)
    ensures TarTheorems.AllReadable(WalkChildren(children, at)) <==> AllDirectoriesReadable(children)
    decreases children, 0
  {
    if children != [] {
      var first := Walk(children[0].tree, at + [children[0].name]);
      WalkReadableIff(children[0].tree, at + [children[0].name]);
      WalkChildrenReadableIff(children[1..], at);
      ReadableConcat(first, WalkChildren(children[1..], at));
    }
  }

  // ---------- no file is where another one's directory would be ----------

  predicate Below(spots: seq<Spot>, at: seq<string>) {
    forall i :: 0 <= i < |spots| ==> at <= spots[i].path && AllPlain(spots[i].path[|at|..])
  }

  predicate Apart(a: Spot, b: Spot) { !(a.path <= b.path) && !(b.path <= a.path) }

  predicate PrefixFree(spots: seq<Spot>) {
    forall i, j :: 0 <= i < j < |spots| ==> Apart(spots[i], spots[j])
  }

  /** Strictly below `at`, and through one of `names`. */
  predicate Through(spots: seq<Spot>, at: seq<string>, names: set<string>) {
    forall i :: 0 <= i < |spots| ==> |at| < |spots[i].path| && spots[i].path[|at|] in names
  }

  lemma {:induction false} SpotsAreApart(tree: Source, at: seq<string>)
    requires WellFormed(tree)
    ensures Below(Spots(tree, at), at) && PrefixFree(Spots(tree, at))
    ensures tree.Inner? ==> forall i :: 0 <= i < |Spots(tree, at)| ==> |at| < |Spots(tree, at)[i].path|
    decreases tree, 1
  {
    match tree
    case Leaf(_) =>
    case Inner(_, children) => SpotsBelowAreApart(children, at);
  }

  lemma {:induction false} SpotsBelowAreApart(children: seq<Child>, at: seq<string>)
    requires WellFormedChildren(children)
    ensures Below(SpotsBelow(children, at), at) && PrefixFree(SpotsBelow(children, at))
    ensures Through(SpotsBelow(children, at), at, Names(children))
    decreases children, 0
  {
    if children != [] {
      var name, rest := children[0].name, children[1..];
      var a, b := Spots(children[0].tree, at + [name]), SpotsBelow(rest, at);
      SpotsAreApart(children[0].tree, at + [name]);
      SpotsBelowAreApart(rest, at);
      forall i | 0 <= i < |a|
        ensures at <= a[i].path && AllPlain(a[i].path[|at|..]) && |at| < |a[i].path| && a[i].path[|at|] == name
      {
        OneDeeper(a[i].path, at, name);
      }
      assert children == [children[0]] + rest;
      assert name in Names(children);
      assert Names(rest) <= Names(children);
      ApartConcat(a, b, at, name, Names(rest));
    }
  }

  lemma OneDeeper(path: seq<string>, at: seq<string>, name: string)
    requires at + [name] <= path && AllPlain(path[|at| + 1..]) && Plain(name)
    ensures at <= path && AllPlain(path[|at|..]) && |at| < |path| && path[|at|] == name
  {
    assert path[..|at| + 1] == at + [name];
    assert path[..|at|] == at;
    assert path[|at|..] == [name] + path[|at| + 1..];
  }

  lemma ApartConcat(a: seq<Spot>, b: seq<Spot>, at: seq<string>, name: string, names: set<string>)
    requires PrefixFree(a) && PrefixFree(b) && name !in names
    requires forall i :: 0 <= i < |a| ==> |at| < |a[i].path| && a[i].path[|at|] == name
    requires Through(b, at, names)
    ensures PrefixFree(a + b)
  {
    forall i, j | 0 <= i < j < |a + b|
      ensures Apart((a + b)[i], (a + b)[j])
    {
      if i < |a| <= j {
        assert (a + b)[i].path[|at|] != (a + b)[j].path[|at|];
      }
    }
  }

  // ---------- what extraction leaves on the disk ----------

  /** Directories up to a key are made, nothing else changes, as long as no file is in the way. */
  lemma {:induction false} MkdirEffect(disk: Tree, key: seq<string>)
    requires forall k :: k <= key ==> !IsDocument(At(disk, k))
    ensures MkdirAll(disk, key).1
    ensures forall k :: At(MkdirAll(disk, key).0, k) == if k <= key then Some(Folder) else At(disk, k)
  {
    if key != [] {
      var parent := key[..|key| - 1];
      forall k | k <= parent
        ensures !IsDocument(At(disk, k))
      {
        assert k <= key;
      }
      MkdirEffect(disk, parent);
      assert key <= key && !(key <= parent);
      assert !IsDocument(At(disk, key));
      var d, made := MkdirAll(disk, parent).0, MkdirAll(disk, key).0;
      assert At(d, key) == At(disk, key);
      assert made == d || made == d[key := Folder];
      assert At(made, key) == Some(Folder);
      forall k
        ensures At(MkdirAll(disk, key).0, k) == if k <= key then Some(Folder) else At(disk, k)
      {
        PrefixSplit(key, k);
        assert k != key ==> At(made, k) == At(d, k);
      }
    }
  }

  lemma PrefixSplit(key: seq<string>, k: seq<string>)
    requires key != []
    ensures k <= key <==> k <= key[..|key| - 1] || k == key
  {
    if k <= key && k != key {
      assert k == key[..|k|] == key[..|key| - 1][..|k|];
    }
  }

  predicate IsDocument(n: Option<Node>) { n.Some? && n.value.Document? }

  /** The file at exactly `rel`. */
  function FileAt(spots: seq<Spot>, rel: seq<string>): Option<seq<byte>> {
    if spots == [] then None
    else if spots[|spots| - 1].path == rel then Some(spots[|spots| - 1].file.content)
    else FileAt(spots[..|spots| - 1], rel)
  }

  /** Some file lies strictly below `rel`. */
  function HoldsFiles(spots: seq<Spot>, rel: seq<string>): bool {
    if spots == [] then false
    else (rel < spots[|spots| - 1].path) || HoldsFiles(spots[..|spots| - 1], rel)
  }

  lemma {:induction false} FileAtMeans(spots: seq<Spot>, rel: seq<string>)
    ensures FileAt(spots, rel).Some? <==> exists i :: 0 <= i < |spots| && spots[i].path == rel
    ensures HoldsFiles(spots, rel) <==> exists i :: 0 <= i < |spots| && rel < spots[i].path
  {
    if spots != [] {
      var init, last := spots[..|spots| - 1], |spots| - 1;
      FileAtMeans(init, rel);
      assert forall i :: 0 <= i < last ==> init[i] == spots[i];
      if FileAt(init, rel).Some? {
        var i :| 0 <= i < |init| && init[i].path == rel;
        assert spots[i].path == rel;
      }
      if HoldsFiles(init, rel) {
        var i :| 0 <= i < |init| && rel < init[i].path;
        assert rel < spots[i].path;
      }
    }
  }

  /** What should be at `key` once `spots` are extracted below `base`: the files, the directories
      above them, and otherwise whatever was there before. */
  function Want(before: Tree, base: seq<string>, spots: seq<Spot>, key: seq<string>): Option<Node> {
    if base < key then
      var rel := key[|base|..];
      if FileAt(spots, rel).Some? then Some(Document(FileAt(spots, rel).value))
      else if HoldsFiles(spots, rel) then Some(Folder)
      else None
    else if key <= base && spots != [] then Some(Folder)
    else At(before, key)
  }

  ghost predicate Extracted(before: Tree, after: Tree, base: seq<string>, spots: seq<Spot>) {
    forall key :: At(after, key) == Want(before, base, spots, key)
  }

  /** Nothing is below the target, and nothing but directories leads to it. */
  ghost predicate EmptyTarget(disk: Tree, base: seq<string>) {
    && (forall key :: base < key ==> key !in disk)
    && (forall key :: key <= base ==> !IsDocument(At(disk, key)))
  }

  function ItemsOf(entries: seq<Entry>): seq<Item> {
    if entries == [] then [] else
      ItemsOf(entries[..|entries| - 1]) + [Item(entries[|entries| - 1].name, TypeReg, entries[|entries| - 1].content)]
  }

  function SpotItems(spots: seq<Spot>): seq<Item> {
    if spots == [] then [] else
      SpotItems(spots[..|spots| - 1]) +
      [Item(PathOf(spots[|spots| - 1].path), TypeReg, spots[|spots| - 1].file.content)]
  }

  lemma StrictlyBelow(base: seq<string>, rel: seq<string>)
    requires rel != []
    ensures base < base + rel && (base + rel)[|base|..] == rel
  {
  }

  /** No earlier file is in the way of the next one. */
  lemma NothingInTheWay(before: Tree, disk: Tree, base: seq<string>, spots: seq<Spot>, s: Spot)
    requires EmptyTarget(before, base) && Extracted(before, disk, base, spots)
    requires s.path != [] && forall i :: 0 <= i < |spots| ==> Apart(spots[i], s)
    ensures forall k :: k <= base + s.path[..|s.path| - 1] ==> !IsDocument(At(disk, k))
    ensures At(disk, base + s.path) != Some(Folder)
  {
    var parent := base + s.path[..|s.path| - 1];
    forall k | k <= parent
      ensures !IsDocument(At(disk, k))
    {
      assert At(disk, k) == Want(before, base, spots, k);
      if base < k {
        var rel := k[|base|..];
        assert rel <= s.path by {
          assert k == parent[..|k|];
          assert rel == s.path[..|rel|];
        }
        FileAtMeans(spots, rel);
      } else {
        assert k <= base;
      }
    }
    StrictlyBelow(base, s.path);
    FileAtMeans(spots, s.path);
    assert At(disk, base + s.path) == Want(before, base, spots, base + s.path);
    assert forall i :: 0 <= i < |spots| && s.path < spots[i].path ==> s.path <= spots[i].path;
  }

  /** Extracting one more file. */
  lemma ExtractOne(cwd: seq<string>, targetDir: string, before: Tree, disk: Tree, spots: seq<Spot>, s: Spot)
    requires Rooted(targetDir) && AllPlain(s.path) && s.path != []
    requires EmptyTarget(before, Locate(cwd, targetDir)) && Extracted(before, disk, Locate(cwd, targetDir), spots)
    requires forall i :: 0 <= i < |spots| ==> Apart(spots[i], s)
    ensures var (after, ok) := ExtractItem(cwd, targetDir, disk, Item(PathOf(s.path), TypeReg, s.file.content));
            ok && Extracted(before, after, Locate(cwd, targetDir), spots + [s])
  {
    var base := Locate(cwd, targetDir);
    var parent, key := base + s.path[..|s.path| - 1], base + s.path;
    RelativeName(cwd, targetDir, s.path);
    NothingInTheWay(before, disk, base, spots, s);
    MkdirEffect(disk, parent);
    FileCreated(disk, base, s.path, s.file.content);
    var made := MkdirAll(disk, parent).0;
    OneMoreWanted(before, disk, made, made[key := Document(s.file.content)], base, spots, s);
    RegularItem(cwd, targetDir, disk, Item(PathOf(s.path), TypeReg, s.file.content), parent, key);
  }

  lemma RegularItem(cwd: seq<string>, targetDir: string, disk: Tree, item: Item, parent: seq<string>, key: seq<string>)
    requires item.kind.TypeReg? && Inside(targetDir, item.name)
    requires Locate(cwd, TargetPath(targetDir, item.name)) == key
    requires Locate(cwd, Dir(TargetPath(targetDir, item.name))) == parent
    requires MkdirAll(disk, parent).1
    ensures ExtractItem(cwd, targetDir, disk, item) == CreateFile(MkdirAll(disk, parent).0, key, item.content)
  {
  }

  lemma FileCreated(disk: Tree, base: seq<string>, path: seq<string>, content: seq<byte>)
    requires path != []
    requires var parent := base + path[..|path| - 1];
             forall k :: At(MkdirAll(disk, parent).0, k) == if k <= parent then Some(Folder) else At(disk, k)
    requires At(disk, base + path) != Some(Folder)
    ensures var made := MkdirAll(disk, base + path[..|path| - 1]).0;
            CreateFile(made, base + path, content) == (made[base + path := Document(content)], true)
  {
    var parent, key := base + path[..|path| - 1], base + path;
    assert key[..|key| - 1] == parent;
    assert !(key <= parent);
  }

  lemma OneMoreWanted(before: Tree, disk: Tree, made: Tree, after: Tree, base: seq<string>, spots: seq<Spot>, s: Spot)
    requires Extracted(before, disk, base, spots) && s.path != []
    requires forall k :: At(made, k) == if k <= base + s.path[..|s.path| - 1] then Some(Folder) else At(disk, k)
    requires after == made[base + s.path := Document(s.file.content)]
    requires forall i :: 0 <= i < |spots| ==> Apart(spots[i], s)
    ensures Extracted(before, after, base, spots + [s])
  {
    var parent, more := base + s.path[..|s.path| - 1], spots + [s];
    assert more[..|spots|] == spots;
    forall k
      ensures At(after, k) == Want(before, base, more, k)
    {
      assert At(disk, k) == Want(before, base, spots, k);
      if base < k {
        var rel := k[|base|..];
        assert k == base + rel;
        assert k <= parent <==> rel < s.path by {
          PrefixBelow(base, rel, s.path);
        }
        assert k == base + s.path <==> rel == s.path;
        FileAtMeans(spots, rel);
        assert rel < s.path ==> FileAt(spots, rel).None?;
      } else {
        assert k != base + s.path;
        assert k <= parent <==> k <= base by {
          NotBelow(base, k, s.path);
        }
      }
    }
  }

  lemma PrefixBelow(base: seq<string>, rel: seq<string>, path: seq<string>)
    requires path != []
    ensures base + rel <= base + path[..|path| - 1] <==> rel < path
  {
    var parent := path[..|path| - 1];
    assert (base + parent)[|base|..] == parent;
    if base + rel <= base + parent {
      assert rel == (base + rel)[|base|..];
      assert base + rel == (base + parent)[..|base + rel|];
      assert rel == parent[..|rel|] == path[..|rel|];
    }
    if rel < path {
      assert rel == path[..|rel|] == parent[..|rel|];
      assert base + rel == (base + parent)[..|base + rel|];
    }
  }

  lemma NotBelow(base: seq<string>, k: seq<string>, path: seq<string>)
    requires path != [] && !(base < k)
    ensures k <= base + path[..|path| - 1] <==> k <= base
  {
    var parent := base + path[..|path| - 1];
    if k <= parent {
      assert k == parent[..|k|];
      assert |k| >= |base| ==> k[..|base|] == parent[..|base|] == base;
      assert k == base[..|k|];
    }
    if k <= base {
      assert k == base[..|k|] == parent[..|k|];
    }
  }

  lemma ExtractItemsSnoc(cwd: seq<string>, targetDir: string, disk: Tree, items: seq<Item>, item: Item)
    requires ExtractItems(cwd, targetDir, disk, items).1
    ensures ExtractItems(cwd, targetDir, disk, items + [item]) ==
            ExtractItem(cwd, targetDir, ExtractItems(cwd, targetDir, disk, items).0, item)
  {
    assert (items + [item])[..|items|] == items;
  }

  predicate Extractable(spots: seq<Spot>) {
    PrefixFree(spots) && forall i :: 0 <= i < |spots| ==> AllPlain(spots[i].path) && spots[i].path != []
  }

  lemma {:induction false} ExtractSpots(cwd: seq<string>, targetDir: string, before: Tree, spots: seq<Spot>)
    requires Rooted(targetDir) && EmptyTarget(before, Locate(cwd, targetDir)) && Extractable(spots)
    ensures var (after, ok) := ExtractItems(cwd, targetDir, before, SpotItems(spots));
            ok && Extracted(before, after, Locate(cwd, targetDir), spots)
  {
    if spots != [] {
      var init, s := spots[..|spots| - 1], spots[|spots| - 1];
      assert spots == init + [s];
      assert Extractable(init) by {
        assert forall i :: 0 <= i < |init| ==> init[i] == spots[i];
      }
      ExtractSpots(cwd, targetDir, before, init);
      forall i | 0 <= i < |init|
        ensures Apart(init[i], s)
      {
        assert Apart(spots[i], spots[|spots| - 1]);
      }
      ExtractItemsSnoc(cwd, targetDir, before, SpotItems(init), Item(PathOf(s.path), TypeReg, s.file.content));
      ExtractOne(cwd, targetDir, before, ExtractItems(cwd, targetDir, before, SpotItems(init)).0, init, s);
    }
  }

  lemma {:induction false} ItemsOfNamed(spots: seq<Spot>)
    ensures ItemsOf(EntriesOf(NamedFiles(spots))) == SpotItems(spots)
  {
    if spots != [] {
      var init, s := spots[..|spots| - 1], spots[|spots| - 1];
      ItemsOfNamed(init);
      EntriesSnoc(NamedFiles(init), Named(s));
      var es := EntriesOf(NamedFiles(init));
      assert (es + [EntryOf(Named(s))])[..|es|] == es;
    }
  }

  /** Archiving a directory tree and extracting the archive into an empty directory gives back every
      file with its contents, at its place below the target, with the directories leading to it,
      and nothing else; no entry is rejected. */
  lemma ExtractUndoesArchiving(tree: Source, cwd: seq<string>, targetDir: string, before: Tree)
    requires tree.Inner? && WellFormed(tree) && AllArchivable(Walk(tree, []))
    requires Rooted(targetDir) && EmptyTarget(before, Locate(cwd, targetDir))
    ensures SequentialResult(Walk(tree, [])).Some?
    ensures var items := ItemsOf(SequentialResult(Walk(tree, [])).value);
            var (after, ok) := ExtractItems(cwd, targetDir, before, items);
            ok && Extracted(before, after, Locate(cwd, targetDir), Spots(tree, []))
  {
    var spots := Spots(tree, []);
    SequentialArchivesEverything(Walk(tree, []));
    WalkFindsTheFiles(tree, []);
    SpotsAreApart(tree, []);
    ItemsOfNamed(spots);
    forall i | 0 <= i < |spots|
      ensures AllPlain(spots[i].path) && spots[i].path != []
    {
      assert |spots[i].path| > 0 && spots[i].path[0..] == spots[i].path;
    }
    ExtractSpots(cwd, targetDir, before, spots);
  }

  /** For example, a directory with one file comes back with that file and nothing else below the target. */
  lemma OneFileComesBack(name: string, f: File, cwd: seq<string>, targetDir: string, before: Tree, k: seq<string>)
    requires Plain(name) && Archivable(f)
    requires Rooted(targetDir) && EmptyTarget(before, Locate(cwd, targetDir))
    ensures var base, result := Locate(cwd, targetDir), SequentialResult(Walk(Inner(true, [Child(name, Leaf(f))]), []));
            && result.Some?
            && var (after, ok) := ExtractItems(cwd, targetDir, before, ItemsOf(result.value));
            && ok
            && At(after, base + [name]) == Some(Document(f.content))
            && (base < k && k != base + [name] ==> At(after, k) == None)
  {
    var tree := Inner(true, [Child(name, Leaf(f))]);
    OneFileTree(name, f);
    ExtractUndoesArchiving(tree, cwd, targetDir, before);
    var after := ExtractItems(cwd, targetDir, before, ItemsOf(SequentialResult(Walk(tree, [])).value)).0;
    OneFileExtracted(before, after, Locate(cwd, targetDir), name, f, k);
  }

  lemma OneFileExtracted(before: Tree, after: Tree, base: seq<string>, name: string, f: File, k: seq<string>)
    requires Extracted(before, after, base, [Spot([name], f)])
    ensures At(after, base + [name]) == Some(Document(f.content))
    ensures base < k && k != base + [name] ==> At(after, k) == None
  {
    var spots := [Spot([name], f)];
    StrictlyBelow(base, [name]);
    FileAtMeans(spots, [name]);
    assert spots[..0] == [];
    assert At(after, base + [name]) == Want(before, base, spots, base + [name]);
    if base < k && k != base + [name] {
      var rel := k[|base|..];
      assert k == base + rel;
      OnlyBelow(name, rel);
      FileAtMeans(spots, rel);
      assert At(after, k) == Want(before, base, spots, k);
    }
  }

  lemma OnlyBelow(name: string, rel: seq<string>)
    requires rel != [] && rel != [name]
    ensures !(rel < [name])
  {
  }

  lemma OneFileTree(name: string, f: File)
    requires Plain(name) && Archivable(f)
    ensures var tree := Inner(true, [Child(name, Leaf(f))]);
            && WellFormed(tree) && AllArchivable(Walk(tree, [])) && Spots(tree, []) == [Spot([name], f)]
  {
    var children := [Child(name, Leaf(f))];
    assert children[1..] == [];
    assert WalkChildren(children, []) == [Regular(f.(path := PathOf([] + [name])))] + [];
    assert SpotsBelow(children, []) == [Spot([] + [name], f)] + [];
    assert [] + [name] == [name];
  }

  /** The same for the dispatching archiver: it archives such a tree unless the tree is large and holds
      an empty file, and then extraction undoes it. */
  lemma ExtractUndoesTarDir(tree: Source, cwd: seq<string>, targetDir: string, before: Tree)
    requires tree.Inner? && WellFormed(tree) && AllArchivable(Walk(tree, []))
    requires Rooted(targetDir) && EmptyTarget(before, Locate(cwd, targetDir))
    ensures var walk := Walk(tree, []);
            TarTheorems.TarDirResult(walk).Some? <==>
            (|Files(walk)| <= 20 && TarTheorems.TotalSize(walk) <= 10485760) || TarTheorems.NoneEmpty(Files(walk))
    ensures TarTheorems.TarDirResult(Walk(tree, [])).Some? ==>
              var items := ItemsOf(TarTheorems.TarDirResult(Walk(tree, [])).value);
              var (after, ok) := ExtractItems(cwd, targetDir, before, items);
              ok && Extracted(before, after, Locate(cwd, targetDir), Spots(tree, []))
  {
    ExtractUndoesArchiving(tree, cwd, targetDir, before);
    TarTheorems.DispatchIsVisibleOnlyForEmptyFiles(Walk(tree, []));
    if TarTheorems.Large(Walk(tree, [])) && !TarTheorems.NoneEmpty(Files(Walk(tree, []))) {
      TarTheorems.DispatchFailsOnEmptyFile(Walk(tree, []));
    }
  }

  /** What that means for a single path below the target. */
  lemma ExtractedFiles(before: Tree, after: Tree, base: seq<string>, spots: seq<Spot>, rel: seq<string>,
                       content: seq<byte>)
    requires Extracted(before, after, base, spots) && PrefixFree(spots) && rel != []
    ensures At(after, base + rel) == Some(Document(content)) <==>
            exists i :: 0 <= i < |spots| && spots[i].path == rel && spots[i].file.content == content
  {
    StrictlyBelow(base, rel);
    assert At(after, base + rel) == Want(before, base, spots, base + rel);
    FileAtMeans(spots, rel);
    FileAtIs(spots, rel);
  }

  lemma {:induction false} FileAtIs(spots: seq<Spot>, rel: seq<string>)
    requires PrefixFree(spots)
    ensures forall i :: 0 <= i < |spots| && spots[i].path == rel ==> FileAt(spots, rel) == Some(spots[i].file.content)
  {
    if spots != [] {
      var last := |spots| - 1;
      FileAtIs(spots[..last], rel);
      assert forall i :: 0 <= i < last ==> spots[..last][i] == spots[i];
      assert forall i :: 0 <= i < last ==> Apart(spots[i], spots[last]);
    }
  }
}
