/** Creating names: when the path opened or made then leads to the new vnode, and when paths that led
    somewhere keep leading there. */
module Creation {
  import opened Paths

  // ---------------------------------------------------------------------------------------------
  // Leaves and the names read from them

  /** Resolution reads from this leaf exactly the name that is stored for it. */
  predicate Reads(leaf: string) {
    GoodName(Stored(leaf)) && OnlySlashes(leaf[|Stored(leaf)|..])
  }

  lemma StoredIsPrefix(leaf: string)
    ensures |Stored(leaf)| <= |leaf| && |Stored(leaf)| < NAME_MAX && leaf[..|Stored(leaf)|] == Stored(leaf)
    ensures Stored(leaf) == leaf <==> |leaf| < NAME_MAX
  {
  }

  lemma NamesOfNone(leaf: string)
    ensures NamesOf(leaf) == [] <==> OnlySlashes(leaf)
  {
    SkipsAll(leaf);
  }

  lemma NamesOfReads(leaf: string)
    requires Reads(leaf)
    ensures NamesOf(leaf) == [Stored(leaf)]
  {
    var n := |Stored(leaf)|;
    StoredIsPrefix(leaf);
    assert leaf[0] == Stored(leaf)[0] && leaf[0] in Stored(leaf);
    assert leaf[n..] != [] ==> leaf[n] in leaf[n..];
    NameLengthIs(leaf, n, NAME_MAX - 1);
    SkipsAll(leaf[n..]);
    assert Names(leaf) == [leaf[..n]] + Names(SkipSlashes(leaf[n..]));
  }

  /** And from no other leaf. */
  lemma OnlyNameIsStored(leaf: string)
    requires NamesOf(leaf) == [Stored(leaf)]
    ensures Reads(leaf)
  {
    var s := SkipSlashes(leaf);
    var n := NameLength(s, NAME_MAX - 1);
    StoredIsPrefix(leaf);
    NamesAreGood(s);
    assert Stored(leaf) in Names(s);
    assert leaf[0] == Stored(leaf)[0] && leaf[0] in Stored(leaf);
    assert s == leaf;
    assert Names(s) == [s[..n]] + Names(SkipSlashes(s[n..]));
    assert s[..n] == Stored(leaf) && |Names(SkipSlashes(s[n..]))| == 0;
    NamesOfNone(leaf[n..]);
  }

  lemma GoodNameReads(leaf: string)
    requires GoodName(leaf)
    ensures Reads(leaf) && Stored(leaf) == leaf && NamesOf(leaf) == [leaf]
  {
    assert leaf[|leaf|..] == [];
    NamesOfReads(leaf);
  }

  /** The leaf is the last name of the whole path if and only if that name is a proper one and its slash is
      among the first 127 characters. */
  lemma LeafIsLastNameIff(path: string)
    requires Absolute(path)
    ensures GoodName(LeafOf(path)) <==> LastSlash(path) < PATH_MAX - 1 && GoodName(path[LastSlash(path) + 1..])
    ensures GoodName(LeafOf(path)) ==> SlashAt(path) == LastSlash(path)
  {
    var k := LastSlash(path);
    SplitAtSlash(path);
    if k < PATH_MAX - 1 {
      LastSlashIs(Cut(path), k);
    } else {
      assert path[k] in LeafOf(path);
    }
  }

  // ---------------------------------------------------------------------------------------------
  // Mounts below the parent

  lemma BestIsLongEnough(fs: Fs, path: string)
    requires Absolute(path) && MountedBelow(fs, path)
    ensures var m := FindMount(fs.mounts, path);
      m >= 0 && Matches(fs.mounts[m].path, path) && |fs.mounts[m].path| > |ParentOf(path)|
  {
    var i :| 0 <= i < |fs.mounts| && Matches(fs.mounts[i].path, path) && |fs.mounts[i].path| > |ParentOf(path)|;
    assert fs.mounts[i].path != [];
  }

  /** Behind a mount below the parent there are only slashes left. */
  lemma OnlySlashesLeft(mp: string, path: string)
    requires Absolute(path) && Matches(mp, path) && |mp| > |ParentOf(path)|
    requires OnlySlashes(LeafOf(path)) || Reads(LeafOf(path))
    ensures OnlySlashes(path[|mp|..])
  {
    var leaf, rest := LeafOf(path), path[|mp|..];
    SplitAtSlash(path);
    StoredIsPrefix(leaf);
    var d := |leaf| - |rest|;
    assert 0 <= d && rest == leaf[d..];
    if Reads(leaf) {
      var n := |Stored(leaf)|;
      assert d >= n || rest == [];
      assert forall c | c in rest :: c in leaf[n..];
    } else {
      assert forall c | c in rest :: c in leaf;
    }
  }

  lemma MountedBelowResolves(fs: Fs, path: string)
    requires Absolute(path) && MountedBelow(fs, path) && (OnlySlashes(LeafOf(path)) || Reads(LeafOf(path)))
    ensures Resolve(fs, path).Some?
  {
    BestIsLongEnough(fs, path);
    var mp := fs.mounts[FindMount(fs.mounts, path)].path;
    OnlySlashesLeft(mp, path);
    NamesOfNone(path[|mp|..]);
  }

  lemma MountedBelowIsMountPoint(fs: Fs, path: string)
    requires Absolute(path) && GoodName(LeafOf(path))
    ensures MountedBelow(fs, path) <==> IsMountPoint(fs, path)
  {
    SplitAtSlash(path);
    forall i | 0 <= i < |fs.mounts|
      ensures Matches(fs.mounts[i].path, path) && |fs.mounts[i].path| > |ParentOf(path)| <==> fs.mounts[i].path == path
    {
      var mp := fs.mounts[i].path;
      if |ParentOf(path)| < |mp| < |path| {
        assert path[|mp|] in LeafOf(path);
      }
    }
  }

  // ---------------------------------------------------------------------------------------------
  // Adding one entry

  /** New numbers are not in use, and stored names are at most 63 characters long. */
  ghost predicate FsInv(fs: Fs) {
    && (forall v | v in fs.nodes :: v < fs.nextId)
    && (forall v, e | v in fs.nodes && fs.nodes[v].Dir? && e in fs.nodes[v].children ::
          e.id < fs.nextId && |e.name| < NAME_MAX)
    && (forall i | 0 <= i < |fs.mounts| :: fs.mounts[i].root < fs.nextId)
  }

  predicate IsDir(fs: Fs, dir: int) {
    dir in fs.nodes && fs.nodes[dir].Dir?
  }

  /** An entry of this name in front of the list hides no name that can be looked up. */
  predicate HidesNothing(fs: Fs, dir: int, name: string) {
    !GoodName(name) || Lookup(fs.nodes, dir, name).None?
  }

  lemma AddKeepsLookup(fs: Fs, dir: int, name: string, node: Node, v: int, n: string)
    requires FsInv(fs) && IsDir(fs, dir) && HidesNothing(fs, dir, name)
    requires GoodName(n) && Lookup(fs.nodes, v, n).Some?
    ensures Lookup(AddNode(fs, dir, name, node).nodes, v, n) == Lookup(fs.nodes, v, n)
  {
  }

  lemma {:induction false} AddKeepsWalk(fs: Fs, dir: int, name: string, node: Node, v: int, names: seq<string>)
    requires FsInv(fs) && IsDir(fs, dir) && HidesNothing(fs, dir, name)
    requires (forall n | n in names :: GoodName(n)) && Walk(fs.nodes, v, names).Some?
    ensures Walk(AddNode(fs, dir, name, node).nodes, v, names) == Walk(fs.nodes, v, names)
    decreases |names|
  {
    if names == [] {
    } else {
      AddKeepsLookup(fs, dir, name, node, v, names[0]);
      AddKeepsWalk(fs, dir, name, node, Lookup(fs.nodes, v, names[0]).value, names[1..]);
    }
  }

  lemma AddKeepsResolution(fs: Fs, dir: int, name: string, node: Node, q: string)
    requires FsInv(fs) && IsDir(fs, dir) && HidesNothing(fs, dir, name) && Resolve(fs, q).Some?
    ensures Resolve(AddNode(fs, dir, name, node), q) == Resolve(fs, q)
  {
    var m := FindMount(fs.mounts, q);
    var rest := q[|fs.mounts[m].path|..];
    NamesAreGood(SkipSlashes(rest));
    AddKeepsWalk(fs, dir, name, node, fs.mounts[m].root, NamesOf(rest));
  }

  /** Creation disturbs no path that resolved before, provided the stored name hides nothing. */
  lemma CreateKeepsResolution(fs: Fs, dir: int, name: string, node: Node, q: string)
    requires FsInv(fs) && IsDir(fs, dir) && Resolve(fs, q).Some?
    requires Find(fs.nodes[dir].children, name).None? ==> HidesNothing(fs, dir, Stored(name))
    ensures Resolve(CreateIn(fs, dir, name, node).0, q) == Resolve(fs, q)
  {
    if Find(fs.nodes[dir].children, name).None? {
      AddKeepsResolution(fs, dir, Stored(name), node, q);
    }
  }

  lemma CreateKeepsInv(fs: Fs, dir: int, name: string, node: Node)
    requires FsInv(fs) && IsDir(fs, dir) && (node.Dir? ==> node.children == [])
    ensures FsInv(CreateIn(fs, dir, name, node).0)
  {
  }

  /** What holds in every reachable file system: also, "/" is mounted, and mount paths are cut. */
  ghost predicate HistoryInv(fs: Fs) {
    && FsInv(fs) && 0 < |fs.mounts| <= MOUNT_MAX && fs.mounts[0] == Mount("/", 1)
    && forall i | 0 <= i < |fs.mounts| :: |fs.mounts[i].path| < PATH_MAX
  }

  lemma StepKeepsInv(fs: Fs, op: Op)
    requires FsInv(fs)
    ensures FsInv(Step(fs, op)) && Step(fs, op).mounts == fs.mounts
  {
    if DirFor(fs, op.path).Some? {
      CreateKeepsInv(fs, DirFor(fs, op.path).value, LeafOf(op.path), if op.DoOpen? then Leaf else Dir([]));
    }
  }

  lemma {:induction false} HistoryKeepsInv(events: seq<Event>)
    ensures HistoryInv(History(Root(), events))
  {
    if events == [] {
    } else {
      var fs, event := History(Root(), events[..|events| - 1]), events[|events| - 1];
      HistoryKeepsInv(events[..|events| - 1]);
      if event.Creates? {
        StepKeepsInv(fs, event.op);
      }
    }
  }

  lemma ReachableInv(fs: Fs)
    requires Reachable(fs)
    ensures HistoryInv(fs)
  {
    var events :| History(Root(), events) == fs;
    HistoryKeepsInv(events);
  }

  // ---------------------------------------------------------------------------------------------
  // Opening with the create flag

  /** After the open the path resolves to the vnode opened, and path q resolves as it did. */
  ghost predicate OpenHonest(fs: Fs, path: string, q: string) {
    var (fs', v) := OpenCreate(fs, path);
    && (v.Some? ==> Resolve(fs', path) == v)
    && (Resolve(fs, q).Some? ==> Resolve(fs', q) == Resolve(fs, q))
  }

  /** A path whose leaf is only slashes resolves if its parent does. */
  lemma TrailingSlashes(fs: Fs, path: string)
    requires Absolute(path) && OnlySlashes(LeafOf(path)) && Resolve(fs, ParentOf(path)).Some?
    ensures Resolve(fs, path).Some?
  {
    if MountedBelow(fs, path) {
      MountedBelowResolves(fs, path);
    } else {
      NamesOfNone(LeafOf(path));
      ResolveViaParent(fs, path);
    }
  }

  /** An open that has to create, with a leaf that is read as it is stored, makes a new name. */
  lemma NameIsNew(fs: Fs, path: string)
    requires FsInv(fs) && Absolute(path) && Reads(LeafOf(path)) && Resolve(fs, path).None? && DirFor(fs, path).Some?
    ensures !MountedBelow(fs, path) && Lookup(fs.nodes, DirFor(fs, path).value, Stored(LeafOf(path))).None?
    ensures Find(fs.nodes[DirFor(fs, path).value].children, LeafOf(path)).None?
  {
    var dir, leaf := DirFor(fs, path).value, LeafOf(path);
    if MountedBelow(fs, path) {
      MountedBelowResolves(fs, path);
    }
    ResolveViaParent(fs, path);
    NamesOfReads(leaf);
    assert [Stored(leaf)][1..] == [];
    StoredIsPrefix(leaf);
    if |leaf| >= NAME_MAX {
      LongNameIsNotThere(fs.nodes[dir].children, leaf);
    }
  }

  lemma {:induction false} LongNameIsNotThere(children: seq<Entry>, name: string)
    requires |name| >= NAME_MAX && forall e | e in children :: |e.name| < NAME_MAX
    ensures Find(children, name).None?
  {
    if children == [] {
    } else {
      assert children[0] in children && forall e | e in children[1..] :: e in children;
      LongNameIsNotThere(children[1..], name);
    }
  }

  /** A new name in the parent directory, read as it is stored, is where the path leads. */
  lemma MadeNameResolves(fs: Fs, path: string, node: Node)
    requires FsInv(fs) && Absolute(path) && Reads(LeafOf(path)) && DirFor(fs, path).Some? && !MountedBelow(fs, path)
    requires Lookup(fs.nodes, DirFor(fs, path).value, Stored(LeafOf(path))).None?
    ensures Resolve(AddNode(fs, DirFor(fs, path).value, Stored(LeafOf(path)), node), path) == Some(fs.nextId)
  {
    var dir, name := DirFor(fs, path).value, Stored(LeafOf(path));
    var fs' := AddNode(fs, dir, name, node);
    AddKeepsResolution(fs, dir, name, node, ParentOf(path));
    assert !MountedBelow(fs', path);
    ResolveViaParent(fs', path);
    NamesOfReads(LeafOf(path));
    WalkOne(fs'.nodes, dir, name);
    assert Lookup(fs'.nodes, dir, name) == Some(fs.nextId);
  }

  lemma WalkOne(nodes: map<int, Node>, dir: int, name: string)
    ensures Walk(nodes, dir, [name]) == Lookup(nodes, dir, name)
  {
    assert [name][1..] == [];
  }

  /** If the leaf is read as it is stored, or is only slashes, opening with the create flag is honest in
      every file system. */
  lemma CreateThenResolve(fs: Fs, path: string, q: string)
    requires FsInv(fs) && Absolute(path) && (OnlySlashes(LeafOf(path)) || Reads(LeafOf(path)))
    ensures OpenHonest(fs, path, q)
  {
    if Resolve(fs, path).None? && DirFor(fs, path).Some? {
      var dir, leaf := DirFor(fs, path).value, LeafOf(path);
      if OnlySlashes(leaf) {
        TrailingSlashes(fs, path);
      } else {
        NameIsNew(fs, path);
        MadeNameResolves(fs, path, Leaf);
        if Resolve(fs, q).Some? {
          CreateKeepsResolution(fs, dir, leaf, Leaf, q);
        }
      }
    }
  }

  // ---------------------------------------------------------------------------------------------
  // Where it goes wrong

  /** The root directory, with at most one entry, mounted a second time at the parent of the path. */
  function Mounted(path: string, entries: seq<Entry>): Fs {
    Fs(if entries == [] then map[1 := Dir([])] else map[1 := Dir(entries), 2 := Leaf],
       [Mount("/", 1), Mount(ParentOf(path), 1)], 2 + |entries|)
  }

  lemma ParentIsMounted(fs: Fs, path: string)
    requires Absolute(path) && fs.mounts == [Mount("/", 1), Mount(ParentOf(path), 1)]
    ensures Resolve(fs, ParentOf(path)) == Some(1) && Resolve(fs, path) == Walk(fs.nodes, 1, NamesOf(LeafOf(path)))
  {
    var parent := ParentOf(path);
    SplitAtSlash(path);
    assert Matches(fs.mounts[1].path, parent);
    var m := FindMount(fs.mounts, parent);
    assert fs.mounts[m].path == parent && parent[|parent|..] == [] && NamesOf([]) == [];
    assert !MountedBelow(fs, path);
    ResolveViaParent(fs, path);
  }

  lemma MountedResolves(path: string, entries: seq<Entry>)
    requires Absolute(path) && |entries| <= 1 && forall e | e in entries :: e.id < 3 && |e.name| < NAME_MAX
    ensures var fs := Mounted(path, entries);
      && FsInv(fs) && DirFor(fs, path) == Some(1)
      && Resolve(fs, path) == Walk(fs.nodes, 1, NamesOf(LeafOf(path)))
  {
    SplitAtSlash(path);
    ParentIsMounted(Mounted(path, entries), path);
  }

  lemma MountedIsReachable(path: string)
    requires Absolute(path)
    ensures Reachable(Mounted(path, []))
  {
    SplitAtSlash(path);
    assert History(Root(), []) == Root();
    ReachesAfter(Root(), Mounts(ParentOf(path), 1));
    assert After(Root(), Mounts(ParentOf(path), 1)).mounts == Mounted(path, []).mounts;
  }

  /** In a directory with a single entry, to a vnode without entries, other names lead nowhere. */
  lemma OnlyEntryMissed(nodes: map<int, Node>, dir: int, entries: seq<Entry>, names: seq<string>)
    requires dir in nodes && nodes[dir] == Dir(entries) && |entries| <= 1 && names != []
    requires entries != [] ==> names != [entries[0].name] && entries[0].id in nodes
    requires entries != [] ==> nodes[entries[0].id].Leaf? || nodes[entries[0].id] == Dir([])
    ensures Walk(nodes, dir, names).None?
  {
    if entries != [] && names[0] == entries[0].name {
      assert names == [names[0]] + names[1..];
      assert names[1..] != [] && Lookup(nodes, entries[0].id, names[1..][0]).None?;
      assert Lookup(nodes, dir, names[0]) == Some(entries[0].id);
    } else if entries != [] {
      assert entries[1..] == [];
      assert Find(entries[1..], names[0]).None?;
    }
  }

  lemma NotReadNames(leaf: string)
    requires !OnlySlashes(leaf) && !Reads(leaf)
    ensures NamesOf(leaf) != [] && NamesOf(leaf) != [Stored(leaf)]
  {
    NamesOfNone(leaf);
    if NamesOf(leaf) == [Stored(leaf)] {
      OnlyNameIsStored(leaf);
    }
  }

  /** The entry made for a leaf that is not read as it is stored is not where the path leads. */
  lemma MadeNameMissed(path: string, node: Node)
    requires Absolute(path) && !OnlySlashes(LeafOf(path)) && !Reads(LeafOf(path))
    requires node.Leaf? || node == Dir([])
    ensures var fs := Mounted(path, []);
      Resolve(fs, path).None? && Resolve(AddNode(fs, 1, Stored(LeafOf(path)), node), path) != Some(2)
  {
    var fs, leaf := Mounted(path, []), LeafOf(path);
    NotReadNames(leaf);
    MountedResolves(path, []);
    OnlyEntryMissed(fs.nodes, 1, [], NamesOf(leaf));
    AddedResolves(path, [], Stored(leaf), node);
    assert [Entry(Stored(leaf), 2)] + [] == [Entry(Stored(leaf), 2)];
    OnlyEntryMissed(AddNode(fs, 1, Stored(leaf), node).nodes, 1, [Entry(Stored(leaf), 2)], NamesOf(leaf));
  }

  /** The path with one more entry in the directory mounted at its parent. */
  lemma AddedResolves(path: string, entries: seq<Entry>, name: string, node: Node)
    requires Absolute(path)
    ensures var fs', v := AddNode(Mounted(path, entries), 1, name, node), 2 + |entries|;
      && Resolve(fs', path) == Walk(fs'.nodes, 1, NamesOf(LeafOf(path)))
      && fs'.nodes[1] == Dir([Entry(name, v)] + entries) && fs'.nodes[v] == node
  {
    ParentIsMounted(AddNode(Mounted(path, entries), 1, name, node), path);
  }

  /** Opening with the create flag is honest in every reachable file system if and only if the leaf is read as it is
      stored, or is only slashes. */
  lemma CreateThenResolveIff(path: string)
    requires Absolute(path)
    ensures (forall fs, q | Reachable(fs) :: OpenHonest(fs, path, q))
            <==> OnlySlashes(LeafOf(path)) || Reads(LeafOf(path))
  {
    if OnlySlashes(LeafOf(path)) || Reads(LeafOf(path)) {
      forall fs, q | Reachable(fs)
        ensures OpenHonest(fs, path, q)
      {
        ReachableInv(fs);
        CreateThenResolve(fs, path, q);
      }
    } else {
      MountedResolves(path, []);
      MadeNameMissed(path, Leaf);
      MountedIsReachable(path);
      assert !OpenHonest(Mounted(path, []), path, path);
    }
  }

  // ---------------------------------------------------------------------------------------------
  // Making directories

  /** After the mkdir the path leads to the directory made, or where it led if something is mounted on it,
      and path q resolves as it did. */
  ghost predicate MkdirHonest(fs: Fs, path: string, q: string) {
    var (fs', v) := Mkdir(fs, path);
    v.Some? ==>
      && Resolve(fs', path) == (if IsMountPoint(fs, path) then Resolve(fs, path) else v)
      && (Resolve(fs, q).Some? ==> Resolve(fs', q) == Resolve(fs, q))
  }

  lemma RootIsMountPoint(fs: Fs)
    requires Resolve(fs, "/").Some?
    ensures IsMountPoint(fs, "/")
  {
    assert fs.mounts[FindMount(fs.mounts, "/")].path == "/";
  }

  /** With a proper leaf, mkdir is honest in every file system. */
  lemma MkdirThenResolve(fs: Fs, path: string, q: string)
    requires FsInv(fs) && Absolute(path) && GoodName(LeafOf(path))
    ensures MkdirHonest(fs, path, q)
  {
    if DirFor(fs, path).Some? {
      MkdirLeads(fs, path);
      if Resolve(fs, q).Some? {
        MadeDirectoryKeeps(fs, DirFor(fs, path).value, LeafOf(path), q);
      }
    }
  }

  lemma MadeDirectoryKeeps(fs: Fs, dir: int, leaf: string, q: string)
    requires FsInv(fs) && IsDir(fs, dir) && GoodName(leaf) && Resolve(fs, q).Some?
    ensures Resolve(CreateIn(fs, dir, leaf, Dir([])).0, q) == Resolve(fs, q)
  {
    CreateKeepsResolution(fs, dir, leaf, Dir([]), q);
  }

  lemma MkdirLeads(fs: Fs, path: string)
    requires FsInv(fs) && Absolute(path) && GoodName(LeafOf(path)) && DirFor(fs, path).Some?
    ensures var (fs', v) := CreateIn(fs, DirFor(fs, path).value, LeafOf(path), Dir([]));
      Resolve(fs', path) == if IsMountPoint(fs, path) then Resolve(fs, path) else Some(v)
  {
    var dir, leaf := DirFor(fs, path).value, LeafOf(path);
    GoodNameReads(leaf);
    MountedBelowIsMountPoint(fs, path);
    if IsMountPoint(fs, path) {
      MountPointResolves(fs, path);
      MadeDirectoryKeeps(fs, dir, leaf, path);
    } else if Find(fs.nodes[dir].children, leaf).None? {
      MadeNameResolves(fs, path, Dir([]));
    } else {
      ResolveViaParent(fs, path);
      WalkOne(fs.nodes, dir, leaf);
    }
  }

  lemma MkdirRoot(fs: Fs, q: string)
    requires FsInv(fs)
    ensures MkdirHonest(fs, "/", q)
  {
    if DirFor(fs, "/").Some? {
      RootIsMountPoint(fs);
      CreateKeepsResolution(fs, DirFor(fs, "/").value, "", Dir([]), "/");
      if Resolve(fs, q).Some? {
        CreateKeepsResolution(fs, DirFor(fs, "/").value, "", Dir([]), q);
      }
    }
  }

  lemma SlashesAreNoName(leaf: string)
    requires OnlySlashes(leaf)
    ensures !GoodName(Stored(leaf))
  {
    StoredIsPrefix(leaf);
    if Stored(leaf) != [] {
      assert Stored(leaf)[0] == leaf[0] && leaf[0] in leaf && Stored(leaf)[0] in Stored(leaf);
    }
  }

  /** The entry made for a leaf of slashes is never looked up. */
  lemma MkdirOfSlashes(path: string)
    requires Absolute(path) && OnlySlashes(LeafOf(path)) && path != "/"
    ensures !MkdirHonest(Mounted(path, []), path, path)
  {
    var fs, leaf := Mounted(path, []), LeafOf(path);
    MountedResolves(path, []);
    NotMountedAt(path, []);
    NamesOfNone(leaf);
    AddedResolves(path, [], Stored(leaf), Dir([]));
  }

  lemma NotMountedAt(path: string, children: seq<Entry>)
    requires Absolute(path) && path != "/"
    ensures !IsMountPoint(Mounted(path, children), path)
  {
    SplitAtSlash(path);
  }

  /** A leaf that is cut when it is stored hides the entry of that name. */
  lemma CutNameHides(path: string, node: Node)
    requires Absolute(path) && LeafOf(path) != Stored(LeafOf(path)) && GoodName(Stored(LeafOf(path)))
    ensures var fs, leaf := Mounted(path, [Entry(Stored(LeafOf(path)), 2)]), LeafOf(path);
      && FsInv(fs) && DirFor(fs, path) == Some(1) && Find(fs.nodes[1].children, leaf).None?
      && Resolve(fs, Sibling(path)) == Some(2)
      && Resolve(CreateIn(fs, 1, leaf, node).0, Sibling(path)) == Some(3)
  {
    var name := Stored(LeafOf(path));
    var children := [Entry(name, 2)];
    StoredIsPrefix(LeafOf(path));
    MountedResolves(path, children);
    LongNameIsNotThere(children, LeafOf(path));
    SiblingSplits(path);
    assert Mounted(path, children) == Mounted(Sibling(path), children);
    SecondEntryHides(Sibling(path), name, node);
  }

  lemma SecondEntryHides(q: string, name: string, node: Node)
    requires Absolute(q) && GoodName(name) && LeafOf(q) == name
    ensures var fs := Mounted(q, [Entry(name, 2)]);
      Resolve(fs, q) == Some(2) && Resolve(AddNode(fs, 1, name, node), q) == Some(3)
  {
    var children := [Entry(name, 2)];
    GoodNameReads(name);
    MountedResolves(q, children);
    WalkOne(Mounted(q, children).nodes, 1, name);
    AddedResolves(q, children, name, node);
    WalkOne(AddNode(Mounted(q, children), 1, name, node).nodes, 1, name);
  }

  /** The path with the stored name for its leaf. */
  function Sibling(path: string): string {
    path[..SlashAt(path) + 1] + Stored(LeafOf(path))
  }

  lemma SiblingSplits(path: string)
    requires Absolute(path) && GoodName(Stored(LeafOf(path)))
    ensures var q := Sibling(path);
      Absolute(q) && ParentOf(q) == ParentOf(path) && LeafOf(q) == Stored(LeafOf(path))
  {
    var q, k, name := Sibling(path), SlashAt(path), Stored(LeafOf(path));
    SplitAtSlash(path);
    assert SlashAt(q) == k by {
      forall i | k < i < |Cut(q)|
        ensures Cut(q)[i] != '/'
      {
        assert Cut(q)[i] == name[i - k - 1] && name[i - k - 1] in name;
      }
      LastSlashIs(Cut(q), k);
    }
    assert q[..k] == path[..k] && q[k + 1..] == name;
  }

  lemma OpenInEmpty(q: string, name: string)
    requires Absolute(q) && GoodName(name) && LeafOf(q) == name
    ensures Step(Mounted(q, []), DoOpen(q)) == Mounted(q, [Entry(name, 2)])
  {
    GoodNameReads(name);
    MountedResolves(q, []);
    WalkOne(Mounted(q, []).nodes, 1, name);
    CreateInEmpty(q, name);
  }

  lemma CreateInEmpty(q: string, name: string)
    requires GoodName(name)
    ensures CreateIn(Mounted(q, []), 1, name, Leaf).0 == Mounted(q, [Entry(name, 2)])
  {
    assert [Entry(name, 2)] + [] == [Entry(name, 2)];
    assert CreateIn(Mounted(q, []), 1, name, Leaf).0.nodes == Mounted(q, [Entry(name, 2)]).nodes;
  }

  /** That the stored name is there already is the work of an open. */
  lemma SiblingIsReachable(path: string)
    requires Absolute(path) && GoodName(Stored(LeafOf(path)))
    ensures Reachable(Mounted(path, [Entry(Stored(LeafOf(path)), 2)]))
  {
    var q, name := Sibling(path), Stored(LeafOf(path));
    SiblingSplits(path);
    OpenInEmpty(q, name);
    MountedIsReachable(q);
    ReachesAfter(Mounted(q, []), Creates(DoOpen(q)));
    assert Mounted(q, [Entry(name, 2)]) == Mounted(path, [Entry(name, 2)]);
  }

  /** Mkdir is honest in every reachable file system if and only if the leaf is a proper name; making "/" does no
      harm either. */
  lemma MkdirThenResolveIff(path: string)
    requires Absolute(path)
    ensures (forall fs, q | Reachable(fs) :: MkdirHonest(fs, path, q)) <==> GoodName(LeafOf(path)) || path == "/"
  {
    var leaf := LeafOf(path);
    if GoodName(leaf) {
      forall fs, q | Reachable(fs)
        ensures MkdirHonest(fs, path, q)
      {
        ReachableInv(fs);
        MkdirThenResolve(fs, path, q);
      }
    } else if path == "/" {
      forall fs, q | Reachable(fs)
        ensures MkdirHonest(fs, path, q)
      {
        ReachableInv(fs);
        MkdirRoot(fs, q);
      }
    } else {
      var fs, q := MkdirFails(path);
    }
  }

  /** Nor is one whose leaf is not read as it is stored. */
  lemma MkdirOfUnread(path: string)
    requires Absolute(path) && !OnlySlashes(LeafOf(path)) && !Reads(LeafOf(path)) && path != "/"
    ensures !MkdirHonest(Mounted(path, []), path, path)
  {
    MountedResolves(path, []);
    MadeNameMissed(path, Dir([]));
    NotMountedAt(path, []);
  }

  lemma MkdirOfCut(path: string)
    requires Absolute(path) && LeafOf(path) != Stored(LeafOf(path)) && GoodName(Stored(LeafOf(path)))
    ensures !MkdirHonest(Mounted(path, [Entry(Stored(LeafOf(path)), 2)]), path, Sibling(path))
  {
    CutNameHides(path, Dir([]));
  }

  lemma MkdirFails(path: string) returns (fs: Fs, q: string)
    requires Absolute(path) && !GoodName(LeafOf(path)) && path != "/"
    ensures Reachable(fs) && !MkdirHonest(fs, path, q)
  {
    var leaf := LeafOf(path);
    if OnlySlashes(leaf) {
      MkdirOfSlashes(path);
      MountedIsReachable(path);
      fs, q := Mounted(path, []), path;
    } else if Reads(leaf) {
      StoredIsPrefix(leaf);
      MkdirOfCut(path);
      SiblingIsReachable(path);
      fs, q := Mounted(path, [Entry(Stored(leaf), 2)]), Sibling(path);
    } else {
      MkdirOfUnread(path);
      MountedIsReachable(path);
      fs, q := Mounted(path, []), path;
    }
  }

  // ---------------------------------------------------------------------------------------------
  // What mkdir hands back

  /** A successful mkdir need not leave a directory behind: with a proper leaf and nothing mounted on the path,
      the path leads to a directory if and only if it led nowhere or to a directory before. */
  lemma MkdirMakesDirectoryIff(fs: Fs, path: string)
    requires FsInv(fs) && Absolute(path) && GoodName(LeafOf(path)) && !IsMountPoint(fs, path)
    requires Mkdir(fs, path).1.Some?
    ensures var (fs', v) := Mkdir(fs, path);
      && Resolve(fs', path) == v
      && (IsDir(fs', v.value) <==> Resolve(fs, path).None? || IsDir(fs, Resolve(fs, path).value))
  {
    var dir, leaf := DirFor(fs, path).value, LeafOf(path);
    MkdirLeads(fs, path);
    GoodNameReads(leaf);
    MountedBelowIsMountPoint(fs, path);
    ResolveViaParent(fs, path);
    WalkOne(fs.nodes, dir, leaf);
  }

  /** It does not after an open that has made a file of that name. */
  lemma MkdirOverFile(x: string)
    requires GoodName(x)
    ensures var fs := Step(Root(), DoOpen("/" + x));
      Mkdir(fs, "/" + x) == (fs, Some(2)) && Resolve(fs, "/" + x) == Some(2) && !IsDir(fs, 2)
  {
    var path := "/" + x;
    OneSlash(x);
    OnlyRootMounted(Root(), "/");
    assert NamesOf("/") == [];
    NamesOfTwo(x, x);
    OnlyRootMounted(Root(), path);
    WalkOne(Root().nodes, 1, x);
    var fs := Step(Root(), DoOpen(path));
    assert fs.nodes[1] == Dir([Entry(x, 2)] + []);
    assert [Entry(x, 2)] + [] == [Entry(x, 2)];
    ResolveFirst(fs, x);
    OnlyRootMounted(fs, "/");
  }

  // ---------------------------------------------------------------------------------------------
  // Stability

  /** Path q resolves after the creation as it did before. */
  ghost predicate Keeps(fs: Fs, op: Op, q: string) {
    Resolve(fs, q).Some? ==> Resolve(Step(fs, op), q) == Resolve(fs, q)
  }

  /** The leaf is cut when it is stored, to a name that can be looked up; an open finds out in time if
      nothing but slashes is cut off. */
  predicate Hides(op: Op) {
    var leaf := LeafOf(op.path);
    Absolute(op.path) && Stored(leaf) != leaf && GoodName(Stored(leaf)) && (op.DoOpen? ==> !Reads(leaf))
  }

  lemma CreationKeeps(fs: Fs, op: Op, q: string)
    requires FsInv(fs) && !Hides(op)
    ensures Keeps(fs, op, q) && FsInv(Step(fs, op))
  {
    var path := op.path;
    if Absolute(path) && DirFor(fs, path).Some? && (op.DoOpen? ==> Resolve(fs, path).None?) {
      var dir, leaf, node := DirFor(fs, path).value, LeafOf(path), if op.DoOpen? then Leaf else Dir([]);
      CreateKeepsInv(fs, dir, leaf, node);
      if op.DoOpen? && Reads(leaf) {
        NameIsNew(fs, path);
      }
      if Resolve(fs, q).Some? {
        CreateKeepsResolution(fs, dir, leaf, node, q);
      }
    } else {
      NothingIsMade(fs, op);
    }
  }

  lemma NothingIsMade(fs: Fs, op: Op)
    requires !Absolute(op.path) || DirFor(fs, op.path).None? || (op.DoOpen? && Resolve(fs, op.path).Some?)
    ensures Step(fs, op) == fs
  {
    if op.path != [] && op.path[0] != '/' && SlashAt(op.path) >= 0 {
      assert ParentOf(op.path)[0] == op.path[0];
    }
  }

  /** A creation leaves every path of every reachable file system alone if and only if it does not hide a name. */
  lemma CreationKeepsIff(op: Op)
    ensures (forall fs, q | Reachable(fs) :: Keeps(fs, op, q)) <==> !Hides(op)
  {
    if Hides(op) {
      HidingBreaks(op);
      SiblingIsReachable(op.path);
    } else {
      forall fs, q | Reachable(fs)
        ensures Keeps(fs, op, q)
      {
        ReachableInv(fs);
        CreationKeeps(fs, op, q);
      }
    }
  }

  lemma HidingBreaks(op: Op)
    requires Hides(op)
    ensures !Keeps(Mounted(op.path, [Entry(Stored(LeafOf(op.path)), 2)]), op, Sibling(op.path))
  {
    CutNameHides(op.path, if op.DoOpen? then Leaf else Dir([]));
    if op.DoOpen? {
      HiddenPathMissing(op.path);
    }
  }

  lemma HiddenPathMissing(path: string)
    requires Hides(DoOpen(path))
    ensures Resolve(Mounted(path, [Entry(Stored(LeafOf(path)), 2)]), path).None?
  {
    var leaf := LeafOf(path);
    var children := [Entry(Stored(leaf), 2)];
    if OnlySlashes(leaf) {
      SlashesAreNoName(leaf);
    }
    NotReadNames(leaf);
    MountedResolves(path, children);
    OnlyEntryMissed(Mounted(path, children).nodes, 1, children, NamesOf(leaf));
  }

  /** Over any sequence of creations that hide no name, a path that resolves keeps its vnode. */
  lemma {:induction false} ResolutionIsStable(fs: Fs, ops: seq<Op>, q: string)
    requires FsInv(fs) && Resolve(fs, q).Some? && forall i | 0 <= i < |ops| :: !Hides(ops[i])
    ensures Resolve(RunOps(fs, ops), q) == Resolve(fs, q)
    decreases |ops|
  {
    if ops == [] {
    } else {
      CreationKeeps(fs, ops[0], q);
      ResolutionIsStable(Step(fs, ops[0]), ops[1..], q);
    }
  }

  // ---------------------------------------------------------------------------------------------
  // A directory that gets lost

  /** With only "/" mounted, resolution is a walk from the root directory. */
  lemma OnlyRootMounted(fs: Fs, path: string)
    requires fs.mounts == [Mount("/", 1)] && Absolute(path)
    ensures Resolve(fs, path) == Walk(fs.nodes, 1, NamesOf(path))
  {
    assert Matches(fs.mounts[0].path, path);
    assert FindMount(fs.mounts, path) == 0;
    assert SkipSlashes(path) == SkipSlashes(path[1..]);
  }

  lemma NamesOfTwo(x: string, y: string)
    requires GoodName(x) && GoodName(y)
    ensures NamesOf("/" + x) == [x] && NamesOf("/" + x + "/" + y) == [x, y]
  {
    GoodNameReads(x);
    GoodNameReads(y);
    assert ("/" + x)[1..] == x;
    NamesOfAppend("/" + x, y);
  }

  function Tree1(x: string): Fs {
    Fs(map[1 := Dir([Entry(x, 2)]), 2 := Dir([])], [Mount("/", 1)], 3)
  }

  function Tree2(x: string, y: string): Fs {
    Fs(map[1 := Dir([Entry(x, 2)]), 2 := Dir([Entry(y, 3)]), 3 := Dir([])], [Mount("/", 1)], 4)
  }

  function Tree3(x: string, y: string): Fs {
    Fs(map[1 := Dir([Entry(x, 2)]), 2 := Dir([Entry(y, 4), Entry(y, 3)]), 3 := Dir([]), 4 := Leaf],
       [Mount("/", 1)], 5)
  }

  lemma OneSlash(x: string)
    requires GoodName(x)
    ensures SlashAt("/" + x) == 0 && ParentOf("/" + x) == "/" && LeafOf("/" + x) == x
  {
    var path := "/" + x;
    assert Cut(path) == path;
    forall i | 0 < i < |path| ensures path[i] != '/' { assert path[i] == x[i - 1] && x[i - 1] in x; }
    LastSlashIs(path, 0);
  }

  lemma MakeFirst(x: string)
    requires GoodName(x)
    ensures Step(Root(), DoMkdir("/" + x)) == Tree1(x)
  {
    var path := "/" + x;
    OneSlash(x);
    OnlyRootMounted(Root(), "/");
    assert NamesOf("/") == [];
    assert [Entry(x, 2)] + [] == [Entry(x, 2)];
    assert Step(Root(), DoMkdir(path)).nodes == Tree1(x).nodes;
  }

  lemma ResolveFirst(fs: Fs, x: string)
    requires fs.mounts == [Mount("/", 1)] && GoodName(x) && 1 in fs.nodes && fs.nodes[1] == Dir([Entry(x, 2)])
    ensures Resolve(fs, "/" + x) == Some(2)
  {
    NamesOfTwo(x, x);
    OnlyRootMounted(fs, "/" + x);
    WalkOne(fs.nodes, 1, x);
  }

  lemma MakeSecond(x: string, y: string)
    requires GoodName(x) && |x| == 62 && GoodName(y)
    ensures Step(Tree1(x), DoMkdir("/" + x + "/" + y)) == Tree2(x, y)
  {
    var path := "/" + x + "/" + y;
    SlashBehind(x, y);
    ResolveFirst(Tree1(x), x);
    assert [Entry(y, 3)] + [] == [Entry(y, 3)];
    assert Step(Tree1(x), DoMkdir(path)).nodes == Tree2(x, y).nodes;
  }

  /** The last slash that the copy shows is the one behind x. */
  lemma SlashBehind(x: string, rest: string)
    requires GoodName(x) && |x| == 62 && forall i | 0 <= i < |rest| && i < 63 :: rest[i] != '/'
    ensures var path := "/" + x + "/" + rest;
      SlashAt(path) == 63 && ParentOf(path) == "/" + x && LeafOf(path) == rest
  {
    var path := "/" + x + "/" + rest;
    assert forall i | 63 < i < |Cut(path)| :: Cut(path)[i] == rest[i - 64];
    LastSlashIs(Cut(path), 63);
  }

  lemma OpenCut(x: string, y: string, leaf: string)
    requires GoodName(x) && |x| == 62 && GoodName(y) && |y| == 63 && GoodName(leaf)
    requires Resolve(Tree2(x, y), "/" + x + "/" + y + "/" + leaf).None?
    ensures Step(Tree2(x, y), DoOpen("/" + x + "/" + y + "/" + leaf)) == Tree3(x, y)
  {
    var path, rest := "/" + x + "/" + y + "/" + leaf, y + "/" + leaf;
    RestBehind(x, y, leaf);
    SlashBehind(x, rest);
    ResolveFirst(Tree2(x, y), x);
    CreateCut(x, y, rest);
  }

  lemma RestBehind(x: string, y: string, leaf: string)
    requires GoodName(y) && |y| == 63
    ensures var rest := y + "/" + leaf;
      && "/" + x + "/" + y + "/" + leaf == "/" + x + "/" + rest
      && |rest| >= NAME_MAX && rest[..63] == y && forall i | 0 <= i < |rest| && i < 63 :: rest[i] != '/'
  {
    var rest := y + "/" + leaf;
    forall i | 0 <= i < |rest| && i < 63 ensures rest[i] != '/' { assert rest[i] == y[i] && y[i] in y; }
  }

  lemma CreateCut(x: string, y: string, rest: string)
    requires |rest| >= NAME_MAX && rest[..63] == y
    ensures CreateIn(Tree2(x, y), 2, rest, Leaf).0 == Tree3(x, y)
  {
    LongNameIsNotThere([Entry(y, 3)], rest);
    assert [Entry(y, 4)] + [Entry(y, 3)] == [Entry(y, 4), Entry(y, 3)];
    assert CreateIn(Tree2(x, y), 2, rest, Leaf).0.nodes == Tree3(x, y).nodes;
  }

  /** What the two trees resolve. */
  lemma TreesResolve(x: string, y: string, leaf: string)
    requires GoodName(x) && GoodName(y) && GoodName(leaf)
    ensures var q, path := "/" + x + "/" + y, "/" + x + "/" + y + "/" + leaf;
      && Resolve(Tree2(x, y), q) == Some(3) && Resolve(Tree2(x, y), path).None?
      && Resolve(Tree3(x, y), q) == Some(4) && Resolve(Tree3(x, y), path).None?
  {
    var q, path := "/" + x + "/" + y, "/" + x + "/" + y + "/" + leaf;
    NamesOfTwo(x, y);
    GoodNameReads(leaf);
    NamesOfAppend(q, leaf);
    assert [x, y] + [leaf] == [x, y, leaf];
    TreeWalk(Tree2(x, y), x, y, leaf, 3);
    TreeWalk(Tree3(x, y), x, y, leaf, 4);
    OnlyRootMounted(Tree2(x, y), q);
    OnlyRootMounted(Tree2(x, y), path);
    OnlyRootMounted(Tree3(x, y), q);
    OnlyRootMounted(Tree3(x, y), path);
  }

  lemma TreeWalk(fs: Fs, x: string, y: string, leaf: string, v: int)
    requires 1 in fs.nodes && fs.nodes[1] == Dir([Entry(x, 2)]) && Lookup(fs.nodes, 2, y) == Some(v)
    requires Lookup(fs.nodes, v, leaf).None?
    ensures Walk(fs.nodes, 1, [x, y]) == Some(v) && Walk(fs.nodes, 1, [x, y, leaf]).None?
  {
    assert [x, y][1..] == [y] && [x, y, leaf][1..] == [y, leaf] && [y, leaf][1..] == [leaf];
    assert Lookup(fs.nodes, 1, x) == Some(2);
    WalkOne(fs.nodes, 2, y);
    WalkOne(fs.nodes, v, leaf);
  }

  /** Where the copy of the path ends in a name of 63 characters, a directory with that name is hidden: after
      two calls of mkdir and one open, the path of the second directory leads to the new file, and the path
      opened leads nowhere. */
  lemma CutHidesDirectory(x: string, y: string, leaf: string)
    requires GoodName(x) && |x| == 62 && GoodName(y) && |y| == 63 && GoodName(leaf)
    ensures var q, path := "/" + x + "/" + y, "/" + x + "/" + y + "/" + leaf;
      var made := Step(Step(Root(), DoMkdir("/" + x)), DoMkdir(q));
      var fs := Step(made, DoOpen(path));
      && Resolve(made, q) == Some(3) && Resolve(fs, q) == Some(4) && Resolve(fs, path).None?
  {
    MakeFirst(x);
    MakeSecond(x, y);
    TreesResolve(x, y, leaf);
    OpenCut(x, y, leaf);
  }
}
