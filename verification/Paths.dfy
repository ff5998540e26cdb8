/** Path resolution in `kernel/fs/vfs.c` over a tree of vnodes, and creating names in it. */
module Paths {

  const NAME_MAX: int := 64

  datatype Option<T> = None | Some(value: T)

  datatype Entry = Entry(name: string, id: int)

  /** A directory's entries come newest first, as in its linked list. */
  datatype Node = Dir(children: seq<Entry>) | Leaf

  datatype Mount = Mount(path: string, root: int)

  /** Vnodes by number, and the active mounts in table order. */
  datatype Fs = Fs(nodes: map<int, Node>, mounts: seq<Mount>, nextId: int)

  // ---------------------------------------------------------------------------------------------
  // Names in a path, as the resolution loop extracts them

  function SkipSlashes(s: string): (r: string)
    ensures |r| <= |s| && (r != [] ==> r[0] != '/')
  {
    if s != [] && s[0] == '/' then SkipSlashes(s[1..]) else s
  }

  /** Length of the next name: up to a slash, the end, or 63 characters. */
  function NameLength(s: string, limit: nat): (n: nat)
    ensures n <= |s| && n <= limit
  {
    if s == [] || s[0] == '/' || limit == 0 then 0 else 1 + NameLength(s[1..], limit - 1)
  }

  /** The names in `s`, which does not start with a slash. */
  function Names(s: string): seq<string>
    requires s != [] ==> s[0] != '/'
    decreases |s|
  {
    if s == [] then []
    else
      var n := NameLength(s, NAME_MAX - 1);
      [s[..n]] + Names(SkipSlashes(s[n..]))
  }

  function NamesOf(s: string): seq<string> {
    Names(SkipSlashes(s))
  }

  // ---------------------------------------------------------------------------------------------
  // Look-up and resolution

  function Find(children: seq<Entry>, name: string): Option<int> {
    if children == [] then None
    else if children[0].name == name then Some(children[0].id)
    else Find(children[1..], name)
  }

  function Lookup(nodes: map<int, Node>, dir: int, name: string): Option<int> {
    if dir in nodes && nodes[dir].Dir? then Find(nodes[dir].children, name) else None
  }

  function Walk(nodes: map<int, Node>, cur: int, names: seq<string>): Option<int>
    decreases |names|
  {
    if names == [] then Some(cur)
    else match Lookup(nodes, cur, names[0])
      case None => None
      case Some(next) => Walk(nodes, next, names[1..])
  }

  /** Does a mount path match, ending at a name boundary? */
  predicate Matches(mp: string, path: string) {
    mp <= path && (mp == "/" || |mp| == |path| || path[|mp|] == '/')
  }

  /** The scan of `find_mount` over the first n mounts: the longest match, -1 if none. */
  function BestMount(mounts: seq<Mount>, path: string, n: nat): (r: int)
    requires n <= |mounts|
    ensures -1 <= r < n
    ensures r >= 0 ==> Matches(mounts[r].path, path) && mounts[r].path != []
    ensures forall i | 0 <= i < n && Matches(mounts[i].path, path) && mounts[i].path != [] ::
      r >= 0 && |mounts[i].path| <= |mounts[r].path|
  {
    if n == 0 then -1
    else
      var r, mp := BestMount(mounts, path, n - 1), mounts[n - 1].path;
      if Matches(mp, path) && |mp| > (if r < 0 then 0 else |mounts[r].path|) then n - 1 else r
  }

  function FindMount(mounts: seq<Mount>, path: string): int {
    BestMount(mounts, path, |mounts|)
  }

  /** `vfs_resolve` */
  function Resolve(fs: Fs, path: string): Option<int> {
    if path == [] || path[0] != '/' then None
    else
      var m := FindMount(fs.mounts, path);
      if m < 0 then None
      else Walk(fs.nodes, fs.mounts[m].root, NamesOf(path[|fs.mounts[m].path|..]))
  }

  // ---------------------------------------------------------------------------------------------
  // Creating

  /** Position of the last slash, or -1. */
  function LastSlash(s: string): (r: int)
    ensures -1 <= r < |s|
    ensures r >= 0 ==> s[r] == '/'
    ensures forall i | r < i < |s| :: s[i] != '/'
  {
    if s == [] then -1
    else if s[|s| - 1] == '/' then |s| - 1
    else LastSlash(s[..|s| - 1])
  }

  const PATH_MAX: int := 128

  /** The copy of the path in which `vfs_open` and `vfs_mkdir` look for the last slash. */
  function Cut(path: string): string {
    if |path| < PATH_MAX then path else path[..PATH_MAX - 1]
  }

  function SlashAt(path: string): (r: int)
    ensures -1 <= r < |path| && r < PATH_MAX - 1 && (r >= 0 ==> path[r] == '/')
  {
    LastSlash(Cut(path))
  }

  function ParentOf(path: string): string {
    if SlashAt(path) <= 0 then "/" else path[..SlashAt(path)]
  }

  /** The name to be made. It is taken from the whole path, not from the copy. */
  function LeafOf(path: string): string {
    path[SlashAt(path) + 1..]
  }

  /** `ramfs_create` of a new node: the entry goes to the front of the list. */
  function AddNode(fs: Fs, dir: int, name: string, node: Node): Fs
    requires dir in fs.nodes && fs.nodes[dir].Dir?
  {
    var children := [Entry(name, fs.nextId)] + fs.nodes[dir].children;
    fs.(nodes := fs.nodes[dir := Dir(children)][fs.nextId := node], nextId := fs.nextId + 1)
  }

  /** The name as stored: cut to 63 characters. */
  function Stored(name: string): string {
    if |name| < NAME_MAX then name else name[..NAME_MAX - 1]
  }

  /** `ramfs_create`: an existing entry is handed back, else one is made. */
  function CreateIn(fs: Fs, dir: int, name: string, node: Node): (Fs, int)
    requires dir in fs.nodes && fs.nodes[dir].Dir?
  {
    match Find(fs.nodes[dir].children, name)
    case Some(id) => (fs, id)
    case None => (AddNode(fs, dir, Stored(name), node), fs.nextId)
  }

  /** The directory in which the last name of `path` is to be made. */
  function DirFor(fs: Fs, path: string): (r: Option<int>)
    ensures r.Some? ==> r.value in fs.nodes && fs.nodes[r.value].Dir?
  {
    if SlashAt(path) < 0 then None
    else match Resolve(fs, ParentOf(path))
      case None => None
      case Some(dir) => if dir in fs.nodes && fs.nodes[dir].Dir? then Some(dir) else None
  }

  /** `vfs_open` with the create flag, up to the vnode: created only if the path does not resolve. */
  function OpenCreate(fs: Fs, path: string): (Fs, Option<int>) {
    match Resolve(fs, path)
    case Some(v) => (fs, Some(v))
    case None =>
      match DirFor(fs, path)
      case None => (fs, None)
      case Some(dir) => var (fs', v) := CreateIn(fs, dir, LeafOf(path), Leaf); (fs', Some(v))
  }

  /** `vfs_mkdir`, with the vnode that `ramfs_create` hands back. */
  function Mkdir(fs: Fs, path: string): (Fs, Option<int>) {
    if path == [] || path[0] != '/' then (fs, None)
    else
      match DirFor(fs, path)
      case None => (fs, None)
      case Some(dir) => var (fs', v) := CreateIn(fs, dir, LeafOf(path), Dir([])); (fs', Some(v))
  }

  /** A creation, as a step from one file system to the next. */
  datatype Op = DoOpen(path: string) | DoMkdir(path: string)

  function Step(fs: Fs, op: Op): Fs {
    if op.DoOpen? then OpenCreate(fs, op.path).0 else Mkdir(fs, op.path).0
  }

  function RunOps(fs: Fs, ops: seq<Op>): Fs
    decreases |ops|
  {
    if ops == [] then fs else RunOps(Step(fs, ops[0]), ops[1..])
  }

  const MOUNT_MAX: int := 8

  /** `vfs_mount`; the copy of the path in the mount table is cut too. */
  function MountAt(fs: Fs, path: string, root: int): Fs {
    if root !in fs.nodes || |fs.mounts| >= MOUNT_MAX then fs
    else fs.(mounts := fs.mounts + [Mount(Cut(path), root)])
  }

  datatype Event = Creates(op: Op) | Mounts(path: string, root: int)

  function After(fs: Fs, event: Event): Fs {
    match event
    case Creates(op) => Step(fs, op)
    case Mounts(path, root) => MountAt(fs, path, root)
  }

  function History(fs: Fs, events: seq<Event>): Fs {
    if events == [] then fs else After(History(fs, events[..|events| - 1]), events[|events| - 1])
  }

  /** After `vfs_init` and `ramfs_init`: an empty root directory mounted at "/". */
  function Root(): Fs {
    Fs(map[1 := Dir([])], [Mount("/", 1)], 2)
  }

  ghost predicate Reachable(fs: Fs) {
    exists events :: History(Root(), events) == fs
  }

  lemma ReachesAfter(fs: Fs, event: Event)
    requires Reachable(fs)
    ensures Reachable(After(fs, event))
  {
    var events :| History(Root(), events) == fs;
    assert (events + [event])[..|events|] == events;
    assert History(Root(), events + [event]) == After(fs, event);
  }

  // ---------------------------------------------------------------------------------------------
  // Names of a longer path

  lemma {:induction false} SkipSlashesAppend(s: string, t: string)
    ensures SkipSlashes(s + t) == if SkipSlashes(s) == [] then SkipSlashes(t) else SkipSlashes(s) + t
  {
    if s == [] {
      assert s + t == t;
    } else if s[0] == '/' {
      assert (s + t)[1..] == s[1..] + t;
      SkipSlashesAppend(s[1..], t);
    }
  }

  /** A following slash does not change the length of the next name. */
  lemma {:induction false} NameLengthAppend(s: string, t: string, limit: nat)
    requires t != [] && t[0] == '/'
    ensures NameLength(s + t, limit) == NameLength(s, limit)
  {
    if s == [] {
      assert s + t == t;
    } else if s[0] != '/' && limit > 0 {
      assert (s + t)[1..] == s[1..] + t;
      NameLengthAppend(s[1..], t, limit - 1);
    }
  }

  predicate OnlySlashes(s: string) {
    forall c | c in s :: c == '/'
  }

  predicate GoodName(s: string) {
    0 < |s| < NAME_MAX && '/' !in s
  }

  lemma {:induction false} SkipsAll(s: string)
    ensures SkipSlashes(s) == [] <==> OnlySlashes(s)
  {
    if s == [] {
    } else {
      assert s[0] in s && forall c | c in s[1..] :: c in s;
      if s[0] == '/' {
        SkipsAll(s[1..]);
        assert forall c | c in s :: c == '/' || c in s[1..];
      }
    }
  }

  lemma {:induction false} NameLengthIs(s: string, n: nat, limit: nat)
    requires n <= |s| && n <= limit && '/' !in s[..n] && (n == |s| || s[n] == '/' || n == limit)
    ensures NameLength(s, limit) == n
  {
    if n == 0 {
    } else {
      assert s[0] in s[..n] && s[1..][..n - 1] == s[..n][1..];
      NameLengthIs(s[1..], n - 1, limit - 1);
    }
  }

  lemma {:induction false} NameHasNoSlash(s: string, limit: nat)
    ensures '/' !in s[..NameLength(s, limit)]
    ensures s != [] && s[0] != '/' && limit > 0 ==> NameLength(s, limit) > 0
  {
    if s != [] && s[0] != '/' && limit > 0 {
      NameHasNoSlash(s[1..], limit - 1);
      assert s[..NameLength(s, limit)] == [s[0]] + s[1..][..NameLength(s[1..], limit - 1)];
    }
  }

  lemma {:induction false} NamesAreGood(s: string)
    requires s != [] ==> s[0] != '/'
    ensures forall n | n in Names(s) :: GoodName(n)
    decreases |s|
  {
    if s == [] {
    } else {
      NameHasNoSlash(s, NAME_MAX - 1);
      NamesAreGood(SkipSlashes(s[NameLength(s, NAME_MAX - 1)..]));
    }
  }

  lemma FirstNameAppend(s: string, t: string)
    requires s != [] && s[0] != '/' && t != [] && t[0] == '/'
    ensures var n := NameLength(s, NAME_MAX - 1);
      n > 0 && Names(s + t) == [s[..n]] + Names(SkipSlashes(s[n..] + t))
  {
    var n := NameLength(s, NAME_MAX - 1);
    NameLengthAppend(s, t, NAME_MAX - 1);
    assert (s + t)[..n] == s[..n] && (s + t)[n..] == s[n..] + t;
  }

  lemma {:induction false} NamesAppend(s: string, t: string)
    requires (s != [] ==> s[0] != '/') && t != [] && t[0] == '/'
    ensures NamesOf(s + t) == Names(s) + NamesOf(t)
    decreases |s|
  {
    if s == [] {
      assert s + t == t;
    } else {
      var n := NameLength(s, NAME_MAX - 1);
      FirstNameAppend(s, t);
      var rest := SkipSlashes(s[n..]);
      assert NamesOf(s[n..] + t) == Names(rest) + NamesOf(t) by {
        SkipSlashesAppend(s[n..], t);
        if rest != [] {
          NamesAppend(rest, t);
        }
      }
    }
  }

  /** Putting a slash and more text behind a path adds the names in that text. */
  lemma NamesOfAppend(s: string, leaf: string)
    ensures NamesOf(s + "/" + leaf) == NamesOf(s) + NamesOf(leaf)
  {
    var t := "/" + leaf;
    assert s + "/" + leaf == s + t;
    assert t[1..] == leaf;
    SkipSlashesAppend(s, t);
    if SkipSlashes(s) != [] {
      NamesAppend(SkipSlashes(s), t);
    }
  }

  // ---------------------------------------------------------------------------------------------
  // Mounts of a longer path

  predicate Absolute(path: string) {
    path != [] && path[0] == '/'
  }

  lemma {:induction false} LastSlashIs(s: string, k: int)
    requires -1 <= k < |s| && (k >= 0 ==> s[k] == '/') && forall i | k < i < |s| :: s[i] != '/'
    ensures LastSlash(s) == k
  {
  }

  /** Parent, slash and leaf make up the path. */
  lemma SplitAtSlash(path: string)
    requires Absolute(path)
    ensures var k, parent, leaf := SlashAt(path), ParentOf(path), LeafOf(path);
      && k >= 0 && parent <= path && Absolute(parent)
      && (if k == 0 then parent == "/" && path == parent + leaf else path == parent + "/" + leaf && |parent| == k)
  {
    assert Cut(path)[0] == '/';
  }

  /** A mount matches the parent exactly when it matches the path and is no longer than the parent. */
  lemma MatchesParent(mp: string, path: string)
    requires Absolute(path) && mp != []
    ensures Matches(mp, ParentOf(path)) <==> Matches(mp, path) && |mp| <= |ParentOf(path)|
  {
    SplitAtSlash(path);
  }

  lemma {:induction false} SameBest(mounts: seq<Mount>, p: string, q: string, n: nat)
    requires n <= |mounts|
    requires forall i | 0 <= i < n && mounts[i].path != [] :: Matches(mounts[i].path, p) <==> Matches(mounts[i].path, q)
    ensures BestMount(mounts, p, n) == BestMount(mounts, q, n)
  {
    if n == 0 {
    } else {
      SameBest(mounts, p, q, n - 1);
    }
  }

  /** Something is mounted on the path or between its parent and the path. */
  ghost predicate MountedBelow(fs: Fs, path: string) {
    exists i :: 0 <= i < |fs.mounts| && Matches(fs.mounts[i].path, path) && |fs.mounts[i].path| > |ParentOf(path)|
  }

  lemma RestOfPath(mp: string, path: string)
    requires Absolute(path) && mp != [] && Matches(mp, ParentOf(path)) && mp <= path
    ensures NamesOf(path[|mp|..]) == NamesOf(ParentOf(path)[|mp|..]) + NamesOf(LeafOf(path))
  {
    var k, parent, leaf := SlashAt(path), ParentOf(path), LeafOf(path);
    SplitAtSlash(path);
    if k == 0 {
      assert parent[|mp|..] == [] && path[|mp|..] == leaf;
      assert NamesOf([]) == [];
    } else {
      assert path[|mp|..] == parent[|mp|..] + "/" + leaf;
      NamesOfAppend(parent[|mp|..], leaf);
    }
  }

  lemma {:induction false} WalkAppend(nodes: map<int, Node>, cur: int, names: seq<string>, more: seq<string>)
    ensures Walk(nodes, cur, names + more) == match Walk(nodes, cur, names)
                                              case None => None
                                              case Some(dir) => Walk(nodes, dir, more)
    decreases |names|
  {
    if names == [] {
      assert names + more == more;
    } else {
      assert (names + more)[1..] == names[1..] + more;
      match Lookup(nodes, cur, names[0])
      case None =>
      case Some(next) => WalkAppend(nodes, next, names[1..], more);
    }
  }

  /** Unless something is mounted below its parent, a path is resolved like its parent, followed by the
      names in its leaf. */
  lemma ResolveViaParent(fs: Fs, path: string)
    requires Absolute(path) && !MountedBelow(fs, path)
    ensures Resolve(fs, path) == match Resolve(fs, ParentOf(path))
                                 case None => None
                                 case Some(dir) => Walk(fs.nodes, dir, NamesOf(LeafOf(path)))
  {
    var parent, leaf := ParentOf(path), LeafOf(path);
    SplitAtSlash(path);
    forall i | 0 <= i < |fs.mounts| && fs.mounts[i].path != []
      ensures Matches(fs.mounts[i].path, path) <==> Matches(fs.mounts[i].path, parent)
    {
      MatchesParent(fs.mounts[i].path, path);
    }
    SameBest(fs.mounts, path, parent, |fs.mounts|);
    var m := FindMount(fs.mounts, path);
    if m >= 0 {
      RestOfPath(fs.mounts[m].path, path);
      WalkAppend(fs.nodes, fs.mounts[m].root, NamesOf(parent[|fs.mounts[m].path|..]), NamesOf(leaf));
    }
  }

  ghost predicate IsMountPoint(fs: Fs, path: string) {
    exists i :: 0 <= i < |fs.mounts| && fs.mounts[i].path == path
  }

  /** A mount point resolves to the root of what is mounted on it. */
  lemma MountPointResolves(fs: Fs, path: string)
    requires Absolute(path) && IsMountPoint(fs, path)
    ensures exists i ::
      0 <= i < |fs.mounts| && fs.mounts[i].path == path && Resolve(fs, path) == Some(fs.mounts[i].root)
  {
  }
}
