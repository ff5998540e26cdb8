/** The loops of `find_mount`, `vfs_resolve` and `ramfs_lookup`, and creation in place, proved to act as
    `Paths`. */
module KernelVfs {
  import opened Paths
  import opened Creation

  class Vfs {
    var nodes: map<int, Node>
    var mounts: seq<Mount>
    var nextId: int

    function Abs(): Fs
      reads this
    {
      Fs(nodes, mounts, nextId)
    }

    /** `vfs_init` and `ramfs_init`: an empty root directory mounted at "/". */
    constructor ()
      ensures Abs() == Root() && FsInv(Abs()) && Paths.Resolve(Abs(), "/") == Some(1)
    {
      nodes, mounts, nextId := map[1 := Dir([])], [Mount("/", 1)], 2;
      new;
      assert Matches(mounts[0].path, "/");
      assert "/"[1..] == [];
    }

    /** `vfs_mount` of an existing vnode, with its result. Nothing is ever unmounted, so the first free slot is
        behind the mounts. */
    method VfsMount(path: string, root: int) returns (r: int)
      requires root in nodes
      modifies this`mounts
      ensures Abs() == MountAt(old(Abs()), path, root)
      ensures r == if |old(mounts)| < MOUNT_MAX then 0 else -1
    {
      if |mounts| >= MOUNT_MAX {
        return -1;
      }
      mounts := mounts + [Mount(if |path| < PATH_MAX then path else path[..PATH_MAX - 1], root)];
      return 0;
    }

    /** `find_mount`: index of the longest match, or -1. */
    method FindMount(path: string) returns (best: int)
      ensures best == Paths.FindMount(mounts, path)
    {
      best := -1;
      var bestLen := 0;
      for i := 0 to |mounts|
        invariant best == BestMount(mounts, path, i)
        invariant bestLen == if best < 0 then 0 else |mounts[best].path|
      {
        var mp := mounts[i].path;
        var mlen := |mp|;
        if mp <= path {
          var boundary := (mlen == 1 && mp[0] == '/') || mlen == |path| || path[mlen] == '/';
          if boundary && mlen > bestLen {
            best := i;
            bestLen := mlen;
          }
        }
      }
    }

    /** `ramfs_lookup`: the walk along a directory's list. */
    method RamfsLookup(dir: int, name: string) returns (r: Option<int>)
      ensures r == Lookup(nodes, dir, name)
    {
      if dir !in nodes || !nodes[dir].Dir? {
        return None;
      }
      var d := nodes[dir].children;
      while d != []
        invariant Find(d, name) == Lookup(nodes, dir, name)
        decreases |d|
      {
        if d[0].name == name {
          return Some(d[0].id);
        }
        d := d[1..];
      }
      return None;
    }

    /** Copies the next name out of `path`, starting at `rest`, at most 63 characters. */
    method NextName(path: string, rest: nat) returns (component: string, after: nat)
      requires rest <= |path|
      ensures component == path[rest..][..NameLength(path[rest..], NAME_MAX - 1)]
      ensures after == rest + |component| <= |path|
    {
      component := [];
      after := rest;
      while after < |path| && path[after] != '/' && |component| < NAME_MAX - 1
        invariant rest <= after <= |path| && after == rest + |component| && |component| <= NAME_MAX - 1
        invariant component == path[rest..after]
        invariant NameLength(path[rest..], NAME_MAX - 1)
                  == |component| + NameLength(path[after..], NAME_MAX - 1 - |component|)
      {
        assert path[after..][1..] == path[after + 1..];
        component := component + [path[after]];
        after := after + 1;
      }
      assert path[rest..][..|component|] == path[rest..after];
    }

    method SkipSlashes(path: string, rest: nat) returns (after: nat)
      requires rest <= |path|
      ensures rest <= after <= |path| && path[after..] == Paths.SkipSlashes(path[rest..])
    {
      after := rest;
      while after < |path| && path[after] == '/'
        invariant rest <= after <= |path|
        invariant Paths.SkipSlashes(path[after..]) == Paths.SkipSlashes(path[rest..])
      {
        assert path[after..][1..] == path[after + 1..];
        after := after + 1;
      }
    }

    /** `vfs_resolve` */
    method Resolve(path: string) returns (r: Option<int>)
      ensures r == Paths.Resolve(Abs(), path)
    {
      if path == [] || path[0] != '/' {
        return None;
      }
      var m := FindMount(path);
      if m < 0 {
        return None;
      }
      var cur := mounts[m].root;
      var rest := SkipSlashes(path, |mounts[m].path|);
      while rest < |path|
        invariant 0 <= rest <= |path| && (rest < |path| ==> path[rest] != '/')
        invariant Walk(nodes, cur, Names(path[rest..])) == Paths.Resolve(Abs(), path)
      {
        var component, after := NextName(path, rest);
        assert path[rest..][|component|..] == path[after..];
        assert |component| > 0;
        rest := SkipSlashes(path, after);
        var next := RamfsLookup(cur, component);
        if next.None? {
          return None;
        }
        cur := next.value;
      }
      return Some(cur);
    }

    /** `ramfs_create`, on an existing directory. */
    method RamfsCreate(dir: int, name: string, node: Node) returns (v: int)
      requires dir in nodes && nodes[dir].Dir?
      modifies this
      ensures (Abs(), v) == CreateIn(old(Abs()), dir, name, node)
    {
      var existing := RamfsLookup(dir, name);
      if existing.Some? {
        return existing.value;
      }
      v := nextId;
      nextId := nextId + 1;
      var d := Entry(if |name| < NAME_MAX then name else name[..NAME_MAX - 1], v);
      nodes := nodes[dir := Dir([d] + nodes[dir].children)][v := node];
    }

    /** The scan backwards for the last slash, in the copy of the path. */
    method FindSlash(path: string) returns (parent: string, slash: int)
      ensures parent == Cut(path) && slash == SlashAt(path)
    {
      parent := if |path| < PATH_MAX then path else path[..PATH_MAX - 1];
      slash := |parent| - 1;
      while slash >= 0 && parent[slash] != '/'
        invariant -1 <= slash < |parent|
        invariant LastSlash(parent) == LastSlash(parent[..slash + 1])
      {
        assert parent[..slash + 1][..slash] == parent[..slash];
        slash := slash - 1;
      }
    }

    /** `vfs_open` with the create flag, up to the vnode. */
    method OpenCreate(path: string) returns (v: Option<int>)
      modifies this
      ensures (Abs(), v) == Paths.OpenCreate(old(Abs()), path)
    {
      v := Resolve(path);
      if v.Some? {
        return;
      }
      var parent, slash := FindSlash(path);
      if slash < 0 {
        return None;
      }
      assert parent[..slash] == path[..slash];
      var dir := Resolve(if slash == 0 then "/" else parent[..slash]);
      if dir.None? || dir.value !in nodes || !nodes[dir.value].Dir? {
        return None;
      }
      var id := RamfsCreate(dir.value, path[slash + 1..], Leaf);
      return Some(id);
    }

    /** `vfs_mkdir` */
    method Mkdir(path: string) returns (v: Option<int>)
      modifies this
      ensures (Abs(), v) == Paths.Mkdir(old(Abs()), path)
    {
      if path == [] || path[0] != '/' {
        return None;
      }
      var parent, slash := FindSlash(path);
      if slash < 0 {
        return None;
      }
      assert parent[..slash] == path[..slash];
      var dir := Resolve(if slash == 0 then "/" else parent[..slash]);
      if dir.None? || dir.value !in nodes || !nodes[dir.value].Dir? {
        return None;
      }
      var id := RamfsCreate(dir.value, path[slash + 1..], Dir([]));
      return Some(id);
    }
  }
}
