/** Resolution compared with a component-by-component walk from the deepest mount. */
module PathWalk {
  import opened Paths
  import opened Creation

  // ---------------------------------------------------------------------------------------------
  // Components

  function FirstSlash(s: string): (n: nat)
    ensures n <= |s| && '/' !in s[..n] && (n < |s| ==> s[n] == '/')
  {
    if s == [] || s[0] == '/' then 0
    else
      assert s[..1 + FirstSlash(s[1..])] == [s[0]] + s[1..][..FirstSlash(s[1..])];
      1 + FirstSlash(s[1..])
  }

  /** The non-empty stretches between slashes. */
  function Components(s: string): seq<string>
    decreases |s|
  {
    if s == [] then []
    else if s[0] == '/' then Components(s[1..])
    else [s[..FirstSlash(s)]] + Components(s[FirstSlash(s)..])
  }

  predicate IsComponent(c: string) {
    c != [] && '/' !in c
  }

  /** The canonical text of a list of components; empty for the empty list. */
  function Text(cs: seq<string>): string {
    if cs == [] then [] else "/" + cs[0] + Text(cs[1..])
  }

  lemma {:induction false} ComponentsAre(s: string)
    ensures forall c | c in Components(s) :: IsComponent(c)
    decreases |s|
  {
    if s == [] {
    } else {
      if s[0] == '/' {
        ComponentsAre(s[1..]);
      } else {
        ComponentsAre(s[FirstSlash(s)..]);
      }
    }
  }

  lemma {:induction false} FirstSlashAt(c: string, rest: string)
    requires '/' !in c && (rest == [] || rest[0] == '/')
    ensures FirstSlash(c + rest) == |c|
  {
    if c == [] {
      assert c + rest == rest;
    } else {
      assert c[0] in c;
      assert (c + rest)[1..] == c[1..] + rest;
      FirstSlashAt(c[1..], rest);
    }
  }

  lemma FirstComponent(c: string, tail: string)
    requires IsComponent(c) && (tail == [] || tail[0] == '/')
    ensures Components("/" + c + tail) == [c] + Components(tail)
  {
    var s := c + tail;
    assert ("/" + c + tail)[1..] == s;
    FirstSlashAt(c, tail);
    assert s[0] == c[0] && c[0] in c;
    assert s[..|c|] == c && s[|c|..] == tail;
  }

  /** Components of a canonical text followed by a boundary. */
  lemma {:induction false} ComponentsOfText(cs: seq<string>, rest: string)
    requires (forall c | c in cs :: IsComponent(c)) && (rest == [] || rest[0] == '/')
    ensures Components(Text(cs) + rest) == cs + Components(rest)
    decreases |cs|
  {
    if cs == [] {
      assert Text(cs) + rest == rest;
    } else {
      TextUnfolds(cs, rest);
      FirstComponent(cs[0], Text(cs[1..]) + rest);
      ComponentsOfText(cs[1..], rest);
      FrontOf(cs, Components(rest));
    }
  }

  lemma TextUnfolds(cs: seq<string>, rest: string)
    requires cs != [] && (rest == [] || rest[0] == '/')
    ensures Text(cs) + rest == "/" + cs[0] + (Text(cs[1..]) + rest)
    ensures var tail := Text(cs[1..]) + rest; tail == [] || tail[0] == '/'
  {
  }

  lemma FrontOf(cs: seq<string>, ds: seq<string>)
    requires cs != []
    ensures [cs[0]] + (cs[1..] + ds) == cs + ds
  {
  }

  lemma {:induction false} TextSplits(cs: seq<string>, k: nat)
    requires k <= |cs|
    ensures Text(cs) == Text(cs[..k]) + Text(cs[k..])
    decreases k
  {
    if k == 0 {
      assert cs[..0] == [] && cs[0..] == cs;
    } else {
      var head, front, rest := "/" + cs[0], cs[..k], cs[k..];
      assert front[0] == cs[0] && front[1..] == cs[1..][..k - 1] && cs[1..][k - 1..] == rest;
      calc {
        Text(cs);
        head + Text(cs[1..]);
        { TextSplits(cs[1..], k - 1); }
        head + (Text(front[1..]) + Text(rest));
        head + Text(front[1..]) + Text(rest);
        Text(front) + Text(rest);
      }
    }
  }

  // ---------------------------------------------------------------------------------------------
  // The resolution loop takes components

  lemma {:induction false} NameLengthIsFirstSlash(s: string, limit: nat)
    requires FirstSlash(s) <= limit
    ensures NameLength(s, limit) == FirstSlash(s)
  {
    if s != [] && s[0] != '/' {
      NameLengthIsFirstSlash(s[1..], limit - 1);
    }
  }

  lemma {:induction false} ComponentsSkip(s: string)
    ensures Components(SkipSlashes(s)) == Components(s)
  {
    if s != [] && s[0] == '/' {
      ComponentsSkip(s[1..]);
    }
  }

  predicate Short(s: string) {
    forall c | c in Components(s) :: |c| < NAME_MAX
  }

  /** As long as no component is over 63 characters, the names taken are the components. */
  lemma {:induction false} NamesAreComponents(s: string)
    requires (s != [] ==> s[0] != '/') && Short(s)
    ensures Names(s) == Components(s)
    decreases |s|
  {
    if s == [] {
    } else {
      var n := FirstSlash(s);
      assert s[..n] in Components(s);
      NameLengthIsFirstSlash(s, NAME_MAX - 1);
      ComponentsSkip(s[n..]);
      NamesAreComponents(SkipSlashes(s[n..]));
    }
  }

  lemma NamesOfAreComponents(s: string)
    requires Short(s)
    ensures NamesOf(s) == Components(s)
  {
    ComponentsSkip(s);
    NamesAreComponents(SkipSlashes(s));
  }

  // ---------------------------------------------------------------------------------------------
  // Mounts

  /** "/" or a text without doubled or trailing slashes. */
  predicate Canonical(mp: string) {
    mp == if Components(mp) == [] then "/" else Text(Components(mp))
  }

  /** Mount paths are canonical, and fit the copy in the mount table. */
  ghost predicate CanonicalMounts(mounts: seq<Mount>) {
    forall i | 0 <= i < |mounts| :: Canonical(mounts[i].path) && |mounts[i].path| < PATH_MAX
  }

  /** The path begins with the canonical text of its components: no doubled slash before the last one. */
  predicate Neat(path: string) {
    var t := Text(Components(path));
    t <= path && (|path| == |t| || path[|t|] == '/')
  }

  /** So it does as far as a mount path can reach. */
  predicate NeatForMounts(path: string) {
    forall k | 0 < k <= |Components(path)| && |Text(Components(path)[..k])| < PATH_MAX ::
      Matches(Text(Components(path)[..k]), path)
  }

  lemma NeatIsNeatForMounts(path: string)
    requires Absolute(path) && Neat(path)
    ensures NeatForMounts(path)
  {
    var cs := Components(path);
    forall k | 0 < k <= |cs| && |Text(cs[..k])| < PATH_MAX
      ensures Matches(Text(cs[..k]), path)
    {
      TextSplits(cs, k);
      if k < |cs| {
        assert Text(cs[k..])[0] == '/';
        assert Text(cs)[|Text(cs[..k])|] == '/';
      } else {
        assert cs[..k] == cs;
      }
    }
  }

  lemma {:induction false} TextIsNoLonger(s: string)
    ensures |Text(Components(s))| <= if s == [] || s[0] == '/' then |s| else |s| + 1
    decreases |s|
  {
    if s == [] {
    } else {
      if s[0] == '/' {
        TextIsNoLonger(s[1..]);
      } else {
        var rest := s[FirstSlash(s)..];
        TextIsNoLonger(rest);
        assert Components(s)[1..] == Components(rest);
      }
    }
  }

  /** For a path of at most 127 characters the two are the same. */
  lemma NeatIffNeatForMounts(path: string)
    requires Absolute(path) && |path| < PATH_MAX
    ensures Neat(path) <==> NeatForMounts(path)
  {
    var cs := Components(path);
    if Neat(path) {
      NeatIsNeatForMounts(path);
    }
    if NeatForMounts(path) && cs != [] {
      TextIsNoLonger(path);
      assert cs[..|cs|] == cs;
      assert Matches(Text(cs[..|cs|]), path);
    }
  }

  /** The mount with the most components among those that are a prefix of `cs`; the first one of those;
      -1 if there is none. */
  function Deepest(mounts: seq<Mount>, cs: seq<string>, n: nat): (r: int)
    requires n <= |mounts|
    ensures -1 <= r < n
    ensures r >= 0 ==> Components(mounts[r].path) <= cs
  {
    if n == 0 then -1
    else
      var r, mc := Deepest(mounts, cs, n - 1), Components(mounts[n - 1].path);
      if mc <= cs && (r < 0 || |mc| > |Components(mounts[r].path)|) then n - 1 else r
  }

  lemma {:induction false} DeepestIsDeepest(mounts: seq<Mount>, cs: seq<string>, n: nat)
    requires n <= |mounts|
    ensures var r := Deepest(mounts, cs, n);
      forall i | 0 <= i < n && Components(mounts[i].path) <= cs ::
        r >= 0 && |Components(mounts[i].path)| <= |Components(mounts[r].path)|
  {
    if n == 0 {
    } else {
      DeepestIsDeepest(mounts, cs, n - 1);
    }
  }

  /** The reference: walk the components that the deepest mount leaves over. */
  function Reference(fs: Fs, path: string): Option<int> {
    if path == [] || path[0] != '/' then None
    else
      var cs := Components(path);
      var m := Deepest(fs.mounts, cs, |fs.mounts|);
      if m < 0 then None
      else Walk(fs.nodes, fs.mounts[m].root, cs[|Components(fs.mounts[m].path)|..])
  }

  /** A textual match is a component prefix, and what is left over are the other components. */
  lemma MatchIsPrefix(mp: string, path: string)
    requires Canonical(mp) && Matches(mp, path) && path != [] && path[0] == '/'
    ensures Components(mp) <= Components(path)
    ensures Components(path[|mp|..]) == Components(path)[|Components(mp)|..]
  {
    var mc := Components(mp);
    if mp != "/" {
      ComponentsAre(mp);
      assert path == Text(mc) + path[|mp|..];
      ComponentsOfText(mc, path[|mp|..]);
    } else {
      assert Components("/") == Components("/"[1..]);
    }
  }

  lemma PrefixIsMatch(mp: string, path: string)
    requires Canonical(mp) && |mp| < PATH_MAX && NeatForMounts(path) && Absolute(path)
    requires Components(mp) <= Components(path)
    ensures Matches(mp, path)
  {
    var mc, cs := Components(mp), Components(path);
    if mc != [] {
      assert cs[..|mc|] == mc;
    }
  }

  lemma MatchIffPrefix(mp: string, path: string)
    requires Canonical(mp) && |mp| < PATH_MAX && NeatForMounts(path) && Absolute(path)
    ensures Matches(mp, path) <==> Components(mp) <= Components(path)
  {
    if Matches(mp, path) {
      MatchIsPrefix(mp, path);
    }
    if Components(mp) <= Components(path) {
      PrefixIsMatch(mp, path);
    }
  }

  lemma LongerText(ac: seq<string>, bc: seq<string>)
    requires ac <= bc && |ac| < |bc| && forall c | c in bc :: IsComponent(c)
    ensures |Text(ac)| + 2 <= |Text(bc)|
  {
    var rest := bc[|ac|..];
    assert bc[..|ac|] == ac;
    TextSplits(bc, |ac|);
    assert rest[0] == bc[|ac|] && bc[|ac|] in bc;
    TextNotEmpty(rest);
  }

  lemma TextNotEmpty(cs: seq<string>)
    requires cs != [] && IsComponent(cs[0])
    ensures |Text(cs)| >= 2
  {
  }

  /** Deeper mounts have longer paths. */
  lemma DeeperIsLonger(a: string, b: string, cs: seq<string>)
    requires Canonical(a) && Canonical(b) && Components(a) <= cs && Components(b) <= cs
    requires |Components(a)| < |Components(b)|
    ensures |a| < |b|
  {
    ComponentsAre(b);
    LongerText(Components(a), Components(b));
  }

  lemma SameDepth(a: string, b: string, cs: seq<string>)
    requires Canonical(a) && Canonical(b) && Components(a) <= cs && Components(b) <= cs
    requires |Components(a)| == |Components(b)|
    ensures a == b
  {
    assert Components(a) == Components(b);
  }

  lemma PreferDeeper(a: string, b: string, cs: seq<string>)
    requires Canonical(a) && Canonical(b) && Components(a) <= cs && Components(b) <= cs
    ensures |a| > |b| <==> |Components(a)| > |Components(b)|
  {
    if |Components(a)| > |Components(b)| {
      DeeperIsLonger(b, a, cs);
    } else if |Components(a)| < |Components(b)| {
      DeeperIsLonger(a, b, cs);
    } else {
      SameDepth(a, b, cs);
    }
  }

  /** A mount path matches exactly if its components come first in the path. */
  ghost predicate MatchByComponents(mounts: seq<Mount>, path: string) {
    forall i | 0 <= i < |mounts| ::
      && Canonical(mounts[i].path) && mounts[i].path != []
      && (Matches(mounts[i].path, path) <==> Components(mounts[i].path) <= Components(path))
  }

  lemma NeatMatches(mounts: seq<Mount>, path: string)
    requires CanonicalMounts(mounts) && NeatForMounts(path) && Absolute(path)
    ensures MatchByComponents(mounts, path)
  {
    forall i | 0 <= i < |mounts|
      ensures Matches(mounts[i].path, path) <==> Components(mounts[i].path) <= Components(path)
    {
      MatchIffPrefix(mounts[i].path, path);
    }
  }

  /** Both scans prefer mount i over mount r, the best one so far, in the same cases. */
  predicate SamePreference(mounts: seq<Mount>, path: string, i: int, r: int)
    requires 0 <= i < |mounts| && -1 <= r < |mounts|
  {
    Matches(mounts[i].path, path) && |mounts[i].path| > (if r < 0 then 0 else |mounts[r].path|)
    <==> Components(mounts[i].path) <= Components(path)
         && (r < 0 || |Components(mounts[i].path)| > |Components(mounts[r].path)|)
  }

  lemma StepAgrees(mounts: seq<Mount>, path: string, i: int, r: int)
    requires 0 <= i < |mounts| && MatchByComponents(mounts, path) && -1 <= r < |mounts|
    requires r >= 0 ==> Components(mounts[r].path) <= Components(path)
    ensures SamePreference(mounts, path, i, r)
  {
    if r >= 0 && Components(mounts[i].path) <= Components(path) {
      PreferDeeper(mounts[i].path, mounts[r].path, Components(path));
    }
  }

  predicate StepSame(mounts: seq<Mount>, path: string, n: int) {
    0 < n <= |mounts| && SamePreference(mounts, path, n - 1, Deepest(mounts, Components(path), n - 1))
  }

  lemma StepIsSame(mounts: seq<Mount>, path: string, n: int)
    requires 0 < n <= |mounts| && MatchByComponents(mounts, path)
    ensures StepSame(mounts, path, n)
  {
    StepAgrees(mounts, path, n - 1, Deepest(mounts, Components(path), n - 1));
  }

  lemma BestIsDeepest(mounts: seq<Mount>, path: string, n: nat)
    requires n <= |mounts| && MatchByComponents(mounts, path)
    ensures BestMount(mounts, path, n) == Deepest(mounts, Components(path), n)
  {
    forall k | 0 < k <= n
      ensures StepSame(mounts, path, k)
    {
      StepIsSame(mounts, path, k);
    }
    ScansAgree(mounts, path, n);
  }

  lemma {:induction false} ScansAgree(mounts: seq<Mount>, path: string, n: nat)
    requires n <= |mounts| && forall k | 0 < k <= n :: StepSame(mounts, path, k)
    ensures BestMount(mounts, path, n) == Deepest(mounts, Components(path), n)
  {
    if n == 0 {
    } else {
      ScansAgree(mounts, path, n - 1);
      assert StepSame(mounts, path, n);
      LastAgrees(mounts, path, n, Deepest(mounts, Components(path), n - 1));
    }
  }

  lemma LastAgrees(mounts: seq<Mount>, path: string, n: nat, r: int)
    requires 0 < n <= |mounts| && r == BestMount(mounts, path, n - 1) == Deepest(mounts, Components(path), n - 1)
    requires SamePreference(mounts, path, n - 1, r)
    ensures BestMount(mounts, path, n) == Deepest(mounts, Components(path), n)
  {
  }

  /** On such paths resolution is the reference walk. */
  lemma ResolveIsWalk(fs: Fs, path: string)
    requires CanonicalMounts(fs.mounts) && NeatForMounts(path) && Short(path)
    ensures Resolve(fs, path) == Reference(fs, path)
  {
    if Absolute(path) {
      NeatMatches(fs.mounts, path);
      BestIsDeepest(fs.mounts, path, |fs.mounts|);
      var m := FindMount(fs.mounts, path);
      if m >= 0 {
        var mp := fs.mounts[m].path;
        MatchIsPrefix(mp, path);
        assert forall c | c in Components(path[|mp|..]) :: c in Components(path);
        NamesOfAreComponents(path[|mp|..]);
      }
    }
  }

  // ---------------------------------------------------------------------------------------------
  // Chains of directories

  function ChainNode(names: seq<string>, v: int): Node
    requires 1 <= v <= |names| + 1
  {
    if v <= |names| then Dir([Entry(names[v - 1], v + 1)]) else Dir([])
  }

  /** Directories 1, 2, ... inside each other, with these names. */
  function Chain(names: seq<string>): map<int, Node> {
    map v | 1 <= v <= |names| + 1 :: ChainNode(names, v)
  }

  function ChainFs(names: seq<string>, mounts: seq<Mount>): Fs {
    Fs(Chain(names), mounts, |names| + 2)
  }

  lemma ChainLookup(names: seq<string>, v: int, name: string)
    requires 1 <= v <= |names| + 1
    ensures Lookup(Chain(names), v, name) == if v <= |names| && names[v - 1] == name then Some(v + 1) else None
  {
    if v <= |names| {
      assert [Entry(names[v - 1], v + 1)][1..] == [];
      assert Find([], name) == None;
    }
  }

  lemma ChainInv(names: seq<string>, mounts: seq<Mount>)
    requires (forall n | n in names :: |n| < NAME_MAX) && forall i | 0 <= i < |mounts| :: mounts[i].root == 1
    ensures FsInv(ChainFs(names, mounts))
  {
    var fs := ChainFs(names, mounts);
    forall v, e | v in fs.nodes && fs.nodes[v].Dir? && e in fs.nodes[v].children
      ensures e.id < fs.nextId && |e.name| < NAME_MAX
    {
      assert fs.nodes[v] == ChainNode(names, v);
      assert e == Entry(names[v - 1], v + 1) && names[v - 1] in names;
    }
  }

  lemma {:induction false} WalkAlong(names: seq<string>, v: int)
    requires 1 <= v <= |names| + 1
    ensures Walk(Chain(names), v, names[v - 1..]) == Some(|names| + 1)
    decreases |names| - v
  {
    if v <= |names| {
      ChainLookup(names, v, names[v - 1]);
      WalkAlong(names, v + 1);
      assert names[v - 1..][1..] == names[v..];
    }
  }

  /** A chain has no place for more names than it has left, or for a name it does not have. */
  lemma {:induction false} WalkOff(names: seq<string>, v: int, path: seq<string>)
    requires 1 <= v <= |names| + 1 && (|path| > |names| + 1 - v || exists c :: c in path && c !in names)
    ensures Walk(Chain(names), v, path).None?
    decreases |path|
  {
    assert path != [];
    ChainLookup(names, v, path[0]);
    if Lookup(Chain(names), v, path[0]).Some? {
      assert names[v - 1] in names && path == [path[0]] + path[1..];
      WalkOff(names, v + 1, path[1..]);
    }
  }

  // ---------------------------------------------------------------------------------------------
  // And only on those

  /** What `vfs_mount` and creation leave: "/" is mounted, and stored names are short. */
  ghost predicate Fit(fs: Fs) {
    FsInv(fs) && CanonicalMounts(fs.mounts) && IsMountPoint(fs, "/") && |fs.mounts| <= MOUNT_MAX
  }

  lemma RootIsCanonical()
    ensures Canonical("/") && Components("/") == []
  {
    assert Components("/") == Components("/"[1..]);
  }

  lemma TextIsCanonical(cs: seq<string>)
    requires cs != [] && forall c | c in cs :: IsComponent(c)
    ensures Canonical(Text(cs)) && Components(Text(cs)) == cs && Text(cs) != "/"
  {
    assert Text(cs) + [] == Text(cs);
    ComponentsOfText(cs, []);
    assert cs[0] in cs;
    TextNotEmpty(cs);
  }

  /** The root directory mounted at "/" and at the first k components of the path. */
  function MountedTwice(path: string, k: nat): seq<Mount>
    requires k <= |Components(path)|
  {
    [Mount("/", 1), Mount(Text(Components(path)[..k]), 1)]
  }

  /** The text of the first k components is not what the path begins with: resolution passes over a mount
      there, and looks for all the components from the root. */
  lemma MountIsMissed(path: string, k: nat, fs: Fs)
    requires Absolute(path) && Short(path) && 0 < k <= |Components(path)|
    requires !Matches(Text(Components(path)[..k]), path) && fs.mounts == MountedTwice(path, k)
    ensures Resolve(fs, path) == Walk(fs.nodes, 1, Components(path))
  {
    assert Matches("/", path);
    assert BestMount(fs.mounts, path, 1) == 0;
    assert BestMount(fs.mounts, path, 2) == 0;
    NamesOfAreComponents(path[1..]);
  }

  lemma MountIsUsed(path: string, k: nat, fs: Fs)
    requires Absolute(path) && 0 < k <= |Components(path)| && fs.mounts == MountedTwice(path, k)
    ensures Reference(fs, path) == Walk(fs.nodes, 1, Components(path)[k..])
  {
    var cs := Components(path);
    ComponentsAre(path);
    RootIsCanonical();
    TextIsCanonical(cs[..k]);
    assert Deepest(fs.mounts, cs, 1) == 0;
    assert Deepest(fs.mounts, cs, 2) == 1;
  }

  lemma TwoMountsFit(path: string, k: nat, names: seq<string>)
    requires Absolute(path) && 0 < k <= |Components(path)| && |Text(Components(path)[..k])| < PATH_MAX
    requires forall n | n in names :: |n| < NAME_MAX
    ensures Fit(ChainFs(names, MountedTwice(path, k)))
  {
    var fs := ChainFs(names, MountedTwice(path, k));
    ChainInv(names, fs.mounts);
    ComponentsAre(path);
    RootIsCanonical();
    TextIsCanonical(Components(path)[..k]);
    assert fs.mounts[0].path == "/";
  }

  /** The directories that the path has behind the mount are there, and resolution does not get to them. */
  lemma UntidyFails(path: string, k: nat)
    requires Absolute(path) && Short(path) && 0 < k <= |Components(path)|
    requires |Text(Components(path)[..k])| < PATH_MAX && !Matches(Text(Components(path)[..k]), path)
    ensures var fs := ChainFs(Components(path)[k..], MountedTwice(path, k));
      Fit(fs) && Resolve(fs, path).None? && Reference(fs, path).Some?
  {
    var cs := Components(path);
    var fs := ChainFs(cs[k..], MountedTwice(path, k));
    TwoMountsFit(path, k, cs[k..]);
    MountIsMissed(path, k, fs);
    MountIsUsed(path, k, fs);
    WalkOff(cs[k..], 1, cs);
    WalkAlong(cs[k..], 1);
    assert cs[k..][0..] == cs[k..];
  }

  lemma OnlyRootReference(fs: Fs, path: string)
    requires Absolute(path) && fs.mounts == [Mount("/", 1)]
    ensures Reference(fs, path) == Walk(fs.nodes, 1, Components(path))
  {
    RootIsCanonical();
    assert Deepest(fs.mounts, Components(path), 1) == 0;
  }

  /** The pieces into which resolution cuts a long component are there as directories. */
  lemma LongFails(path: string)
    requires Absolute(path) && !Short(path)
    ensures var fs := ChainFs(NamesOf(path), [Mount("/", 1)]);
      Fit(fs) && Resolve(fs, path).Some? && Reference(fs, path).None?
  {
    var names := NamesOf(path);
    var fs := ChainFs(names, [Mount("/", 1)]);
    NamesAreGood(SkipSlashes(path));
    ChainInv(names, fs.mounts);
    RootIsCanonical();
    assert fs.mounts[0].path == "/";
    OnlyRootMounted(fs, path);
    WalkAlong(names, 1);
    assert names[0..] == names;
    var c :| c in Components(path) && |c| >= NAME_MAX;
    OnlyRootReference(fs, path);
    WalkOff(names, 1, Components(path));
  }

  /** For an absolute path, resolution agrees with the reference in every file system if and only if the path
      has no doubled slash as far as a mount path can reach, and no component over 63 characters. "//dev" does
      not reach what is mounted on "/dev". */
  lemma ResolveIsWalkIff(path: string)
    requires Absolute(path)
    ensures (forall fs | Fit(fs) :: Resolve(fs, path) == Reference(fs, path)) <==> NeatForMounts(path) && Short(path)
  {
    if !Short(path) {
      LongFails(path);
    } else if !NeatForMounts(path) {
      var k :| 0 < k <= |Components(path)| && |Text(Components(path)[..k])| < PATH_MAX
        && !Matches(Text(Components(path)[..k]), path);
      UntidyFails(path, k);
    } else {
      forall fs | Fit(fs)
        ensures Resolve(fs, path) == Reference(fs, path)
      {
        ResolveIsWalk(fs, path);
      }
    }
  }

  // ---------------------------------------------------------------------------------------------
  // Paths of at most 127 characters

  /** Mkdir makes the last directory of a chain, if the path of the others fits the copy. */
  lemma ChainGrows(names: seq<string>, name: string)
    requires (forall n | n in names :: GoodName(n)) && GoodName(name) && |Text(names)| < PATH_MAX - 1
    ensures Step(ChainFs(names, [Mount("/", 1)]), DoMkdir(Text(names) + "/" + name))
            == ChainFs(names + [name], [Mount("/", 1)])
  {
    var fs, path := ChainFs(names, [Mount("/", 1)]), Text(names) + "/" + name;
    LastOfChain(names, name);
    ChainEnd(fs, names);
    assert DirFor(fs, path) == Some(|names| + 1);
    assert Step(fs, DoMkdir(path)) == CreateIn(fs, |names| + 1, name, Dir([])).0;
    ChainCreates(names, name);
  }

  lemma LastOfChain(names: seq<string>, name: string)
    requires GoodName(name) && |Text(names)| < PATH_MAX - 1
    ensures var path := Text(names) + "/" + name;
      && Absolute(path) && SlashAt(path) == |Text(names)| && LeafOf(path) == name
      && ParentOf(path) == if names == [] then "/" else Text(names)
  {
    SlashBeforeLeaf(Text(names), name);
  }

  lemma SlashBeforeLeaf(parent: string, name: string)
    requires GoodName(name) && |parent| < PATH_MAX - 1
    ensures var path := parent + "/" + name;
      SlashAt(path) == |parent| && LeafOf(path) == name && ParentOf(path) == if parent == [] then "/" else parent
  {
    var path, k := parent + "/" + name, |parent|;
    assert SlashAt(path) == k by {
      forall i | k < i < |Cut(path)|
        ensures Cut(path)[i] != '/'
      {
        assert Cut(path)[i] == name[i - k - 1] && name[i - k - 1] in name;
      }
      LastSlashIs(Cut(path), k);
    }
    assert path[..k] == parent && path[k + 1..] == name;
  }

  lemma NamesOfText(names: seq<string>)
    requires forall n | n in names :: GoodName(n)
    ensures var path := if names == [] then "/" else Text(names);
      Absolute(path) && NamesOf(path) == names
  {
    if names == [] {
      assert NamesOf("/") == [];
    } else {
      TextIsCanonical(names);
      NamesOfAreComponents(Text(names));
    }
  }

  /** The path of a chain leads to its last directory. */
  lemma ChainEnd(fs: Fs, names: seq<string>)
    requires fs == ChainFs(names, [Mount("/", 1)]) && forall n | n in names :: GoodName(n)
    ensures Resolve(fs, if names == [] then "/" else Text(names)) == Some(|names| + 1)
  {
    var path := if names == [] then "/" else Text(names);
    NamesOfText(names);
    OnlyRootMounted(fs, path);
    WalkAlong(names, 1);
    assert names[0..] == names;
  }

  lemma ChainCreates(names: seq<string>, name: string)
    requires GoodName(name)
    ensures var fs := ChainFs(names, [Mount("/", 1)]);
      CreateIn(fs, |names| + 1, name, Dir([])).0 == ChainFs(names + [name], [Mount("/", 1)])
  {
    var fs, n := ChainFs(names, [Mount("/", 1)]), |names| + 1;
    var made := fs.nodes[n := Dir([Entry(name, n + 1)])][n + 1 := Dir([])];
    assert [Entry(name, n + 1)] + [] == [Entry(name, n + 1)];
    forall v | 1 <= v <= n + 1
      ensures made[v] == ChainNode(names + [name], v)
    {
      assert v < n ==> fs.nodes[v] == ChainNode(names, v);
    }
    assert made == Chain(names + [name]);
  }

  lemma {:induction false} ChainIsReachable(names: seq<string>)
    requires (forall n | n in names :: GoodName(n)) && (names != [] ==> |Text(names[..|names| - 1])| < PATH_MAX - 1)
    ensures Reachable(ChainFs(names, [Mount("/", 1)]))
    decreases |names|
  {
    if names == [] {
      assert History(Root(), []) == Root();
      assert Chain([]) == map[1 := ChainNode([], 1)];
    } else {
      var n := |names| - 1;
      var front, last := names[..n], names[n];
      assert names == front + [last];
      if n > 0 {
        TextSplits(front, n - 1);
        assert front[..n - 1] == names[..n - 1];
      }
      ChainIsReachable(front);
      ChainGrows(front, last);
      ReachesAfter(ChainFs(front, [Mount("/", 1)]), Creates(DoMkdir(Text(front) + "/" + last)));
    }
  }

  /** How much longer a text gets when long components are cut into pieces. */
  lemma {:induction false} NamesTextLength(s: string)
    requires s != [] && s[0] != '/'
    ensures |Text(Names(s))| <= |s| + 1 + (|s| - 1) / 63
    decreases |s|
  {
    var n := NameLength(s, NAME_MAX - 1);
    var rest := SkipSlashes(s[n..]);
    NameHasNoSlash(s, NAME_MAX - 1);
    NameStops(s, NAME_MAX - 1);
    assert Names(s)[1..] == Names(rest);
    if rest == [] {
    } else {
      NamesTextLength(rest);
    }
  }

  lemma {:induction false} NameStops(s: string, limit: nat)
    ensures var n := NameLength(s, limit); n == |s| || s[n] == '/' || n == limit
  {
    if s != [] && s[0] != '/' && limit > 0 {
      NameStops(s[1..], limit - 1);
    }
  }

  lemma PiecesFit(path: string)
    requires Absolute(path) && |path| < PATH_MAX && NamesOf(path) != []
    ensures |Text(NamesOf(path)[..|NamesOf(path)| - 1])| < PATH_MAX - 1
  {
    var names := NamesOf(path);
    var n := |names| - 1;
    SkipsLess(path);
    NamesTextLength(SkipSlashes(path));
    NamesAreGood(SkipSlashes(path));
    assert names[n] in names;
    TextSplits(names, n);
    assert names[n..] == [names[n]];
    assert |Text([names[n]])| >= 2;
  }

  lemma SkipsLess(path: string)
    requires Absolute(path)
    ensures |SkipSlashes(path)| < |path|
  {
  }

  lemma ReachableLongFails(path: string) returns (fs: Fs)
    requires Absolute(path) && |path| < PATH_MAX && !Short(path)
    ensures Reachable(fs) && CanonicalMounts(fs.mounts) && Resolve(fs, path) != Reference(fs, path)
  {
    fs := ChainFs(NamesOf(path), [Mount("/", 1)]);
    LongFails(path);
    NamesAreGood(SkipSlashes(path));
    if NamesOf(path) != [] {
      PiecesFit(path);
    }
    ChainIsReachable(NamesOf(path));
  }

  lemma ReachableUntidyFails(path: string) returns (fs: Fs)
    requires Absolute(path) && |path| < PATH_MAX && Short(path) && !Neat(path)
    ensures Reachable(fs) && CanonicalMounts(fs.mounts) && Resolve(fs, path) != Reference(fs, path)
  {
    var cs := Components(path);
    var k := |cs|;
    assert cs[..k] == cs && cs[k..] == [];
    TextIsNoLonger(path);
    UntidyFails(path, k);
    fs := ChainFs([], MountedTwice(path, k));
    RootMountedTwice(path);
  }

  lemma RootMountedTwice(path: string)
    requires |Text(Components(path))| < PATH_MAX
    ensures Reachable(ChainFs([], MountedTwice(path, |Components(path)|)))
  {
    var cs := Components(path);
    ChainIsReachable([]);
    ReachesAfter(ChainFs([], [Mount("/", 1)]), Mounts(Text(cs), 1));
    assert cs[..|cs|] == cs;
    assert 1 in Chain([]);
    assert [Mount("/", 1)] + [Mount(Text(cs), 1)] == MountedTwice(path, |cs|);
  }

  /** For a path of at most 127 characters: resolution agrees with the reference in every reachable file system
      with canonical mount paths if and only if the path has no doubled slash before its last component, and no
      component over 63 characters. */
  lemma ResolveIsWalkIffNeat(path: string)
    requires Absolute(path) && |path| < PATH_MAX
    ensures (forall fs | Reachable(fs) && CanonicalMounts(fs.mounts) :: Resolve(fs, path) == Reference(fs, path))
            <==> Neat(path) && Short(path)
  {
    if !Short(path) {
      var fs := ReachableLongFails(path);
    } else if !Neat(path) {
      var fs := ReachableUntidyFails(path);
    } else {
      NeatIsNeatForMounts(path);
      forall fs | Reachable(fs) && CanonicalMounts(fs.mounts)
        ensures Resolve(fs, path) == Reference(fs, path)
      {
        ResolveIsWalk(fs, path);
      }
    }
  }
}
