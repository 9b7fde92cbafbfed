/**
 Discovery roots, the project a path belongs to, and the gate that lets a
 project's files be changed only when the project is trusted.
 */
module ProjectRoots {
  import opened Ordering
  import opened Sequences
  import opened Text

  /** A path as its components. */
  type Path = seq<string>

  /** An entry of the project registry; `isDirectory` is what the file system says of its path. */
  datatype Entry = Entry(path: Path, isDirectory: bool, trust: Option<string>)

  /** The configuration, and the file system's canonical form of every path that exists. */
  datatype Setup = Setup(home: Path, scanRoots: seq<Path>, registry: seq<Entry>, canonical: Path -> Option<Path>)

  function Canonical(s: Setup, p: Path): Path {
    match s.canonical(p)
    case Some(c) => c
    case None => p
  }

  function Home(s: Setup): Path {
    Canonical(s, s.home)
  }

  function IsDirectory(e: Entry): bool {
    e.isDirectory
  }

  function PathOf(e: Entry): Path {
    e.path
  }

  function Configured(s: Setup): seq<Path> {
    [s.home] + s.scanRoots + Map(Filter(s.registry, IsDirectory), PathOf)
  }

  function Unique(s: Setup, roots: seq<Path>): seq<Path> {
    if roots == [] then []
    else
      var last := |roots| - 1;
      var kept, root := Unique(s, roots[..last]), Canonical(s, roots[last]);
      if root in kept then kept else kept + [root]
  }

  predicate DeeperFirst(a: Path, b: Path) {
    |a| >= |b|
  }

  function DiscoveryRoots(s: Setup): seq<Path> {
    Sort(Unique(s, Configured(s)), DeeperFirst)
  }

  method CollectRoots(s: Setup) returns (roots: seq<Path>)
    ensures roots == DiscoveryRoots(s)
  {
    var configured := Configured(s);
    var unique: seq<Path> := [];
    for k := 0 to |configured|
      invariant unique == Unique(s, configured[..k])
    {
      var root := Canonical(s, configured[k]);
      assert configured[..k + 1][..k] == configured[..k];
      if root !in unique {
        unique := unique + [root];
      }
    }
    assert configured[..|configured|] == configured;
    roots := Sort(unique, DeeperFirst);
  }

  /** The first root that contains the path. */
  function FirstContaining(roots: seq<Path>, path: Path): Option<Path> {
    if roots == [] then None
    else if roots[0] <= path then Some(roots[0])
    else FirstContaining(roots[1..], path)
  }

  function NotHome(s: Setup): Path -> bool {
    (root: Path) => root != Home(s)
  }

  /** The roots whose canonical form can still be read, in that form. */
  function Readable(s: Setup, roots: seq<Path>): seq<Path> {
    if roots == [] then []
    else
      var rest := Readable(s, roots[1..]);
      match s.canonical(roots[0])
      case Some(c) => [c] + rest
      case None => rest
  }

  function ProjectFor(s: Setup, path: Path): Option<Path> {
    FirstContaining(Readable(s, Filter(DiscoveryRoots(s), NotHome(s))), path)
  }

  // ---------- the write gate ----------

  /** The trust level of the first registry entry for the root that has one. */
  function TrustLevel(s: Setup, registry: seq<Entry>, root: Path): Option<string> {
    if registry == [] then None
    else if Canonical(s, registry[0].path) == root && registry[0].trust.Some? then registry[0].trust
    else TrustLevel(s, registry[1..], root)
  }

  predicate Trusted(s: Setup, root: Path) {
    var level := TrustLevel(s, s.registry, root);
    level.Some? && LowerAll(level.value) == "trusted"
  }

  function GateRoot(s: Setup, path: Path): Option<Path> {
    FirstContaining(Filter(DiscoveryRoots(s), NotHome(s)), path)
  }

  predicate Writable(s: Setup, path: Path) {
    Home(s) <= path || (GateRoot(s, path).Some? && Trusted(s, GateRoot(s, path).value))
  }

  // ---------- the longest root ----------

  /** The canonical form of the path, or the path itself when it has none. */
  predicate StandsFor(s: Setup, p: Path, root: Path) {
    s.canonical(p) == Some(root) || (s.canonical(p) == None && p == root)
  }

  /** The path is the home directory, a scan root, or the directory of a registry entry. */
  ghost predicate NamedRoot(s: Setup, p: Path) {
    p == s.home || p in s.scanRoots || exists e :: e in s.registry && e.isDirectory && e.path == p
  }

  ghost predicate IsConfigured(s: Setup, root: Path) {
    exists p :: NamedRoot(s, p) && StandsFor(s, p, root)
  }

  lemma ConfiguredExactly(s: Setup, p: Path)
    ensures p in Configured(s) <==> NamedRoot(s, p)
  {
    var entries := Filter(s.registry, IsDirectory);
    assert p in Configured(s) <==> p == s.home || p in s.scanRoots || p in Map(entries, PathOf);
    if p in Map(entries, PathOf) {
      var k :| 0 <= k < |entries| && Map(entries, PathOf)[k] == p;
      assert entries[k] in entries;
    }
    if exists e :: e in s.registry && e.isDirectory && e.path == p {
      var e :| e in s.registry && e.isDirectory && e.path == p;
      assert e in entries;
      var k :| 0 <= k < |entries| && entries[k] == e;
      assert Map(entries, PathOf)[k] == p;
    }
  }

  lemma {:induction false} UniqueExactly(s: Setup, roots: seq<Path>)
    ensures NoDup(Unique(s, roots))
    ensures forall r :: r in Unique(s, roots) <==> exists p :: p in roots && Canonical(s, p) == r
  {
    if roots == [] {
    } else {
      var last := |roots| - 1;
      UniqueExactly(s, roots[..last]);
      assert roots == roots[..last] + [roots[last]];
    }
  }

  lemma RootsExactly(s: Setup)
    ensures SortedBy(DiscoveryRoots(s), DeeperFirst)
    ensures forall r :: r in DiscoveryRoots(s) <==> IsConfigured(s, r)
  {
    UniqueExactly(s, Configured(s));
    SortSorted(Unique(s, Configured(s)), DeeperFirst);
    forall p ensures p in Configured(s) <==> NamedRoot(s, p) {
      ConfiguredExactly(s, p);
    }
  }

  /** `root` is the one deepest among `roots` that contain the path. */
  ghost predicate Longest(roots: seq<Path>, path: Path, root: Path) {
    root in roots && root <= path && forall other :: other in roots && other <= path ==> |other| <= |root|
  }

  /** Two prefixes of one path that are equally long are the same. */
  lemma SamePrefix(a: Path, b: Path, path: Path)
    requires a <= path && b <= path && |a| == |b|
    ensures a == b
  {
    assert a == path[..|a|] && b == path[..|b|];
  }

  /** No root in the list contains the path. */
  ghost predicate NoneContains(roots: seq<Path>, path: Path) {
    forall other :: other in roots ==> !(other <= path)
  }

  lemma NoneContainsNext(head: Path, rest: seq<Path>, path: Path)
    ensures NoneContains([head] + rest, path) <==> !(head <= path) && NoneContains(rest, path)
  {
    assert head in [head] + rest;
    assert forall other :: other in rest ==> other in [head] + rest;
  }

  lemma HeadIsLongest(head: Path, rest: seq<Path>, path: Path, root: Path)
    requires SortedBy([head] + rest, DeeperFirst)
    ensures head <= path ==> (Longest([head] + rest, path, root) <==> root == head)
    ensures !(head <= path) ==> (Longest([head] + rest, path, root) <==> Longest(rest, path, root))
  {
    assert forall other :: other in [head] + rest <==> other == head || other in rest;
    assert forall i :: 0 < i < |[head] + rest| ==> DeeperFirst(([head] + rest)[0], ([head] + rest)[i]);
    assert forall other :: other in rest ==> |other| <= |head|;
    if head <= path && Longest([head] + rest, path, root) {
      SamePrefix(head, root, path);
    }
  }

  lemma {:induction false} FirstIsLongest(roots: seq<Path>, path: Path, root: Path)
    requires SortedBy(roots, DeeperFirst)
    ensures FirstContaining(roots, path) == Some(root) <==> Longest(roots, path, root)
    ensures FirstContaining(roots, path) == None <==> NoneContains(roots, path)
  {
    if roots == [] {
    } else {
      assert roots == [roots[0]] + roots[1..];
      HeadIsLongest(roots[0], roots[1..], path, root);
      NoneContainsNext(roots[0], roots[1..], path);
      FirstIsLongest(roots[1..], path, root);
    }
  }

  /** Canonical forms are canonical. */
  ghost predicate Stable(s: Setup) {
    forall p, c :: s.canonical(p) == Some(c) ==> s.canonical(c) == Some(c)
  }

  predicate Exists(s: Setup, root: Path) {
    s.canonical(root).Some?
  }

  lemma ConfiguredIsFixed(s: Setup, root: Path)
    requires Stable(s) && IsConfigured(s, root) && Exists(s, root)
    ensures s.canonical(root) == Some(root)
  {
    var p :| NamedRoot(s, p) && StandsFor(s, p, root);
  }

  lemma {:induction false} ReadableFixed(s: Setup, roots: seq<Path>)
    requires forall r :: r in roots && Exists(s, r) ==> s.canonical(r) == Some(r)
    ensures Readable(s, roots) == Filter(roots, (r: Path) => Exists(s, r))
  {
    if roots == [] {
    } else {
      ReadableFixed(s, roots[1..]);
    }
  }

  lemma {:induction false} FilterStaysSorted(roots: seq<Path>, keep: Path -> bool)
    requires SortedBy(roots, DeeperFirst)
    ensures SortedBy(Filter(roots, keep), DeeperFirst)
  {
    if roots == [] {
    } else {
      FilterStaysSorted(roots[1..], keep);
      assert forall r :: r in roots[1..] ==> DeeperFirst(roots[0], r);
    }
  }

  /** A root of a project: configured, and not the home directory. */
  ghost predicate ProjectRoot(s: Setup, root: Path) {
    IsConfigured(s, root) && root != Home(s)
  }

  /** The project root of the path among those that satisfy `of`: it contains the path, and no deeper one does. */
  ghost predicate Owner(s: Setup, of: Path -> bool, path: Path, root: Path) {
    && ProjectRoot(s, root) && of(root) && root <= path
    && forall other :: ProjectRoot(s, other) && of(other) && other <= path ==> |other| <= |root|
  }

  /** The owner is unique. */
  lemma OneOwner(s: Setup, of: Path -> bool, path: Path, a: Path, b: Path)
    requires Owner(s, of, path, a) && Owner(s, of, path, b)
    ensures a == b
  {
    assert a == path[..|a|] && b == path[..|b|];
  }

  function Existing(s: Setup): Path -> bool {
    (r: Path) => Exists(s, r)
  }

  function Any(): Path -> bool {
    (r: Path) => true
  }

  lemma GateRootsExactly(s: Setup)
    ensures SortedBy(Filter(DiscoveryRoots(s), NotHome(s)), DeeperFirst)
    ensures forall r :: r in Filter(DiscoveryRoots(s), NotHome(s)) <==> ProjectRoot(s, r)
  {
    RootsExactly(s);
    FilterStaysSorted(DiscoveryRoots(s), NotHome(s));
  }

  /** The gate looks at the deepest project root that contains the path, whether it exists or not. */
  lemma GateRootIsOwner(s: Setup, path: Path, root: Path)
    ensures GateRoot(s, path) == Some(root) <==> Owner(s, Any(), path, root)
    ensures GateRoot(s, path) == None <==> forall r :: ProjectRoot(s, r) ==> !(r <= path)
  {
    GateRootsExactly(s);
    FirstIsLongest(Filter(DiscoveryRoots(s), NotHome(s)), path, root);
  }

  /** A path's project is the unique deepest existing project root that contains it. */
  lemma ProjectIsOwner(s: Setup, path: Path, root: Path)
    requires Stable(s)
    ensures ProjectFor(s, path) == Some(root) <==> Owner(s, Existing(s), path, root)
    ensures ProjectFor(s, path) == None <==> forall r :: ProjectRoot(s, r) && Exists(s, r) ==> !(r <= path)
  {
    GateRootsExactly(s);
    var roots := Filter(DiscoveryRoots(s), NotHome(s));
    forall r | r in roots && Exists(s, r) ensures s.canonical(r) == Some(r) {
      ConfiguredIsFixed(s, r);
    }
    ReadableFixed(s, roots);
    FilterStaysSorted(roots, (r: Path) => Exists(s, r));
    FirstIsLongest(Readable(s, roots), path, root);
  }

  /** The gate asks for the path's own project exactly when the root it finds exists, or it finds none. */
  lemma GateAsksForTheProject(s: Setup, path: Path)
    requires Stable(s)
    ensures GateRoot(s, path) == ProjectFor(s, path) <==> GateRoot(s, path).None? || Exists(s, GateRoot(s, path).value)
  {
    match GateRoot(s, path)
    case None =>
      GateRootIsOwner(s, path, []);
      ProjectIsOwner(s, path, []);
    case Some(g) =>
      GateRootIsOwner(s, path, g);
      ProjectIsOwner(s, path, g);
  }

  /**
   Outside the home directory, and when project roots exist, a path may be written exactly when it
   belongs to a project and that project, not one around it, is trusted.
   */
  lemma WritableExactly(s: Setup, path: Path)
    requires Stable(s) && !(Home(s) <= path) && forall r :: ProjectRoot(s, r) ==> Exists(s, r)
    ensures Writable(s, path) <==> ProjectFor(s, path).Some? && Trusted(s, ProjectFor(s, path).value)
    ensures forall root :: Owner(s, Existing(s), path, root) ==> (Writable(s, path) <==> Trusted(s, root))
  {
    GateAsksForTheProject(s, path);
    if GateRoot(s, path).Some? {
      GateRootIsOwner(s, path, GateRoot(s, path).value);
    }
    forall root | Owner(s, Existing(s), path, root) ensures Writable(s, path) <==> Trusted(s, root) {
      ProjectIsOwner(s, path, root);
    }
  }

  // ---------- trust ----------

  /** The entry at `k` is the first of the root that states a trust level, and it says trusted. */
  predicate TrustedAt(s: Setup, registry: seq<Entry>, root: Path, k: nat) {
    && k < |registry| && StandsFor(s, registry[k].path, root)
    && registry[k].trust.Some? && LowerAll(registry[k].trust.value) == "trusted"
    && forall i :: 0 <= i < k && StandsFor(s, registry[i].path, root) ==> registry[i].trust == None
  }

  lemma TrustedNext(s: Setup, registry: seq<Entry>, root: Path, k: nat)
    requires registry != [] && !(StandsFor(s, registry[0].path, root) && registry[0].trust.Some?)
    ensures TrustedAt(s, registry, root, k + 1) <==> TrustedAt(s, registry[1..], root, k)
  {
    if TrustedAt(s, registry, root, k + 1) {
      assert forall i :: 0 <= i <= k ==> registry[1..][i] == registry[i + 1];
    }
    if TrustedAt(s, registry[1..], root, k) {
      assert forall i :: 0 < i <= k + 1 ==> registry[i] == registry[1..][i - 1];
    }
  }

  ghost predicate SaysTrusted(s: Setup, registry: seq<Entry>, root: Path) {
    exists k: nat :: TrustedAt(s, registry, root, k)
  }

  predicate LevelTrusted(level: Option<string>) {
    level.Some? && LowerAll(level.value) == "trusted"
  }

  lemma {:induction false} TrustExactly(s: Setup, registry: seq<Entry>, root: Path)
    ensures LevelTrusted(TrustLevel(s, registry, root)) <==> SaysTrusted(s, registry, root)
  {
    if registry != [] {
      if StandsFor(s, registry[0].path, root) && registry[0].trust.Some? {
        assert TrustedAt(s, registry, root, 0) <==> LevelTrusted(registry[0].trust);
      } else {
        TrustExactly(s, registry[1..], root);
        SaysTrustedNext(s, registry, root);
      }
    }
  }

  lemma SaysTrustedNext(s: Setup, registry: seq<Entry>, root: Path)
    requires registry != [] && !(StandsFor(s, registry[0].path, root) && registry[0].trust.Some?)
    ensures SaysTrusted(s, registry, root) <==> SaysTrusted(s, registry[1..], root)
  {
    if SaysTrusted(s, registry, root) {
      var k: nat :| TrustedAt(s, registry, root, k);
      assert k > 0;
      TrustedNext(s, registry, root, k - 1);
    }
    if SaysTrusted(s, registry[1..], root) {
      var k: nat :| TrustedAt(s, registry[1..], root, k);
      TrustedNext(s, registry, root, k);
    }
  }

  lemma HomeExactly(s: Setup, path: Path)
    ensures (exists home :: StandsFor(s, s.home, home) && home <= path) <==> Home(s) <= path
  {
    assert StandsFor(s, s.home, Home(s));
  }

  /**
   A path may be written exactly when it is in the home directory, or when the deepest project root that
   contains it is one for which the first registry entry with a trust level says trusted.
   */
  lemma WritableMeans(s: Setup, path: Path)
    ensures Writable(s, path) <==>
            || (exists home :: StandsFor(s, s.home, home) && home <= path)
            || exists root :: Owner(s, Any(), path, root) && SaysTrusted(s, s.registry, root)
  {
    HomeExactly(s, path);
    match GateRoot(s, path)
    case None =>
      forall root ensures !Owner(s, Any(), path, root) {
        GateRootIsOwner(s, path, root);
      }
    case Some(g) =>
      forall root ensures Owner(s, Any(), path, root) <==> root == g {
        GateRootIsOwner(s, path, root);
      }
      TrustExactly(s, s.registry, g);
  }
}
