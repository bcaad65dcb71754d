/** Restoring a backup over a directory puts the saved tree there and leaves everything else alone. */
module BackupRoundTrip {
  import opened Prelude
  import opened Paths
  import opened FileSystem
  import opened Backup
  import opened BackupPaths

  // ---- One entry of the archive ----

  /** The node an entry stands for. */
  function NodeOf(t: Tree): Node {
    match t
    case Folder(_, _) => Dir
    case Plain(content) => File(content)
    case Symlink(target) => Link(target)
  }

  /** The check extractTarGzSafe makes before it creates a link. */
  predicate LinkPasses(fs: Files, root: Path, p: Path, target: string) {
    !IsRooted(target) && PathWithin(fs, LinkDestination(root + p, target), root)
  }

  /** All checks it makes before it creates an entry. */
  predicate Passes(fs: Files, root: Path, p: Path, t: Tree) {
    PathWithin(fs, root + p, root) && (t.Symlink? ==> LinkPasses(fs, root, p, t.target))
  }

  predicate CanPut(fs: Files, root: Path, base: Path, p: Path) {
    Home(fs, root, base) && p != [] && AllNames(p) && IsDir(fs, base + Up(p))
  }

  /** What stands at `at` is of a kind that the node replaces. */
  predicate Fits(fs: Files, at: Path, t: Tree) {
    at in fs ==>
      match t
      case Folder(_, _) => fs[at].Dir?
      case Plain(_) => fs[at].File?
      case Symlink(_) => !fs[at].Dir?
  }

  /** An entry that passes puts its node in its place, whether the place was empty or not. */
  lemma PutEntry(fs: Files, root: Path, base: Path, p: Path, t: Tree)
    requires CanPut(fs, root, base, p) && GoodTree(t) && Fits(fs, base + p, t)
    ensures RestoreEntry(fs, root, EntryFor(p, t)) ==
            if Passes(fs, root, p, t) then Outcome(fs[base + p := NodeOf(t)], true) else Outcome(fs, false)
  {
    hide Resolve, ResolveForCreate, MkdirAll, PathWithin, CleanParts, Join, LinkDestination, TreeLike, Leads, Lstat,
      WriteFile, Remove, MakeLink, Mkdir, EvalSymlinks;
    NameParts(p);
    assert Up(root + p) == root + Up(p);
    match t
    case Folder(_, _) => PutDirectory(fs, root, base, p);
    case Plain(content) => PutFile(fs, root, base, p, content);
    case Symlink(link) => PutLink(fs, root, base, p, link);
  }

  lemma LastName(p: Path)
    requires AllNames(p) && p != []
    ensures IsName(p[|p| - 1])
  {
  }

  lemma PutDirectory(fs: Files, root: Path, base: Path, p: Path)
    requires CanPut(fs, root, base, p) && (base + p in fs ==> fs[base + p].Dir?)
    ensures MkdirAll(fs, root + p) == Outcome(fs[base + p := Dir], true)
  {
    hide Resolve, ResolveForCreate, MkdirAll, TreeLike, Leads;
    var q, c := root + Up(p), p[|p| - 1];
    LastName(p);
    assert root + p == q + [c] && base + p == base + Up(p) + [c];
    RootResolves(fs, root, base);
    LastStep(fs, root, base, p, KERNEL_LINKS);
    EntryOfPath(fs, root, base, p);
    if base + p in fs {
      MkdirAllThere(fs, root + p);
      assert fs[base + p := Dir] == fs;
    } else {
      MkdirAllThere(fs, q);
      MkdirOne(fs, q, base + Up(p), c);
      MkdirAllStep(fs, q, c);
    }
  }

  lemma PutFile(fs: Files, root: Path, base: Path, p: Path, content: string)
    requires CanPut(fs, root, base, p) && (base + p in fs ==> fs[base + p].File?)
    ensures MkdirAll(fs, root + Up(p)) == Outcome(fs, true)
    ensures EvalSymlinks(fs, root + Up(p)) == Some(base + Up(p)) && PathWithin(fs, base + Up(p), root)
    ensures WriteFile(fs, root + p, content) == Outcome(fs[base + p := File(content)], true)
  {
    hide Resolve, ResolveForCreate, MkdirAll, PathWithin, TreeLike, Leads;
    LastName(p);
    RootResolves(fs, root, base);
    LastStep(fs, root, base, p, KERNEL_LINKS);
    EntryOfPath(fs, root, base, p);
    MkdirAllThere(fs, root + Up(p));
    RealIsWithin(fs, root, base, Up(p));
  }

  lemma PutLink(fs: Files, root: Path, base: Path, p: Path, link: string)
    requires CanPut(fs, root, base, p) && (base + p in fs ==> !fs[base + p].Dir?) && link != ""
    ensures MakeLink(Remove(fs, root + p), link, root + p) == Outcome(fs[base + p := Link(link)], true)
  {
    hide Resolve, ResolveForCreate, TreeLike, Leads, Lstat;
    EntryOfPath(fs, root, base, p);
    var fs1 := fs - {base + p};
    assert base + p in fs ==> Remove(fs, root + p) == fs1;
    if base + p !in fs {
      assert fs1 == fs;
    }
    GoneKeepsHome(fs, root, base, p);
    EntryOfPath(fs1, root, base, p);
    assert base + Up(p) + [p[|p| - 1]] == base + p && (root + p)[|root + p| - 1] == p[|p| - 1];
    assert fs1[base + p := Link(link)] == fs[base + p := Link(link)];
  }

  lemma GoneKeepsHome(fs: Files, root: Path, base: Path, p: Path)
    requires CanPut(fs, root, base, p) && (base + p in fs ==> !fs[base + p].Dir?)
    ensures Home(fs - {base + p}, root, base) && IsDir(fs - {base + p}, base + Up(p))
  {
    hide Leads;
    var at := base + p;
    var fs1 := fs - {at};
    forall q | q in fs1 && q != [] ensures IsDir(fs1, Up(q)) && IsName(q[|q| - 1]) {
      assert IsDir(fs, Up(q));
    }
    StillLeads(fs, fs1, root, base);
    assert |base + Up(p)| < |at|;
  }

  lemma PutKeepsTree(fs: Files, at: Path, n: Node)
    requires TreeLike(fs) && at != [] && IsDir(fs, Up(at)) && IsName(at[|at| - 1])
    requires at in fs && fs[at].Dir? ==> n.Dir?
    ensures TreeLike(fs[at := n])
  {
    var fs' := fs[at := n];
    forall q | q in fs' && q != [] ensures IsDir(fs', Up(q)) && IsName(q[|q| - 1]) {
      assert q != at ==> IsDir(fs, Up(q));
      assert q == at ==> Up(q) != at;
    }
  }

  lemma PutKeepsHome(fs: Files, root: Path, base: Path, p: Path, t: Tree)
    requires CanPut(fs, root, base, p) && Fits(fs, base + p, t)
    ensures Home(fs[base + p := NodeOf(t)], root, base)
    ensures t.Folder? ==> IsDir(fs[base + p := NodeOf(t)], base + p)
  {
    hide TreeLike, Leads;
    var at := base + p;
    LastName(p);
    assert Up(at) == base + Up(p) && at[|at| - 1] == p[|p| - 1];
    PutKeepsTree(fs, at, NodeOf(t));
    StillLeads(fs, fs[at := NodeOf(t)], root, base);
  }

  // ---- The whole walk ----

  lemma {:induction false} RestoreConcat(fs: Files, root: Path, a: seq<Entry>, b: seq<Entry>)
    ensures RestoreAll(fs, root, a + b) ==
            var first := RestoreAll(fs, root, a);
            if !first.ok then first else RestoreAll(first.fs, root, b)
    decreases a
  {
    hide RestoreEntry;
    if a == [] {
      assert a + b == b;
    } else {
      assert (a + b)[1..] == a[1..] + b;
      var first := RestoreEntry(fs, root, a[0]);
      if first.ok {
        RestoreConcat(first.fs, root, a[1..], b);
      }
    }
  }

  lemma RestoreOne(fs: Files, root: Path, e: Entry)
    ensures RestoreAll(fs, root, [e]) == RestoreEntry(fs, root, e)
  {
    hide RestoreEntry;
    assert [e][1..] == [];
  }

  lemma RestoreNone(fs: Files, root: Path)
    ensures RestoreAll(fs, root, []) == Outcome(fs, true)
  {
  }

  function NodeAt(t: Tree, p: Path): Option<Tree>
    decreases t, 1
  {
    if p == [] then Some(t)
    else if !t.Folder? then None
    else ListNodeAt(t.names, t.nodes, p)
  }

  function ListNodeAt(names: seq<string>, nodes: seq<Tree>, p: Path): Option<Tree>
    requires p != []
    decreases nodes, 0
  {
    if names == [] || nodes == [] then None
    else if names[0] == p[0] then NodeAt(nodes[0], p[1..])
    else ListNodeAt(names[1..], nodes[1..], p)
  }

  /** At `q` stands the saved node of `t` (which is at `p` below the root), if there is one that is kept;
      otherwise what stood there before. */
  predicate PathOutcome(fs: Files, fs': Files, p: Path, t: Option<Tree>, q: Path) {
    if t.Some? && !Excluded(Join(p)) then q in fs' && fs'[q] == NodeOf(t.value) else Unchanged(fs, fs', q)
  }

  /** No node that is kept stands in the place of one of another kind. */
  predicate NoClash(fs: Files, base: Path, p: Path, t: Tree)
    decreases t
  {
    Excluded(Join(p)) ||
    (Fits(fs, base + p, t) &&
     (t.Folder? ==> forall i | 0 <= i < |t.names| && i < |t.nodes| :: NoClash(fs, base, p + [t.names[i]], t.nodes[i])))
  }

  predicate NoClashes(fs: Files, base: Path, p: Path, names: seq<string>, nodes: seq<Tree>) {
    forall i | 0 <= i < |names| && i < |nodes| :: NoClash(fs, base, p + [names[i]], nodes[i])
  }

  lemma {:induction false} NoClashFrame(fs: Files, fs': Files, base: Path, p: Path, t: Tree)
    requires NoClash(fs, base, p, t)
    requires forall q: Path | base + p <= q :: Unchanged(fs, fs', q)
    ensures NoClash(fs', base, p, t)
    decreases t
  {
    hide Excluded, Join;
    if !Excluded(Join(p)) {
      assert Unchanged(fs, fs', base + p);
      if t.Folder? {
        forall i | 0 <= i < |t.names| && i < |t.nodes| ensures NoClash(fs', base, p + [t.names[i]], t.nodes[i]) {
          forall q: Path | base + (p + [t.names[i]]) <= q ensures Unchanged(fs, fs', q) {
            assert base + p <= q;
          }
          NoClashFrame(fs, fs', base, p + [t.names[i]], t.nodes[i]);
        }
      }
    }
  }

  lemma {:induction false} JoinGrows(p: Path, c: string)
    requires p != []
    ensures Join(p + [c]) == Join(p) + "/" + c
    decreases p
  {
    if |p| == 1 {
      assert (p + [c])[1..] == [c];
    } else {
      assert (p + [c])[1..] == p[1..] + [c];
      JoinGrows(p[1..], c);
    }
  }

  /** Everything below an excluded path is excluded. */
  lemma ExcludedBelow(p: Path, c: string)
    requires p != [] && Excluded(Join(p))
    ensures Excluded(Join(p + [c]))
  {
    JoinGrows(p, c);
  }

  lemma {:induction false} ExcludedAllBelow(p: Path, r: Path)
    requires p != [] && Excluded(Join(p))
    ensures Excluded(Join(p + r))
    decreases |r|
  {
    hide Excluded, Join;
    if r == [] {
      assert p + r == p;
    } else {
      ExcludedBelow(p, r[0]);
      ExcludedAllBelow(p + [r[0]], r[1..]);
      assert p + [r[0]] + r[1..] == p + r;
    }
  }

  lemma {:induction false} ExcludedWalk(p: Path, t: Tree)
    requires p != [] && Excluded(Join(p))
    ensures Walk(p, t) == []
    decreases t, 1
  {
    hide Excluded, Join;
    if t.Folder? {
      ExcludedWalkAll(p, t.names, t.nodes);
    }
  }

  lemma {:induction false} ExcludedWalkAll(p: Path, names: seq<string>, nodes: seq<Tree>)
    requires p != [] && Excluded(Join(p))
    ensures WalkAll(p, names, nodes) == []
    decreases nodes, 0
  {
    hide Excluded, Join;
    if names != [] && nodes != [] {
      ExcludedBelow(p, names[0]);
      ExcludedWalk(p + [names[0]], nodes[0]);
      ExcludedWalkAll(p, names[1..], nodes[1..]);
    }
  }

  lemma {:induction false} NotListed(names: seq<string>, nodes: seq<Tree>, p: Path)
    requires p != [] && p[0] !in names
    ensures ListNodeAt(names, nodes, p) == None
    decreases nodes
  {
    if names != [] && nodes != [] {
      NotListed(names[1..], nodes[1..], p);
    }
  }

  predicate GoodList(names: seq<string>, nodes: seq<Tree>) {
    && |names| == |nodes| && AllNames(names)
    && (forall i, j | 0 <= i < j < |names| :: names[i] != names[j])
    && (forall i | 0 <= i < |nodes| :: GoodTree(nodes[i]))
  }

  lemma GoodFolder(t: Tree)
    requires t.Folder? && GoodTree(t)
    ensures GoodList(t.names, t.nodes)
  {
  }

  lemma NotFirst(names: seq<string>)
    requires names != [] && forall i, j | 0 <= i < j < |names| :: names[i] != names[j]
    ensures names[0] !in names[1..]
  {
  }

  lemma {:induction false} TreeRestored(fs: Files, root: Path, base: Path, p: Path, t: Tree, q: Path)
    requires CanPut(fs, root, base, p) && GoodTree(t) && NoClash(fs, base, p, t)
    requires RestoreAll(fs, root, Walk(p, t)).ok
    ensures var fs' := RestoreAll(fs, root, Walk(p, t)).fs;
            && Home(fs', root, base)
            && (!(base + p <= q) ==> Unchanged(fs, fs', q))
            && (base + p <= q ==> PathOutcome(fs, fs', q[|base|..], NodeAt(t, q[|base + p|..]), q))
    decreases t, 2
  {
    hide RestoreEntry, Excluded, Join, GoodTree, TreeLike, Leads, Fits;
    if Excluded(Join(p)) {
      ExcludedWalk(p, t);
      if base + p <= q {
        var r := q[|base + p|..];
        assert q[|base|..] == p + r;
        ExcludedAllBelow(p, r);
      }
    } else if t.Folder? {
      FolderRestored(fs, root, base, p, t, q);
    } else {
      LeafRestored(fs, root, base, p, t, q);
    }
  }

  lemma LeafRestored(fs: Files, root: Path, base: Path, p: Path, t: Tree, q: Path)
    requires CanPut(fs, root, base, p) && GoodTree(t) && Fits(fs, base + p, t)
    requires !t.Folder? && !Excluded(Join(p)) && RestoreAll(fs, root, Walk(p, t)).ok
    ensures var fs' := RestoreAll(fs, root, Walk(p, t)).fs;
            && Home(fs', root, base)
            && (!(base + p <= q) ==> Unchanged(fs, fs', q))
            && (base + p <= q ==> PathOutcome(fs, fs', q[|base|..], NodeAt(t, q[|base + p|..]), q))
  {
    hide RestoreEntry, Excluded, Join, TreeLike, Leads, Passes, EntryFor, Fits;
    assert Walk(p, t) == [EntryFor(p, t)];
    RestoreOne(fs, root, EntryFor(p, t));
    PutEntry(fs, root, base, p, t);
    PutKeepsHome(fs, root, base, p, t);
    if q == base + p {
      assert q[|base + p|..] == [] && q[|base|..] == p;
    } else if base + p <= q {
      assert q[|base + p|..] != [];
    }
  }

  lemma {:induction false} FolderRestored(fs: Files, root: Path, base: Path, p: Path, t: Tree, q: Path)
    requires CanPut(fs, root, base, p) && GoodTree(t) && NoClash(fs, base, p, t)
    requires t.Folder? && !Excluded(Join(p)) && RestoreAll(fs, root, Walk(p, t)).ok
    ensures var fs' := RestoreAll(fs, root, Walk(p, t)).fs;
            && Home(fs', root, base)
            && (!(base + p <= q) ==> Unchanged(fs, fs', q))
            && (base + p <= q ==> PathOutcome(fs, fs', q[|base|..], NodeAt(t, q[|base + p|..]), q))
    decreases t, 1
  {
    hide RestoreEntry, Excluded, Join, TreeLike, Leads, Passes, EntryFor, RestoreAll, ListNodeAt, Fits;
    var at := base + p;
    var below := WalkAll(p, t.names, t.nodes);
    assert Walk(p, t) == [EntryFor(p, t)] + below;
    RestoreConcat(fs, root, [EntryFor(p, t)], below);
    RestoreOne(fs, root, EntryFor(p, t));
    PutEntry(fs, root, base, p, t);
    PutKeepsHome(fs, root, base, p, t);
    FolderFits(fs, base, p, t);
    var fs1 := fs[at := Dir];
    ListRestored(fs1, root, base, p, t.names, t.nodes, q);
    if q == at {
      assert q[|at|..] == [] && q[|base|..] == p;
    } else if at <= q {
      assert at < q && q[|at|..] != [] && q[|at|..][0] == q[|at|];
      if q[|at|] !in t.names {
        NotListed(t.names, t.nodes, q[|at|..]);
      }
    }
  }

  /** Putting a directory in its place changes nothing below it. */
  lemma FolderFits(fs: Files, base: Path, p: Path, t: Tree)
    requires t.Folder? && GoodTree(t) && NoClash(fs, base, p, t) && !Excluded(Join(p))
    ensures GoodList(t.names, t.nodes) && NoClashes(fs[base + p := Dir], base, p, t.names, t.nodes)
  {
    hide Excluded, Join, Fits;
    GoodFolder(t);
    var fs1 := fs[base + p := Dir];
    forall i | 0 <= i < |t.names| ensures NoClash(fs1, base, p + [t.names[i]], t.nodes[i]) {
      forall q: Path | base + (p + [t.names[i]]) <= q ensures Unchanged(fs, fs1, q) {
        assert q != base + p;
      }
      NoClashFrame(fs, fs1, base, p + [t.names[i]], t.nodes[i]);
    }
  }

  lemma {:induction false} ListRestored(fs: Files, root: Path, base: Path, p: Path, names: seq<string>, nodes: seq<Tree>,
                                        q: Path)
    requires Home(fs, root, base) && AllNames(p) && IsDir(fs, base + p)
    requires GoodList(names, nodes) && NoClashes(fs, base, p, names, nodes)
    requires RestoreAll(fs, root, WalkAll(p, names, nodes)).ok
    ensures var fs' := RestoreAll(fs, root, WalkAll(p, names, nodes)).fs;
            && Home(fs', root, base)
            && (!(base + p < q) || q[|base + p|] !in names ==> Unchanged(fs, fs', q))
            && (base + p < q && q[|base + p|] in names ==>
                  PathOutcome(fs, fs', q[|base|..], ListNodeAt(names, nodes, q[|base + p|..]), q))
    decreases nodes, 1
  {
    hide RestoreEntry, Excluded, Join, TreeLike, Leads, Walk, GoodTree, NodeAt, NoClash, NoClashes;
    if names != [] {
      var at := base + p;
      var here := at + [names[0]];
      assert here[|at|] == names[0];
      RestoreConcat(fs, root, Walk(p + [names[0]], nodes[0]), WalkAll(p, names[1..], nodes[1..]));
      FirstRestored(fs, root, base, p, names, nodes, q);
      var fs1 := RestoreAll(fs, root, Walk(p + [names[0]], nodes[0])).fs;
      ListRestored(fs1, root, base, p, names[1..], nodes[1..], q);
      NotFirst(names);
      if at < q && q[|at|] in names {
        var rel := q[|at|..];
        assert rel[0] == q[|at|];
        if q[|at|] == names[0] {
          assert here <= q && rel[1..] == q[|here|..];
        } else {
          assert q[|at|] in names[1..];
        }
      }
    }
  }

  /** The first entry of a directory leaves the places of the others alone. */
  lemma {:induction false} FirstRestored(fs: Files, root: Path, base: Path, p: Path, names: seq<string>, nodes: seq<Tree>,
                                        q: Path)
    requires Home(fs, root, base) && AllNames(p) && IsDir(fs, base + p)
    requires GoodList(names, nodes) && NoClashes(fs, base, p, names, nodes) && names != []
    requires RestoreAll(fs, root, Walk(p + [names[0]], nodes[0])).ok
    ensures var fs1 := RestoreAll(fs, root, Walk(p + [names[0]], nodes[0])).fs;
            var here := base + p + [names[0]];
            && Home(fs1, root, base) && IsDir(fs1, base + p)
            && GoodList(names[1..], nodes[1..]) && NoClashes(fs1, base, p, names[1..], nodes[1..])
            && (!(here <= q) ==> Unchanged(fs, fs1, q))
            && (here <= q ==> PathOutcome(fs, fs1, q[|base|..], NodeAt(nodes[0], q[|here|..]), q))
    decreases nodes, 0
  {
    hide RestoreEntry, Excluded, Join, TreeLike, Leads, Walk, GoodTree, NodeAt, PathOutcome, NoClash;
    FirstCanBePut(fs, root, base, p, names, nodes);
    var at := base + p;
    var p1 := p + [names[0]];
    var here := at + [names[0]];
    assert base + p1 == here && here[|at|] == names[0];
    TreeRestored(fs, root, base, p1, nodes[0], q);
    TreeRestored(fs, root, base, p1, nodes[0], at);
    var fs1 := RestoreAll(fs, root, Walk(p1, nodes[0])).fs;
    forall i | 0 <= i < |names[1..]| ensures NoClash(fs1, base, p + [names[1..][i]], nodes[1..][i]) {
      assert names[1..][i] == names[i + 1] && nodes[1..][i] == nodes[i + 1];
      forall r: Path | base + (p + [names[i + 1]]) <= r ensures Unchanged(fs, fs1, r) {
        assert r[|at|] == (base + (p + [names[i + 1]]))[|at|] == names[i + 1];
        TreeRestored(fs, root, base, p1, nodes[0], r);
      }
      NoClashFrame(fs, fs1, base, p + [names[i + 1]], nodes[i + 1]);
    }
  }

  lemma FirstCanBePut(fs: Files, root: Path, base: Path, p: Path, names: seq<string>, nodes: seq<Tree>)
    requires Home(fs, root, base) && AllNames(p) && IsDir(fs, base + p)
    requires GoodList(names, nodes) && NoClashes(fs, base, p, names, nodes) && names != []
    ensures var p1 := p + [names[0]];
            CanPut(fs, root, base, p1) && NoClash(fs, base, p1, nodes[0]) && GoodTree(nodes[0])
  {
    hide TreeLike, GoodTree, Leads, NoClash;
    assert Up(p + [names[0]]) == p;
  }
}
