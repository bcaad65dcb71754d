/** The main results about restores: what a restore leaves behind, and exactly when it succeeds. */
module BackupRestore {
  import opened Prelude
  import opened Paths
  import opened FileSystem
  import opened Backup
  import opened BackupPaths
  import opened BackupRoundTrip
  import opened BackupLinks
  import opened BackupMetadata

  // ---- What a restore leaves behind ----

  /** A home to restore into: the root leads to it, nothing of another kind stands in the way of a saved
      node, and no metadata directory is left over. */
  predicate Ready(fs: Files, root: Path, base: Path, t: Tree) {
    && Home(fs, root, base)
    && t.Folder? && NoClashes(fs, base, [], t.names, t.nodes)
    && forall q | q in fs :: !(base + [METADATA] <= q)
  }

  /** An empty directory is ready for any tree. */
  lemma EmptyIsReady(fs: Files, root: Path, base: Path, t: Tree)
    requires Home(fs, root, base) && t.Folder? && forall q | q in fs :: !(base < q)
    ensures Ready(fs, root, base, t)
  {
    hide TreeLike, Leads, Excluded, Join;
    forall i | 0 <= i < |t.names| && i < |t.nodes| ensures NoClash(fs, base, [] + [t.names[i]], t.nodes[i]) {
      EmptyHasNoClash(fs, base, [] + [t.names[i]], t.nodes[i]);
    }
    forall q | q in fs ensures !(base + [METADATA] <= q) {
      assert base + [METADATA] <= q ==> base < q;
    }
  }

  lemma {:induction false} EmptyHasNoClash(fs: Files, base: Path, p: Path, t: Tree)
    requires p != [] && forall q | q in fs :: !(base < q)
    ensures NoClash(fs, base, p, t)
    decreases t
  {
    hide Excluded, Join;
    assert base < base + p;
    if t.Folder? {
      forall i | 0 <= i < |t.names| && i < |t.nodes| ensures NoClash(fs, base, p + [t.names[i]], t.nodes[i]) {
        EmptyHasNoClash(fs, base, p + [t.names[i]], t.nodes[i]);
      }
    }
  }

  /** os.RemoveAll of a real path. */
  function RemoveAll(fs: Files, p: Path): Files {
    map q | q in fs && !(p <= q) :: fs[q]
  }

  lemma WalkRoot(t: Tree)
    requires t.Folder?
    ensures Walk([], t) == WalkAll([], t.names, t.nodes)
  {
    hide WalkAll;
  }

  /** Restoring over a home and dropping the metadata directory: the saved tree without the exclusions
      stands there, and every other path is as before, as soon as every check passes. */
  lemma BackupRestores(t: Tree, extras: seq<Extra>, metas: seq<Meta>, fs: Files, root: Path, base: Path, q: Path)
    requires GoodTree(t) && GoodExtras(extras, metas) && Ready(fs, root, base, t)
    requires Archive(t, extras).Some?
    requires RestoreAll(fs, root, Archive(t, extras).value).ok
    ensures var fs' := RemoveAll(RestoreAll(fs, root, Archive(t, extras).value).fs, base + [METADATA]);
            && (base < q ==> PathOutcome(fs, fs', q[|base|..], NodeAt(t, q[|base|..]), q))
            && (!(base < q) ==> Unchanged(fs, fs', q))
  {
    hide RestoreEntry, TreeLike, Leads, Excluded, Join, NodeAt, Walk, WalkAll, Archive, RestoreAll, Holds, GoodTree,
      PathOutcome, Unchanged, NoClashes, Ready;
    ReadyHome(fs, root, base, t);
    ArchiveParts(t, extras, metas);
    RestoreConcat(fs, root, Walk([], t), MetaEntries(metas));
    var fs1 := RestoreAll(fs, root, Walk([], t)).fs;
    TreeThenMetas(t, metas, fs, root, base, fs1, q);
    var fs2 := RestoreAll(fs1, root, MetaEntries(metas)).fs;
    FinalPath(t, fs, fs1, fs2, root, base, q);
  }

  lemma ReadyHome(fs: Files, root: Path, base: Path, t: Tree)
    requires Ready(fs, root, base, t)
    ensures Home(fs, root, base) && t.Folder? && AllNames(base)
  {
    HomeNames(fs, root, base);
  }

  lemma RootRestored(t: Tree, fs: Files, root: Path, base: Path, q: Path)
    requires GoodTree(t) && Ready(fs, root, base, t) && RestoreAll(fs, root, Walk([], t)).ok
    ensures var fs1 := RestoreAll(fs, root, Walk([], t)).fs;
            && Home(fs1, root, base)
            && (base < q ==> PathOutcome(fs, fs1, q[|base|..], NodeAt(t, q[|base|..]), q))
            && (!(base < q) ==> Unchanged(fs, fs1, q))
  {
    hide RestoreEntry, TreeLike, Leads, Excluded, Join, Walk, WalkAll, RestoreAll, ListNodeAt, NoClashes;
    WalkRoot(t);
    GoodFolder(t);
    HomeNames(fs, root, base);
    assert base + [] == base;
    ListRestored(fs, root, base, [], t.names, t.nodes, q);
    if base < q {
      assert q[|base|..] != [] && q[|base|..][0] == q[|base|];
      if q[|base|] !in t.names {
        NotListed(t.names, t.nodes, q[|base|..]);
      }
    }
  }

  /** No kept node stands below the metadata directory. */
  lemma NothingKeptThere(t: Tree, p: Path)
    requires GoodTree(t) && p != [] && p[0] == METADATA && NodeAt(t, p).Some?
    ensures Excluded(Join(p))
  {
    hide Excluded, Join;
    NodeNames(t, p);
    MetadataExcluded(p);
  }

  lemma TreeThenMetas(t: Tree, metas: seq<Meta>, fs: Files, root: Path, base: Path, fs1: Files, q: Path)
    requires GoodTree(t) && GoodMetas(metas) && Ready(fs, root, base, t)
    requires RestoreAll(fs, root, Walk([], t)).ok && fs1 == RestoreAll(fs, root, Walk([], t)).fs
    ensures Home(fs1, root, base)
    ensures base < q ==> PathOutcome(fs, fs1, q[|base|..], NodeAt(t, q[|base|..]), q)
    ensures !(base < q) ==> Unchanged(fs, fs1, q)
    ensures RestoreAll(fs1, root, MetaEntries(metas)).ok
    ensures !(base + [METADATA] <= q) ==> Unchanged(fs1, RestoreAll(fs1, root, MetaEntries(metas)).fs, q)
  {
    hide RestoreEntry, TreeLike, Leads, Excluded, Join, Walk, WalkAll, RestoreAll, GoodTree, NodeAt, NoClashes;
    RootRestored(t, fs, root, base, q);
    RootRestored(t, fs, root, base, base);
    forall r | r in fs1 ensures !(base + [METADATA] <= r) {
      if base + [METADATA] <= r {
        RootRestored(t, fs, root, base, r);
        var p := r[|base|..];
        assert base < r && p[0] == r[|base|] == METADATA;
        if NodeAt(t, p).Some? { NothingKeptThere(t, p); }
        assert false;
      }
    }
    NothingHeld(fs1, base, metas);
    assert MetaEntries(metas)[0..] == MetaEntries(metas);
    MetasRead(fs1, root, base, metas, 0, q);
  }

  lemma FinalPath(t: Tree, fs: Files, fs1: Files, fs2: Files, root: Path, base: Path, q: Path)
    requires GoodTree(t) && Ready(fs, root, base, t)
    requires base < q ==> PathOutcome(fs, fs1, q[|base|..], NodeAt(t, q[|base|..]), q)
    requires !(base < q) ==> Unchanged(fs, fs1, q)
    requires !(base + [METADATA] <= q) ==> Unchanged(fs1, fs2, q)
    ensures var fs' := RemoveAll(fs2, base + [METADATA]);
            && (base < q ==> PathOutcome(fs, fs', q[|base|..], NodeAt(t, q[|base|..]), q))
            && (!(base < q) ==> Unchanged(fs, fs', q))
  {
    hide Excluded, Join, TreeLike, Leads, NodeAt, NoClashes, GoodTree;
    if base + [METADATA] <= q {
      var p := q[|base|..];
      assert base < q && p[0] == q[|base|] == METADATA;
      if NodeAt(t, p).Some? {
        NothingKeptThere(t, p);
      }
    }
  }

  lemma {:induction false} NodeNames(t: Tree, p: Path)
    requires GoodTree(t) && NodeAt(t, p).Some?
    ensures AllNames(p)
    decreases t, 1
  {
    if p != [] {
      GoodFolder(t);
      ListNames(t.names, t.nodes, p);
    }
  }

  lemma {:induction false} ListNames(names: seq<string>, nodes: seq<Tree>, p: Path)
    requires GoodList(names, nodes) && p != [] && ListNodeAt(names, nodes, p).Some?
    ensures AllNames(p)
    decreases nodes, 0
  {
    hide GoodTree;
    if names[0] == p[0] {
      NodeNames(nodes[0], p[1..]);
      assert p == [p[0]] + p[1..];
    } else {
      ListNames(names[1..], nodes[1..], p);
    }
  }

  // ---- Exactly when it succeeds ----

  /** The checks made before one entry is created. */
  predicate EntryPasses(fs: Files, root: Path, e: Entry) {
    var p := CleanParts(e.name);
    PathWithin(fs, root + p, root) && (e.kind.Linked? ==> LinkPasses(fs, root, p, e.kind.target))
  }

  /** Every entry passes its checks, on the file system that the entries before it leave. */
  predicate ChecksPass(fs: Files, root: Path, es: seq<Entry>)
    decreases es
  {
    es == [] || (EntryPasses(fs, root, es[0]) && ChecksPass(RestoreEntry(fs, root, es[0]).fs, root, es[1..]))
  }

  /** A restore that succeeds has passed them, whatever the archive and the file system. */
  lemma {:induction false} SuccessMeansPassed(fs: Files, root: Path, es: seq<Entry>)
    requires RestoreAll(fs, root, es).ok
    ensures ChecksPass(fs, root, es)
    decreases es
  {
    hide PathWithin, MkdirAll, WriteFile, MakeLink, Remove, CleanParts, LinkDestination;
    if es != [] {
      SuccessMeansPassed(RestoreEntry(fs, root, es[0]).fs, root, es[1..]);
    }
  }

  lemma {:induction false} PassConcat(fs: Files, root: Path, a: seq<Entry>, b: seq<Entry>)
    requires ChecksPass(fs, root, a + b)
    ensures ChecksPass(fs, root, a)
    ensures RestoreAll(fs, root, a).ok ==> ChecksPass(RestoreAll(fs, root, a).fs, root, b)
    decreases a
  {
    hide RestoreEntry, EntryPasses;
    if a == [] {
      assert a + b == b;
    } else {
      assert (a + b)[1..] == a[1..] + b;
      PassConcat(RestoreEntry(fs, root, a[0]).fs, root, a[1..], b);
    }
  }

  lemma OnePasses(fs: Files, root: Path, p: Path, t: Tree)
    requires AllNames(p) && p != [] && ChecksPass(fs, root, [EntryFor(p, t)])
    ensures Passes(fs, root, p, t)
  {
    hide RestoreEntry, LinkPasses, CleanParts, Join, PathWithin;
    NameParts(p);
  }

  lemma {:induction false} TreeSucceeds(fs: Files, root: Path, base: Path, p: Path, t: Tree)
    requires CanPut(fs, root, base, p) && GoodTree(t) && NoClash(fs, base, p, t)
    requires ChecksPass(fs, root, Walk(p, t))
    ensures RestoreAll(fs, root, Walk(p, t)).ok
    decreases t, 1
  {
    hide RestoreEntry, Excluded, Join, TreeLike, Leads, EntryFor, RestoreAll, GoodTree, ChecksPass, Passes, Fits;
    if Excluded(Join(p)) {
      ExcludedWalk(p, t);
      RestoreNone(fs, root);
    } else {
      var below := if t.Folder? then WalkAll(p, t.names, t.nodes) else [];
      assert Walk(p, t) == [EntryFor(p, t)] + below;
      PassConcat(fs, root, [EntryFor(p, t)], below);
      OnePasses(fs, root, p, t);
      PutEntry(fs, root, base, p, t);
      RestoreOne(fs, root, EntryFor(p, t));
      RestoreConcat(fs, root, [EntryFor(p, t)], below);
      if t.Folder? {
        PutKeepsHome(fs, root, base, p, t);
        FolderFits(fs, base, p, t);
        ListSucceeds(fs[base + p := Dir], root, base, p, t.names, t.nodes);
      } else {
        RestoreNone(fs[base + p := NodeOf(t)], root);
      }
    }
  }

  lemma {:induction false} ListSucceeds(fs: Files, root: Path, base: Path, p: Path, names: seq<string>, nodes: seq<Tree>)
    requires Home(fs, root, base) && AllNames(p) && IsDir(fs, base + p)
    requires GoodList(names, nodes) && NoClashes(fs, base, p, names, nodes)
    requires ChecksPass(fs, root, WalkAll(p, names, nodes))
    ensures RestoreAll(fs, root, WalkAll(p, names, nodes)).ok
    decreases nodes, 0
  {
    hide RestoreEntry, Excluded, Join, TreeLike, Leads, Walk, GoodTree, NodeAt, PathOutcome, RestoreAll, ChecksPass,
      NoClash, NoClashes;
    if names == [] {
      RestoreNone(fs, root);
    } else {
      var first, rest := Walk(p + [names[0]], nodes[0]), WalkAll(p, names[1..], nodes[1..]);
      PassConcat(fs, root, first, rest);
      FirstCanBePut(fs, root, base, p, names, nodes);
      TreeSucceeds(fs, root, base, p + [names[0]], nodes[0]);
      FirstRestored(fs, root, base, p, names, nodes, base);
      RestoreConcat(fs, root, first, rest);
      ListSucceeds(RestoreAll(fs, root, first).fs, root, base, p, names[1..], nodes[1..]);
    }
  }

  /** A written backup restores over a home exactly when each entry passes its checks when its turn comes;
      nothing else in it can fail. */
  lemma BackupSucceedsIff(t: Tree, extras: seq<Extra>, metas: seq<Meta>, fs: Files, root: Path, base: Path)
    requires GoodTree(t) && GoodExtras(extras, metas) && Ready(fs, root, base, t)
    ensures Archive(t, extras).Some?
    ensures RestoreAll(fs, root, Archive(t, extras).value).ok <==> ChecksPass(fs, root, Archive(t, extras).value)
  {
    hide RestoreEntry, TreeLike, Leads, Excluded, Join, Walk, WalkAll, RestoreAll, GoodTree, ChecksPass, NoClashes;
    ArchiveParts(t, extras, metas);
    var tree, rest := Walk([], t), MetaEntries(metas);
    if ChecksPass(fs, root, tree + rest) {
      PassConcat(fs, root, tree, rest);
      WalkRoot(t);
      GoodFolder(t);
      HomeNames(fs, root, base);
      assert base + [] == base;
      ListSucceeds(fs, root, base, [], t.names, t.nodes);
      RestoreConcat(fs, root, tree, rest);
      TreeThenMetas(t, metas, fs, root, base, RestoreAll(fs, root, tree).fs, base);
    }
    if RestoreAll(fs, root, tree + rest).ok {
      SuccessMeansPassed(fs, root, tree + rest);
    }
  }

  /** The checks of a new entry itself: a name that begins with two dots passes only when the root is
      spelled below the directory it leads to, as it is when it contains no link. */
  lemma NewEntryWithinIff(fs: Files, root: Path, base: Path, p: Path)
    requires CanPut(fs, root, base, p) && base + p !in fs
    ensures PathWithin(fs, root + p, root) <==> !HasPrefix(p[0], "..") || base <= root + p
  {
    hide Resolve, TreeLike, Leads, ResolveForCreate;
    LastName(p);
    RootResolves(fs, root, base);
    LastStep(fs, root, base, p, EVAL_LINKS);
    assert (root + p)[|root|..] == p && (root + p)[|root|] == p[0] && root < root + p;
    HomeNames(fs, root, base);
    assert base < base + p;
    if !HasPrefix(p[0], "..") {
      MissingPath(fs, base + p, EVAL_LINKS) by {
        assert Up(base + p) == base + Up(p) && (base + p)[|base + p| - 1] == p[|p| - 1];
      }
    }
  }

  lemma PlainChild(root: Path, base: Path, t: Tree, i: nat)
    requires t.Folder? && (root == base || PlainTree(t)) && i < |t.names| == |t.nodes|
    ensures PlainFor(root, base, [t.names[i]], t.nodes[i])
  {
    hide PlainName;
  }

  /** No check fails when every link target is relative, goes up only at its start and no further than the
      root, and, for a root reached through links, no name begins with two dots. */
  lemma SafeBackupRestores(t: Tree, extras: seq<Extra>, metas: seq<Meta>, fs: Files, root: Path, base: Path)
    requires GoodTree(t) && GoodExtras(extras, metas) && Ready(fs, root, base, t) && AllNames(root)
    requires LinksInside(fs, base) && (root == base || PlainTree(t))
    requires forall i | 0 <= i < |t.names| && i < |t.nodes| :: LinksSafe([t.names[i]], t.nodes[i])
    ensures Archive(t, extras).Some? && RestoreAll(fs, root, Archive(t, extras).value).ok
  {
    hide RestoreEntry, TreeLike, Leads, Excluded, Join, Walk, WalkAll, RestoreAll, GoodTree, LinksSafe, LinksInside,
      NoClashes, PlainName, PlainTree, PlainFor, NodeAt, PathOutcome, Archive;
    ArchiveParts(t, extras, metas);
    WalkRoot(t);
    GoodFolder(t);
    HomeNames(fs, root, base);
    assert base + [] == base;
    forall i | 0 <= i < |t.names|
      ensures LinksSafe([] + [t.names[i]], t.nodes[i]) && PlainFor(root, base, [] + [t.names[i]], t.nodes[i])
    {
      assert [] + [t.names[i]] == [t.names[i]];
      PlainChild(root, base, t, i);
    }
    SafeList(fs, root, base, [], t.names, t.nodes);
    RestoreConcat(fs, root, Walk([], t), MetaEntries(metas));
    TreeThenMetas(t, metas, fs, root, base, RestoreAll(fs, root, Walk([], t)).fs, base);
  }

  // ---- A root that does not exist yet ----

  /** The root is missing, and nothing but directories stands on the way to it. */
  predicate MissingRoot(fs: Files, root: Path) {
    TreeLike(fs) && root != [] && AllNames(root) && OnTrack(fs, root) && root !in fs
  }

  lemma AncestorThere(fs: Files, p: Path, q: Path)
    requires TreeLike(fs) && q in fs && p <= q
    ensures p in fs
  {
    PrefixThere(fs, q, |p|);
    assert q[..|p|] == p;
  }

  lemma MadeRoot(fs: Files, root: Path)
    requires MissingRoot(fs, root)
    ensures Home(AllDirs(fs, root), root, root) && forall q | q in AllDirs(fs, root) :: !(root < q)
  {
    hide TreeLike, OnTrack, Leads, AllDirs;
    var fs1 := AllDirs(fs, root);
    AllDirsTree(fs, root);
    RealRootLeads(fs1, root);
    forall q | q in fs1 ensures !(root < q) {
      AllDirsAt(fs, root, q);
      if root < q && q in fs {
        AncestorThere(fs, root, q);
      }
    }
  }

  lemma {:induction false} AllDirsTwice(fs: Files, p: Path, q: Path)
    requires TreeLike(fs) && TreeLike(AllDirs(fs, p)) && p <= q
    ensures AllDirs(AllDirs(fs, p), q) == AllDirs(fs, q)
  {
    hide TreeLike, AllDirs;
    var a, b := AllDirs(AllDirs(fs, p), q), AllDirs(fs, q);
    forall r: Path ensures (r in a <==> r in b) && (r in a ==> a[r] == b[r]) {
      AllDirsAt(AllDirs(fs, p), q, r);
      AllDirsAt(fs, p, r);
      AllDirsAt(fs, q, r);
    }
    assert a.Keys == b.Keys;
  }

  /** Below a missing root everything is missing. */
  lemma BelowMissing(fs: Files, root: Path, p: Path)
    requires MissingRoot(fs, root) && AllNames(p)
    ensures AllNames(root + p) && OnTrack(fs, root + p) && root + p !in fs
    ensures EvalSymlinks(fs, root + p) == None && Stat(fs, root + p) == None
  {
    hide TreeLike, Resolve;
    var at := root + p;
    forall k | 0 <= k <= |at| && at[..k] in fs ensures k < |root| {
      if k >= |root| {
        AncestorThere(fs, root, at[..k]);
      }
    }
    assert at[..|at|] == at;
    forall k | 0 <= k < |at| && at[..k] in fs ensures fs[at[..k]].Dir? {
      assert at[..k] == root[..k];
    }
    TrackMissing(fs, at, EVAL_LINKS);
    TrackMissing(fs, at, KERNEL_LINKS);
  }

  /** The first entry makes the missing root, unless it is a link: then it fails. */
  lemma FirstEntry(fs: Files, root: Path, e: Entry)
    requires MissingRoot(fs, root) && SafeName(e.name)
    ensures RestoreEntry(fs, root, e) ==
            if e.kind.Linked? then Outcome(fs, false) else RestoreEntry(AllDirs(fs, root), root, e)
  {
    hide Resolve, ResolveForCreate, MkdirAll, TreeLike, Leads, WriteFile, OnTrack, AllDirs, CleanParts, SafeName,
      LinkDestination, Lstat, MakeLink, Remove;
    var p := CleanParts(e.name);
    var at := root + p;
    SafeNameParts(e.name);
    MissingPathsFit(fs, root, p);
    match e.kind
    case Directory => MakesRoot(fs, root, p);
    case Regular => MakesRoot(fs, root, Up(p));
    case Linked(link) => LinkFails(fs, root, p, link);
  }

  /** Both before and after the root is made, the entry's own check passes. */
  lemma MissingPathsFit(fs: Files, root: Path, p: Path)
    requires MissingRoot(fs, root) && AllNames(p) && p != []
    ensures Up(root + p) == root + Up(p) && AllNames(Up(p))
    ensures PathWithin(fs, root + p, root) && PathWithin(AllDirs(fs, root), root + p, root)
  {
    hide Resolve, TreeLike, OnTrack, AllDirs, Leads;
    BelowMissing(fs, root, []);
    assert root + [] == root;
    BelowMissing(fs, root, p);
    MadeRoot(fs, root);
    var fs1 := AllDirs(fs, root);
    AllDirsTree(fs, root);
    AllDirsAt(fs, root, root + p);
    MadeTrack(fs, root, p);
    TrackMissing(fs1, root + p, EVAL_LINKS);
    WithinRule(fs1, root, root, p);
  }

  lemma MadeTrack(fs: Files, root: Path, p: Path)
    requires MissingRoot(fs, root) && AllNames(p)
    ensures OnTrack(AllDirs(fs, root), root + p) && TreeLike(AllDirs(fs, root))
    ensures p != [] ==> root + p !in AllDirs(fs, root)
  {
    hide TreeLike, AllDirs;
    BelowMissing(fs, root, p);
    AllDirsTree(fs, root);
    var fs1 := AllDirs(fs, root);
    forall k | 0 <= k < |root + p| && (root + p)[..k] in fs1 ensures fs1[(root + p)[..k]].Dir? {
      AllDirsAt(fs, root, (root + p)[..k]);
    }
    AllDirsAt(fs, root, root + p);
  }

  lemma MakesRoot(fs: Files, root: Path, p: Path)
    requires MissingRoot(fs, root) && AllNames(p)
    ensures MkdirAll(fs, root + p) == MkdirAll(AllDirs(fs, root), root + p)
  {
    hide Resolve, MkdirAll, TreeLike, OnTrack, AllDirs, Leads;
    BelowMissing(fs, root, p);
    MkdirAllReal(fs, root + p);
    MadeRoot(fs, root);
    MadeTrack(fs, root, p);
    var fs1 := AllDirs(fs, root);
    RootIsMade(fs, root, p);
    MkdirAllReal(fs1, root + p);
    AllDirsTwice(fs, root, root + p);
  }

  lemma RootIsMade(fs: Files, root: Path, p: Path)
    requires MissingRoot(fs, root) && AllNames(p)
    ensures root + p in AllDirs(fs, root) ==> AllDirs(fs, root)[root + p].Dir?
  {
    hide TreeLike, AllDirs, OnTrack;
    BelowMissing(fs, root, p);
    AllDirsAt(fs, root, root + p);
  }

  lemma LinkFails(fs: Files, root: Path, p: Path, link: string)
    requires MissingRoot(fs, root) && AllNames(p) && p != []
    ensures MakeLink(Remove(fs, root + p), link, root + p) == Outcome(fs, false)
  {
    hide Resolve, TreeLike, OnTrack;
    assert Up(root + p) == root + Up(p);
    BelowMissing(fs, root, Up(p));
  }

  /** Restoring any archive into a missing root: the root is made first, unless the archive is empty, or
      its first entry is unsafe or a link. */
  lemma IntoMissingRoot(fs: Files, root: Path, es: seq<Entry>)
    requires MissingRoot(fs, root)
    ensures RestoreAll(fs, root, es) ==
            if es == [] then Outcome(fs, true)
            else if !SafeName(es[0].name) || es[0].kind.Linked? then Outcome(fs, false)
            else RestoreAll(AllDirs(fs, root), root, es)
  {
    hide RestoreEntry, OnTrack, TreeLike, AllDirs, SafeName;
    if es != [] {
      if SafeName(es[0].name) {
        FirstEntry(fs, root, es[0]);
      } else {
        UnsafeEntry(fs, root, es[0]);
      }
    }
  }

  lemma UnsafeEntry(fs: Files, root: Path, e: Entry)
    requires !SafeName(e.name)
    ensures RestoreEntry(fs, root, e) == Outcome(fs, false)
  {
  }

  /** A written backup restores into a missing root exactly when it is empty, or does not begin with a link
      and every entry passes its checks once the root is made. */
  lemma BackupIntoMissingRootIff(t: Tree, extras: seq<Extra>, metas: seq<Meta>, fs: Files, root: Path)
    requires t.Folder? && GoodTree(t) && GoodExtras(extras, metas) && MissingRoot(fs, root)
    ensures Archive(t, extras).Some?
    ensures var es := Archive(t, extras).value;
            RestoreAll(fs, root, es).ok <==>
            es == [] || (!es[0].kind.Linked? && ChecksPass(AllDirs(fs, root), root, es))
  {
    hide RestoreEntry, OnTrack, TreeLike, Leads, AllDirs, SafeName, GoodTree, GoodExtras, Archive, RestoreAll, ChecksPass, Ready;
    MadeRoot(fs, root);
    EmptyIsReady(AllDirs(fs, root), root, root, t);
    BackupSucceedsIff(t, extras, metas, AllDirs(fs, root), root, root);
    var es := Archive(t, extras).value;
    IntoMissingRoot(fs, root, es);
    if es != [] {
      ArchiveIsSafe(t, extras, metas);
    }
  }

  /** What it leaves there: the root and the directories above it, and the saved tree. */
  lemma BackupIntoMissingRoot(t: Tree, extras: seq<Extra>, metas: seq<Meta>, fs: Files, root: Path, q: Path)
    requires t.Folder? && GoodTree(t) && GoodExtras(extras, metas) && MissingRoot(fs, root)
    requires Archive(t, extras).Some? && Archive(t, extras).value != []
    requires RestoreAll(fs, root, Archive(t, extras).value).ok
    ensures var fs' := RemoveAll(RestoreAll(fs, root, Archive(t, extras).value).fs, root + [METADATA]);
            && (root < q ==> PathOutcome(fs, fs', q[|root|..], NodeAt(t, q[|root|..]), q))
            && (q <= root ==> q in fs' && fs'[q] == Dir)
            && (!(root < q) && !(q <= root) ==> Unchanged(fs, fs', q))
  {
    hide RestoreEntry, OnTrack, TreeLike, Leads, AllDirs, SafeName, GoodTree, GoodExtras, Archive, RestoreAll, Ready,
      NodeAt, Excluded, Join, RemoveAll;
    var fs1 := AllDirs(fs, root);
    MadeRoot(fs, root);
    EmptyIsReady(fs1, root, root, t);
    ArchiveIsSafe(t, extras, metas);
    IntoMissingRoot(fs, root, Archive(t, extras).value);
    BackupRestores(t, extras, metas, fs1, root, root, q);
    AllDirsAt(fs, root, q);
    if q <= root {
      OnTheWay(fs, root, q);
    }
  }

  lemma OnTheWay(fs: Files, root: Path, q: Path)
    requires MissingRoot(fs, root) && q <= root
    ensures q in fs ==> fs[q].Dir?
  {
    assert q == root[..|q|] && (|q| == |root| ==> q == root);
  }

  /** The names in a written archive are all safe. */
  lemma ArchiveIsSafe(t: Tree, extras: seq<Extra>, metas: seq<Meta>)
    requires t.Folder? && GoodTree(t) && GoodExtras(extras, metas)
    ensures Archive(t, extras).Some?
    ensures forall i | 0 <= i < |Archive(t, extras).value| :: SafeName(Archive(t, extras).value[i].name)
  {
    hide SafeName, GoodTree, Walk, WalkAll, Join;
    ArchiveParts(t, extras, metas);
    WalkIsSafe([], t);
    var es := Walk([], t) + MetaEntries(metas);
    forall i | 0 <= i < |es| ensures SafeName(es[i].name) {
      if i >= |Walk([], t)| {
        NameParts(metas[i - |Walk([], t)|].path);
      }
    }
  }

  lemma {:induction false} WalkIsSafe(p: Path, t: Tree)
    requires GoodTree(t) && AllNames(p)
    ensures forall i | 0 <= i < |Walk(p, t)| :: SafeName(Walk(p, t)[i].name)
    decreases t, 1
  {
    hide SafeName, Join, Excluded, CleanParts;
    if p != [] { NameParts(p); }
    if t.Folder? {
      GoodFolder(t);
      WalkAllIsSafe(p, t.names, t.nodes);
    }
  }

  lemma {:induction false} WalkAllIsSafe(p: Path, names: seq<string>, nodes: seq<Tree>)
    requires GoodList(names, nodes) && AllNames(p)
    ensures forall i | 0 <= i < |WalkAll(p, names, nodes)| :: SafeName(WalkAll(p, names, nodes)[i].name)
    decreases nodes, 0
  {
    hide SafeName, Walk, GoodTree;
    if names != [] {
      WalkIsSafe(p + [names[0]], nodes[0]);
      WalkAllIsSafe(p, names[1..], nodes[1..]);
    }
  }

  /** One tree and one file system: with its root in place the restore succeeds; with the root missing it
      fails, although the link is as safe as before. */
  lemma FirstLinkNeedsTheRoot()
    ensures var t := Folder(["l"], [Symlink("x")]);
            var fs: Files := map[[] := Dir];
            && !RestoreAll(fs, ["r"], Walk([], t)).ok
            && RestoreAll(map[[] := Dir, ["r"] := Dir], ["r"], Walk([], t)).ok
  {
    hide *;
    FirstLinkFails();
    FirstLinkRestored();
  }

  lemma FirstLinkFails()
    ensures !RestoreAll(map[[] := Dir], ["r"], Walk([], Folder(["l"], [Symlink("x")]))).ok
  {
    hide Resolve, RestoreAll, Walk, AllDirs, SafeName;
    var fs: Files := map[[] := Dir];
    OneLinkWalk();
    assert IsName("r");
    assert OnTrack(fs, ["r"]) by { assert ["r"][..0] == []; }
    IntoMissingRoot(fs, ["r"], Walk([], Folder(["l"], [Symlink("x")])));
  }

  lemma FirstLinkRestored()
    ensures RestoreAll(map[[] := Dir, ["r"] := Dir], ["r"], Walk([], Folder(["l"], [Symlink("x")]))).ok
  {
    hide Resolve, RestoreAll, Walk, WalkAll, Leads, SplitSlash, Excluded, PlainName, Join, NoClash, SafeParts, TreeLike;
    var t := Folder(["l"], [Symlink("x")]);
    var fs: Files := map[[] := Dir, ["r"] := Dir];
    TwoDirs(fs);
    RealRootLeads(fs, ["r"]);
    EmptyIsReady(fs, ["r"], ["r"], t);
    OneSafeLink();
    assert [] + ["l"] == ["l"] && ["r"] + [] == ["r"];
    WalkRoot(t);
    SafeList(fs, ["r"], ["r"], [], t.names, t.nodes);
  }

  lemma TwoDirs(fs: Files)
    requires fs == map[[] := Dir, ["r"] := Dir]
    ensures TreeLike(fs) && IsDir(fs, ["r"]) && AllNames(["r"])
  {
    assert Up(["r"]) == [] && IsName("r");
  }

  lemma OneSafeLink()
    ensures SafeLink(0, "x")
  {
    hide SplitSlash;
    SplitNoSlash("x");
    NamesAreSafe(["x"]);
  }

  lemma OneLinkWalk()
    ensures Walk([], Folder(["l"], [Symlink("x")])) == [Entry("l", Linked("x"), "")]
    ensures SafeName("l")
  {
    hide CleanParts, SafeName;
    var t := Folder(["l"], [Symlink("x")]);
    NameParts(["l"]);
    assert Join(["l"]) == "l" && [] + ["l"] == ["l"];
    assert t.names[1..] == [] && t.nodes[1..] == [];
    assert "l"[0] == 'l' && DEPLOY_KEY[0] == '.' && METADATA[0] == '.';
    assert !Excluded("l");
  }
}
