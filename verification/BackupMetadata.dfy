/** The metadata side channel of a backup. */
module BackupMetadata {
  import opened Prelude
  import opened Paths
  import opened FileSystem
  import opened Backup
  import opened BackupPaths
  import opened BackupRoundTrip

  // ---- Creating a file below directories that may be missing ----

  /** No file or link is in the way of `p`. */
  predicate OnTrack(fs: Files, p: Path) {
    forall k | 0 <= k < |p| && p[..k] in fs :: fs[p[..k]].Dir?
  }

  function AllDirs(fs: Files, p: Path): Files
    decreases |p|
  {
    if p in fs || p == [] then fs else AllDirs(fs, Up(p))[p := Dir]
  }

  lemma {:induction false} AllDirsAt(fs: Files, p: Path, q: Path)
    requires TreeLike(fs)
    ensures q in AllDirs(fs, p) <==> q in fs || q <= p
    ensures q in AllDirs(fs, p) ==> AllDirs(fs, p)[q] == if q in fs then fs[q] else Dir
    decreases |p|
  {
    hide TreeLike;
    if p in fs || p == [] {
      if q <= p {
        PrefixThere(fs, p, |q|);
        assert p[..|q|] == q;
      }
    } else {
      AllDirsAt(fs, Up(p), q);
      if q <= p && q != p {
        assert |q| < |p| && q == p[..|q|] == Up(p)[..|q|];
      }
      if q <= Up(p) {
        assert q == Up(p)[..|q|] == p[..|q|];
      }
    }
  }

  lemma {:induction false} PrefixThere(fs: Files, p: Path, k: nat)
    requires TreeLike(fs) && (p in fs || p == []) && k <= |p|
    ensures p[..k] in fs
    decreases |p|
  {
    if k < |p| {
      assert Up(p)[..k] == p[..k];
      PrefixThere(fs, Up(p), k);
    } else {
      assert p[..k] == p;
    }
  }

  lemma {:induction false} AllDirsTree(fs: Files, p: Path)
    requires TreeLike(fs) && AllNames(p) && OnTrack(fs, p) && (p in fs ==> fs[p].Dir?)
    ensures TreeLike(AllDirs(fs, p)) && IsDir(AllDirs(fs, p), p)
    decreases |p|
  {
    if p !in fs && p != [] {
      OnTrackUp(fs, p);
      AllDirsTree(fs, Up(p));
      AllDirsAt(fs, Up(p), p);
      assert |p| > |Up(p)|;
      PutKeepsTree(AllDirs(fs, Up(p)), p, Dir);
    }
  }

  lemma OnTrackUp(fs: Files, p: Path)
    requires OnTrack(fs, p) && p != []
    ensures OnTrack(fs, Up(p)) && (Up(p) in fs ==> fs[Up(p)].Dir?)
  {
    assert forall k | 0 <= k < |Up(p)| :: Up(p)[..k] == p[..k];
    assert p[..|p| - 1] == Up(p);
  }

  lemma NamesUp(p: Path)
    requires AllNames(p)
    ensures AllNames(Up(p)) && (p != [] ==> IsName(p[|p| - 1]))
  {
  }

  lemma {:induction false} TrackMissing(fs: Files, p: Path, links: nat)
    requires TreeLike(fs) && AllNames(p) && OnTrack(fs, p) && p !in fs
    ensures Resolve(fs, [], p, links) == None
    decreases |p|
  {
    hide Resolve, ResolveForCreate, TreeLike, OnTrack;
    RootInTree(fs);
    OnTrackUp(fs, p);
    NamesUp(p);
    if Up(p) in fs {
      MissingPath(fs, p, links);
    } else {
      TrackMissing(fs, Up(p), links);
      assert p == Up(p) + [p[|p| - 1]];
      if Resolve(fs, [], p, links).Some? {
        ResolvePrefix(fs, [], Up(p), p[|p| - 1], links);
      }
    }
  }

  lemma RootInTree(fs: Files)
    requires TreeLike(fs)
    ensures IsDir(fs, [])
  {
  }

  /** A missing path below the base, spelled from the root. */
  lemma {:induction false} TrackMissingThrough(fs: Files, root: Path, base: Path, r: Path)
    requires Home(fs, root, base) && AllNames(r) && OnTrack(fs, base + r) && base + r !in fs
    ensures Stat(fs, root + r) == None
    decreases |r|
  {
    hide Resolve, ResolveForCreate, TreeLike, Leads, OnTrack;
    RootResolves(fs, root, base);
    BaseIsThere(fs, root, base, r);
    OnTrackUp(fs, base + r);
    NamesUp(r);
    var c := r[|r| - 1];
    assert Up(base + r) == base + Up(r) && root + r == root + Up(r) + [c];
    if base + Up(r) in fs {
      LastStep(fs, root, base, r, KERNEL_LINKS);
    } else {
      TrackMissingThrough(fs, root, base, Up(r));
      if Stat(fs, root + r).Some? {
        ResolvePrefix(fs, [], root + Up(r), c, KERNEL_LINKS);
      }
    }
  }

  lemma BaseIsThere(fs: Files, root: Path, base: Path, r: Path)
    requires Home(fs, root, base) && base + r !in fs
    ensures r != []
  {
    assert base + [] == base;
  }

  lemma {:induction false} MkdirAllThrough(fs: Files, root: Path, base: Path, r: Path)
    requires Home(fs, root, base) && AllNames(r) && OnTrack(fs, base + r) && (base + r in fs ==> fs[base + r].Dir?)
    ensures MkdirAll(fs, root + r) == Outcome(AllDirs(fs, base + r), true)
    ensures Home(AllDirs(fs, base + r), root, base) && IsDir(AllDirs(fs, base + r), base + r)
    decreases |r|
  {
    hide Resolve, ResolveForCreate, MkdirAll, TreeLike, Leads, OnTrack;
    RootResolves(fs, root, base);
    if base + r in fs {
      Through(fs, root, base, r, KERNEL_LINKS);
      MkdirAllThere(fs, root + r);
    } else {
      BaseIsThere(fs, root, base, r);
      OnTrackUp(fs, base + r);
      NamesUp(r);
      var c := r[|r| - 1];
      assert Up(base + r) == base + Up(r) && root + r == root + Up(r) + [c] && base + r == base + Up(r) + [c];
      MkdirAllThrough(fs, root, base, Up(r));
      TrackMissingThrough(fs, root, base, r);
      var fs1 := AllDirs(fs, base + Up(r));
      AllDirsAt(fs, base + Up(r), base + r);
      assert |base + r| > |base + Up(r)|;
      RootResolves(fs1, root, base);
      Through(fs1, root, base, Up(r), KERNEL_LINKS);
      MkdirOne(fs1, root + Up(r), base + Up(r), c);
      MkdirAllStep(fs, root + Up(r), c);
      PutKeepsTree(fs1, base + r, Dir);
      StillLeads(fs1, fs1[base + r := Dir], root, base);
    }
  }

  lemma {:induction false} MkdirAllReal(fs: Files, p: Path)
    requires TreeLike(fs) && AllNames(p) && OnTrack(fs, p) && (p in fs ==> fs[p].Dir?)
    ensures MkdirAll(fs, p) == Outcome(AllDirs(fs, p), true)
    decreases |p|
  {
    hide Resolve, ResolveForCreate, MkdirAll, TreeLike, OnTrack;
    RootInTree(fs);
    if p in fs {
      RealPath(fs, p, KERNEL_LINKS);
      MkdirAllThere(fs, p);
    } else {
      OnTrackUp(fs, p);
      NamesUp(p);
      MkdirAllReal(fs, Up(p));
      AllDirsTree(fs, Up(p));
      TrackMissing(fs, p, KERNEL_LINKS);
      var fs1 := AllDirs(fs, Up(p));
      AllDirsAt(fs, Up(p), p);
      RealPath(fs1, Up(p), KERNEL_LINKS);
      assert p == Up(p) + [p[|p| - 1]] && |p| > |Up(p)|;
      MkdirOne(fs1, Up(p), Up(p), p[|p| - 1]);
      MkdirAllStep(fs, Up(p), p[|p| - 1]);
    }
  }

  function Placed(fs: Files, at: Path, content: string): Files {
    AllDirs(fs, Up(at))[at := File(content)]
  }

  /** Both readers put a regular entry in place, making the directories it needs. */
  lemma RegularEntry(fs: Files, root: Path, base: Path, p: Path, content: string)
    requires Home(fs, root, base) && AllNames(p) && Carried(root, base, p)
    requires OnTrack(fs, base + p) && base + p !in fs
    ensures RestoreEntry(fs, root, Entry(Join(p), Regular, content)) == Outcome(Placed(fs, base + p, content), true)
    ensures p[0] == METADATA ==>
              MetadataEntry(fs, root, Entry(Join(p), Regular, content)) == Outcome(Placed(fs, base + p, content), true)
    ensures Home(Placed(fs, base + p, content), root, base)
  {
    hide Resolve, ResolveForCreate, MkdirAll, PathWithin, CleanParts, Join, TreeLike, Leads, WriteFile, OnTrack, AllDirs, Carried;
    var at := base + p;
    CarriedIsSomewhere(root, base, p);
    NameParts(p);
    NamesUp(p);
    HomeNames(fs, root, base);
    TrackMissing(fs, at, EVAL_LINKS);
    WithinRule(fs, root, base, p);
    OnTrackUp(fs, at);
    assert Up(at) == base + Up(p) && Up(root + p) == root + Up(p) && |at| > |Up(at)|;
    MkdirAllThrough(fs, root, base, Up(p));
    var fs1 := AllDirs(fs, Up(at));
    AllDirsAt(fs, Up(at), at);
    PutFile(fs1, root, base, p, content);
    PutKeepsHome(fs1, root, base, p, Plain(content));
  }

  lemma CarriedIsSomewhere(root: Path, base: Path, p: Path)
    requires Carried(root, base, p)
    ensures p != []
  {
  }

  lemma HomeNames(fs: Files, root: Path, base: Path)
    requires Home(fs, root, base)
    ensures AllNames(base) && IsDir(fs, base) && base != []
  {
    TreeNames(fs, base);
  }

  // ---- All extras, in any order ----

  datatype Meta = Meta(path: Path, content: string)

  /** The extras are distinct files below the metadata directory, none below another. */
  predicate GoodExtras(extras: seq<Extra>, metas: seq<Meta>) {
    && |extras| == |metas|
    && (forall i | 0 <= i < |extras| ::
          && SafeExtra(extras[i].name) && Clean(extras[i].name) == Join(metas[i].path)
          && metas[i].content == extras[i].content)
    && GoodMetas(metas)
  }

  predicate GoodMetas(metas: seq<Meta>) {
    && (forall i | 0 <= i < |metas| ::
          |metas[i].path| >= 2 && AllNames(metas[i].path) && metas[i].path[0] == METADATA)
    && (forall i, j | 0 <= i < |metas| && 0 <= j < |metas| && i != j :: !(metas[i].path <= metas[j].path))
  }

  /** Below the metadata directory stand exactly these files and the directories leading to them. */
  predicate Holds(fs: Files, base: Path, metas: seq<Meta>, q: Path) {
    base + [METADATA] <= q ==>
      var p := q[|base|..];
      && (q in fs <==> exists i | 0 <= i < |metas| :: p <= metas[i].path)
      && (forall i | 0 <= i < |metas| :: q in fs && p <= metas[i].path ==>
            fs[q] == if p == metas[i].path then File(metas[i].content) else Dir)
  }

  ghost predicate HoldsAll(fs: Files, base: Path, metas: seq<Meta>) {
    forall q: Path :: Holds(fs, base, metas, q)
  }

  function MetaEntries(metas: seq<Meta>): (es: seq<Entry>)
    ensures |es| == |metas|
    ensures forall i | 0 <= i < |metas| :: es[i] == Entry(Join(metas[i].path), Regular, metas[i].content)
  {
    seq(|metas|, i requires 0 <= i < |metas| => Entry(Join(metas[i].path), Regular, metas[i].content))
  }

  lemma NextMeta(fs: Files, root: Path, base: Path, metas: seq<Meta>, n: nat)
    requires Home(fs, root, base) && GoodMetas(metas) && n < |metas| && HoldsAll(fs, base, metas[..n])
    ensures var fs1 := Placed(fs, base + metas[n].path, metas[n].content);
            && Home(fs1, root, base)
            && RestoreEntry(fs, root, MetaEntries(metas)[n]) == Outcome(fs1, true)
            && MetadataEntry(fs, root, MetaEntries(metas)[n]) == Outcome(fs1, true)
  {
    hide RestoreEntry, MetadataEntry, TreeLike, Leads, Join;
    var p := metas[n].path;
    var at := base + p;
    HomeNames(fs, root, base);
    forall k | 0 <= k < |at| && at[..k] in fs ensures fs[at[..k]].Dir? {
      MetaTrack(fs, base, metas, n, k);
    }
    MetaMissing(fs, base, metas, n);
    MetadataIsCarried(root, base, p);
    RegularEntry(fs, root, base, p, metas[n].content);
  }

  lemma MetadataIsCarried(root: Path, base: Path, p: Path)
    requires p != [] && p[0] == METADATA
    ensures Carried(root, base, p)
  {
    assert METADATA[1] == 'd';
  }

  lemma MetaTrack(fs: Files, base: Path, metas: seq<Meta>, n: nat, k: nat)
    requires TreeLike(fs) && IsDir(fs, base) && GoodMetas(metas) && n < |metas| && HoldsAll(fs, base, metas[..n])
    requires k < |base + metas[n].path| && (base + metas[n].path)[..k] in fs
    ensures fs[(base + metas[n].path)[..k]].Dir?
  {
    hide TreeLike;
    var p := metas[n].path;
    var q := (base + p)[..k];
    if k <= |base| {
      assert q == base[..k];
      PrefixIsDir(fs, base, k);
    } else {
      assert q[|base|..] == p[..k - |base|];
      assert base + [METADATA] == q[..|base| + 1];
      assert Holds(fs, base, metas[..n], q);
      var i :| 0 <= i < n && q[|base|..] <= metas[..n][i].path;
      assert metas[..n][i] == metas[i];
      assert !(metas[i].path <= p);
      assert q[|base|..] <= p;
    }
  }

  lemma MetaMissing(fs: Files, base: Path, metas: seq<Meta>, n: nat)
    requires GoodMetas(metas) && n < |metas| && HoldsAll(fs, base, metas[..n])
    ensures base + metas[n].path !in fs
  {
    var p := metas[n].path;
    var q := base + p;
    assert q[|base|..] == p && base + [METADATA] == q[..|base| + 1];
    assert Holds(fs, base, metas[..n], q);
    assert forall i | 0 <= i < n :: metas[..n][i] == metas[i] && !(p <= metas[i].path);
  }

  lemma PlacedHolds(fs: Files, base: Path, metas: seq<Meta>, n: nat, q: Path)
    requires TreeLike(fs) && IsDir(fs, base) && GoodMetas(metas) && n < |metas| && HoldsAll(fs, base, metas[..n])
    ensures var fs1 := Placed(fs, base + metas[n].path, metas[n].content);
            && Holds(fs1, base, metas[..n + 1], q)
            && (!(base + [METADATA] <= q) ==> Unchanged(fs, fs1, q))
  {
    hide TreeLike, AllDirs;
    var m := metas[n].path;
    var at := base + m;
    var fs1 := Placed(fs, at, metas[n].content);
    assert base + [METADATA] == at[..|base| + 1];
    AllDirsAt(fs, Up(at), q);
    UpPrefix(at, q);
    MetaMissing(fs, base, metas, n);
    if base + [METADATA] <= q {
      var p := q[|base|..];
      assert Holds(fs, base, metas[..n], q);
      assert q <= at <==> p <= m by { PrefixBelow(base, q, m); }
      assert forall i | 0 <= i < n :: metas[..n + 1][i] == metas[..n][i] == metas[i];
      assert metas[..n + 1][n] == metas[n];
      if q in fs && p <= m {
        MetaTrackQ(fs, base, metas, n, q);
      }
    } else if q <= at {
      assert |q| <= |base|;
      assert q == at[..|q|] == base[..|q|];
      PrefixIsDir(fs, base, |q|);
    }
  }

  lemma MetaTrackQ(fs: Files, base: Path, metas: seq<Meta>, n: nat, q: Path)
    requires TreeLike(fs) && IsDir(fs, base) && GoodMetas(metas) && n < |metas| && HoldsAll(fs, base, metas[..n])
    requires q in fs && q <= base + metas[n].path
    ensures q != base + metas[n].path && fs[q].Dir?
  {
    MetaMissing(fs, base, metas, n);
    assert q == (base + metas[n].path)[..|q|];
    var at := base + metas[n].path;
    assert at[..|at|] == at;
    MetaTrack(fs, base, metas, n, |q|);
  }

  lemma UpPrefix(at: Path, q: Path)
    requires at != []
    ensures q <= Up(at) <==> q <= at && q != at
  {
    if q <= at && q != at {
      assert q == at[..|q|] == Up(at)[..|q|];
    }
    if q <= Up(at) {
      assert q == Up(at)[..|q|] == at[..|q|];
    }
  }

  lemma PrefixBelow(base: Path, q: Path, m: Path)
    requires base <= q
    ensures q <= base + m <==> q[|base|..] <= m
  {
    assert q == base + q[|base|..];
    if q <= base + m {
      assert q == (base + m)[..|q|];
      assert q[|base|..] == m[..|q| - |base|];
    }
  }

  lemma {:induction false} MetasRead(fs: Files, root: Path, base: Path, metas: seq<Meta>, n: nat, q: Path)
    requires Home(fs, root, base) && GoodMetas(metas) && n <= |metas| && HoldsAll(fs, base, metas[..n])
    ensures var done := RestoreAll(fs, root, MetaEntries(metas)[n..]);
            && done.ok && Home(done.fs, root, base)
            && Holds(done.fs, base, metas, q)
            && (!(base + [METADATA] <= q) ==> Unchanged(fs, done.fs, q))
    ensures MetadataAll(fs, root, MetaEntries(metas)[n..]) == RestoreAll(fs, root, MetaEntries(metas)[n..])
    decreases |metas| - n
  {
    hide RestoreEntry, MetadataEntry, Placed, Holds, TreeLike, Leads, GoodMetas;
    var es := MetaEntries(metas);
    if n == |metas| {
      assert es[n..] == [] && metas[..n] == metas;
    } else {
      var fs1 := Placed(fs, base + metas[n].path, metas[n].content);
      assert es[n..] == [es[n]] + es[n + 1..];
      NextMeta(fs, root, base, metas, n);
      HomeNames(fs, root, base);
      var done := metas[..n + 1];
      forall r: Path ensures Holds(fs1, base, done, r) {
        PlacedHolds(fs, base, metas, n, r);
      }
      PlacedHolds(fs, base, metas, n, q);
      MetasRead(fs1, root, base, metas, n + 1, q);
    }
  }

  /** Nothing is below the metadata directory yet. */
  lemma NothingHeld(fs: Files, base: Path, metas: seq<Meta>)
    requires forall q | q in fs :: !(base + [METADATA] <= q)
    ensures HoldsAll(fs, base, metas[..0])
  {
  }

  // ---- The metadata reader ----

  lemma ArchiveParts(t: Tree, extras: seq<Extra>, metas: seq<Meta>)
    requires GoodExtras(extras, metas)
    ensures Archive(t, extras) == Some(Walk([], t) + MetaEntries(metas))
  {
    hide Walk, Clean, Join, SafeExtra;
    assert ExtraEntries(extras) == MetaEntries(metas);
  }

  /** Everything below the metadata directory is excluded, and nothing but it starts like it. */
  lemma MetadataExcluded(p: Path)
    requires AllNames(p) && p != [] && p[0] == METADATA
    ensures Excluded(Join(p))
  {
    hide Excluded;
    assert Join([METADATA]) == METADATA;
    ExcludedName();
    ExcludedAllBelow([METADATA], p[1..]);
    assert [METADATA] + p[1..] == p;
  }

  lemma ExcludedName()
    ensures Excluded(Join([METADATA]))
  {
    assert Join([METADATA]) == METADATA;
  }

  lemma {:induction false} MetadataConcat(fs: Files, root: Path, a: seq<Entry>, b: seq<Entry>)
    ensures MetadataAll(fs, root, a + b) ==
            var first := MetadataAll(fs, root, a);
            if !first.ok then first else MetadataAll(first.fs, root, b)
    decreases a
  {
    hide MetadataEntry;
    if a == [] {
      assert a + b == b;
    } else {
      assert (a + b)[1..] == a[1..] + b;
      var first := MetadataEntry(fs, root, a[0]);
      if first.ok {
        MetadataConcat(first.fs, root, a[1..], b);
      }
    }
  }

  /** Entries of the saved tree are none of the metadata reader's business. */
  lemma {:induction false} WalkSkipped(fs: Files, root: Path, p: Path, t: Tree)
    requires GoodTree(t) && AllNames(p)
    ensures MetadataAll(fs, root, Walk(p, t)) == Outcome(fs, true)
    decreases t, 1
  {
    hide MetadataEntry, Excluded, Join, EntryFor;
    var own := if p == [] || Excluded(Join(p)) then [] else [EntryFor(p, t)];
    var below := if t.Folder? then WalkAll(p, t.names, t.nodes) else [];
    MetadataConcat(fs, root, own, below);
    if own != [] {
      EntrySkipped(fs, root, p, t);
      assert own[1..] == [];
    }
    if t.Folder? {
      GoodFolder(t);
      WalkAllSkipped(fs, root, p, t.names, t.nodes);
    }
  }

  lemma EntrySkipped(fs: Files, root: Path, p: Path, t: Tree)
    requires AllNames(p) && p != [] && !Excluded(Join(p))
    ensures MetadataEntry(fs, root, EntryFor(p, t)) == Outcome(fs, true)
  {
    hide Excluded, Join, CleanParts, PathWithin, MkdirAll, WriteFile;
    NameParts(p);
    if p[0] == METADATA {
      MetadataExcluded(p);
    }
  }

  lemma {:induction false} WalkAllSkipped(fs: Files, root: Path, p: Path, names: seq<string>, nodes: seq<Tree>)
    requires GoodList(names, nodes) && AllNames(p)
    ensures MetadataAll(fs, root, WalkAll(p, names, nodes)) == Outcome(fs, true)
    decreases nodes, 0
  {
    hide MetadataEntry, Walk, GoodTree;
    if names != [] && nodes != [] {
      MetadataConcat(fs, root, Walk(p + [names[0]], nodes[0]), WalkAll(p, names[1..], nodes[1..]));
      WalkSkipped(fs, root, p + [names[0]], nodes[0]);
      WalkAllSkipped(fs, root, p, names[1..], nodes[1..]);
    }
  }

  /** The metadata reader recovers exactly the extras, whatever order the map yielded them in, and
      creates nothing else. */
  lemma MetadataRecovered(t: Tree, extras: seq<Extra>, metas: seq<Meta>, fs: Files, root: Path, base: Path, q: Path)
    requires t.Folder? && GoodTree(t) && GoodExtras(extras, metas) && Home(fs, root, base)
    requires forall r | r in fs :: !(base + [METADATA] <= r)
    ensures Archive(t, extras).Some?
    ensures var done := MetadataAll(fs, root, Archive(t, extras).value);
            && done.ok
            && Holds(done.fs, base, metas, q)
            && (!(base + [METADATA] <= q) ==> Unchanged(fs, done.fs, q))
  {
    hide MetadataEntry, TreeLike, Leads, Excluded, Join, Walk, WalkAll, GoodTree, MetadataAll, Holds;
    ArchiveParts(t, extras, metas);
    WalkSkipped(fs, root, [], t);
    MetadataConcat(fs, root, Walk([], t), MetaEntries(metas));
    NothingHeld(fs, base, metas);
    assert MetaEntries(metas)[0..] == MetaEntries(metas);
    MetasRead(fs, root, base, metas, 0, q);
  }

  /** Two archives with the same extras in different orders: the metadata reader leaves the same files. */
  lemma OrderDoesNotMatter(t: Tree, extras: seq<Extra>, metas: seq<Meta>, shuffled: seq<Extra>, metas': seq<Meta>,
                           fs: Files, root: Path, base: Path, q: Path)
    requires t.Folder? && GoodTree(t) && Home(fs, root, base)
    requires forall r | r in fs :: !(base + [METADATA] <= r)
    requires GoodExtras(extras, metas) && GoodExtras(shuffled, metas') && multiset(extras) == multiset(shuffled)
    ensures Archive(t, extras).Some? && Archive(t, shuffled).Some?
    ensures var a := MetadataAll(fs, root, Archive(t, extras).value);
            var b := MetadataAll(fs, root, Archive(t, shuffled).value);
            a.ok && b.ok && Unchanged(a.fs, b.fs, q)
  {
    hide GoodExtras, GoodTree, MetadataAll, Archive, Holds, TreeLike, Leads;
    MetadataRecovered(t, extras, metas, fs, root, base, q);
    MetadataRecovered(t, shuffled, metas', fs, root, base, q);
    if base + [METADATA] <= q {
      SameMetas(extras, metas, shuffled, metas');
      SameMetas(shuffled, metas', extras, metas);
      HoldsAlike(MetadataAll(fs, root, Archive(t, extras).value).fs,
                 MetadataAll(fs, root, Archive(t, shuffled).value).fs, base, metas, metas', q);
    }
  }

  lemma SameMetas(extras: seq<Extra>, metas: seq<Meta>, shuffled: seq<Extra>, metas': seq<Meta>)
    requires GoodExtras(extras, metas) && GoodExtras(shuffled, metas') && multiset(extras) == multiset(shuffled)
    ensures GoodMetas(metas) && forall m | m in metas :: m in metas'
  {
    hide Clean, SafeExtra, Join;
    forall m | m in metas ensures m in metas' {
      var i :| 0 <= i < |metas| && metas[i] == m;
      assert extras[i] in multiset(shuffled);
      var j :| 0 <= j < |shuffled| && shuffled[j] == extras[i];
      NameParts(metas[i].path);
      NameParts(metas'[j].path);
      assert metas'[j] == m;
    }
  }

  lemma HoldsAlike(a: Files, b: Files, base: Path, metas: seq<Meta>, metas': seq<Meta>, q: Path)
    requires base + [METADATA] <= q && Holds(a, base, metas, q) && Holds(b, base, metas', q)
    requires (forall m | m in metas :: m in metas') && (forall m | m in metas' :: m in metas)
    ensures Unchanged(a, b, q)
  {
    var p := q[|base|..];
    if q in a {
      var i :| 0 <= i < |metas| && p <= metas[i].path;
      assert metas[i] in metas';
      var j :| 0 <= j < |metas'| && metas'[j] == metas[i];
    }
    if q in b {
      var j :| 0 <= j < |metas'| && p <= metas'[j].path;
      assert metas'[j] in metas;
      var i :| 0 <= i < |metas| && metas[i] == metas'[j];
    }
  }
}
